/** Price fetching with a primary and a fallback quote provider
    (telegram_alert_bot.py, get_price). The providers themselves are HTTP
    calls; here each is an abstract function from the ticker it is queried
    with to an optional price. */
module Pricing {
  import opened Wrappers
  import Tickers

  datatype Source = Primary | Fallback

  datatype Quote = Quote(price: real, source: Source)

  /** The two quote providers. The fallback is queried with the normalised
      (region-suffixed) ticker. */
  datatype Providers = Providers(primary: string -> Option<real>, fallback: string -> Option<real>)

  /** The error get_price raises when no provider has a price. */
  datatype PriceError = PriceUnavailable(ticker: string)

  /** Truthiness of a provider answer in `a or b`: a missing price and a
      price of zero are both falsy. */
  predicate Truthy(answer: Option<real>) {
    answer.Some? && answer.value != 0.0
  }

  /** Python's `first or second` on two optional prices: the first when it
      is truthy, the second otherwise. */
  function Or(first: Option<real>, second: Option<real>): (r: Option<real>)
    ensures r == first || r == second
    // a truthy first answer short-circuits
    ensures Truthy(first) ==> r == first
    ensures Truthy(r) <==> Truthy(first) || Truthy(second)
    // the combination is missing exactly when the first is falsy and the second is missing
    ensures r.None? <==> !Truthy(first) && second.None?
  {
    if Truthy(first) then first else second
  }

  function GetPrice(ticker: string, providers: Providers): (r: Result<Quote, PriceError>)
    // a truthy primary answer wins and the fallback is never used
    ensures Truthy(providers.primary(ticker)) ==>
              r == Success(Quote(providers.primary(ticker).value, Primary))
    // the fallback is used exactly when the primary answer is falsy
    ensures r.Success? ==> (r.value.source == Fallback <==> !Truthy(providers.primary(ticker)))
    ensures r.Success? && r.value.source == Fallback ==>
              providers.fallback(Tickers.Normalise(ticker)) == Some(r.value.price)
    // failure exactly when neither provider has a usable price
    ensures r.Failure? <==>
              !Truthy(providers.primary(ticker)) && providers.fallback(Tickers.Normalise(ticker)).None?
    ensures r.Failure? ==> r.error == PriceUnavailable(ticker)
  {
    var first := providers.primary(ticker);
    match Or(first, providers.fallback(Tickers.Normalise(ticker)))
    case None => Failure(PriceUnavailable(ticker))
    case Some(p) => Success(Quote(p, if Truthy(first) then Primary else Fallback))
  }

  /** Two provider pairs look the same for a ticker when they give the same
      primary answer for it and the same fallback answer for its normalised
      form. */
  predicate AgreeAt(ticker: string, p: Providers, q: Providers) {
    p.primary(ticker) == q.primary(ticker) &&
    p.fallback(Tickers.Normalise(ticker)) == q.fallback(Tickers.Normalise(ticker))
  }

  /** The price of a ticker depends only on what the providers say about
      that ticker: the primary at the bare ticker, the fallback at its
      suffixed form. */
  lemma GetPriceLocal(ticker: string, p: Providers, q: Providers)
    requires AgreeAt(ticker, p, q)
    ensures GetPrice(ticker, p) == GetPrice(ticker, q)
  {
  }

  /** When the primary answers, whatever the fallback would say is irrelevant. */
  lemma FallbackIrrelevant(ticker: string, p: Providers, q: Providers)
    requires p.primary(ticker) == q.primary(ticker)
    requires Truthy(p.primary(ticker))
    ensures GetPrice(ticker, p) == GetPrice(ticker, q)
    ensures GetPrice(ticker, p).Success? && GetPrice(ticker, p).value.source == Primary
  {
  }
}
