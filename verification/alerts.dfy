/** Per-asset alert evaluation (telegram_alert_bot.py, body of the
    check_assets loop): fetch the price, compute the trigger price and the
    gap, and decide whether a buy alert fires. Prices are `real`: the model
    states the threshold logic, not floating-point rounding. */
module Alerts {
  import opened Wrappers
  import Pricing

  /** One row of the asset table: ticker, fair value, margin of safety. */
  datatype Asset = Asset(ticker: string, fairValue: real, mos: real)

  /** What one fired alert reports; the chat message is formatted from it. */
  datatype AlertEvent = AlertEvent(ticker: string, price: real, trigger: real, gap: real, mos: real)

  /** The two exceptions the per-ticker handler catches: the ValueError of
      get_price and the ZeroDivisionError of the gap computation. */
  datatype CheckError = Unpriced(ticker: string) | ZeroTrigger(ticker: string)

  datatype Outcome =
    | Failed(error: CheckError)
    | Quiet(price: real, trigger: real, gap: real)
    | Alert(event: AlertEvent)

  predicate WellFormed(a: Asset) {
    a.fairValue > 0.0 && 0.0 <= a.mos < 1.0
  }

  /** Fair value discounted by the margin of safety. */
  function Trigger(fairValue: real, mos: real): (t: real)
    // for a sensible asset the trigger is a positive discount of the fair value
    ensures fairValue > 0.0 && 0.0 <= mos < 1.0 ==> 0.0 < t <= fairValue
    // the margin of safety is the share of the fair value the trigger gives up
    ensures fairValue - t == mos * fairValue
  {
    fairValue * (1.0 - mos)
  }

  /** The margin of safety can be read back from the trigger price: it is
      the trigger's relative discount from the fair value. */
  lemma MarginFromTrigger(fairValue: real, mos: real)
    requires fairValue != 0.0
    ensures mos == 1.0 - Trigger(fairValue, mos) / fairValue
  {
    Cancel(Trigger(fairValue, mos), fairValue, 1.0 - mos);
  }

  /** Dividing a product by one of its non-zero factors leaves the other. */
  lemma Cancel(product: real, y: real, x: real)
    requires y != 0.0 && product == y * x
    ensures product / y == x
  {
    var d := product / y;
    assert y * d == y * x;
    assert y * (d - x) == 0.0;
  }

  /** A larger margin of safety never raises the trigger price. */
  lemma TriggerAntitone(fairValue: real, mos1: real, mos2: real)
    requires fairValue >= 0.0
    requires mos1 <= mos2
    ensures Trigger(fairValue, mos2) <= Trigger(fairValue, mos1)
  {
    assert Trigger(fairValue, mos1) - Trigger(fairValue, mos2) == fairValue * (mos2 - mos1);
  }

  /** Percentage by which the price lies below the trigger price.
      check_assets divides by the trigger; Evaluate turns a zero trigger into
      the caught division error before calling this. */
  function Gap(trigger: real, price: real): (g: real)
    requires trigger != 0.0
    // the gap is the relative distance: the price is the trigger reduced by g percent
    ensures trigger * (1.0 - g / 100.0) == price
    ensures g == 0.0 <==> price == trigger
    ensures trigger > 0.0 ==> (g >= 0.0 <==> price <= trigger)
  {
    (trigger - price) / trigger * 100.0
  }

  /** One iteration of the run loop, with the exception it may raise folded
      into the outcome. */
  function Evaluate(a: Asset, providers: Pricing.Providers): (o: Outcome)
    ensures var quote := Pricing.GetPrice(a.ticker, providers);
            var trigger := Trigger(a.fairValue, a.mos);
            // an alert fires exactly when a price is available, the gap is
            // computable and the price is at or below the trigger
            && (o.Alert? <==> quote.Success? && trigger != 0.0 && quote.value.price <= trigger)
            // the ticker fails exactly when get_price raises or the trigger is zero
            && (o.Failed? <==> quote.Failure? || trigger == 0.0)
            && (o.Failed? && quote.Failure? ==> o.error == Unpriced(a.ticker))
            && (o.Failed? && quote.Success? ==> o.error == ZeroTrigger(a.ticker))
            // both non-failing outcomes report the fetched price, the trigger and the gap between them
            && (o.Alert? ==> o.event.ticker == a.ticker && o.event.mos == a.mos &&
                             o.event.trigger == trigger && o.event.price == quote.value.price &&
                             o.event.gap == Gap(trigger, quote.value.price))
            && (o.Quiet? ==> quote.Success? && trigger != 0.0 &&
                             o.price == quote.value.price && o.trigger == trigger &&
                             o.gap == Gap(trigger, quote.value.price))
            // for a positive trigger the reported gap is non-negative exactly on an alert
            && (o.Alert? && trigger > 0.0 ==> o.event.gap >= 0.0)
            && (o.Quiet? && trigger > 0.0 ==> o.gap < 0.0)
  {
    match Pricing.GetPrice(a.ticker, providers)
    case Failure(_) => Failed(Unpriced(a.ticker))
    case Success(quote) =>
      var trigger := Trigger(a.fairValue, a.mos);
      if trigger == 0.0 then
        Failed(ZeroTrigger(a.ticker))
      else
        var gap := Gap(trigger, quote.price);
        if quote.price <= trigger then
          Alert(AlertEvent(a.ticker, quote.price, trigger, gap, a.mos))
        else
          Quiet(quote.price, trigger, gap)
  }

  /** A well-formed asset never reaches the division error: it either has no
      price or is compared against a positive trigger. */
  lemma WellFormedNeverZeroTrigger(a: Asset, providers: Pricing.Providers)
    requires WellFormed(a)
    ensures Evaluate(a, providers).Failed? ==> Evaluate(a, providers).error == Unpriced(a.ticker)
    ensures Evaluate(a, providers).Failed? <==> Pricing.GetPrice(a.ticker, providers).Failure?
  {
  }

  /** The outcome of an asset depends only on what the providers say about
      its own ticker. */
  lemma EvaluateLocal(a: Asset, p: Pricing.Providers, q: Pricing.Providers)
    requires Pricing.AgreeAt(a.ticker, p, q)
    ensures Evaluate(a, p) == Evaluate(a, q)
  {
    Pricing.GetPriceLocal(a.ticker, p, q);
  }

  /** Worked example: fair value 20.00, margin 20% gives a trigger of 16.00;
      a price of 15.50 fires with a gap of 3.125%, a price of 16.50 does not. */
  lemma WorkedExample()
    ensures Trigger(20.0, 0.2) == 16.0
    ensures 15.5 <= Trigger(20.0, 0.2) && Gap(16.0, 15.5) == 3.125
    ensures !(16.5 <= Trigger(20.0, 0.2)) && Gap(16.0, 16.5) < 0.0
  {
  }
}
