/** B3 ticker symbols and the region suffix the fallback quote provider
    expects (telegram_alert_bot.py, get_price_yahoo). */
module Tickers {

  /** Suffix that marks a ticker as listed on the Sao Paulo exchange. */
  const RegionSuffix: string := ".SA"

  predicate EndsWith(s: string, suffix: string) {
    |suffix| <= |s| && s[|s| - |suffix|..] == suffix
  }

  /** A bare B3 symbol: non-empty, upper-case letters and digits only. */
  predicate IsTickerChar(c: char) {
    ('A' <= c <= 'Z') || ('0' <= c <= '9')
  }

  predicate Valid(ticker: string) {
    |ticker| > 0 && forall i :: 0 <= i < |ticker| ==> IsTickerChar(ticker[i])
  }

  /** The ticker as the fallback provider is queried with it: the region
      suffix is appended unless it is already there. */
  function Normalise(ticker: string): (tk: string)
    ensures EndsWith(tk, RegionSuffix)
    ensures |ticker| <= |tk| && tk[..|ticker|] == ticker
    ensures tk == ticker <==> EndsWith(ticker, RegionSuffix)
    ensures tk == ticker || tk == ticker + RegionSuffix
  {
    if EndsWith(ticker, RegionSuffix) then ticker else ticker + RegionSuffix
  }

  /** Normalising twice is the same as normalising once. */
  lemma NormaliseIdempotent(ticker: string)
    ensures Normalise(Normalise(ticker)) == Normalise(ticker)
  {
  }

  /** A bare symbol never carries the suffix, so it is always extended by
      exactly the suffix, and the bare symbol is what precedes it. */
  lemma NormaliseValid(ticker: string)
    requires Valid(ticker)
    ensures Normalise(ticker) == ticker + RegionSuffix
    ensures Normalise(ticker)[..|Normalise(ticker)| - |RegionSuffix|] == ticker
  {
    if |RegionSuffix| <= |ticker| {
      var tail := ticker[|ticker| - |RegionSuffix|..];
      assert tail[0] == ticker[|ticker| - |RegionSuffix|];
      assert IsTickerChar(tail[0]);
      assert tail != RegionSuffix;
    }
  }
}
