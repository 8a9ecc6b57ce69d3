/** The string check_assets returns (telegram_alert_bot.py, last line of
    check_assets): the triggered tickers joined by ", ", or a sentinel when
    nothing triggered. */
module Summary {
  import Tickers

  /** Returned when no alert fired. */
  const Sentinel: string := "Sem alertas"

  const Separator: string := ", "

  predicate StartsWith(s: string, prefix: string) {
    |prefix| <= |s| && s[..|prefix|] == prefix
  }

  predicate NoComma(items: seq<string>) {
    forall i :: 0 <= i < |items| ==> ',' !in items[i]
  }

  /** `", ".join(items)`: the items in order with a separator between
      neighbours. */
  function Join(items: seq<string>): (r: string)
    ensures |items| > 0 ==> StartsWith(r, items[0]) && Tickers.EndsWith(r, items[|items| - 1])
    // for comma-free items, a comma appears exactly when there is a separator
    ensures NoComma(items) ==> (',' in r <==> |items| >= 2)
  {
    if |items| == 0 then ""
    else if |items| == 1 then items[0]
    else
      var rest := Join(items[1..]);
      var r := items[0] + Separator + rest;
      assert r[|items[0]|] == ',';
      assert r[|r| - |rest|..] == rest;
      r
  }

  /** Inverse of Join for items without a comma: cut the text at every
      separator. */
  function Split(s: string): (parts: seq<string>)
    ensures |parts| >= 1
    decreases |s|
  {
    if |s| >= 2 && s[..2] == Separator then
      [""] + Split(s[2..])
    else if |s| == 0 then
      [""]
    else
      var rest := Split(s[1..]);
      [[s[0]] + rest[0]] + rest[1..]
  }

  /** The value check_assets returns. */
  function Summarise(triggered: seq<string>): (s: string)
    ensures |triggered| == 0 ==> s == Sentinel
    // otherwise it lists the triggered tickers from the first to the last
    ensures |triggered| > 0 ==>
              StartsWith(s, triggered[0]) && Tickers.EndsWith(s, triggered[|triggered| - 1])
    ensures |triggered| >= 2 && NoComma(triggered) ==> ',' in s
  {
    if |triggered| > 0 then Join(triggered) else Sentinel
  }

  /** Reads a summary back into the list of triggered tickers. */
  function Parse(summary: string): seq<string> {
    if summary == Sentinel then [] else Split(summary)
  }

  lemma {:induction false} SplitNoSeparator(item: string)
    requires ',' !in item
    ensures Split(item) == [item]
    decreases |item|
  {
    if |item| > 0 {
      assert item[0] != ',';
      SplitNoSeparator(item[1..]);
      assert [item[0]] + item[1..] == item;
    }
  }

  lemma {:induction false} SplitAfterItem(item: string, rest: string)
    requires ',' !in item
    ensures Split(item + Separator + rest) == [item] + Split(rest)
    decreases |item|
  {
    var s := item + Separator + rest;
    if |item| == 0 {
      assert s == Separator + rest;
      assert s[2..] == rest;
    } else {
      assert s[0] == item[0] && item[0] != ',';
      assert s[1..] == item[1..] + Separator + rest;
      SplitAfterItem(item[1..], rest);
      assert [item[0]] + item[1..] == item;
    }
  }

  /** Joining comma-free items and splitting the result gives the items back. */
  lemma {:induction false} SplitJoin(items: seq<string>)
    requires |items| >= 1
    requires NoComma(items)
    ensures Split(Join(items)) == items
    decreases |items|
  {
    if |items| == 1 {
      SplitNoSeparator(items[0]);
    } else {
      SplitAfterItem(items[0], Join(items[1..]));
      SplitJoin(items[1..]);
      assert [items[0]] + items[1..] == items;
    }
  }

  lemma ValidHasNoComma(ticker: string)
    requires Tickers.Valid(ticker)
    ensures ',' !in ticker
    ensures ticker != Sentinel
  {
    if |ticker| == |Sentinel| {
      assert Tickers.IsTickerChar(ticker[1]);
      assert Sentinel[1] == 'e';
    }
  }

  /** The summary of valid tickers is never empty, is the sentinel exactly
      when nothing triggered, and lists the triggered tickers in order. */
  lemma {:induction false} SummaryRoundTrip(triggered: seq<string>)
    requires forall i :: 0 <= i < |triggered| ==> Tickers.Valid(triggered[i])
    ensures |Summarise(triggered)| > 0
    ensures Summarise(triggered) == Sentinel <==> |triggered| == 0
    ensures Parse(Summarise(triggered)) == triggered
  {
    if |triggered| > 0 {
      forall i | 0 <= i < |triggered|
        ensures ',' !in triggered[i]
      {
        ValidHasNoComma(triggered[i]);
      }
      var s := Summarise(triggered);
      if |triggered| == 1 {
        ValidHasNoComma(triggered[0]);
        assert |s| > 0;
      } else {
        assert ',' !in Sentinel;
        assert |s| > |triggered[0]|;
      }
      SplitJoin(triggered);
    }
  }
}
