/** The run loop of check_assets (telegram_alert_bot.py): walk the asset
    table in insertion order, evaluate each asset with its own exception
    handler, send one alert per firing asset, collect the firing tickers and
    summarise them. Sending an alert is modelled as appending its event to a
    trace; the chat message and the HTTP post are not modelled.

    The reference definitions of the run take the per-asset evaluation as a
    parameter: what the loop collects depends only on each asset's outcome,
    not on how the outcome was reached. `Evaluator(providers)` is the
    evaluation check_assets performs. */
module Run {
  import Tickers
  import Pricing
  import Alerts
  import Summary

  /** An evaluation of single assets. */
  type Evaluation = Alerts.Asset -> Alerts.Outcome

  /** The evaluation one iteration of check_assets performs. */
  function Evaluator(providers: Pricing.Providers): Evaluation {
    a => Alerts.Evaluate(a, providers)
  }

  /** What one iteration appends to the triggered list. */
  function Contribution(a: Alerts.Asset, eval: Evaluation): seq<string> {
    if eval(a).Alert? then [a.ticker] else []
  }

  /** Some asset of the table with this ticker fired. */
  predicate FiredIn(assets: seq<Alerts.Asset>, eval: Evaluation, ticker: string) {
    exists i :: 0 <= i < |assets| && assets[i].ticker == ticker && eval(assets[i]).Alert?
  }

  /** Reference definition of the triggered list: the contributions of the
      assets, in table order. */
  function Triggered(assets: seq<Alerts.Asset>, eval: Evaluation): (r: seq<string>)
    ensures |r| <= |assets|
    // every listed ticker belongs to an asset of the table that fired
    ensures forall k :: 0 <= k < |r| ==> FiredIn(assets, eval, r[k])
    decreases |assets|
  {
    if |assets| == 0 then []
    else
      var n := |assets| - 1;
      var front := Triggered(assets[..n], eval);
      assert forall k :: 0 <= k < |front| ==> FiredIn(assets, eval, front[k]) by {
        forall k | 0 <= k < |front|
          ensures FiredIn(assets, eval, front[k])
        {
          var i :| 0 <= i < n && assets[..n][i].ticker == front[k] && eval(assets[..n][i]).Alert?;
          assert assets[..n][i] == assets[i];
        }
      }
      front + Contribution(assets[n], eval)
  }

  /** An alert of this evaluation names the asset it was raised for. */
  predicate ReportsOwnTicker(eval: Evaluation, a: Alerts.Asset) {
    eval(a).Alert? ==> eval(a).event.ticker == a.ticker
  }

  /** Every alert on the table names the asset it was raised for. */
  predicate OwnTickers(assets: seq<Alerts.Asset>, eval: Evaluation) {
    forall i :: 0 <= i < |assets| ==> ReportsOwnTicker(eval, assets[i])
  }

  /** The evaluation of check_assets always reports the asset's ticker. */
  lemma EvaluatorReportsOwnTicker(providers: Pricing.Providers, assets: seq<Alerts.Asset>)
    ensures OwnTickers(assets, Evaluator(providers))
  {
  }

  /** Reference definition of the alert trace: the event of every firing
      asset, in table order. */
  function SentAlerts(assets: seq<Alerts.Asset>, eval: Evaluation): (r: seq<Alerts.AlertEvent>)
    // one alert per triggered ticker, in the same order
    ensures |r| == |Triggered(assets, eval)|
    ensures OwnTickers(assets, eval) ==>
              forall k :: 0 <= k < |r| ==> r[k].ticker == Triggered(assets, eval)[k]
    decreases |assets|
  {
    if |assets| == 0 then []
    else
      var n := |assets| - 1;
      assert forall i :: 0 <= i < n ==> assets[..n][i] == assets[i];
      var last := eval(assets[n]);
      SentAlerts(assets[..n], eval) + (if last.Alert? then [last.event] else [])
  }

  /** One loop iteration extends both reference definitions by the
      contribution of the next asset. */
  lemma RunStep(assets: seq<Alerts.Asset>, i: nat, eval: Evaluation)
    requires i < |assets|
    ensures eval(assets[i]).Alert? ==>
              && Triggered(assets[..i + 1], eval) == Triggered(assets[..i], eval) + [assets[i].ticker]
              && SentAlerts(assets[..i + 1], eval) == SentAlerts(assets[..i], eval) + [eval(assets[i]).event]
    ensures !eval(assets[i]).Alert? ==>
              && Triggered(assets[..i + 1], eval) == Triggered(assets[..i], eval)
              && SentAlerts(assets[..i + 1], eval) == SentAlerts(assets[..i], eval)
  {
    assert assets[..i + 1][..i] == assets[..i];
  }

  /** Positions of the firing assets in the table, in increasing order. */
  function FiringIndices(assets: seq<Alerts.Asset>, eval: Evaluation): seq<nat>
    decreases |assets|
  {
    if |assets| == 0 then []
    else
      var n := |assets| - 1;
      FiringIndices(assets[..n], eval) + (if eval(assets[n]).Alert? then [n] else [])
  }

  predicate ValidTickers(assets: seq<Alerts.Asset>) {
    forall i :: 0 <= i < |assets| ==> Tickers.Valid(assets[i].ticker)
  }

  predicate DistinctTickers(assets: seq<Alerts.Asset>) {
    forall i, j :: 0 <= i < j < |assets| ==> assets[i].ticker != assets[j].ticker
  }

  predicate NoDuplicates(items: seq<string>) {
    forall k, l :: 0 <= k < l < |items| ==> items[k] != items[l]
  }

  /** Every position is a position of the table whose asset fired. */
  predicate AllFire(assets: seq<Alerts.Asset>, eval: Evaluation, idx: seq<nat>) {
    forall k :: 0 <= k < |idx| ==> idx[k] < |assets| && eval(assets[idx[k]]).Alert?
  }

  predicate Increasing(idx: seq<nat>) {
    forall k, l :: 0 <= k < l < |idx| ==> idx[k] < idx[l]
  }

  /** Every firing asset of the table has its position listed. */
  predicate CoversFiring(assets: seq<Alerts.Asset>, eval: Evaluation, idx: seq<nat>) {
    forall i :: 0 <= i < |assets| && eval(assets[i]).Alert? ==> i in idx
  }

  /** The firing positions are in range, strictly increasing, and hold
      every firing asset and nothing else. */
  lemma {:induction false} FiringIndicesExact(assets: seq<Alerts.Asset>, eval: Evaluation)
    ensures AllFire(assets, eval, FiringIndices(assets, eval))
    ensures Increasing(FiringIndices(assets, eval))
    ensures CoversFiring(assets, eval, FiringIndices(assets, eval))
    decreases |assets|
  {
    if |assets| > 0 {
      var n := |assets| - 1;
      var front := assets[..n];
      FiringIndicesExact(front, eval);
      var idx0 := FiringIndices(front, eval);
      var idx := idx0 + if eval(assets[n]).Alert? then [n] else [];
      assert FiringIndices(assets, eval) == idx;
      assert AllFire(front, eval, idx0);
      forall k | 0 <= k < |idx|
        ensures idx[k] < |assets| && eval(assets[idx[k]]).Alert?
      {
        if k < |idx0| {
          assert idx0[k] < n && eval(front[idx0[k]]).Alert?;
          assert front[idx0[k]] == assets[idx0[k]];
        }
      }
      assert Increasing(idx0);
      forall k, l | 0 <= k < l < |idx|
        ensures idx[k] < idx[l]
      {
        if l == |idx0| {
          assert idx[k] == idx0[k] < n;
        }
      }
      assert CoversFiring(front, eval, idx0);
      forall i | 0 <= i < |assets| && eval(assets[i]).Alert?
        ensures i in idx
      {
        if i < n {
          assert front[i] == assets[i];
        }
      }
    }
  }

  lemma {:induction false} TriggeredAlongIndices(assets: seq<Alerts.Asset>, eval: Evaluation)
    ensures var idx := FiringIndices(assets, eval);
            var t := Triggered(assets, eval);
            && |idx| == |t|
            && forall k :: 0 <= k < |idx| ==> idx[k] < |assets| && t[k] == assets[idx[k]].ticker
    decreases |assets|
  {
    if |assets| > 0 {
      var n := |assets| - 1;
      var front := assets[..n];
      TriggeredAlongIndices(front, eval);
      var idx0, t0 := FiringIndices(front, eval), Triggered(front, eval);
      var fires := eval(assets[n]).Alert?;
      var idx := idx0 + if fires then [n] else [];
      var t := t0 + if fires then [assets[n].ticker] else [];
      assert FiringIndices(assets, eval) == idx;
      assert Triggered(assets, eval) == t;
      forall k | 0 <= k < |idx|
        ensures idx[k] < |assets| && t[k] == assets[idx[k]].ticker
      {
        if k < |idx0| {
          assert idx0[k] < |front|;
          assert front[idx0[k]] == assets[idx0[k]];
        }
      }
    }
  }

  lemma {:induction false} SentAlongIndices(assets: seq<Alerts.Asset>, eval: Evaluation)
    ensures var idx := FiringIndices(assets, eval);
            var s := SentAlerts(assets, eval);
            && |idx| == |s|
            && forall k :: 0 <= k < |idx| ==>
                 && idx[k] < |assets|
                 && eval(assets[idx[k]]).Alert?
                 && s[k] == eval(assets[idx[k]]).event
    decreases |assets|
  {
    if |assets| > 0 {
      var n := |assets| - 1;
      var front := assets[..n];
      SentAlongIndices(front, eval);
      var idx0, s0 := FiringIndices(front, eval), SentAlerts(front, eval);
      var last := eval(assets[n]);
      var idx := idx0 + if last.Alert? then [n] else [];
      var s := s0 + if last.Alert? then [last.event] else [];
      assert FiringIndices(assets, eval) == idx;
      assert SentAlerts(assets, eval) == s;
      forall k | 0 <= k < |idx|
        ensures idx[k] < |assets| && eval(assets[idx[k]]).Alert? && s[k] == eval(assets[idx[k]]).event
      {
        if k < |idx0| {
          assert idx0[k] < |front|;
          assert front[idx0[k]] == assets[idx0[k]];
        }
      }
    }
  }

  /** The triggered list and the alert trace are exactly the firing assets,
      taken in table order: a strictly increasing choice of positions that
      contains every firing asset and nothing else. */
  lemma TriggeredIsFiringSubsequence(assets: seq<Alerts.Asset>, eval: Evaluation)
    ensures var idx := FiringIndices(assets, eval);
            var t := Triggered(assets, eval);
            var s := SentAlerts(assets, eval);
            && |idx| == |t| == |s|
            && (forall k :: 0 <= k < |idx| ==>
                  && idx[k] < |assets|
                  && eval(assets[idx[k]]).Alert?
                  && t[k] == assets[idx[k]].ticker
                  && s[k] == eval(assets[idx[k]]).event)
            && (forall k, l :: 0 <= k < l < |idx| ==> idx[k] < idx[l])
            && (forall i :: 0 <= i < |assets| && eval(assets[i]).Alert? ==> i in idx)
  {
    FiringIndicesExact(assets, eval);
    TriggeredAlongIndices(assets, eval);
    SentAlongIndices(assets, eval);
  }

  /** A ticker is in the triggered list exactly when some asset with that
      ticker fired. */
  lemma TriggeredMembership(assets: seq<Alerts.Asset>, eval: Evaluation, ticker: string)
    ensures ticker in Triggered(assets, eval) <==> FiredIn(assets, eval, ticker)
  {
    TriggeredIsFiringSubsequence(assets, eval);
    var idx := FiringIndices(assets, eval);
    var t := Triggered(assets, eval);
    if FiredIn(assets, eval, ticker) {
      var i :| 0 <= i < |assets| && assets[i].ticker == ticker && eval(assets[i]).Alert?;
      assert i in idx;
      var k :| 0 <= k < |idx| && idx[k] == i;
      assert t[k] == ticker;
    }
  }

  /** With distinct tickers in the table, no ticker is triggered or alerted
      twice in one run. */
  lemma TriggeredDistinct(assets: seq<Alerts.Asset>, eval: Evaluation)
    requires DistinctTickers(assets)
    ensures NoDuplicates(Triggered(assets, eval))
    ensures OwnTickers(assets, eval) ==>
              var sent := SentAlerts(assets, eval);
              forall k, l :: 0 <= k < l < |sent| ==> sent[k].ticker != sent[l].ticker
  {
    TriggeredAlongIndices(assets, eval);
    FiringIndicesExact(assets, eval);
  }

  /** Triggered tickers come from the table, so they are valid when the
      table's tickers are. */
  lemma TriggeredValid(assets: seq<Alerts.Asset>, eval: Evaluation)
    requires ValidTickers(assets)
    ensures forall k :: 0 <= k < |Triggered(assets, eval)| ==> Tickers.Valid(Triggered(assets, eval)[k])
  {
    TriggeredIsFiringSubsequence(assets, eval);
  }

  /** The run over a concatenated table is the run over each part, in order. */
  lemma {:induction false} TriggeredAppend(front: seq<Alerts.Asset>, back: seq<Alerts.Asset>, eval: Evaluation)
    ensures Triggered(front + back, eval) == Triggered(front, eval) + Triggered(back, eval)
    decreases |back|
  {
    if |back| == 0 {
      assert front + back == front;
    } else {
      var n := |back| - 1;
      assert (front + back)[..|front + back| - 1] == front + back[..n];
      TriggeredAppend(front, back[..n], eval);
    }
  }

  lemma TriggeredSingle(a: Alerts.Asset, eval: Evaluation)
    ensures Triggered([a], eval) == Contribution(a, eval)
  {
    assert [a][..0] == [];
  }

  /** An asset whose evaluation fails (no price, or a zero trigger) adds
      nothing: the run is as if it were absent from the table. */
  lemma FailedAssetContributesNothing(front: seq<Alerts.Asset>, a: Alerts.Asset, back: seq<Alerts.Asset>,
                                      eval: Evaluation)
    requires eval(a).Failed?
    ensures Triggered(front + [a] + back, eval) == Triggered(front + back, eval)
  {
    TriggeredAppend(front + [a], back, eval);
    TriggeredAppend(front, [a], eval);
    TriggeredAppend(front, back, eval);
    TriggeredSingle(a, eval);
  }

  /** Two evaluations that agree on every asset of the table give the same
      triggered list. */
  lemma {:induction false} TriggeredCongruent(assets: seq<Alerts.Asset>, e1: Evaluation, e2: Evaluation)
    requires forall i :: 0 <= i < |assets| ==> e1(assets[i]) == e2(assets[i])
    ensures Triggered(assets, e1) == Triggered(assets, e2)
    decreases |assets|
  {
    if |assets| > 0 {
      var n := |assets| - 1;
      assert forall i :: 0 <= i < n ==> assets[..n][i] == assets[i];
      TriggeredCongruent(assets[..n], e1, e2);
    }
  }

  /** Two evaluations agree on every asset of the table but the j-th. */
  predicate AgreeExcept(assets: seq<Alerts.Asset>, j: nat, e1: Evaluation, e2: Evaluation) {
    forall i :: 0 <= i < |assets| && i != j ==> e1(assets[i]) == e2(assets[i])
  }

  /** Two evaluations that agree on every asset but the j-th give the same
      triggered lists before and after it. */
  lemma TriggeredCongruentAround(assets: seq<Alerts.Asset>, j: nat, e1: Evaluation, e2: Evaluation)
    requires j < |assets|
    requires AgreeExcept(assets, j, e1, e2)
    ensures Triggered(assets[..j], e1) == Triggered(assets[..j], e2)
    ensures Triggered(assets[j + 1..], e1) == Triggered(assets[j + 1..], e2)
  {
    var front, back := assets[..j], assets[j + 1..];
    assert forall i :: 0 <= i < |front| ==> front[i] == assets[i];
    assert forall i :: 0 <= i < |back| ==> back[i] == assets[j + 1 + i];
    TriggeredCongruent(front, e1, e2);
    TriggeredCongruent(back, e1, e2);
  }

  /** Changing the evaluation of one asset changes only that asset's
      contribution to the triggered list. */
  lemma TriggeredAround(assets: seq<Alerts.Asset>, j: nat, e1: Evaluation, e2: Evaluation)
    requires j < |assets|
    requires AgreeExcept(assets, j, e1, e2)
    ensures Triggered(assets, e2) ==
            Triggered(assets[..j], e1) + Contribution(assets[j], e2) + Triggered(assets[j + 1..], e1)
  {
    var front, back := assets[..j], assets[j + 1..];
    assert assets == front + [assets[j]] + back;
    TriggeredAppend(front + [assets[j]], back, e2);
    TriggeredAppend(front, [assets[j]], e2);
    TriggeredSingle(assets[j], e2);
    TriggeredCongruentAround(assets, j, e1, e2);
  }

  /** Providers that agree on every ticker of a table but one yield
      evaluations that agree on every other asset. */
  lemma EvaluatorsAgreeExcept(assets: seq<Alerts.Asset>, j: nat, p: Pricing.Providers, q: Pricing.Providers)
    requires forall i :: 0 <= i < |assets| && i != j ==> Pricing.AgreeAt(assets[i].ticker, p, q)
    ensures AgreeExcept(assets, j, Evaluator(p), Evaluator(q))
  {
    forall i | 0 <= i < |assets| && i != j
      ensures Evaluator(p)(assets[i]) == Evaluator(q)(assets[i])
    {
      Alerts.EvaluateLocal(assets[i], p, q);
    }
  }

  /** Whatever the providers say about one asset changes only that asset's
      contribution; every other asset is evaluated as before. */
  lemma OnlyOwnQuotesMatter(assets: seq<Alerts.Asset>, j: nat, p: Pricing.Providers, q: Pricing.Providers)
    requires j < |assets|
    requires forall i :: 0 <= i < |assets| && i != j ==> Pricing.AgreeAt(assets[i].ticker, p, q)
    ensures Triggered(assets, Evaluator(q)) ==
            Triggered(assets[..j], Evaluator(p)) + Contribution(assets[j], Evaluator(q)) +
            Triggered(assets[j + 1..], Evaluator(p))
  {
    EvaluatorsAgreeExcept(assets, j, p, q);
    TriggeredAround(assets, j, Evaluator(p), Evaluator(q));
  }

  /** What a finished run reports: one alert per triggered ticker in the
      same order, and a summary of valid tickers that is never empty, is the
      sentinel exactly when nothing fired, and reads back as the list. */
  lemma RunReport(assets: seq<Alerts.Asset>, providers: Pricing.Providers)
    ensures var t := Triggered(assets, Evaluator(providers));
            var s := SentAlerts(assets, Evaluator(providers));
            && |s| == |t|
            && (forall k :: 0 <= k < |s| ==> s[k].ticker == t[k])
            && (ValidTickers(assets) ==>
                  && |Summary.Summarise(t)| > 0
                  && (Summary.Summarise(t) == Summary.Sentinel <==> |t| == 0)
                  && Summary.Parse(Summary.Summarise(t)) == t)
  {
    EvaluatorReportsOwnTicker(providers, assets);
    if ValidTickers(assets) {
      TriggeredValid(assets, Evaluator(providers));
      Summary.SummaryRoundTrip(Triggered(assets, Evaluator(providers)));
    }
  }

  /** check_assets: one pass over the table. Each iteration evaluates its
      asset on its own; a failure skips the asset and the loop continues. */
  method CheckAssets(assets: seq<Alerts.Asset>, providers: Pricing.Providers)
    returns (triggered: seq<string>, sent: seq<Alerts.AlertEvent>, summary: string)
    ensures triggered == Triggered(assets, Evaluator(providers))
    ensures sent == SentAlerts(assets, Evaluator(providers))
    // one alert per triggered ticker, in the same order
    ensures |sent| == |triggered|
    ensures forall k :: 0 <= k < |sent| ==> sent[k].ticker == triggered[k]
    ensures summary == Summary.Summarise(triggered)
    ensures ValidTickers(assets) ==>
              && |summary| > 0
              && (summary == Summary.Sentinel <==> |triggered| == 0)
              && Summary.Parse(summary) == triggered
  {
    var eval := Evaluator(providers);
    triggered, sent := [], [];
    for i := 0 to |assets|
      invariant triggered == Triggered(assets[..i], eval)
      invariant sent == SentAlerts(assets[..i], eval)
    {
      RunStep(assets, i, eval);
      var outcome := eval(assets[i]);
      match outcome {
        case Alert(event) =>
          sent := sent + [event];
          triggered := triggered + [assets[i].ticker];
        case Quiet(_, _, _) =>
        case Failed(_) =>
      }
    }
    assert assets[..|assets|] == assets;
    summary := Summary.Summarise(triggered);
    RunReport(assets, providers);
  }
}
