/** The static asset table ASSETS of telegram_alert_bot.py: ticker, fair
    value and margin of safety, in the order the run loop visits them. */
module Assets {
  import Tickers
  import Pricing
  import Alerts
  import Summary
  import Run

  const Configured: seq<Alerts.Asset> := [
    Alerts.Asset("BBAS3", 20.60, 0.20),
    Alerts.Asset("BRSR6", 8.00, 0.20),
    Alerts.Asset("BRAP4", 19.00, 0.20),
    Alerts.Asset("ITSA4", 10.60, 0.20),
    Alerts.Asset("BBSE3", 47.06, 0.20),
    Alerts.Asset("CSMG3", 22.50, 0.20),
    Alerts.Asset("SAPR11", 23.30, 0.15),
    Alerts.Asset("LEVE3", 33.50, 0.20),
    Alerts.Asset("CMIG4", 10.26, 0.20),
    Alerts.Asset("CPLE6", 7.10, 0.20),
    Alerts.Asset("TAEE11", 26.50, 0.15),
    Alerts.Asset("ISAE4", 30.6, 0.20),
    Alerts.Asset("VIVT3", 18.40, 0.20),
    Alerts.Asset("ALZR11", 12.00, 0.15),
    Alerts.Asset("HGLG11", 186.00, 0.15),
    Alerts.Asset("IRDM11", 91.50, 0.15),
    Alerts.Asset("HGCR11", 118.00, 0.15),
    Alerts.Asset("KNCR11", 133.00, 0.15),
    Alerts.Asset("XPML11", 145.0, 0.15)
  ]

  /** Proof device for ConfiguredDistinct: the row of a configured ticker,
      or -1. Showing that it inverts the table is much cheaper for the
      verifier than comparing all pairs of tickers. */
  function RowOf(ticker: string): int {
    if ticker == "BBAS3" then 0
    else if ticker == "BRSR6" then 1
    else if ticker == "BRAP4" then 2
    else if ticker == "ITSA4" then 3
    else if ticker == "BBSE3" then 4
    else if ticker == "CSMG3" then 5
    else if ticker == "SAPR11" then 6
    else if ticker == "LEVE3" then 7
    else if ticker == "CMIG4" then 8
    else if ticker == "CPLE6" then 9
    else if ticker == "TAEE11" then 10
    else if ticker == "ISAE4" then 11
    else if ticker == "VIVT3" then 12
    else if ticker == "ALZR11" then 13
    else if ticker == "HGLG11" then 14
    else if ticker == "IRDM11" then 15
    else if ticker == "HGCR11" then 16
    else if ticker == "KNCR11" then 17
    else if ticker == "XPML11" then 18
    else -1
  }

  /** Every configured asset has a positive fair value and a margin of
      safety of 15% or 20%. */
  lemma ConfiguredWellFormed()
    ensures |Configured| == 19
    ensures forall i :: 0 <= i < |Configured| ==> Alerts.WellFormed(Configured[i])
    ensures forall i :: 0 <= i < |Configured| ==> Configured[i].mos == 0.15 || Configured[i].mos == 0.20
  {
  }

  /** Every configured ticker is a bare B3 symbol (no region suffix). */
  lemma ConfiguredTickersValid()
    ensures Run.ValidTickers(Configured)
  {
  }

  /** Looking up the ticker of a row gives that row back. */
  lemma RowOfInvertsTable()
    ensures forall i :: 0 <= i < |Configured| ==> RowOf(Configured[i].ticker) == i
  {
  }

  /** The tickers are the keys of a dictionary: no ticker appears twice. */
  lemma ConfiguredDistinct()
    ensures Run.DistinctTickers(Configured)
  {
    RowOfInvertsTable();
  }

  /** A run over the configured table: a ticker fails only for lack of a
      price (never by division), no ticker is triggered or alerted twice,
      and the summary is never empty, is the sentinel exactly when nothing
      fired, and reads back as the triggered tickers. */
  lemma ConfiguredRun(providers: Pricing.Providers)
    ensures forall i :: 0 <= i < |Configured| && Alerts.Evaluate(Configured[i], providers).Failed? ==>
              Alerts.Evaluate(Configured[i], providers).error == Alerts.Unpriced(Configured[i].ticker)
    ensures var eval := Run.Evaluator(providers);
            var triggered := Run.Triggered(Configured, eval);
            var sent := Run.SentAlerts(Configured, eval);
            var summary := Summary.Summarise(triggered);
            && Run.NoDuplicates(triggered)
            && (forall k, l :: 0 <= k < l < |sent| ==> sent[k].ticker != sent[l].ticker)
            && |summary| > 0
            && (summary == Summary.Sentinel <==> |triggered| == 0)
            && Summary.Parse(summary) == triggered
  {
    var table := Configured;
    var eval := Run.Evaluator(providers);
    ConfiguredWellFormed();
    forall i | 0 <= i < |table|
      ensures Alerts.Evaluate(table[i], providers).Failed? ==>
              Alerts.Evaluate(table[i], providers).error == Alerts.Unpriced(table[i].ticker)
    {
      Alerts.WellFormedNeverZeroTrigger(table[i], providers);
    }
    ConfiguredTickersValid();
    ConfiguredDistinct();
    Run.EvaluatorReportsOwnTicker(providers, table);
    Run.TriggeredDistinct(table, eval);
    Run.RunReport(table, providers);
  }
}
