/** The widget's labels for what the energy-stats engine produces. */
module PaidPriceInsightsProofs {
  import opened Wrappers
  import opened Rates
  import opened EnergyStats
  import opened PaidPriceInsights

  /** For a consistent result the final dash is never shown: a missing
      average means nothing was priced, so one of the two messages
      applies. */
  lemma ConsistentNeverDash(r: WindowResult)
    requires Consistent(r)
    ensures FormatWindowValue(Some(WindowOf(r))) != Dash
    ensures FormatWindowValue(Some(WindowOf(r))) == NoUsage <==> r.totalKwhMeasured == 0.0
    ensures FormatWindowValue(Some(WindowOf(r))) == NoPricedData <==>
      (r.totalKwhMeasured > 0.0 && r.totalKwhPriced == 0.0)
  {
  }

  /** Every window the engine computes gets a price or an explanation. */
  lemma EngineWindowLabelled(rates: seq<Rate>, readingsByChannel: seq<seq<Reading>>, startMs: int, endMs: int)
    ensures FormatWindowValue(Some(WindowOf(ComputeWindowResult(rates, readingsByChannel, startMs, endMs)))) != Dash
  {
    ConsistentNeverDash(ComputeWindowResult(rates, readingsByChannel, startMs, endMs));
  }

  /** Without the engine's invariant the dash is reachable: no average,
      yet energy both measured and priced. */
  lemma DashNeedsInconsistentWindow()
    ensures FormatWindowValue(Some(PaidPriceWindow(None, 1.0, 2.0))) == Dash
  {
  }
}
