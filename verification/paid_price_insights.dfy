/** The dashboard's label for one paid-price window
    (src/components/dashboard/PaidPriceInsights.tsx). The price itself is
    kept exact; its two-decimal rendering is presentation. */
module PaidPriceInsights {
  import opened Wrappers
  import opened EnergyStats

  /** One window of the `/api/energy-stats` response as the widget reads it. */
  datatype PaidPriceWindow = PaidPriceWindow(avgPaidPpkwh: Option<real>, totalKwhPriced: real, totalKwhMeasured: real)

  /** What the widget shows. */
  datatype WindowLabel = Dash | PencePerKwh(price: real) | NoUsage | NoPricedData

  /** `formatWindowValue`: a missing window shows a dash; a reported
      average shows as a price whatever the totals; without one, no
      measured energy reads "No usage" and no priced energy "No priced
      data"; anything else falls back to a dash. */
  function FormatWindowValue(w: Option<PaidPriceWindow>): (l: WindowLabel)
    ensures w.None? ==> l == Dash
    ensures w.Some? && w.value.avgPaidPpkwh.Some? ==> l == PencePerKwh(w.value.avgPaidPpkwh.value)
    ensures l.PencePerKwh? <==> w.Some? && w.value.avgPaidPpkwh.Some?
    ensures l == NoUsage <==> w.Some? && w.value.avgPaidPpkwh.None? && w.value.totalKwhMeasured <= 0.0
    ensures l == NoPricedData <==>
      (w.Some? && w.value.avgPaidPpkwh.None? && w.value.totalKwhMeasured > 0.0 && w.value.totalKwhPriced <= 0.0)
  {
    match w
    case None => Dash
    case Some(win) =>
      if win.avgPaidPpkwh.Some? then PencePerKwh(win.avgPaidPpkwh.value)
      else if win.totalKwhMeasured <= 0.0 then NoUsage
      else if win.totalKwhPriced <= 0.0 then NoPricedData
      else Dash
  }

  /** The fields of an engine result that the widget reads. */
  function WindowOf(r: WindowResult): PaidPriceWindow {
    PaidPriceWindow(r.avgPaidPpkwh, r.totalKwhPriced, r.totalKwhMeasured)
  }
}
