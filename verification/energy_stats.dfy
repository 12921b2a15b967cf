/** The tariff-reconciliation engine of the energy-stats endpoint: loading
    and normalising the paginated tariff rates, then computing, for one
    query window, the energy measured by the heaters' cumulative counters,
    the part of it covered by a rate, its cost and the kWh-weighted average
    price paid. Instants are UTC milliseconds; energies and prices are exact
    reals. The endpoint's final rounding is not modelled, although the
    widget's choice of message reads the rounded totals. */
module EnergyStats {
  import opened Wrappers
  import opened Seqs
  import opened Rates

  function Max(a: int, b: int): int { if a >= b then a else b }
  function Min(a: int, b: int): int { if a <= b then a else b }

  /** Two half-open intervals [aStart, aEnd) and [bStart, bEnd) overlap. */
  function Overlaps(aStart: int, aEnd: int, bStart: int, bEnd: int): bool {
    aStart < bEnd && aEnd > bStart
  }

  /** `t` lies in the half-open interval [lo, hi). */
  predicate InSpan(t: int, lo: int, hi: int) {
    lo <= t < hi
  }

  /** Length of the intersection of two half-open intervals. */
  function OverlapLen(aStart: int, aEnd: int, bStart: int, bEnd: int): (n: nat)
    ensures n > 0 ==> Overlaps(aStart, aEnd, bStart, bEnd)
    ensures aStart < aEnd && bStart < bEnd ==> (n > 0 <==> Overlaps(aStart, aEnd, bStart, bEnd))
    ensures n > 0 ==> n <= aEnd - aStart && n <= bEnd - bStart
  {
    if Min(aEnd, bEnd) > Max(aStart, bStart) then Min(aEnd, bEnd) - Max(aStart, bStart) else 0
  }

  // -----------------------------------------------------------------------
  // Rate interval loader

  /** One record of the rate source: its unit price and its bounds as parsed
      by `new Date(...).getTime()`, `None` standing for a non-finite result. */
  datatype RawRate = RawRate(valueIncVat: real, validFrom: Option<int>, validTo: Option<int>)

  /** One response of the pagination walk: a non-OK status, or a body whose
      `results` may be missing (`None`). The walk follows `next` links, so the
      sequence of pages is the sequence of responses in fetch order. */
  datatype RatePage = NotOk | Page(results: Option<seq<RawRate>>)

  datatype LoadError = RateSourceUnavailable

  /** A record is kept iff both bounds parse and the interval is non-empty. */
  function ToInterval(raw: RawRate): (r: Option<Rate>)
    ensures r.Some? <==> raw.validFrom.Some? && raw.validTo.Some? && raw.validFrom.value < raw.validTo.value
    ensures r.Some? ==> r.value == Rate(raw.valueIncVat, raw.validFrom.value, raw.validTo.value)
  {
    match (raw.validFrom, raw.validTo)
    case (Some(fromMs), Some(toMs)) =>
      if toMs > fromMs then Some(Rate(raw.valueIncVat, fromMs, toMs)) else None
    case _ => None
  }

  /** The kept records of one page, in page order. */
  function KeepValid(raws: seq<RawRate>): (r: seq<Rate>)
    ensures |r| <= |raws|
    ensures forall k :: 0 <= k < |r| ==> r[k].validFrom < r[k].validTo
    ensures forall j :: 0 <= j < |raws| && ToInterval(raws[j]).Some? ==> ToInterval(raws[j]).value in r
    ensures forall k :: 0 <= k < |r| ==> exists j :: 0 <= j < |raws| && ToInterval(raws[j]) == Some(r[k])
    decreases |raws|
  {
    if |raws| == 0 then []
    else
      var rest := KeepValid(raws[1..]);
      assert forall k :: 0 <= k < |rest| ==> exists j :: 0 <= j < |raws| && ToInterval(raws[j]) == Some(rest[k]) by {
        forall k | 0 <= k < |rest| ensures exists j :: 0 <= j < |raws| && ToInterval(raws[j]) == Some(rest[k]) {
          var j :| 0 <= j < |raws[1..]| && ToInterval(raws[1..][j]) == Some(rest[k]);
          assert raws[j + 1] == raws[1..][j];
        }
      }
      match ToInterval(raws[0])
      case Some(rate) =>
        var r := [rate] + rest;
        assert forall k :: 1 <= k < |r| ==> r[k] == rest[k - 1];
        r
      case None => rest
  }

  /** Each record with a usable interval is kept as often as it occurs on
      the page, and nothing else is kept. */
  lemma {:induction false} KeepValidCounts(raws: seq<RawRate>)
    ensures forall x :: multiset(KeepValid(raws))[x] == CountBy(raws, (w: RawRate) => ToInterval(w) == Some(x))
    decreases |raws|
  {
    if |raws| > 0 {
      KeepValidCounts(raws[1..]);
      forall x ensures multiset(KeepValid(raws))[x] == CountBy(raws, (w: RawRate) => ToInterval(w) == Some(x)) {
        var p := (w: RawRate) => ToInterval(w) == Some(x);
        assert CountBy(raws, p) == (if p(raws[0]) then 1 else 0) + CountBy(raws[1..], p);
      }
    }
  }

  /** The pages' kept records in fetch order, or a failure as soon as one
      page is not OK (no partial result escapes). */
  function Accumulate(pages: seq<RatePage>, acc: seq<Rate>): (r: Result<seq<Rate>, LoadError>)
    ensures r.Failure? <==> exists i :: 0 <= i < |pages| && pages[i].NotOk?
    decreases |pages|
  {
    if |pages| == 0 then Success(acc)
    else
      match pages[0]
      case NotOk => Failure(RateSourceUnavailable)
      case Page(results) =>
        var r := Accumulate(pages[1..], acc + KeepValid(results.GetOr([])));
        assert forall i :: 1 <= i < |pages| ==> pages[i] == pages[1..][i - 1];
        r
  }

  /** All kept records of all pages, in fetch order (the success value of
      `Accumulate`). */
  function KeptRecords(pages: seq<RatePage>): seq<Rate>
    decreases |pages|
  {
    if |pages| == 0 then []
    else
      match pages[0]
      case NotOk => KeptRecords(pages[1..])
      case Page(results) => KeepValid(results.GetOr([])) + KeptRecords(pages[1..])
  }

  lemma {:induction false} AccumulateCollects(pages: seq<RatePage>, acc: seq<Rate>)
    requires forall i :: 0 <= i < |pages| ==> pages[i].Page?
    ensures Accumulate(pages, acc) == Success(acc + KeptRecords(pages))
    decreases |pages|
  {
    if |pages| == 0 {
      assert acc + [] == acc;
    } else {
      var results := pages[0].results;
      var kept := KeepValid(results.GetOr([]));
      assert forall i :: 0 <= i < |pages[1..]| ==> pages[1..][i] == pages[i + 1];
      AccumulateCollects(pages[1..], acc + kept);
      assert acc + kept + KeptRecords(pages[1..]) == acc + (kept + KeptRecords(pages[1..]));
    }
  }

  /** `fetchRates`: the kept records of every page, sorted ascending by
      validFrom, or `RateSourceUnavailable` when any page is not OK. */
  function LoadRates(pages: seq<RatePage>): (r: Result<seq<Rate>, LoadError>)
    ensures r.Failure? <==> exists i :: 0 <= i < |pages| && pages[i].NotOk?
    ensures r.Success? ==> SortedBy(r.value, StartOf)
    ensures r.Success? ==> multiset(r.value) == multiset(KeptRecords(pages))
  {
    var collected := Accumulate(pages, []);
    if collected.Failure? then Failure(collected.error)
    else
      AccumulateCollects(pages, []);
      assert [] + KeptRecords(pages) == KeptRecords(pages);
      Success(SortBy(collected.value, StartOf))
  }

  // -----------------------------------------------------------------------
  // Consumption reconciliation

  /** A stored reading: its timestamp as parsed (`None` when not finite) and
      the cumulative counter in Wh. */
  datatype Reading = Reading(createdAt: Option<int>, energyTotalWh: real)

  /** A consecutive reading pair clipped to the query window: the clipped
      span [start, end) and the energy attributed to it. */
  datatype Segment = Segment(start: int, end: int, kwh: real) {
    /** `clippedDurationMs` */
    function Duration(): real {
      (end - start) as real
    }
  }

  /** Running sums of the window computation. */
  datatype Totals = Totals(costPence: real, kwhPriced: real, kwhMeasured: real) {
    function Plus(other: Totals): Totals {
      Totals(costPence + other.costPence, kwhPriced + other.kwhPriced, kwhMeasured + other.kwhMeasured)
    }
  }

  const Zero := Totals(0.0, 0.0, 0.0)

  /** The conditions under which a reading pair contributes: both
      timestamps parse, time strictly increases, the pair's span meets the
      window, and the counter rose. */
  ghost predicate PairContributes(prev: Reading, curr: Reading, startMs: int, endMs: int) {
    && prev.createdAt.Some? && curr.createdAt.Some?
    && prev.createdAt.value < curr.createdAt.value
    && startMs < endMs
    && Overlaps(prev.createdAt.value, curr.createdAt.value, startMs, endMs)
    && curr.energyTotalWh - prev.energyTotalWh > 0.0
  }

  /** One iteration of the inner loop of `computeWindowResult` up to the
      accumulation into the measured total: `None` where the loop
      `continue`s. The clipped energy is the pair's delta scaled by the
      fraction of the pair's duration that falls inside the window. */
  function ClipPair(prev: Reading, curr: Reading, startMs: int, endMs: int): (r: Option<Segment>)
    ensures r.Some? <==> PairContributes(prev, curr, startMs, endMs)
    ensures r.Some? ==>
      var p := prev.createdAt.value;
      var c := curr.createdAt.value;
      && r.value.start == Max(p, startMs) && r.value.end == Min(c, endMs)
      && p <= r.value.start < r.value.end <= c
      && startMs <= r.value.start && r.value.end <= endMs
    ensures r.Some? ==>
      var deltaKwh := (curr.energyTotalWh - prev.energyTotalWh) / 1000.0;
      var p := prev.createdAt.value;
      var c := curr.createdAt.value;
      && 0.0 < r.value.kwh <= deltaKwh
      && r.value.kwh == Portion(deltaKwh, (r.value.end - r.value.start) as real, (c - p) as real)
  {
    if prev.createdAt.None? || curr.createdAt.None? then None
    else
      var previousMs := prev.createdAt.value;
      var currentMs := curr.createdAt.value;
      if currentMs <= previousMs then None
      else
        var segmentStart := Max(previousMs, startMs);
        var segmentEnd := Min(currentMs, endMs);
        if segmentEnd <= segmentStart then None
        else
          var deltaWh := curr.energyTotalWh - prev.energyTotalWh;
          if deltaWh <= 0.0 then None
          else
            var full := (currentMs - previousMs) as real;
            var clipped := (segmentEnd - segmentStart) as real;
            var clippedDeltaKwh := Portion(deltaWh / 1000.0, clipped, full);
            PortionBounds(deltaWh / 1000.0, clipped, full);
            if clippedDeltaKwh <= 0.0 then None
            else Some(Segment(segmentStart, segmentEnd, clippedDeltaKwh))
  }

  /** `total` scaled by the fraction `part / whole`: how the source spreads
      a quantity over a time span in proportion to a sub-span. */
  function Portion(total: real, part: real, whole: real): (p: real)
    requires whole > 0.0
    ensures p * whole == total * part
  {
    var q := total * (part / whole);
    DivMul(part, whole);
    assert q * whole == total * ((part / whole) * whole);
    q
  }

  lemma DivMul(x: real, y: real)
    requires y != 0.0
    ensures (x / y) * y == x
  {
  }

  /** A portion of a positive total over a positive part no longer than
      the whole lies in (0, total]; over an empty part it is zero. */
  lemma PortionBounds(total: real, part: real, whole: real)
    requires whole > 0.0 && total >= 0.0 && 0.0 <= part <= whole
    ensures 0.0 <= Portion(total, part, whole) <= total
    ensures total > 0.0 && part > 0.0 ==> Portion(total, part, whole) > 0.0
    ensures part == 0.0 ==> Portion(total, part, whole) == 0.0
  {
    var f := part / whole;
    assert 0.0 <= f <= 1.0;
    assert total * f <= total * 1.0;
  }

  /** Portions of one total over the same whole add up. */
  lemma PortionAdd(total: real, a: real, b: real, whole: real)
    requires whole > 0.0
    ensures Portion(total, a, whole) + Portion(total, b, whole) == Portion(total, a + b, whole)
  {
    var pa, pb, pab := Portion(total, a, whole), Portion(total, b, whole), Portion(total, a + b, whole);
    assert (pa + pb) * whole == pa * whole + pb * whole;
    assert total * (a + b) == total * a + total * b;
    assert (pa + pb) * whole == pab * whole;
  }

  /** `PortionAdd` for a sum given by name. */
  lemma PortionSplit(total: real, a: real, b: real, sum: real, whole: real)
    requires whole > 0.0 && sum == a + b
    ensures Portion(total, sum, whole) == Portion(total, a, whole) + Portion(total, b, whole)
  {
    PortionAdd(total, a, b, whole);
  }

  /** The share of a clipped segment priced under one rate: energy in
      proportion to the overlap time, and that energy times the price. */
  function ShareOf(seg: Segment, rate: Rate): (t: Totals)
    requires seg.start < seg.end && seg.kwh > 0.0
    ensures t.kwhMeasured == 0.0
    ensures t.costPence == t.kwhPriced * rate.price
    ensures t.kwhPriced
         == Portion(seg.kwh, OverlapLen(seg.start, seg.end, rate.validFrom, rate.validTo) as real, seg.Duration())
    ensures t.kwhPriced > 0.0 <==> OverlapLen(seg.start, seg.end, rate.validFrom, rate.validTo) > 0
    ensures 0.0 <= t.kwhPriced <= seg.kwh
  {
    var overlapStart := Max(seg.start, rate.validFrom);
    var overlapEnd := Min(seg.end, rate.validTo);
    PortionBounds(seg.kwh, 0.0, seg.Duration());
    if overlapEnd <= overlapStart then Zero
    else
      var overlapKwh := Portion(seg.kwh, (overlapEnd - overlapStart) as real, seg.Duration());
      PortionBounds(seg.kwh, (overlapEnd - overlapStart) as real, seg.Duration());
      Totals(overlapKwh * rate.price, overlapKwh, 0.0)
  }

  /** Total overlap time of [start, end) with each of `rates`, counted
      once per rate. */
  function SumOverlap(start: int, end: int, rates: seq<Rate>): nat
    decreases |rates|
  {
    if |rates| == 0 then 0
    else OverlapLen(start, end, rates[0].validFrom, rates[0].validTo) + SumOverlap(start, end, rates[1..])
  }

  /** The inner loop over the window's rates for one clipped segment. The
      energy priced is the segment's energy scaled by the total overlap time
      over the segment's duration. */
  function PriceSegment(seg: Segment, rates: seq<Rate>): (t: Totals)
    requires seg.start < seg.end && seg.kwh > 0.0
    ensures t.kwhMeasured == 0.0
    ensures t.kwhPriced >= 0.0
    decreases |rates|
  {
    if |rates| == 0 then Zero
    else ShareOf(seg, rates[0]).Plus(PriceSegment(seg, rates[1..]))
  }

  /** The energy priced for a segment is its energy times the fraction of
      its duration covered by the rates, each rate counted separately. */
  lemma PricedProportionalToOverlap(seg: Segment, rates: seq<Rate>)
    requires seg.start < seg.end && seg.kwh > 0.0
    ensures PriceSegment(seg, rates).kwhPriced
         == Portion(seg.kwh, SumOverlap(seg.start, seg.end, rates) as real, seg.Duration())
  {
    PricedIsSumOfPortions(seg, rates);
    SumOfPortionsIsPortion(seg, rates);
  }

  /** The portions of the segment's energy over each rate's overlap. */
  function SumOfPortions(seg: Segment, rates: seq<Rate>): real
    requires seg.start < seg.end
    decreases |rates|
  {
    if |rates| == 0 then 0.0
    else Portion(seg.kwh, OverlapLen(seg.start, seg.end, rates[0].validFrom, rates[0].validTo) as real, seg.Duration())
         + SumOfPortions(seg, rates[1..])
  }

  /** The inner loop prices each rate's portion. */
  lemma {:induction false} PricedIsSumOfPortions(seg: Segment, rates: seq<Rate>)
    requires seg.start < seg.end && seg.kwh > 0.0
    ensures PriceSegment(seg, rates).kwhPriced == SumOfPortions(seg, rates)
    decreases |rates|
  {
    if |rates| > 0 {
      PricedIsSumOfPortions(seg, rates[1..]);
    }
  }

  /** The portions over each overlap add up to the portion over their sum. */
  lemma {:induction false} SumOfPortionsIsPortion(seg: Segment, rates: seq<Rate>)
    requires seg.start < seg.end
    ensures SumOfPortions(seg, rates)
         == Portion(seg.kwh, SumOverlap(seg.start, seg.end, rates) as real, seg.Duration())
    decreases |rates|
  {
    if |rates| == 0 {
      assert 0.0 * seg.Duration() == seg.kwh * 0.0;
    } else {
      SumOfPortionsIsPortion(seg, rates[1..]);
      var o := OverlapLen(seg.start, seg.end, rates[0].validFrom, rates[0].validTo);
      var rest := SumOverlap(seg.start, seg.end, rates[1..]);
      PortionSplit(seg.kwh, o as real, rest as real, SumOverlap(seg.start, seg.end, rates) as real, seg.Duration());
    }
  }

  /** The contribution of one reading pair: its clipped energy to the
      measured total and its per-rate shares to the priced total and cost. */
  function PairTotals(prev: Reading, curr: Reading, windowRates: seq<Rate>, startMs: int, endMs: int): (t: Totals)
    ensures t.kwhMeasured >= 0.0 && t.kwhPriced >= 0.0
    ensures t.kwhMeasured == 0.0 ==> t == Zero
    ensures t.kwhMeasured > 0.0 <==> PairContributes(prev, curr, startMs, endMs)
  {
    match ClipPair(prev, curr, startMs, endMs)
    case None => Zero
    case Some(seg) => Totals(0.0, 0.0, seg.kwh).Plus(PriceSegment(seg, windowRates))
  }

  /** The walk over one channel's consecutive reading pairs. */
  function ChannelTotals(readings: seq<Reading>, windowRates: seq<Rate>, startMs: int, endMs: int): (t: Totals)
    ensures t.kwhMeasured >= 0.0 && t.kwhPriced >= 0.0
    ensures t.kwhMeasured == 0.0 ==> t.kwhPriced == 0.0
    decreases |readings|
  {
    if |readings| < 2 then Zero
    else PairTotals(readings[0], readings[1], windowRates, startMs, endMs)
           .Plus(ChannelTotals(readings[1..], windowRates, startMs, endMs))
  }

  /** The walk over every channel. */
  function AllChannels(readingsByChannel: seq<seq<Reading>>, windowRates: seq<Rate>, startMs: int, endMs: int): (t: Totals)
    ensures t.kwhMeasured >= 0.0 && t.kwhPriced >= 0.0
    ensures t.kwhMeasured == 0.0 ==> t.kwhPriced == 0.0
    decreases |readingsByChannel|
  {
    if |readingsByChannel| == 0 then Zero
    else ChannelTotals(readingsByChannel[0], windowRates, startMs, endMs)
           .Plus(AllChannels(readingsByChannel[1..], windowRates, startMs, endMs))
  }

  /** The rate filter `overlaps(rate.fromMs, rate.toMs, startMs, endMs)`. */
  function InWindow(startMs: int, endMs: int): Rate -> bool {
    (rate: Rate) => Overlaps(rate.validFrom, rate.validTo, startMs, endMs)
  }

  /** The rates that contribute to a window. */
  function WindowRates(rates: seq<Rate>, startMs: int, endMs: int): seq<Rate> {
    Filter(rates, InWindow(startMs, endMs))
  }

  /** The result of one window, before rounding. `avgPaidPpkwh` is `None`
      where the endpoint reports `null`. */
  datatype WindowResult = WindowResult(
    avgPaidPpkwh: Option<real>,
    totalKwhPriced: real,
    totalKwhMeasured: real,
    totalCostGbp: real,
    coverageRatio: real)

  /** `totalKwhPriced > 0 ? totalCostPence / totalKwhPriced : null` */
  function AveragePrice(costPence: real, kwhPriced: real): (avg: Option<real>)
    ensures avg.None? <==> kwhPriced <= 0.0
    ensures avg.Some? ==> avg.value * kwhPriced == costPence
  {
    if kwhPriced > 0.0 then
      DivMul(costPence, kwhPriced);
      Some(costPence / kwhPriced)
    else None
  }

  /** `totalKwhMeasured > 0 ? totalKwhPriced / totalKwhMeasured : 0` */
  function Coverage(kwhPriced: real, kwhMeasured: real): (c: real)
    requires kwhPriced >= 0.0
    ensures c >= 0.0
    ensures kwhMeasured <= 0.0 ==> c == 0.0
    ensures kwhMeasured > 0.0 ==> c * kwhMeasured == kwhPriced
    ensures kwhMeasured > 0.0 && kwhPriced <= kwhMeasured ==> c <= 1.0
  {
    if kwhMeasured > 0.0 then
      DivMul(kwhPriced, kwhMeasured);
      kwhPriced / kwhMeasured
    else 0.0
  }

  /** What every window result satisfies: the totals are non-negative, the
      average is reported exactly when some energy was priced and is then
      the cost per priced kWh in pence, and the coverage is the priced share
      of the measured energy (zero when nothing was measured). */
  ghost predicate Consistent(r: WindowResult) {
    && r.totalKwhPriced >= 0.0 && r.totalKwhMeasured >= 0.0
    && (r.avgPaidPpkwh.None? <==> r.totalKwhPriced == 0.0)
    && (r.avgPaidPpkwh.Some? ==> r.avgPaidPpkwh.value * r.totalKwhPriced == 100.0 * r.totalCostGbp)
    && (r.totalKwhMeasured == 0.0 ==> r.totalKwhPriced == 0.0 && r.coverageRatio == 0.0)
    && (r.totalKwhMeasured > 0.0 ==> r.coverageRatio * r.totalKwhMeasured == r.totalKwhPriced)
    && r.coverageRatio >= 0.0
    && (r.totalKwhPriced <= r.totalKwhMeasured ==> r.coverageRatio <= 1.0)
  }

  /** The end of `computeWindowResult`: the average price and the coverage
      derived from the accumulated totals. */
  function Summarise(totals: Totals): (r: WindowResult)
    requires totals.kwhMeasured >= 0.0 && totals.kwhPriced >= 0.0
    requires totals.kwhMeasured == 0.0 ==> totals.kwhPriced == 0.0
    ensures r.totalKwhPriced == totals.kwhPriced && r.totalKwhMeasured == totals.kwhMeasured
    ensures 100.0 * r.totalCostGbp == totals.costPence
    ensures Consistent(r)
  {
    WindowResult(
      AveragePrice(totals.costPence, totals.kwhPriced),
      totals.kwhPriced,
      totals.kwhMeasured,
      totals.costPence / 100.0,
      Coverage(totals.kwhPriced, totals.kwhMeasured))
  }

  /** `computeWindowResult` without its final rounding. */
  function ComputeWindowResult(rates: seq<Rate>, readingsByChannel: seq<seq<Reading>>, startMs: int, endMs: int): (r: WindowResult)
    ensures Consistent(r)
  {
    Summarise(AllChannels(readingsByChannel, WindowRates(rates, startMs, endMs), startMs, endMs))
  }
}
