/** Properties of the reconciliation engine that relate several calls or
    hold only under an assumption about the rate data: the instants view of
    overlap, the coverage bound for non-overlapping rates (and what goes
    wrong without it), the split of measured energy across adjacent
    windows, and the worked scenarios of the endpoint. */
module EnergyStatsProofs {
  import opened Wrappers
  import opened Seqs
  import opened Rates
  import opened EnergyStats

  // -----------------------------------------------------------------------
  // Intervals as sets of instants

  /** The instants of the half-open interval [lo, hi). */
  ghost function Span(lo: int, hi: int): set<int> {
    set t: int | lo <= t < hi && InSpan(t, lo, hi)
  }

  lemma {:induction false} SpanCard(lo: int, hi: int)
    ensures |Span(lo, hi)| == if lo <= hi then hi - lo else 0
    decreases hi - lo
  {
    if hi <= lo {
      assert Span(lo, hi) == {};
    } else {
      SpanCard(lo, hi - 1);
      assert Span(lo, hi) == Span(lo, hi - 1) + {hi - 1};
    }
  }

  lemma SpanMeet(a: int, b: int, c: int, d: int)
    ensures Span(a, b) * Span(c, d) == Span(Max(a, c), Min(b, d))
  {
  }

  /** `OverlapLen` counts the instants the two intervals share. */
  lemma OverlapLenCountsInstants(a: int, b: int, c: int, d: int)
    ensures OverlapLen(a, b, c, d) == |Span(a, b) * Span(c, d)|
  {
    SpanMeet(a, b, c, d);
    SpanCard(Max(a, c), Min(b, d));
  }

  /** For non-empty intervals, the test `overlaps` used to select the rates
      of a window holds exactly when some instant lies in both. */
  lemma OverlapsIffCommonInstant(a: int, b: int, c: int, d: int)
    requires a < b && c < d
    ensures Overlaps(a, b, c, d) <==> exists t :: InSpan(t, a, b) && InSpan(t, c, d)
  {
    if Overlaps(a, b, c, d) {
      assert InSpan(Max(a, c), a, b) && InSpan(Max(a, c), c, d);
    }
  }

  lemma SubsetCard(x: set<int>, y: set<int>)
    requires x <= y
    ensures |x| <= |y|
  {
    assert y == x + (y - x);
    assert x !! (y - x);
  }

  // -----------------------------------------------------------------------
  // Coverage bound for non-overlapping rates

  /** Two rate intervals share no instant. */
  function Apart(x: Rate, y: Rate): bool {
    !Overlaps(x.validFrom, x.validTo, y.validFrom, y.validTo)
  }

  /** No two rates of the sequence overlap, as for the half-hourly slots of
      one tariff. */
  ghost predicate NonOverlapping(rates: seq<Rate>) {
    PairwiseBy(rates, Apart)
  }

  /** The instants of [start, end) covered by at least one rate. */
  ghost function Covered(start: int, end: int, rates: seq<Rate>): set<int>
    decreases |rates|
  {
    if |rates| == 0 then {}
    else (Span(start, end) * Span(rates[0].validFrom, rates[0].validTo)) + Covered(start, end, rates[1..])
  }

  lemma {:induction false} CoveredWithin(start: int, end: int, rates: seq<Rate>)
    ensures Covered(start, end, rates) <= Span(start, end)
    decreases |rates|
  {
    if |rates| > 0 {
      CoveredWithin(start, end, rates[1..]);
    }
  }

  /** An instant is covered iff it lies in [start, end) and some rate
      applies at it. */
  lemma {:induction false} CoveredIff(start: int, end: int, rates: seq<Rate>, t: int)
    ensures t in Covered(start, end, rates)
        <==> InSpan(t, start, end) && exists j :: 0 <= j < |rates| && Covers(rates[j], t)
    decreases |rates|
  {
    if |rates| > 0 {
      CoveredIff(start, end, rates[1..], t);
      if exists j :: 0 <= j < |rates[1..]| && Covers(rates[1..][j], t) {
        var j :| 0 <= j < |rates[1..]| && Covers(rates[1..][j], t);
        assert rates[j + 1] == rates[1..][j];
      }
      if exists j :: 0 <= j < |rates| && Covers(rates[j], t) {
        var j :| 0 <= j < |rates| && Covers(rates[j], t);
        if j > 0 {
          assert rates[1..][j - 1] == rates[j];
        }
      }
    }
  }

  /** Over non-overlapping rates, the summed overlap is the number of
      covered instants. */
  lemma {:induction false} CoveredCard(start: int, end: int, rates: seq<Rate>)
    requires NonOverlapping(rates)
    ensures |Covered(start, end, rates)| == SumOverlap(start, end, rates)
    decreases |rates|
  {
    if |rates| > 0 {
      var head := Span(start, end) * Span(rates[0].validFrom, rates[0].validTo);
      var tail := rates[1..];
      var rest := Covered(start, end, tail);
      PairwiseTail(rates, Apart);
      CoveredCard(start, end, tail);
      OverlapLenCountsInstants(start, end, rates[0].validFrom, rates[0].validTo);
      forall t | t in head ensures t !in rest {
        forall j | 0 <= j < |tail| ensures !Covers(tail[j], t) {
          assert tail[j] == rates[j + 1];
          assert Apart(rates[0], rates[j + 1]);
        }
        CoveredIff(start, end, tail, t);
      }
      assert head !! rest;
    }
  }

  /** Non-overlapping rates cover at most the whole of [start, end). */
  lemma SumOverlapBound(start: int, end: int, rates: seq<Rate>)
    requires start < end && NonOverlapping(rates)
    ensures SumOverlap(start, end, rates) <= end - start
  {
    CoveredCard(start, end, rates);
    CoveredWithin(start, end, rates);
    SubsetCard(Covered(start, end, rates), Span(start, end));
    SpanCard(start, end);
  }

  /** A segment is never priced for more energy than it carries when the
      rates do not overlap. */
  lemma PriceSegmentBound(seg: Segment, rates: seq<Rate>)
    requires seg.start < seg.end && seg.kwh > 0.0
    requires NonOverlapping(rates)
    ensures PriceSegment(seg, rates).kwhPriced <= seg.kwh
  {
    PricedProportionalToOverlap(seg, rates);
    SumOverlapBound(seg.start, seg.end, rates);
    PortionBounds(seg.kwh, SumOverlap(seg.start, seg.end, rates) as real, seg.Duration());
  }

  lemma PairTotalsBound(prev: Reading, curr: Reading, windowRates: seq<Rate>, startMs: int, endMs: int)
    requires NonOverlapping(windowRates)
    ensures PairTotals(prev, curr, windowRates, startMs, endMs).kwhPriced
         <= PairTotals(prev, curr, windowRates, startMs, endMs).kwhMeasured
  {
    match ClipPair(prev, curr, startMs, endMs)
    case None =>
    case Some(seg) => PriceSegmentBound(seg, windowRates);
  }

  lemma {:induction false} ChannelTotalsBound(readings: seq<Reading>, windowRates: seq<Rate>, startMs: int, endMs: int)
    requires NonOverlapping(windowRates)
    ensures ChannelTotals(readings, windowRates, startMs, endMs).kwhPriced
         <= ChannelTotals(readings, windowRates, startMs, endMs).kwhMeasured
    decreases |readings|
  {
    if |readings| >= 2 {
      PairTotalsBound(readings[0], readings[1], windowRates, startMs, endMs);
      ChannelTotalsBound(readings[1..], windowRates, startMs, endMs);
    }
  }

  lemma {:induction false} AllChannelsBound(readingsByChannel: seq<seq<Reading>>, windowRates: seq<Rate>, startMs: int, endMs: int)
    requires NonOverlapping(windowRates)
    ensures AllChannels(readingsByChannel, windowRates, startMs, endMs).kwhPriced
         <= AllChannels(readingsByChannel, windowRates, startMs, endMs).kwhMeasured
    decreases |readingsByChannel|
  {
    if |readingsByChannel| > 0 {
      ChannelTotalsBound(readingsByChannel[0], windowRates, startMs, endMs);
      AllChannelsBound(readingsByChannel[1..], windowRates, startMs, endMs);
    }
  }

  /** With non-overlapping rates, priced energy never exceeds measured
      energy, so the coverage ratio is at most 1. */
  lemma CoverageAtMostOne(rates: seq<Rate>, readingsByChannel: seq<seq<Reading>>, startMs: int, endMs: int)
    requires NonOverlapping(rates)
    ensures ComputeWindowResult(rates, readingsByChannel, startMs, endMs).totalKwhPriced
         <= ComputeWindowResult(rates, readingsByChannel, startMs, endMs).totalKwhMeasured
    ensures ComputeWindowResult(rates, readingsByChannel, startMs, endMs).coverageRatio <= 1.0
  {
    FilterPairwise(rates, InWindow(startMs, endMs), Apart);
    AllChannelsBound(readingsByChannel, WindowRates(rates, startMs, endMs), startMs, endMs);
  }

  // -----------------------------------------------------------------------
  // Measured energy across adjacent windows

  /** The conditions under which a reading pair carries energy at all,
      whatever the window. */
  ghost predicate PairRises(prev: Reading, curr: Reading) {
    && prev.createdAt.Some? && curr.createdAt.Some?
    && prev.createdAt.value < curr.createdAt.value
    && curr.energyTotalWh - prev.energyTotalWh > 0.0
  }

  /** A rising pair contributes its counter rise in proportion to the part
      of its span inside the window; any other pair contributes nothing. */
  lemma PairMeasuredPortion(prev: Reading, curr: Reading, windowRates: seq<Rate>, startMs: int, endMs: int)
    ensures PairRises(prev, curr) ==>
      var p := prev.createdAt.value;
      var c := curr.createdAt.value;
      PairTotals(prev, curr, windowRates, startMs, endMs).kwhMeasured
        == Portion((curr.energyTotalWh - prev.energyTotalWh) / 1000.0, OverlapLen(p, c, startMs, endMs) as real, (c - p) as real)
    ensures !PairRises(prev, curr) ==> PairTotals(prev, curr, windowRates, startMs, endMs).kwhMeasured == 0.0
  {
    if PairRises(prev, curr) {
      var p := prev.createdAt.value;
      var c := curr.createdAt.value;
      var deltaKwh := (curr.energyTotalWh - prev.energyTotalWh) / 1000.0;
      PortionBounds(deltaKwh, 0.0, (c - p) as real);
    }
  }

  lemma OverlapLenSplit(p: int, c: int, s: int, m: int, e: int)
    requires s <= m <= e
    ensures OverlapLen(p, c, s, m) + OverlapLen(p, c, m, e) == OverlapLen(p, c, s, e)
  {
  }

  /** Splitting a window at `m` splits each pair's measured energy. */
  lemma PairMeasuredSplit(prev: Reading, curr: Reading, w1: seq<Rate>, w2: seq<Rate>, w: seq<Rate>, s: int, m: int, e: int)
    requires s <= m <= e
    ensures PairTotals(prev, curr, w1, s, m).kwhMeasured + PairTotals(prev, curr, w2, m, e).kwhMeasured
         == PairTotals(prev, curr, w, s, e).kwhMeasured
  {
    PairMeasuredPortion(prev, curr, w1, s, m);
    PairMeasuredPortion(prev, curr, w2, m, e);
    PairMeasuredPortion(prev, curr, w, s, e);
    if PairRises(prev, curr) {
      var p := prev.createdAt.value;
      var c := curr.createdAt.value;
      OverlapLenSplit(p, c, s, m, e);
      PortionAdd((curr.energyTotalWh - prev.energyTotalWh) / 1000.0,
        OverlapLen(p, c, s, m) as real, OverlapLen(p, c, m, e) as real, (c - p) as real);
    }
  }

  lemma {:induction false} ChannelMeasuredSplit(readings: seq<Reading>, w1: seq<Rate>, w2: seq<Rate>, w: seq<Rate>, s: int, m: int, e: int)
    requires s <= m <= e
    ensures ChannelTotals(readings, w1, s, m).kwhMeasured + ChannelTotals(readings, w2, m, e).kwhMeasured
         == ChannelTotals(readings, w, s, e).kwhMeasured
    decreases |readings|
  {
    if |readings| >= 2 {
      PairMeasuredSplit(readings[0], readings[1], w1, w2, w, s, m, e);
      ChannelMeasuredSplit(readings[1..], w1, w2, w, s, m, e);
    }
  }

  lemma {:induction false} AllChannelsMeasuredSplit(readingsByChannel: seq<seq<Reading>>, w1: seq<Rate>, w2: seq<Rate>, w: seq<Rate>, s: int, m: int, e: int)
    requires s <= m <= e
    ensures AllChannels(readingsByChannel, w1, s, m).kwhMeasured + AllChannels(readingsByChannel, w2, m, e).kwhMeasured
         == AllChannels(readingsByChannel, w, s, e).kwhMeasured
    decreases |readingsByChannel|
  {
    if |readingsByChannel| > 0 {
      ChannelMeasuredSplit(readingsByChannel[0], w1, w2, w, s, m, e);
      AllChannelsMeasuredSplit(readingsByChannel[1..], w1, w2, w, s, m, e);
    }
  }

  /** Window independence: the measured energy of [s, m) and of [m, e) add
      up to that of [s, e), each window clipping on its own bounds. */
  lemma MeasuredAdditive(rates: seq<Rate>, readingsByChannel: seq<seq<Reading>>, s: int, m: int, e: int)
    requires s <= m <= e
    ensures ComputeWindowResult(rates, readingsByChannel, s, m).totalKwhMeasured
          + ComputeWindowResult(rates, readingsByChannel, m, e).totalKwhMeasured
         == ComputeWindowResult(rates, readingsByChannel, s, e).totalKwhMeasured
  {
    AllChannelsMeasuredSplit(readingsByChannel, WindowRates(rates, s, m), WindowRates(rates, m, e),
      WindowRates(rates, s, e), s, m, e);
  }

  /** A rising pair wholly inside the window contributes its whole counter
      rise: clipping removes nothing. */
  lemma PairInsideWindow(prev: Reading, curr: Reading, windowRates: seq<Rate>, startMs: int, endMs: int)
    requires PairRises(prev, curr)
    requires startMs <= prev.createdAt.value && curr.createdAt.value <= endMs
    ensures PairTotals(prev, curr, windowRates, startMs, endMs).kwhMeasured
         == (curr.energyTotalWh - prev.energyTotalWh) / 1000.0
  {
    PairMeasuredPortion(prev, curr, windowRates, startMs, endMs);
    var p := prev.createdAt.value;
    var c := curr.createdAt.value;
    PortionWhole((curr.energyTotalWh - prev.energyTotalWh) / 1000.0, (c - p) as real);
  }

  lemma PortionWhole(total: real, whole: real)
    requires whole > 0.0
    ensures Portion(total, whole, whole) == total
  {
    PortionExact(total, whole, whole, total);
  }

  /** A portion is the one value that times the whole gives total times part. */
  lemma PortionExact(total: real, part: real, whole: real, v: real)
    requires whole > 0.0 && v * whole == total * part
    ensures Portion(total, part, whole) == v
  {
    var q := Portion(total, part, whole);
    assert (q - v) * whole == 0.0;
  }

  /** The clipped segment of a rising pair wholly inside the window is the
      pair itself with its whole energy. */
  lemma ClipWhole(prev: Reading, curr: Reading, startMs: int, endMs: int)
    requires PairRises(prev, curr)
    requires startMs <= prev.createdAt.value && curr.createdAt.value <= endMs
    ensures ClipPair(prev, curr, startMs, endMs)
         == Some(Segment(prev.createdAt.value, curr.createdAt.value, (curr.energyTotalWh - prev.energyTotalWh) / 1000.0))
  {
    var p := prev.createdAt.value;
    var c := curr.createdAt.value;
    var r := ClipPair(prev, curr, startMs, endMs);
    assert PairContributes(prev, curr, startMs, endMs);
    assert r.value.start == p && r.value.end == c;
    PortionWhole((curr.energyTotalWh - prev.energyTotalWh) / 1000.0, (c - p) as real);
  }

  // -----------------------------------------------------------------------
  // Worked scenarios

  const HalfHourMs := 1800000
  const QuarterMs := 900000
  const HourMs := 3600000

  /** A single channel holding a single reading pair. */
  lemma OnePairWindow(prev: Reading, curr: Reading, rates: seq<Rate>, startMs: int, endMs: int)
    ensures ComputeWindowResult(rates, [[prev, curr]], startMs, endMs)
         == Summarise(PairTotals(prev, curr, WindowRates(rates, startMs, endMs), startMs, endMs))
  {
    var w := WindowRates(rates, startMs, endMs);
    var readings := [prev, curr];
    var channels: seq<seq<Reading>> := [readings];
    assert readings[1..][1..] == [];
    assert channels[1..] == [];
    var t := PairTotals(prev, curr, w, startMs, endMs);
    assert ChannelTotals(readings, w, startMs, endMs) == t.Plus(Zero);
    assert AllChannels(channels, w, startMs, endMs) == t.Plus(Zero).Plus(Zero);
  }

  /** The summary of totals with some energy priced. */
  lemma SummariseValues(cost: real, priced: real, measured: real, avg: real, coverage: real)
    requires priced > 0.0 && measured > 0.0
    requires avg * priced == cost && coverage * measured == priced
    ensures Summarise(Totals(cost, priced, measured)) == WindowResult(Some(avg), priced, measured, cost / 100.0, coverage)
  {
    var r := Summarise(Totals(cost, priced, measured));
    MulCancel(r.avgPaidPpkwh.value, avg, priced);
    MulCancel(r.coverageRatio, coverage, measured);
  }

  lemma MulCancel(a: real, b: real, p: real)
    requires p > 0.0 && a * p == b * p
    ensures a == b
  {
  }

  /** A segment priced under two rates. */
  lemma TwoRatePrice(seg: Segment, a: Rate, b: Rate)
    requires seg.start < seg.end && seg.kwh > 0.0
    ensures PriceSegment(seg, [a, b]) == ShareOf(seg, a).Plus(ShareOf(seg, b).Plus(Zero))
  {
    var rates := [a, b];
    assert rates[1..] == [b];
    assert [b][1..] == [];
    assert PriceSegment(seg, [b]) == ShareOf(seg, b).Plus(Zero);
  }

  /** A 2 kWh pair over one hour straddling a rate boundary at minute 15:
      0.5 kWh at 10p and 1.5 kWh at 30p, 50p in all, 25p/kWh on average. */
  lemma StraddlingBoundaryExample()
    ensures
      var readings := [Reading(Some(0), 0.0), Reading(Some(HourMs), 2000.0)];
      var rates := [Rate(10.0, 0, QuarterMs), Rate(30.0, QuarterMs, HourMs)];
      ComputeWindowResult(rates, [readings], 0, HourMs) == WindowResult(Some(25.0), 2.0, 2.0, 0.5, 1.0)
  {
    var prev, curr := Reading(Some(0), 0.0), Reading(Some(HourMs), 2000.0);
    var rates := [Rate(10.0, 0, QuarterMs), Rate(30.0, QuarterMs, HourMs)];
    WholeWindowRates(rates, 0, HourMs);
    SummariseValues(50.0, 2.0, 2.0, 25.0, 1.0);
    OnePairWindow(prev, curr, rates, 0, HourMs);
    StraddlingPair();
  }

  /** Rates that all overlap the window are all kept. */
  lemma WholeWindowRates(rates: seq<Rate>, startMs: int, endMs: int)
    requires forall i :: 0 <= i < |rates| ==> Overlaps(rates[i].validFrom, rates[i].validTo, startMs, endMs)
    ensures WindowRates(rates, startMs, endMs) == rates
  {
    FilterAll(rates, InWindow(startMs, endMs));
  }

  lemma StraddlingPair()
    ensures
      var rates := [Rate(10.0, 0, QuarterMs), Rate(30.0, QuarterMs, HourMs)];
      PairTotals(Reading(Some(0), 0.0), Reading(Some(HourMs), 2000.0), rates, 0, HourMs) == Totals(50.0, 2.0, 2.0)
  {
    ClipWhole(Reading(Some(0), 0.0), Reading(Some(HourMs), 2000.0), 0, HourMs);
    StraddlingPrice();
  }

  lemma StraddlingPrice()
    ensures
      var rates := [Rate(10.0, 0, QuarterMs), Rate(30.0, QuarterMs, HourMs)];
      PriceSegment(Segment(0, HourMs, 2.0), rates) == Totals(50.0, 2.0, 0.0)
  {
    var seg := Segment(0, HourMs, 2.0);
    TwoRatePrice(seg, Rate(10.0, 0, QuarterMs), Rate(30.0, QuarterMs, HourMs));
    ShareValue(seg, Rate(10.0, 0, QuarterMs), 0.5);
    ShareValue(seg, Rate(30.0, QuarterMs, HourMs), 1.5);
  }

  /** The share of a segment under one rate, given its priced energy. */
  lemma ShareValue(seg: Segment, rate: Rate, kwh: real)
    requires seg.start < seg.end && seg.kwh > 0.0
    requires kwh * seg.Duration() == seg.kwh * (OverlapLen(seg.start, seg.end, rate.validFrom, rate.validTo) as real)
    ensures ShareOf(seg, rate) == Totals(kwh * rate.price, kwh, 0.0)
  {
    PortionExact(seg.kwh, OverlapLen(seg.start, seg.end, rate.validFrom, rate.validTo) as real, seg.Duration(), kwh);
  }

  /** A counter reset (the total falls) contributes no energy. */
  lemma CounterResetExample(rates: seq<Rate>)
    ensures
      var readings := [Reading(Some(0), 1000.0), Reading(Some(HourMs), 200.0)];
      var r := ComputeWindowResult(rates, [readings], 0, HourMs);
      r.totalKwhMeasured == 0.0 && r.totalKwhPriced == 0.0 && r.avgPaidPpkwh.None? && r.coverageRatio == 0.0
  {
    var prev, curr := Reading(Some(0), 1000.0), Reading(Some(HourMs), 200.0);
    OnePairWindow(prev, curr, rates, 0, HourMs);
    assert ClipPair(prev, curr, 0, HourMs).None?;
  }

  /** A 1000 Wh rise with no rate data: 1 kWh measured, none priced, no
      average price and zero coverage. */
  lemma NoRateDataExample(t0: int, t1: int, wh: real)
    requires t0 < t1
    ensures
      var readings := [Reading(Some(t0), wh), Reading(Some(t1), wh + 1000.0)];
      var r := ComputeWindowResult([], [readings], t0, t1);
      && r.totalKwhMeasured == 1.0 && r.totalKwhPriced == 0.0
      && r.avgPaidPpkwh.None? && r.coverageRatio == 0.0
  {
    var prev, curr := Reading(Some(t0), wh), Reading(Some(t1), wh + 1000.0);
    OnePairWindow(prev, curr, [], t0, t1);
    PairInsideWindow(prev, curr, [], t0, t1);
    var t := PairTotals(prev, curr, [], t0, t1);
    assert t.kwhMeasured == 1.0;
    assert t.kwhPriced == 0.0;
  }

  /** Without the non-overlap assumption the bound fails: the same hour-long
      rate listed twice prices a 2 kWh pair twice, a coverage ratio of 2. */
  lemma DuplicateRateExample()
    ensures
      var readings := [Reading(Some(0), 0.0), Reading(Some(HourMs), 2000.0)];
      var rate := Rate(10.0, 0, HourMs);
      ComputeWindowResult([rate, rate], [readings], 0, HourMs) == WindowResult(Some(10.0), 4.0, 2.0, 0.4, 2.0)
  {
    var prev, curr := Reading(Some(0), 0.0), Reading(Some(HourMs), 2000.0);
    var rate := Rate(10.0, 0, HourMs);
    WholeWindowRates([rate, rate], 0, HourMs);
    SummariseValues(40.0, 4.0, 2.0, 10.0, 2.0);
    OnePairWindow(prev, curr, [rate, rate], 0, HourMs);
    DuplicatePair();
  }

  lemma DuplicatePair()
    ensures
      var rate := Rate(10.0, 0, HourMs);
      PairTotals(Reading(Some(0), 0.0), Reading(Some(HourMs), 2000.0), [rate, rate], 0, HourMs) == Totals(40.0, 4.0, 2.0)
  {
    ClipWhole(Reading(Some(0), 0.0), Reading(Some(HourMs), 2000.0), 0, HourMs);
    DuplicatePrice();
  }

  lemma DuplicatePrice()
    ensures
      var rate := Rate(10.0, 0, HourMs);
      PriceSegment(Segment(0, HourMs, 2.0), [rate, rate]) == Totals(40.0, 4.0, 0.0)
  {
    var seg := Segment(0, HourMs, 2.0);
    var rate := Rate(10.0, 0, HourMs);
    TwoRatePrice(seg, rate, rate);
    ShareValue(seg, rate, 2.0);
  }
}
