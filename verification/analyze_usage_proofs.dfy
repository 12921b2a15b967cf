/** Properties of the usage report's figures. */
module AnalyzeUsageProofs {
  import opened Wrappers
  import opened Seqs
  import opened AnalyzeUsage

  /** Appending a reading appends it to its own day's list and leaves
      every other day's list alone, so each day keeps its readings in
      stored order. */
  lemma DayReadingsAppend(readings: seq<UsageReading>, r: UsageReading, day: int)
    ensures DayReadings(readings + [r], day)
         == DayReadings(readings, day) + (if DayKey(r) == day then [r] else [])
  {
    var p := (x: UsageReading) => DayKey(x) == day;
    FilterConcat(readings, [r], p);
    FilterCons(r, [], p);
    assert [r] + [] == [r];
  }

  /** Counting with a weaker predicate never counts less. */
  lemma {:induction false} CountMonotone(s: seq<UsageReading>, p: UsageReading -> bool, q: UsageReading -> bool)
    requires forall x :: p(x) ==> q(x)
    ensures CountBy(s, p) <= CountBy(s, q)
    decreases |s|
  {
    if |s| > 0 {
      CountMonotone(s[1..], p, q);
    }
  }

  /** Full-power minutes are on minutes: a day's solid time never exceeds
      its on time. */
  lemma SolidWithinOn(readings: seq<UsageReading>, day: int)
    ensures ReportDay(readings, day).solidMinutes <= ReportDay(readings, day).onMinutes
  {
    CountMonotone(DayReadings(readings, day), IsSolid, IsOn);
  }

  /** Summing a pointwise smaller quantity gives a smaller sum. */
  lemma {:induction false} SumMonotone(s: seq<DayReport>, f: DayReport -> real, g: DayReport -> real)
    requires forall i :: 0 <= i < |s| ==> f(s[i]) <= g(s[i])
    ensures SumBy(s, f) <= SumBy(s, g)
    decreases |s|
  {
    if |s| > 0 {
      SumMonotone(s[1..], f, g);
    }
  }

  /** The reported days keep their solid time within their on time. */
  lemma ReportsSolidWithinOn(readings: seq<UsageReading>, i: nat)
    requires i < |DayReports(readings)|
    ensures DayReports(readings)[i].solidMinutes <= DayReports(readings)[i].onMinutes
  {
    var days := SortedDays(readings);
    assert DayReports(readings)[i] == ReportDay(readings, days[i]);
    SolidWithinOn(readings, days[i]);
  }

  /** Averages over days whose solid time is within their on time and
      whose consumption is non-negative keep those relations. */
  lemma AveragesOrdered(valid: seq<DayReport>)
    requires |valid| > 0
    requires forall i :: 0 <= i < |valid| ==> SolidOf(valid[i]) <= OnOf(valid[i]) && 0.0 <= KwhOf(valid[i])
    ensures AveragesOf(valid).value.solidHours <= AveragesOf(valid).value.onHours
    ensures AveragesOf(valid).value.kwh >= 0.0
  {
    SumMonotone(valid, SolidOf, OnOf);
    SumLowerBound(valid, KwhOf, 0.0);
    var avg := AveragesOf(valid).value;
    var n := |valid| as real;
    assert avg.solidHours * (60.0 * n) <= avg.onHours * (60.0 * n);
    assert avg.kwh * n >= 0.0;
  }

  /** Every day entering the averages has its solid time within its on
      time and a non-negative consumption. */
  lemma ValidReportsBounded(readings: seq<UsageReading>, i: nat)
    requires i < |ValidDays(DayReports(readings))|
    ensures SolidOf(ValidDays(DayReports(readings))[i]) <= OnOf(ValidDays(DayReports(readings))[i])
    ensures 0.0 <= KwhOf(ValidDays(DayReports(readings))[i])
  {
    var reports := DayReports(readings);
    var v := ValidDays(reports)[i];
    assert v in multiset(ValidDays(reports));
    var j :| 0 <= j < |reports| && reports[j] == v;
    ReportsSolidWithinOn(readings, j);
  }

  /** The "maintaining" hours of the summary (average on time less average
      full-power time) are never negative, and the average consumption is
      never negative. */
  lemma SummaryNonNegative(readings: seq<UsageReading>)
    requires AnalyzeData(readings).Analysed? && AnalyzeData(readings).averages.Some?
    ensures AnalyzeData(readings).averages.value.solidHours <= AnalyzeData(readings).averages.value.onHours
    ensures AnalyzeData(readings).averages.value.kwh >= 0.0
  {
    assert AnalyzeData(readings).averages == AveragesOf(ValidDays(DayReports(readings)));
    ReportAveragesOrdered(readings);
  }

  /** The averages over the valid reported days keep the per-day
      relations. */
  lemma ReportAveragesOrdered(readings: seq<UsageReading>)
    requires |ValidDays(DayReports(readings))| > 0
    ensures AveragesOf(ValidDays(DayReports(readings))).value.solidHours
         <= AveragesOf(ValidDays(DayReports(readings))).value.onHours
    ensures AveragesOf(ValidDays(DayReports(readings))).value.kwh >= 0.0
  {
    var valid := ValidDays(DayReports(readings));
    forall i | 0 <= i < |valid| ensures SolidOf(valid[i]) <= OnOf(valid[i]) && 0.0 <= KwhOf(valid[i]) {
      ValidReportsBounded(readings, i);
    }
    AveragesOrdered(valid);
  }

  /** Exactly the days with at least sixty readings enter the averages. */
  lemma ValidDaysExactly(days: seq<DayReport>, d: DayReport)
    ensures d in ValidDays(days) <==> d in days && d.Valid()
  {
    if d in days && d.Valid() {
      var i :| 0 <= i < |days| && days[i] == d;
      FilterKeeps(days, (x: DayReport) => x.Valid(), i);
    }
    if d in ValidDays(days) {
      assert d in multiset(ValidDays(days));
    }
  }

  /** No averages when no day has enough readings. */
  lemma NoValidDayNoAverages(readings: seq<UsageReading>)
    requires |readings| > 0
    requires forall i :: 0 <= i < |DayReports(readings)| ==> !DayReports(readings)[i].Valid()
    ensures AnalyzeData(readings).averages.None?
  {
    var reports := DayReports(readings);
    var p := (x: DayReport) => x.Valid();
    forall x ensures multiset(ValidDays(reports))[x] == 0 {
      FilterMultiplicity(reports, p, x);
      if x.Valid() {
        forall i | 0 <= i < |reports| ensures reports[i] != x { }
        assert x !in reports;
      }
    }
    assert multiset(ValidDays(reports)) == multiset{};
  }

  /** A counter that rises from 1000 Wh to 3500 Wh over the day, with an
      invalid zero in between, gives 2.5 kWh. */
  lemma DayKwhExample()
    ensures DayKwh([UsageReading(0, 1000.0, 0.0), UsageReading(60000, 0.0, 0.0), UsageReading(120000, 3500.0, 2500.0)]) == 2.5
  {
    var rs := [UsageReading(0, 1000.0, 0.0), UsageReading(60000, 0.0, 0.0), UsageReading(120000, 3500.0, 2500.0)];
    assert rs[..2][..1] == [rs[0]];
    assert CounterRange(rs[..2][..1]) == Some((1000.0, 1000.0));
    assert CounterRange(rs[..2]) == Some((1000.0, 1000.0));
    assert CounterRange(rs) == Some((1000.0, 3500.0));
  }
}
