/** The offline usage report (analysis/analyze_usage.py): readings grouped
    by calendar day, the day's energy from the counter's range, the minutes
    on and at full power, and the averages over days with enough data.
    Fetching the readings and writing the report file are left out. */
module AnalyzeUsage {
  import opened Wrappers
  import opened Seqs
  import opened Clock

  /** One stored reading: its instant (UTC ms), the cumulative energy
      counter and the instantaneous power. */
  datatype UsageReading = UsageReading(createdAt: int, energyTotalWh: real, powerW: real)

  /** Above this draw (watts) the heater is on. */
  const OnThresholdW: real := 100.0
  /** Above this draw the heater is at full power. */
  const SolidThresholdW: real := 2000.0
  /** Days with fewer readings than this are left out of the averages. */
  const MinReadingsPerDay: nat := 60

  function DayKey(r: UsageReading): int {
    DayOf(r.createdAt)
  }

  predicate IsOn(r: UsageReading) {
    r.powerW > OnThresholdW
  }

  predicate IsSolid(r: UsageReading) {
    r.powerW > SolidThresholdW
  }

  // ---------------------------------------------------------------------
  // Grouping by day

  predicate StrictlyIncreasing(s: seq<int>) {
    forall i, j :: 0 <= i < j < |s| ==> s[i] < s[j]
  }

  /** `d` put into its place in an increasing sequence, once. */
  function InsertDay(d: int, s: seq<int>): (r: seq<int>)
    requires StrictlyIncreasing(s)
    ensures StrictlyIncreasing(r)
    ensures forall x :: x in r <==> x == d || x in s
    decreases |s|
  {
    if |s| == 0 then [d]
    else if d < s[0] then [d] + s
    else if d == s[0] then s
    else
      var rest := InsertDay(d, s[1..]);
      assert forall x :: x in s[1..] ==> s[0] < x;
      assert forall j :: 0 <= j < |rest| ==> s[0] < rest[j] by {
        forall j | 0 <= j < |rest| ensures s[0] < rest[j] { assert rest[j] in rest; }
      }
      [s[0]] + rest
  }

  /** `sorted(daily_stats.keys())`: the days that have readings, in
      increasing order. */
  function SortedDays(readings: seq<UsageReading>): (days: seq<int>)
    ensures StrictlyIncreasing(days)
    ensures forall d :: d in days <==> exists i :: 0 <= i < |readings| && DayKey(readings[i]) == d
    decreases |readings|
  {
    if |readings| == 0 then []
    else
      var front := readings[..|readings| - 1];
      var days := InsertDay(DayKey(readings[|readings| - 1]), SortedDays(front));
      assert forall i :: 0 <= i < |front| ==> front[i] == readings[i];
      days
  }

  /** `daily_stats[day]['readings']`: the day's readings in stored order. */
  function DayReadings(readings: seq<UsageReading>, day: int): (r: seq<UsageReading>)
    ensures forall i :: 0 <= i < |r| ==> DayKey(r[i]) == day
    ensures forall x :: multiset(r)[x] == if DayKey(x) == day then multiset(readings)[x] else 0
  {
    var p := (x: UsageReading) => DayKey(x) == day;
    forall x ensures multiset(Filter(readings, p))[x] == if DayKey(x) == day then multiset(readings)[x] else 0 {
      FilterMultiplicity(readings, p, x);
    }
    Filter(readings, p)
  }

  // ---------------------------------------------------------------------
  // One day's figures

  /** The counter values that count: zeros (and negatives) are ignored. */
  predicate CountsEnergy(r: UsageReading) {
    r.energyTotalWh > 0.0
  }

  /** `total_wh_start` and `total_wh_end`: the smallest and largest
      positive counter value of the readings, if any. */
  function CounterRange(rs: seq<UsageReading>): (b: Option<(real, real)>)
    ensures b.None? <==> forall i :: 0 <= i < |rs| ==> !CountsEnergy(rs[i])
    ensures b.Some? ==> forall i :: 0 <= i < |rs| && CountsEnergy(rs[i]) ==>
      b.value.0 <= rs[i].energyTotalWh <= b.value.1
    ensures b.Some? ==> exists i :: 0 <= i < |rs| && CountsEnergy(rs[i]) && rs[i].energyTotalWh == b.value.0
    ensures b.Some? ==> exists i :: 0 <= i < |rs| && CountsEnergy(rs[i]) && rs[i].energyTotalWh == b.value.1
    decreases |rs|
  {
    if |rs| == 0 then None
    else
      var front := rs[..|rs| - 1];
      var last := rs[|rs| - 1];
      var prev := CounterRange(front);
      assert forall i :: 0 <= i < |front| ==> front[i] == rs[i];
      if !CountsEnergy(last) then prev
      else
        var wh := last.energyTotalWh;
        match prev
        case None => Some((wh, wh))
        case Some((lo, hi)) =>
          Some((if wh < lo then wh else lo, if wh > hi then wh else hi))
  }

  /** `day_kwh`: the counter's rise over the day, 0 without a usable
      counter value. */
  function DayKwh(rs: seq<UsageReading>): (kwh: real)
    ensures kwh >= 0.0
    ensures (forall i :: 0 <= i < |rs| ==> !CountsEnergy(rs[i])) ==> kwh == 0.0
    ensures forall i, j :: 0 <= i < |rs| && 0 <= j < |rs| && CountsEnergy(rs[i]) && CountsEnergy(rs[j]) ==>
      (rs[j].energyTotalWh - rs[i].energyTotalWh) / 1000.0 <= kwh
    ensures (exists i :: 0 <= i < |rs| && CountsEnergy(rs[i])) ==>
      exists i, j :: 0 <= i < |rs| && 0 <= j < |rs| && CountsEnergy(rs[i]) && CountsEnergy(rs[j])
        && kwh == (rs[j].energyTotalWh - rs[i].energyTotalWh) / 1000.0
  {
    match CounterRange(rs)
    case None => 0.0
    case Some((lo, hi)) => (hi - lo) / 1000.0
  }

  /** The minutes loop (lines 124-150) as written: the on count and the
      full-power minutes gathered block by block. */
  method OnAndSolidMinutes(rs: seq<UsageReading>) returns (onMinutes: nat, solidMinutes: nat)
    ensures onMinutes == CountBy(rs, IsOn)
    ensures solidMinutes == CountBy(rs, IsSolid)
  {
    onMinutes, solidMinutes := 0, 0;
    var block: nat := 0;
    for i := 0 to |rs|
      invariant onMinutes == CountBy(rs[..i], IsOn)
      invariant solidMinutes + block == CountBy(rs[..i], IsSolid)
    {
      CountPrefixStep(rs, i, IsOn);
      CountPrefixStep(rs, i, IsSolid);
      var power := rs[i].powerW;
      if power > OnThresholdW {
        onMinutes := onMinutes + 1;
        if power > SolidThresholdW {
          block := block + 1;
        } else if block > 0 {
          solidMinutes := solidMinutes + block;
          block := 0;
        }
      } else if block > 0 {
        solidMinutes := solidMinutes + block;
        block := 0;
      }
    }
    solidMinutes := solidMinutes + block;
    assert rs[..|rs|] == rs;
  }

  /** Counting over a sequence with one more element at its end. */
  lemma {:induction false} CountSnoc(s: seq<UsageReading>, x: UsageReading, p: UsageReading -> bool)
    ensures CountBy(s + [x], p) == CountBy(s, p) + (if p(x) then 1 else 0)
    decreases |s|
  {
    if |s| == 0 {
      assert [x][1..] == [];
    } else {
      assert (s + [x])[1..] == s[1..] + [x];
      CountSnoc(s[1..], x, p);
    }
  }

  /** Counting over one more element of a prefix. */
  lemma CountPrefixStep(s: seq<UsageReading>, i: nat, p: UsageReading -> bool)
    requires i < |s|
    ensures CountBy(s[..i + 1], p) == CountBy(s[..i], p) + (if p(s[i]) then 1 else 0)
  {
    assert s[..i + 1] == s[..i] + [s[i]];
    CountSnoc(s[..i], s[i], p);
  }

  /** One line of the daily breakdown. */
  datatype DayReport = DayReport(day: int, readingCount: nat, kwh: real, onMinutes: nat, solidMinutes: nat) {
    /** Enough readings to enter the averages. */
    predicate Valid() {
      readingCount >= MinReadingsPerDay
    }
  }

  function ReportDay(readings: seq<UsageReading>, day: int): (d: DayReport)
    ensures d.day == day && d.kwh >= 0.0
    ensures d.readingCount == |DayReadings(readings, day)|
    ensures d.kwh == DayKwh(DayReadings(readings, day))
    ensures d.onMinutes == CountBy(DayReadings(readings, day), IsOn)
    ensures d.solidMinutes == CountBy(DayReadings(readings, day), IsSolid)
  {
    var rs := DayReadings(readings, day);
    DayReport(day, |rs|, DayKwh(rs), CountBy(rs, IsOn), CountBy(rs, IsSolid))
  }

  // ---------------------------------------------------------------------
  // The report

  /** The summary figures. */
  datatype Averages = Averages(kwh: real, onHours: real, solidHours: real)

  datatype Analysis = NoReadings | Analysed(days: seq<DayReport>, averages: Option<Averages>)

  function KwhOf(d: DayReport): real { d.kwh }
  function OnOf(d: DayReport): real { d.onMinutes as real }
  function SolidOf(d: DayReport): real { d.solidMinutes as real }

  function ValidDays(days: seq<DayReport>): (v: seq<DayReport>)
    ensures forall i :: 0 <= i < |v| ==> v[i].Valid()
    ensures multiset(v) <= multiset(days)
  {
    Filter(days, (d: DayReport) => d.Valid())
  }

  /** The averages over the valid days, none when there are none: mean
      kWh, and mean on and full-power minutes in hours. */
  function AveragesOf(valid: seq<DayReport>): (a: Option<Averages>)
    ensures a.None? <==> |valid| == 0
    ensures a.Some? ==> a.value.kwh * (|valid| as real) == SumBy(valid, KwhOf)
    ensures a.Some? ==> a.value.onHours * 60.0 * (|valid| as real) == SumBy(valid, OnOf)
    ensures a.Some? ==> a.value.solidHours * 60.0 * (|valid| as real) == SumBy(valid, SolidOf)
  {
    if |valid| == 0 then None
    else
      var n := |valid| as real;
      Some(Averages(SumBy(valid, KwhOf) / n, (SumBy(valid, OnOf) / n) / 60.0, (SumBy(valid, SolidOf) / n) / 60.0))
  }

  /** A day that has readings gets a non-empty report. */
  lemma ReportNonEmpty(readings: seq<UsageReading>, k: nat)
    requires k < |readings|
    ensures ReportDay(readings, DayKey(readings[k])).readingCount > 0
  {
    assert multiset(DayReadings(readings, DayKey(readings[k])))[readings[k]] > 0;
  }

  /** Every listed day has readings, so its report is not empty. */
  lemma ListedDayNonEmpty(readings: seq<UsageReading>, i: nat)
    requires i < |SortedDays(readings)|
    ensures ReportDay(readings, SortedDays(readings)[i]).readingCount > 0
  {
    var days := SortedDays(readings);
    assert days[i] in days;
    var k :| 0 <= k < |readings| && DayKey(readings[k]) == days[i];
    ReportNonEmpty(readings, k);
  }

  /** Where a reading's day sits in the list of days. */
  lemma DayListed(readings: seq<UsageReading>, k: nat) returns (i: nat)
    requires k < |readings|
    ensures i < |SortedDays(readings)| && SortedDays(readings)[i] == DayKey(readings[k])
  {
    var days := SortedDays(readings);
    assert DayKey(readings[k]) in days;
    i :| 0 <= i < |days| && days[i] == DayKey(readings[k]);
  }

  /** The reports of the given days, in the same order. */
  function ReportsFor(readings: seq<UsageReading>, days: seq<int>): (reports: seq<DayReport>)
    ensures |reports| == |days|
    ensures forall i :: 0 <= i < |days| ==> reports[i] == ReportDay(readings, days[i])
    decreases |days|
  {
    if |days| == 0 then [] else [ReportDay(readings, days[0])] + ReportsFor(readings, days[1..])
  }

  /** What the daily breakdown of `readings` is: one report per day with
      readings, in strictly increasing date order, each the non-empty
      report of its day. */
  ghost predicate IsBreakdown(readings: seq<UsageReading>, reports: seq<DayReport>) {
    && (forall i, j :: 0 <= i < j < |reports| ==> reports[i].day < reports[j].day)
    && (forall k :: 0 <= k < |readings| ==>
          exists i :: 0 <= i < |reports| && reports[i].day == DayKey(readings[k]))
    && (forall i :: 0 <= i < |reports| ==> reports[i].readingCount > 0 && reports[i].kwh >= 0.0)
    && (forall i :: 0 <= i < |reports| ==> reports[i] == ReportDay(readings, reports[i].day))
  }

  /** The daily breakdown: one report per day with readings, in date
      order. */
  function DayReports(readings: seq<UsageReading>): (reports: seq<DayReport>)
    ensures IsBreakdown(readings, reports)
  {
    var days := SortedDays(readings);
    var reports := ReportsFor(readings, days);
    forall i | 0 <= i < |reports| ensures reports[i].readingCount > 0 && reports[i].kwh >= 0.0 {
      ListedDayNonEmpty(readings, i);
    }
    forall i, j | 0 <= i < j < |reports| ensures reports[i].day < reports[j].day {
      assert reports[i].day == days[i] && reports[j].day == days[j];
    }
    forall k | 0 <= k < |readings| ensures exists i :: 0 <= i < |reports| && reports[i].day == DayKey(readings[k]) {
      var i := DayListed(readings, k);
      assert reports[i].day == DayKey(readings[k]);
    }
    reports
  }

  /** `analyze_data`: nothing without readings; otherwise one report per
      day in date order, and averages over the days with at least sixty
      readings, if there are any. */
  function AnalyzeData(readings: seq<UsageReading>): (a: Analysis)
    ensures |readings| == 0 <==> a.NoReadings?
    ensures a.Analysed? ==> |a.days| > 0 && IsBreakdown(readings, a.days)
    ensures a.Analysed? ==> a.averages == AveragesOf(ValidDays(a.days))
  {
    if |readings| == 0 then NoReadings
    else
      var reports := DayReports(readings);
      assert exists i :: 0 <= i < |reports| && reports[i].day == DayKey(readings[0]);
      Analysed(reports, AveragesOf(ValidDays(reports)))
  }
}
