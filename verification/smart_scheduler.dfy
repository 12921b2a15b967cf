/** The smart scheduler of the heater controller
    (ingestion/services/smart_scheduler.py): choose the half-hour Agile
    slots to heat in, decide when to poll for newly published rates, and
    keep the bookkeeping flags the control loop reads. The wall clock
    (`datetime.utcnow()`) is the parameter `now`, in UTC milliseconds. */
module SmartScheduler {
  import opened Wrappers
  import opened Seqs
  import opened Clock
  import opened Rates
  import opened Selection

  /** One hour of heating is always sought between 14:00 and 16:00. */
  const AfternoonSlotsNeeded: int := 2
  const AfternoonStartHour: int := 14
  const AfternoonEndHour: int := 16

  /** Polling intervals inside and outside the publication window. */
  const WindowRecheckMs: int := 900 * MsPerSecond
  const PeriodicRecheckMs: int := 7200 * MsPerSecond

  /** The scheduler object's fields. */
  datatype SchedulerState = SchedulerState(
    lastScheduleComputation: Option<int>,
    lastRateCheck: Option<int>,
    tomorrowScheduled: bool,
    currentSchedule: seq<Rate>)

  /** The state a fresh scheduler starts in. */
  const Initial: SchedulerState := SchedulerState(None, None, false, [])

  /** The arguments of `compute_optimal_slots` besides the rates. */
  datatype SchedulerConfig = SchedulerConfig(
    budgetHours: real,
    maxPrice: real,
    useBelowAverage: bool,
    blockedHours: set<int>)

  /** What `compute_optimal_slots` returns, with the scheduler state it
      leaves behind. */
  datatype Scheduled = Scheduled(state: SchedulerState, slots: seq<Rate>)

  // ---------------------------------------------------------------------
  // Slot selection

  /** The mean unit price over every rate supplied. */
  function DailyAverage(rates: seq<Rate>): real
    requires |rates| > 0
  {
    MeanBy(rates, PriceOf)
  }

  /** The price cap: the absolute maximum, lowered to the average when the
      below-average rule is on. */
  function Threshold(rates: seq<Rate>, cfg: SchedulerConfig): (t: real)
    requires |rates| > 0
    ensures t <= cfg.maxPrice
    ensures cfg.useBelowAverage ==> t <= DailyAverage(rates) && (t == DailyAverage(rates) || t == cfg.maxPrice)
    ensures !cfg.useBelowAverage ==> t == cfg.maxPrice
  {
    if cfg.useBelowAverage then
      (if DailyAverage(rates) <= cfg.maxPrice then DailyAverage(rates) else cfg.maxPrice)
    else cfg.maxPrice
  }

  /** A slot the filter lets through: its start hour is not blocked and its
      price does not exceed the threshold. */
  predicate Admissible(r: Rate, threshold: real, blocked: set<int>) {
    StartHour(r) !in blocked && r.price <= threshold
  }

  /** The eligible slots, in input order. */
  function Eligible(rates: seq<Rate>, threshold: real, blocked: set<int>): (r: seq<Rate>)
    ensures forall i :: 0 <= i < |r| ==> Admissible(r[i], threshold, blocked)
    ensures multiset(r) <= multiset(rates)
    ensures forall x :: multiset(r)[x] == if Admissible(x, threshold, blocked) then multiset(rates)[x] else 0
  {
    var p := (y: Rate) => Admissible(y, threshold, blocked);
    forall x ensures multiset(Filter(rates, p))[x] == if Admissible(x, threshold, blocked) then multiset(rates)[x] else 0 {
      FilterMultiplicity(rates, p, x);
    }
    Filter(rates, p)
  }

  /** The slot starts in the afternoon boost window, 14:00 to 16:00 UTC. */
  predicate IsAfternoon(r: Rate) {
    AfternoonStartHour <= StartHour(r) < AfternoonEndHour
  }

  /** `int(budget_hours * 2)`: the number of half-hour slots the budget buys. */
  function SlotsNeeded(budgetHours: real): (n: int)
    ensures budgetHours >= 0.0 ==> 0 <= n && n as real <= budgetHours * 2.0 < n as real + 1.0
  {
    TruncToInt(budgetHours * 2.0)
  }

  /** Step 1: the cheapest two eligible afternoon slots. */
  function AfternoonPicks(eligible: seq<Rate>): (r: seq<Rate>)
    ensures |r| == Min(AfternoonSlotsNeeded, |Filter(eligible, IsAfternoon)|)
    ensures multiset(r) <= multiset(Filter(eligible, IsAfternoon))
    ensures forall i :: 0 <= i < |r| ==> IsAfternoon(r[i])
  {
    var candidates := Filter(eligible, IsAfternoon);
    DrawnFromFilter(Cheapest(candidates, AfternoonSlotsNeeded), eligible, IsAfternoon);
    Cheapest(candidates, AfternoonSlotsNeeded)
  }

  function Min(a: int, b: int): int {
    if a <= b then a else b
  }

  function Max(a: int, b: int): int {
    if a >= b then a else b
  }

  /** `f"{s['valid_from']}" in selected_ids`: some pick starts at the same
      instant. */
  predicate SharesStart(picks: seq<Rate>, r: Rate) {
    exists i :: 0 <= i < |picks| && picks[i].validFrom == r.validFrom
  }

  /** The eligible slots whose start differs from every afternoon pick. */
  function Remaining(eligible: seq<Rate>, picks: seq<Rate>): (r: seq<Rate>)
    ensures forall i :: 0 <= i < |r| ==> !SharesStart(picks, r[i])
    ensures multiset(r) <= multiset(eligible)
  {
    Filter(eligible, (x: Rate) => !SharesStart(picks, x))
  }

  /** Step 2 as written: `remaining[:total - len(picks)]`, where a negative
      count is Python's "all but the last few". */
  function FillPicks(eligible: seq<Rate>, total: int): seq<Rate> {
    var picks := AfternoonPicks(eligible);
    Cheapest(Remaining(eligible, picks), total - |picks|)
  }

  /** Step 2 with the count clamped at zero, so that the afternoon boost is
      never followed by more filling than the budget leaves. */
  function FillPicksClamped(eligible: seq<Rate>, total: int): seq<Rate> {
    var picks := AfternoonPicks(eligible);
    Cheapest(Remaining(eligible, picks), Max(0, total - |picks|))
  }

  /** The eligible slots for the given rates and settings. */
  function EligibleFor(rates: seq<Rate>, cfg: SchedulerConfig): seq<Rate>
    requires |rates| > 0
  {
    Eligible(rates, Threshold(rates, cfg), cfg.blockedHours)
  }

  /** What a schedule must satisfy slot by slot: not in a blocked hour, not
      above the absolute cap, and, under the below-average rule, not above
      the mean of the supplied rates. */
  predicate Acceptable(rates: seq<Rate>, cfg: SchedulerConfig, r: Rate)
    requires |rates| > 0
  {
    StartHour(r) !in cfg.blockedHours
    && r.price <= cfg.maxPrice
    && (cfg.useBelowAverage ==> r.price <= DailyAverage(rates))
  }

  /** Combines the two steps, orders the result by start time and records
      it in the state. */
  function Finish(st: SchedulerState, rates: seq<Rate>, cfg: SchedulerConfig, now: int, fill: seq<Rate>): (r: Scheduled)
    requires |rates| > 0
    requires multiset(AfternoonPicks(EligibleFor(rates, cfg))) + multiset(fill) <= multiset(EligibleFor(rates, cfg))
    ensures r.state == st.(currentSchedule := r.slots, lastScheduleComputation := Some(now))
    ensures SortedBy(r.slots, StartOf)
    ensures multiset(r.slots) == multiset(AfternoonPicks(EligibleFor(rates, cfg))) + multiset(fill)
    ensures multiset(r.slots) <= multiset(rates)
    ensures forall i :: 0 <= i < |r.slots| ==> Acceptable(rates, cfg, r.slots[i])
  {
    var eligible := EligibleFor(rates, cfg);
    var slots := ByStart(AfternoonPicks(eligible) + fill);
    AllAcceptable(rates, cfg, slots);
    Scheduled(st.(currentSchedule := slots, lastScheduleComputation := Some(now)), slots)
  }

  lemma AllAcceptable(rates: seq<Rate>, cfg: SchedulerConfig, slots: seq<Rate>)
    requires |rates| > 0
    requires multiset(slots) <= multiset(EligibleFor(rates, cfg))
    ensures multiset(slots) <= multiset(rates)
    ensures forall i :: 0 <= i < |slots| ==> Acceptable(rates, cfg, slots[i])
  {
    var eligible := EligibleFor(rates, cfg);
    forall i | 0 <= i < |slots| ensures Acceptable(rates, cfg, slots[i]) {
      assert slots[i] in multiset(slots);
      assert slots[i] in eligible;
      var j :| 0 <= j < |eligible| && eligible[j] == slots[i];
      assert Admissible(eligible[j], Threshold(rates, cfg), cfg.blockedHours);
    }
  }

  /** `compute_optimal_slots`, as the source computes it. An empty rate list
      leaves the scheduler untouched and yields no slots; otherwise the
      result is stored as the current schedule, stamped with `now`. Every
      slot is one of the supplied rates, taken no more often than it occurs,
      and satisfies the blocking and price rules, and the slots are in
      chronological order. */
  function ComputeOptimalSlots(st: SchedulerState, rates: seq<Rate>, cfg: SchedulerConfig, now: int): (r: Scheduled)
    ensures |rates| == 0 ==> r == Scheduled(st, [])
    ensures |rates| > 0 ==>
      multiset(r.slots)
      == multiset(AfternoonPicks(EligibleFor(rates, cfg))) + multiset(FillPicks(EligibleFor(rates, cfg), SlotsNeeded(cfg.budgetHours)))
    ensures |rates| > 0 ==> r.state == st.(currentSchedule := r.slots, lastScheduleComputation := Some(now))
    ensures SortedBy(r.slots, StartOf)
    ensures multiset(r.slots) <= multiset(rates)
    ensures |rates| > 0 ==> forall i :: 0 <= i < |r.slots| ==> Acceptable(rates, cfg, r.slots[i])
  {
    if |rates| == 0 then Scheduled(st, [])
    else
      var eligible := EligibleFor(rates, cfg);
      var fill := FillPicks(eligible, SlotsNeeded(cfg.budgetHours));
      PicksDisjoint(eligible, SlotsNeeded(cfg.budgetHours) - |AfternoonPicks(eligible)|);
      Finish(st, rates, cfg, now, fill)
  }

  /** The same computation with the fill count clamped at zero. Besides
      everything `ComputeOptimalSlots` promises, it never schedules more
      slots than the larger of the budget and the afternoon boost. */
  function ComputeOptimalSlotsClamped(st: SchedulerState, rates: seq<Rate>, cfg: SchedulerConfig, now: int): (r: Scheduled)
    ensures |rates| == 0 ==> r == Scheduled(st, [])
    ensures |rates| > 0 ==>
      multiset(r.slots)
      == multiset(AfternoonPicks(EligibleFor(rates, cfg))) + multiset(FillPicksClamped(EligibleFor(rates, cfg), SlotsNeeded(cfg.budgetHours)))
    ensures |rates| > 0 ==> r.state == st.(currentSchedule := r.slots, lastScheduleComputation := Some(now))
    ensures SortedBy(r.slots, StartOf)
    ensures multiset(r.slots) <= multiset(rates)
    ensures |rates| > 0 ==> forall i :: 0 <= i < |r.slots| ==> Acceptable(rates, cfg, r.slots[i])
    ensures |r.slots| <= Max(SlotsNeeded(cfg.budgetHours), AfternoonSlotsNeeded)
  {
    if |rates| == 0 then Scheduled(st, [])
    else
      var eligible := EligibleFor(rates, cfg);
      var total := SlotsNeeded(cfg.budgetHours);
      var fill := FillPicksClamped(eligible, total);
      PicksDisjoint(eligible, Max(0, total - |AfternoonPicks(eligible)|));
      var r := Finish(st, rates, cfg, now, fill);
      ClampedCount(r.slots, eligible, total);
      r
  }

  /** A schedule made of the afternoon picks and the clamped fill has no
      more slots than the larger of the budget and the boost. */
  lemma ClampedCount(slots: seq<Rate>, eligible: seq<Rate>, total: int)
    requires multiset(slots) == multiset(AfternoonPicks(eligible)) + multiset(FillPicksClamped(eligible, total))
    ensures |slots| <= Max(total, AfternoonSlotsNeeded)
  {
    assert |slots| == |multiset(slots)|;
  }

  /** The afternoon picks and the fill never take the same slot twice: both
      together fit inside the eligible slots. */
  lemma PicksDisjoint(eligible: seq<Rate>, count: int)
    ensures multiset(AfternoonPicks(eligible)) + multiset(Cheapest(Remaining(eligible, AfternoonPicks(eligible)), count)) <= multiset(eligible)
  {
    var picks := AfternoonPicks(eligible);
    var remaining := Remaining(eligible, picks);
    var candidates := Filter(eligible, IsAfternoon);
    forall i | 0 <= i < |picks| ensures picks[i] !in multiset(remaining) {
      PickNotRemaining(picks, remaining, i);
    }
    DisjointWithin(picks, Cheapest(remaining, count), remaining, eligible);
  }

  lemma PickNotRemaining(picks: seq<Rate>, remaining: seq<Rate>, i: int)
    requires 0 <= i < |picks|
    requires forall k :: 0 <= k < |remaining| ==> !SharesStart(picks, remaining[k])
    ensures picks[i] !in multiset(remaining)
  {
    assert SharesStart(picks, picks[i]);
  }

  /** Two sub-multisets of `whole`, one of which avoids the part `rest`
      that holds the other, add up to at most `whole`. */
  lemma DisjointWithin(a: seq<Rate>, b: seq<Rate>, rest: seq<Rate>, whole: seq<Rate>)
    requires multiset(a) <= multiset(whole)
    requires multiset(b) <= multiset(rest) <= multiset(whole)
    requires forall i :: 0 <= i < |a| ==> a[i] !in multiset(rest)
    ensures multiset(a) + multiset(b) <= multiset(whole)
  {
    forall x | true ensures (multiset(a) + multiset(b))[x] <= multiset(whole)[x] {
      if x in a {
        var i :| 0 <= i < |a| && a[i] == x;
        assert multiset(b)[x] == 0;
      } else {
        assert multiset(a)[x] == 0;
      }
    }
  }

  // ---------------------------------------------------------------------
  // Polling for new rates

  /** Why `should_check_for_new_rates` answered as it did. */
  datatype CheckReason = InitialFetch | WindowDue | WindowWaiting | PeriodicDue | PeriodicWaiting

  datatype RateCheckDecision = RateCheckDecision(check: bool, reason: CheckReason)

  /** The hour of `now` lies in the rate publication window
      `[windowStart, windowEnd)`. */
  predicate InPublishWindow(now: int, windowStart: int, windowEnd: int) {
    windowStart <= HourOf(now) < windowEnd
  }

  /** How long after the last check the next one is due. */
  function RecheckInterval(now: int, windowStart: int, windowEnd: int): int {
    if InPublishWindow(now, windowStart, windowEnd) then WindowRecheckMs else PeriodicRecheckMs
  }

  /** `should_check_for_new_rates`: always on the very first call; after
      that, once at least the interval for the current side of the window
      has passed since the last recorded check. The reason names the branch. */
  function ShouldCheckForNewRates(st: SchedulerState, now: int, windowStart: int, windowEnd: int): (d: RateCheckDecision)
    ensures st.lastRateCheck.None? ==> d == RateCheckDecision(true, InitialFetch)
    ensures st.lastRateCheck.Some? ==>
      (d.check <==> now - st.lastRateCheck.value >= RecheckInterval(now, windowStart, windowEnd))
    ensures d.check <==> d.reason in {InitialFetch, WindowDue, PeriodicDue}
    ensures d.reason in {WindowDue, WindowWaiting} <==>
      st.lastRateCheck.Some? && InPublishWindow(now, windowStart, windowEnd)
  {
    match st.lastRateCheck
    case None => RateCheckDecision(true, InitialFetch)
    case Some(last) =>
      var elapsed := now - last;
      if windowStart <= HourOf(now) < windowEnd then
        if elapsed >= WindowRecheckMs then RateCheckDecision(true, WindowDue)
        else RateCheckDecision(false, WindowWaiting)
      else if elapsed >= PeriodicRecheckMs then RateCheckDecision(true, PeriodicDue)
      else RateCheckDecision(false, PeriodicWaiting)
  }

  /** `has_tomorrow_rates`: some rate starts on the calendar day after the
      day of `now`. */
  function HasTomorrowRates(rates: seq<Rate>, now: int): (b: bool)
    ensures b <==> exists i :: 0 <= i < |rates| && StartDay(rates[i]) == DayOf(now) + 1
  {
    assert DayOf(now + MsPerDay) == DayOf(now) + 1;
    exists i :: 0 <= i < |rates| && StartDay(rates[i]) == DayOf(now + MsPerDay)
  }

  // ---------------------------------------------------------------------
  // Bookkeeping flags

  /** `mark_rate_check`: records `now` as the last rate check and touches
      nothing else. */
  function MarkRateCheck(st: SchedulerState, now: int): (r: SchedulerState)
    ensures r.lastRateCheck == Some(now)
    ensures r.lastScheduleComputation == st.lastScheduleComputation
    ensures r.tomorrowScheduled == st.tomorrowScheduled && r.currentSchedule == st.currentSchedule
  {
    st.(lastRateCheck := Some(now))
  }

  /** `mark_tomorrow_scheduled`: raises the flag and touches nothing else. */
  function MarkTomorrowScheduled(st: SchedulerState): (r: SchedulerState)
    ensures r.tomorrowScheduled
    ensures r.lastScheduleComputation == st.lastScheduleComputation && r.lastRateCheck == st.lastRateCheck
    ensures r.currentSchedule == st.currentSchedule
  {
    st.(tomorrowScheduled := true)
  }

  /** `reset_daily_flags`: lowers the flag and touches nothing else. */
  function ResetDailyFlags(st: SchedulerState): (r: SchedulerState)
    ensures !r.tomorrowScheduled
    ensures r.lastScheduleComputation == st.lastScheduleComputation && r.lastRateCheck == st.lastRateCheck
    ensures r.currentSchedule == st.currentSchedule
  {
    st.(tomorrowScheduled := false)
  }

  /** What `get_schedule_for_display` hands to the UI; `computed_at` is the
      instant itself rather than its ISO-8601 text. */
  datatype ScheduleDisplay = ScheduleDisplay(slots: seq<Rate>, computedAt: Option<int>, slotCount: nat, totalHours: real)

  /** The current schedule with its size in slots and in hours (half an
      hour per slot). */
  function GetScheduleForDisplay(st: SchedulerState): (d: ScheduleDisplay)
    ensures d.slots == st.currentSchedule && d.computedAt == st.lastScheduleComputation
    ensures d.slotCount == |st.currentSchedule|
    ensures d.totalHours * 2.0 == d.slotCount as real
  {
    ScheduleDisplay(st.currentSchedule, st.lastScheduleComputation, |st.currentSchedule|, |st.currentSchedule| as real * 0.5)
  }
}
