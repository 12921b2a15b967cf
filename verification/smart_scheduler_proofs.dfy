/** Properties of the smart scheduler: the size of the schedule, the
    afternoon boost, the cheapness of the fill, the over-budget behaviour of
    a negative fill count, and how polling relates to the recorded checks. */
module SmartSchedulerProofs {
  import opened Wrappers
  import opened Seqs
  import opened Clock
  import opened Rates
  import opened Selection
  import opened SmartScheduler

  // ---------------------------------------------------------------------
  // Size of the schedule

  /** A sub-multiset is no larger. */
  lemma SubMultisetCard(a: multiset<Rate>, b: multiset<Rate>)
    requires a <= b
    ensures |a| <= |b|
  {
    assert b == a + (b - a);
  }

  /** As written: the schedule is the afternoon picks plus Python's
      `remaining[:total - len(picks)]`. When the budget covers the picks this
      is at most the budget; when it does not, the negative count keeps all
      remaining candidates but the dearest few. */
  lemma SlotCount(st: SchedulerState, rates: seq<Rate>, cfg: SchedulerConfig, now: int)
    requires |rates| > 0
    ensures var eligible := EligibleFor(rates, cfg);
            var picks := AfternoonPicks(eligible);
            var total := SlotsNeeded(cfg.budgetHours);
            var remaining := Remaining(eligible, picks);
            var n := |ComputeOptimalSlots(st, rates, cfg, now).slots|;
            n == |picks| + PySliceEnd(|remaining|, total - |picks|)
            && (total >= |picks| ==> n <= total)
            && (total < |picks| ==> n == |picks| + Max(0, |remaining| - (|picks| - total)))
  {
    var eligible := EligibleFor(rates, cfg);
    var picks := AfternoonPicks(eligible);
    var total := SlotsNeeded(cfg.budgetHours);
    var fill := FillPicks(eligible, total);
    var slots := ComputeOptimalSlots(st, rates, cfg, now).slots;
    assert |multiset(slots)| == |multiset(picks) + multiset(fill)|;
  }

  /** Corrected: with the count clamped at zero the schedule holds the
      afternoon picks and then as many fill slots as the budget leaves, as
      far as the candidates go; so it is exactly the larger of the budget
      and the boost whenever there are enough candidates. */
  lemma ClampedSlotCount(st: SchedulerState, rates: seq<Rate>, cfg: SchedulerConfig, now: int)
    requires |rates| > 0
    ensures var eligible := EligibleFor(rates, cfg);
            var picks := AfternoonPicks(eligible);
            var total := SlotsNeeded(cfg.budgetHours);
            var remaining := Remaining(eligible, picks);
            var n := |ComputeOptimalSlotsClamped(st, rates, cfg, now).slots|;
            n == |picks| + Min(|remaining|, Max(0, total - |picks|))
            && n <= Max(total, |picks|)
            && (|remaining| >= total - |picks| ==> n == Max(total, |picks|))
  {
    var eligible := EligibleFor(rates, cfg);
    var picks := AfternoonPicks(eligible);
    var total := SlotsNeeded(cfg.budgetHours);
    var fill := FillPicksClamped(eligible, total);
    var slots := ComputeOptimalSlotsClamped(st, rates, cfg, now).slots;
    assert |multiset(slots)| == |multiset(picks) + multiset(fill)|;
  }

  // ---------------------------------------------------------------------
  // What is picked

  /** The afternoon boost: the schedule holds at least two afternoon slots,
      or every eligible afternoon slot when there are fewer. */
  lemma AfternoonBoost(st: SchedulerState, rates: seq<Rate>, cfg: SchedulerConfig, now: int)
    requires |rates| > 0
    ensures var n := CountBy(Filter(EligibleFor(rates, cfg), IsAfternoon), (r: Rate) => true);
            CountBy(ComputeOptimalSlots(st, rates, cfg, now).slots, IsAfternoon) >= Min(AfternoonSlotsNeeded, n)
            && CountBy(ComputeOptimalSlotsClamped(st, rates, cfg, now).slots, IsAfternoon) >= Min(AfternoonSlotsNeeded, n)
  {
    var eligible := EligibleFor(rates, cfg);
    var candidates := Filter(eligible, IsAfternoon);
    FilterAll(candidates, (r: Rate) => true);
    var picks := AfternoonPicks(eligible);
    PicksInside(picks, ComputeOptimalSlots(st, rates, cfg, now).slots);
    PicksInside(picks, ComputeOptimalSlotsClamped(st, rates, cfg, now).slots);
  }

  /** Afternoon slots contained in a schedule are counted by its afternoon
      filter. */
  lemma PicksInside(picks: seq<Rate>, slots: seq<Rate>)
    requires forall i :: 0 <= i < |picks| ==> IsAfternoon(picks[i])
    requires multiset(picks) <= multiset(slots)
    ensures |picks| <= CountBy(slots, IsAfternoon)
  {
    var kept := Filter(slots, IsAfternoon);
    forall x ensures multiset(picks)[x] <= multiset(kept)[x] {
      FilterMultiplicity(slots, IsAfternoon, x);
      if x in picks {
        var i :| 0 <= i < |picks| && picks[i] == x;
      }
    }
    SubMultisetCard(multiset(picks), multiset(kept));
  }

  /** The fill never repeats an afternoon pick's start time. */
  lemma FillAvoidsAfternoonStarts(eligible: seq<Rate>, total: int, i: int, j: int)
    requires 0 <= i < |FillPicks(eligible, total)| && 0 <= j < |AfternoonPicks(eligible)|
    ensures FillPicks(eligible, total)[i].validFrom != AfternoonPicks(eligible)[j].validFrom
  {
    var picks := AfternoonPicks(eligible);
    var remaining := Remaining(eligible, picks);
    var fill := Cheapest(remaining, total - |picks|);
    assert FillPicks(eligible, total) == fill;
    CheapestFromInput(remaining, total - |picks|, i);
    assert fill[i] in remaining;
    assert !SharesStart(picks, fill[i]);
  }

  /** The afternoon picks are the cheapest afternoon candidates: a candidate
      not taken (as often as it occurs) is no cheaper than any pick. */
  lemma AfternoonPicksCheapest(eligible: seq<Rate>, x: Rate, y: Rate)
    requires multiset(AfternoonPicks(eligible))[x] < multiset(Filter(eligible, IsAfternoon))[x]
    requires y in AfternoonPicks(eligible)
    ensures y.price <= x.price
  {
    LeftOutIsDearer(Filter(eligible, IsAfternoon), AfternoonSlotsNeeded, x, y);
  }

  /** The fill is the cheapest of the rest: an eligible slot that does not
      share a start with an afternoon pick and is left out of the schedule
      is no cheaper than any slot the fill took. */
  lemma FillIsCheapest(st: SchedulerState, rates: seq<Rate>, cfg: SchedulerConfig, now: int, x: Rate, y: Rate)
    requires |rates| > 0
    requires !SharesStart(AfternoonPicks(EligibleFor(rates, cfg)), x)
    requires multiset(ComputeOptimalSlots(st, rates, cfg, now).slots)[x] < multiset(EligibleFor(rates, cfg))[x]
    requires y in FillPicks(EligibleFor(rates, cfg), SlotsNeeded(cfg.budgetHours))
    ensures y.price <= x.price
  {
    var eligible := EligibleFor(rates, cfg);
    var total := SlotsNeeded(cfg.budgetHours);
    NotPicked(AfternoonPicks(eligible), x);
    FillCheapestAmong(eligible, total, x, y);
  }

  /** The fill step on given eligible slots: a slot it leaves out, and that
      no afternoon pick took, costs at least as much as every fill pick. */
  lemma FillCheapestAmong(eligible: seq<Rate>, total: int, x: Rate, y: Rate)
    requires !SharesStart(AfternoonPicks(eligible), x)
    requires multiset(FillPicks(eligible, total))[x] < multiset(eligible)[x]
    requires y in FillPicks(eligible, total)
    ensures y.price <= x.price
  {
    var picks := AfternoonPicks(eligible);
    var remaining := Remaining(eligible, picks);
    var k := total - |picks|;
    FillPicksIs(eligible, total);
    RemainingKeeps(eligible, picks, x);
    var fill := Cheapest(remaining, k);
    assert fill == FillPicks(eligible, total);
    assert multiset(fill)[x] == multiset(FillPicks(eligible, total))[x];
    LeftOutIsDearer(remaining, k, x, y);
  }

  /** The fill step is the cheapest of the remaining slots. */
  lemma FillPicksIs(eligible: seq<Rate>, total: int)
    ensures FillPicks(eligible, total)
            == Cheapest(Remaining(eligible, AfternoonPicks(eligible)), total - |AfternoonPicks(eligible)|)
  {
  }

  /** A slot that shares no start with the picks is not among them. */
  lemma NotPicked(picks: seq<Rate>, x: Rate)
    requires !SharesStart(picks, x)
    ensures multiset(picks)[x] == 0
  {
    forall i | 0 <= i < |picks| ensures picks[i] != x {
      assert picks[i].validFrom != x.validFrom;
    }
  }

  /** A slot that shares no start with the picks stays a fill candidate as
      often as it is eligible. */
  lemma RemainingKeeps(eligible: seq<Rate>, picks: seq<Rate>, x: Rate)
    requires !SharesStart(picks, x)
    ensures multiset(Remaining(eligible, picks))[x] == multiset(eligible)[x]
  {
    FilterMultiplicity(eligible, (r: Rate) => !SharesStart(picks, r), x);
  }

  /** Under the below-average rule the cheapest rate is never above the
      mean, so unless its hour is blocked or it exceeds the absolute cap it
      is always eligible: the eligible set cannot be emptied by the
      average alone. */
  lemma CheapestRateEligible(rates: seq<Rate>, cfg: SchedulerConfig)
    requires |rates| > 0
    requires StartHour(ByPrice(rates)[0]) !in cfg.blockedHours
    requires ByPrice(rates)[0].price <= cfg.maxPrice
    ensures ByPrice(rates)[0] in EligibleFor(rates, cfg)
  {
    var c := ByPrice(rates)[0];
    CheapestBelowMean(rates);
    var k := FirstCheapest(rates);
    FilterKeeps(rates, (x: Rate) => Admissible(x, Threshold(rates, cfg), cfg.blockedHours), k);
  }

  /** Where the cheapest rate sits in the input. */
  lemma FirstCheapest(rates: seq<Rate>) returns (k: int)
    requires |rates| > 0
    ensures 0 <= k < |rates| && rates[k] == ByPrice(rates)[0]
  {
    var sorted := ByPrice(rates);
    assert sorted[0] in multiset(sorted);
    k :| 0 <= k < |rates| && rates[k] == sorted[0];
  }

  /** The cheapest rate is at most the mean price. */
  lemma CheapestBelowMean(rates: seq<Rate>)
    requires |rates| > 0
    ensures ByPrice(rates)[0].price <= DailyAverage(rates)
  {
    CheapestIsLowest(rates);
    LowerBoundBelowMean(rates, ByPrice(rates)[0].price);
  }

  /** A lower bound of every price is a lower bound of the mean. */
  lemma LowerBoundBelowMean(rates: seq<Rate>, lo: real)
    requires |rates| > 0
    requires forall i :: 0 <= i < |rates| ==> lo <= PriceOf(rates[i])
    ensures lo <= DailyAverage(rates)
  {
    SumLowerBound(rates, PriceOf, lo);
    BelowMean(lo, SumBy(rates, PriceOf), |rates| as real);
  }

  lemma CheapestIsLowest(rates: seq<Rate>)
    requires |rates| > 0
    ensures forall i :: 0 <= i < |rates| ==> ByPrice(rates)[0].price <= PriceOf(rates[i])
  {
    var sorted := ByPrice(rates);
    forall i | 0 <= i < |rates| ensures sorted[0].price <= PriceOf(rates[i]) {
      assert rates[i] in multiset(sorted);
      var j :| 0 <= j < |sorted| && sorted[j] == rates[i];
      assert PriceOf(sorted[0]) <= PriceOf(sorted[j]);
    }
  }

  lemma BelowMean(lo: real, sum: real, n: real)
    requires n > 0.0 && lo * n <= sum
    ensures lo <= sum / n
  {
  }

  // ---------------------------------------------------------------------
  // A schedule over budget

  /** Two afternoon slots (14:00 and 14:30) and two night slots (02:00 and
      03:00) on the first day of the epoch. */
  const A := Rate(1.0, 50400000, 52200000)
  const B := Rate(1.0, 52200000, 54000000)
  const C := Rate(2.0, 7200000, 9000000)
  const D := Rate(3.0, 10800000, 12600000)

  lemma Hours()
    ensures IsAfternoon(A) && IsAfternoon(B) && !IsAfternoon(C) && !IsAfternoon(D)
  {
    assert MsPerHour == 3600000;
    assert 52200000 / 3600000 == 14;
  }

  lemma AfternoonOfExample()
    ensures multiset(Filter([A, B, C, D], IsAfternoon)) == multiset{A, B}
  {
    Hours();
    forall x ensures multiset(Filter([A, B, C, D], IsAfternoon))[x] == multiset{A, B}[x] {
      FilterMultiplicity([A, B, C, D], IsAfternoon, x);
    }
  }

  lemma RemainingOfExample(picks: seq<Rate>)
    requires multiset(picks) == multiset{A, B}
    ensures multiset(Remaining([A, B, C, D], picks)) == multiset{C, D}
  {
    StartsOfExample(picks);
    KeepsNightSlots((x: Rate) => !SharesStart(picks, x));
  }

  /** Picks made of the two afternoon slots share their starts and no
      other. */
  lemma StartsOfExample(picks: seq<Rate>)
    requires multiset(picks) == multiset{A, B}
    ensures SharesStart(picks, A) && SharesStart(picks, B)
    ensures !SharesStart(picks, C) && !SharesStart(picks, D)
  {
    assert A in multiset(picks) && B in multiset(picks);
    forall i | 0 <= i < |picks| ensures picks[i] == A || picks[i] == B {
      assert picks[i] in multiset(picks);
    }
  }

  /** A filter that drops the afternoon slots and keeps the night ones. */
  lemma KeepsNightSlots(p: Rate -> bool)
    requires !p(A) && !p(B) && p(C) && p(D)
    ensures multiset(Filter([A, B, C, D], p)) == multiset{C, D}
  {
    assert [D][1..] == [] && [C, D][1..] == [D];
    assert [B, C, D][1..] == [C, D] && [A, B, C, D][1..] == [B, C, D];
    assert Filter([D], p) == [D];
    assert Filter([C, D], p) == [C, D];
    assert Filter([B, C, D], p) == [C, D];
    assert Filter([A, B, C, D], p) == [C, D];
  }

  /** As written, a half-hour budget with two cheap afternoon slots and two
      night slots heats three slots: the fill count is 1 - 2 = -1 and
      `remaining[:-1]` keeps the cheaper night slot. */
  lemma OverBudgetExample()
    ensures |ComputeOptimalSlots(Initial, [A, B, C, D], SchedulerConfig(0.5, 100.0, false, {}), 0).slots| == 3
    ensures Max(SlotsNeeded(0.5), AfternoonSlotsNeeded) == 2
  {
    var rates := [A, B, C, D];
    var cfg := SchedulerConfig(0.5, 100.0, false, {});
    EligibleOfExample(cfg);
    PicksOfExample();
    var picks := AfternoonPicks(rates);
    RemainingOfExample(picks);
    var remaining := Remaining(rates, picks);
    assert |remaining| == 2 by { assert |multiset(remaining)| == 2; }
    assert SlotsNeeded(0.5) == 1;
    var slots := ComputeOptimalSlots(Initial, rates, cfg, 0).slots;
    assert |multiset(slots)| == |multiset(picks)| + |multiset(FillPicks(rates, 1))|;
  }

  /** Nothing in the example is blocked or above the cap. */
  lemma EligibleOfExample(cfg: SchedulerConfig)
    requires cfg.blockedHours == {} && !cfg.useBelowAverage && cfg.maxPrice == 100.0
    ensures EligibleFor([A, B, C, D], cfg) == [A, B, C, D]
  {
    var rates := [A, B, C, D];
    FilterAll(rates, (x: Rate) => Admissible(x, Threshold(rates, cfg), cfg.blockedHours));
  }

  /** The boost takes both afternoon slots. */
  lemma PicksOfExample()
    ensures multiset(AfternoonPicks([A, B, C, D])) == multiset{A, B}
  {
    var rates := [A, B, C, D];
    AfternoonOfExample();
    var cands := Filter(rates, IsAfternoon);
    assert |cands| == 2 by { assert |multiset(cands)| == 2; }
    var picks := AfternoonPicks(rates);
    CheapestSplit(cands, 2);
    assert multiset(picks) + multiset(Passed(cands, 2)) == multiset{A, B};
    assert |Passed(cands, 2)| == 0;
  }

  /** With the count clamped, the same input heats only the afternoon boost. */
  lemma ClampedExample()
    ensures |ComputeOptimalSlotsClamped(Initial, [A, B, C, D], SchedulerConfig(0.5, 100.0, false, {}), 0).slots| == 2
  {
    var rates := [A, B, C, D];
    var cfg := SchedulerConfig(0.5, 100.0, false, {});
    EligibleOfExample(cfg);
    AfternoonOfExample();
    var cands := Filter(rates, IsAfternoon);
    assert |cands| == 2 by { assert |multiset(cands)| == 2; }
    assert SlotsNeeded(0.5) == 1;
  }

  // ---------------------------------------------------------------------
  // Polling, flags and display

  /** Right after a check is recorded no new check is due for fifteen
      minutes, whichever side of the publication window the clock is on. */
  lemma NoRecheckRightAfterMark(st: SchedulerState, now: int, t: int, windowStart: int, windowEnd: int)
    requires now <= t < now + WindowRecheckMs
    ensures !ShouldCheckForNewRates(MarkRateCheck(st, now), t, windowStart, windowEnd).check
  {
  }

  /** Two hours after the last recorded check a check is always due; inside
      the window fifteen minutes suffice. */
  lemma RecheckEventuallyDue(st: SchedulerState, now: int, t: int, windowStart: int, windowEnd: int)
    requires t >= now + WindowRecheckMs
    ensures t >= now + PeriodicRecheckMs ==> ShouldCheckForNewRates(MarkRateCheck(st, now), t, windowStart, windowEnd).check
    ensures InPublishWindow(t, windowStart, windowEnd) ==> ShouldCheckForNewRates(MarkRateCheck(st, now), t, windowStart, windowEnd).check
  {
  }

  /** Resetting the daily flag undoes marking it, and marking undoes
      resetting; neither disturbs the rate-check record. */
  lemma FlagsRoundTrip(st: SchedulerState)
    ensures ResetDailyFlags(MarkTomorrowScheduled(st)) == ResetDailyFlags(st)
    ensures MarkTomorrowScheduled(ResetDailyFlags(st)) == MarkTomorrowScheduled(st)
    ensures !st.tomorrowScheduled ==> ResetDailyFlags(st) == st
    ensures st.tomorrowScheduled ==> MarkTomorrowScheduled(st) == st
  {
  }

  /** A rate starting exactly one day after `now` counts as tomorrow's. */
  lemma RateADayAheadIsTomorrow(rates: seq<Rate>, now: int, i: int)
    requires 0 <= i < |rates| && rates[i].validFrom == now + MsPerDay
    ensures HasTomorrowRates(rates, now)
  {
    assert StartDay(rates[i]) == DayOf(now) + 1;
  }

  /** After a computation the display shows the new schedule, stamped with
      the computation time. When the budget covers the afternoon boost, the
      display never shows more hours than the budget buys; otherwise the
      as-written fill can exceed it (see `OverBudgetDisplay`). */
  lemma DisplayAfterCompute(st: SchedulerState, rates: seq<Rate>, cfg: SchedulerConfig, now: int)
    requires |rates| > 0
    ensures var r := ComputeOptimalSlots(st, rates, cfg, now);
            var d := GetScheduleForDisplay(r.state);
            d.slots == r.slots && d.computedAt == Some(now) && d.slotCount == |r.slots|
    ensures var r := ComputeOptimalSlots(st, rates, cfg, now);
            var d := GetScheduleForDisplay(r.state);
            SlotsNeeded(cfg.budgetHours) >= |AfternoonPicks(EligibleFor(rates, cfg))| ==>
              d.totalHours * 2.0 <= SlotsNeeded(cfg.budgetHours) as real
              && (cfg.budgetHours >= 0.0 ==> d.totalHours <= cfg.budgetHours)
  {
    var r := ComputeOptimalSlots(st, rates, cfg, now);
    var eligible := EligibleFor(rates, cfg);
    var picks := AfternoonPicks(eligible);
    var fill := FillPicks(eligible, SlotsNeeded(cfg.budgetHours));
    assert |r.slots| == |picks| + |fill| by {
      assert |multiset(r.slots)| == |multiset(picks) + multiset(fill)|;
    }
  }

  /** With the fill count clamped, the display never shows more hours than
      the larger of the budget and the one-hour boost. */
  lemma DisplayAfterComputeClamped(st: SchedulerState, rates: seq<Rate>, cfg: SchedulerConfig, now: int)
    requires |rates| > 0 && cfg.budgetHours >= 0.0
    ensures var r := ComputeOptimalSlotsClamped(st, rates, cfg, now);
            var d := GetScheduleForDisplay(r.state);
            d.slots == r.slots && d.computedAt == Some(now)
            && d.totalHours <= (if cfg.budgetHours >= 1.0 then cfg.budgetHours else 1.0)
  {
  }

  /** The over-budget input of `OverBudgetExample` displays an hour and a
      half against a half-hour budget. */
  lemma OverBudgetDisplay()
    ensures GetScheduleForDisplay(ComputeOptimalSlots(Initial, [A, B, C, D], SchedulerConfig(0.5, 100.0, false, {}), 0).state).totalHours == 1.5
  {
    OverBudgetExample();
  }
}
