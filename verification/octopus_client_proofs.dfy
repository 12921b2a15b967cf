/** Properties of the rate client: what the cheapest-blocks selection
    leaves out, the order kept by the threshold filter, the characterisation
    of the per-day below-average selection and its grouping, and the
    sorting of fetched rates. The same functions model the older copy of
    the client at the repository root. */
module OctopusClientProofs {
  import opened Wrappers
  import opened Seqs
  import opened Rates
  import opened Selection
  import opened OctopusClient

  // ---------------------------------------------------------------------
  // get_rates

  /** A body whose records are already in chronological order comes back
      in exactly that order. */
  lemma GetRatesKeepsSortedFeed(results: seq<ApiRate>)
    requires ParseAll(results).Success?
    requires SortedBy(ParseAll(results).value, StartOf)
    ensures GetRates(Fetched(Some(results))) == Success(ParseAll(results).value)
  {
    SortBySorted(ParseAll(results).value, StartOf);
  }

  /** The error names the first unreadable record, so every record before
      it was converted. */
  lemma GetRatesFailsAtFirstBadRecord(results: seq<ApiRate>, i: nat)
    requires i < |results| && ParseRecord(results[i]).None?
    requires forall j :: 0 <= j < i ==> ParseRecord(results[j]).Some?
    ensures GetRates(Fetched(Some(results))) == Failure(MalformedRecord(i))
  {
    var r := ParseAll(results);
    assert r.Failure?;
  }

  // ---------------------------------------------------------------------
  // find_cheapest_blocks and get_negative_rates

  /** No rate left out of the cheapest blocks is cheaper than one chosen. */
  lemma CheapestBlocksOptimal(rates: seq<Rate>, hoursNeeded: real, x: Rate, y: Rate)
    requires |rates| >= SlotsFor(hoursNeeded)
    requires multiset(FindCheapestBlocks(rates, hoursNeeded))[x] < multiset(rates)[x]
    requires y in FindCheapestBlocks(rates, hoursNeeded)
    ensures y.price <= x.price
  {
    var n := SlotsFor(hoursNeeded);
    var c := Cheapest(rates, n);
    assert y in multiset(FindCheapestBlocks(rates, hoursNeeded));
    assert y in multiset(c);
    LeftOutIsDearer(rates, n, x, y);
  }

  /** The threshold filter keeps input order: filtering a concatenation is
      concatenating the filtered parts. */
  lemma NegativeRatesKeepOrder(a: seq<Rate>, b: seq<Rate>, threshold: real)
    ensures GetNegativeRates(a + b, threshold) == GetNegativeRates(a, threshold) + GetNegativeRates(b, threshold)
  {
    FilterConcat(a, b, (x: Rate) => x.price <= threshold);
  }

  // ---------------------------------------------------------------------
  // find_smart_daily_slots

  /** The position of `d` in `days` (`|days|` when absent). */
  function IndexOf(days: seq<int>, d: int): (k: nat)
    ensures k <= |days|
    ensures k < |days| ==> days[k] == d
    ensures d in days ==> k < |days|
    decreases |days|
  {
    if |days| == 0 then 0
    else if days[0] == d then 0
    else 1 + IndexOf(days[1..], d)
  }

  ghost predicate Distinct(days: seq<int>) {
    forall i, j :: 0 <= i < j < |days| ==> days[i] != days[j]
  }

  /** A rate occurs in the collected selection of distinct days exactly as
      often as in the input when its day is among them and it is at or
      below that day's mean, and otherwise not at all. */
  lemma {:induction false} CollectMultiplicity(rates: seq<Rate>, days: seq<int>, x: Rate)
    requires Distinct(days)
    ensures multiset(CollectDays(rates, days))[x]
         == if StartDay(x) in days && x.price <= DayAverage(rates, StartDay(x)) then multiset(rates)[x] else 0
    decreases |days|
  {
    if |days| > 0 {
      assert Distinct(days[1..]);
      CollectMultiplicity(rates, days[1..], x);
      assert StartDay(x) in days <==> StartDay(x) == days[0] || StartDay(x) in days[1..];
      if StartDay(x) == days[0] {
        assert StartDay(x) !in days[1..];
      }
    }
  }

  /** `find_smart_daily_slots` picks every rate that is at or below the mean
      price of its own day, as often as it occurs, and nothing else. */
  lemma SmartSlotsCharacterised(rates: seq<Rate>, x: Rate)
    ensures multiset(FindSmartDailySlots(rates))[x]
         == if x.price <= DayAverage(rates, StartDay(x)) then multiset(rates)[x] else 0
  {
    if |rates| > 0 {
      var days := DaysInOrder(rates);
      CollectMultiplicity(rates, days, x);
      if x in rates {
        var i :| 0 <= i < |rates| && rates[i] == x;
        assert StartDay(rates[i]) in days;
      }
    }
  }

  /** Every slot chosen starts on a day it is cheap for. */
  lemma SmartSlotsBelowDayMean(rates: seq<Rate>, i: int)
    requires 0 <= i < |FindSmartDailySlots(rates)|
    ensures FindSmartDailySlots(rates)[i] in rates
    ensures FindSmartDailySlots(rates)[i].price <= DayAverage(rates, StartDay(FindSmartDailySlots(rates)[i]))
  {
    var x := FindSmartDailySlots(rates)[i];
    SmartSlotsCharacterised(rates, x);
    assert x in multiset(FindSmartDailySlots(rates));
  }

  /** The collected selection lists its days' slots one day after another,
      in the order of `days`. */
  lemma {:induction false} CollectGrouped(rates: seq<Rate>, days: seq<int>)
    requires Distinct(days)
    ensures GroupedBy(CollectDays(rates, days), days)
    decreases |days|
  {
    if |days| > 0 {
      assert Distinct(days[1..]);
      CollectGrouped(rates, days[1..]);
      GroupedCons(DaySlots(rates, days[0]), CollectDays(rates, days[1..]), days);
    }
  }

  /** Every element's day is listed, and the days' positions never go
      down along the sequence. */
  ghost predicate GroupedBy(r: seq<Rate>, days: seq<int>) {
    && (forall i :: 0 <= i < |r| ==> StartDay(r[i]) in days)
    && (forall i, j :: 0 <= i < j < |r| ==> IndexOf(days, StartDay(r[i])) <= IndexOf(days, StartDay(r[j])))
  }

  /** Putting the first day's slots in front of the later days' keeps the
      grouping. */
  lemma GroupedCons(head: seq<Rate>, tail: seq<Rate>, days: seq<int>)
    requires |days| > 0 && Distinct(days)
    requires forall i :: 0 <= i < |head| ==> StartDay(head[i]) == days[0]
    requires GroupedBy(tail, days[1..])
    ensures GroupedBy(head + tail, days)
  {
    var r := head + tail;
    forall i | 0 <= i < |tail| ensures StartDay(tail[i]) in days && IndexOf(days, StartDay(tail[i])) == 1 + IndexOf(days[1..], StartDay(tail[i])) {
      TailIndex(days, StartDay(tail[i]));
    }
    forall i | 0 <= i < |r| ensures StartDay(r[i]) in days && (i < |head| ==> IndexOf(days, StartDay(r[i])) == 0)
                               && (i >= |head| ==> IndexOf(days, StartDay(r[i])) >= 1) {
      if i >= |head| {
        assert r[i] == tail[i - |head|];
      } else {
        assert r[i] == head[i];
      }
    }
    forall i, j | 0 <= i < j < |r| ensures IndexOf(days, StartDay(r[i])) <= IndexOf(days, StartDay(r[j])) {
      if i >= |head| {
        assert r[i] == tail[i - |head|] && r[j] == tail[j - |head|];
      }
    }
  }

  /** A day listed after the first has its position shifted by one. */
  lemma TailIndex(days: seq<int>, d: int)
    requires |days| > 0 && Distinct(days) && d in days[1..]
    ensures d in days && d != days[0]
    ensures IndexOf(days, d) == 1 + IndexOf(days[1..], d)
  {
    var k :| 0 <= k < |days[1..]| && days[1..][k] == d;
    assert days[k + 1] == d;
  }

  /** The selection is grouped by day, days in the order the input first
      mentions them. */
  lemma SmartSlotsGroupedByDay(rates: seq<Rate>, i: int, j: int)
    requires 0 <= i < j < |FindSmartDailySlots(rates)|
    ensures IndexOf(DaysInOrder(rates), StartDay(FindSmartDailySlots(rates)[i]))
         <= IndexOf(DaysInOrder(rates), StartDay(FindSmartDailySlots(rates)[j]))
  {
    CollectGrouped(rates, DaysInOrder(rates));
    assert FindSmartDailySlots(rates) == CollectDays(rates, DaysInOrder(rates));
  }

  /** Days are listed in first-seen order: reading more rates only appends
      new days, so the days of any prefix of the input come first. */
  lemma {:induction false} DaysPrefix(rates: seq<Rate>, n: nat)
    requires n <= |rates|
    ensures DaysInOrder(rates[..n]) <= DaysInOrder(rates)
    decreases |rates| - n
  {
    if n < |rates| {
      var front := rates[..|rates| - 1];
      DaysPrefix(front, n);
      assert front[..n] == rates[..n];
    } else {
      assert rates[..n] == rates;
    }
  }
}
