/** The Octopus Agile rate client (ingestion/octopus_client.py; lines 1-86
    of the older octopus_client.py at the repository root are the same
    code). The HTTP request is an input: either it failed with a request
    exception or it produced a JSON body. Timestamp parsing
    (`datetime.fromisoformat`) is abstract: a field is `None` when it is
    missing or does not parse. */
module OctopusClient {
  import opened Wrappers
  import opened Seqs
  import opened Rates
  import opened Selection

  // ---------------------------------------------------------------------
  // get_rates

  /** One element of the API's `results`, with its three fields already
      read; `None` stands for a missing key or an unparsable timestamp. */
  datatype ApiRate = ApiRate(valueIncVat: Option<real>, validFrom: Option<int>, validTo: Option<int>)

  /** What `requests.get(...)` and `.json()` produced. A body without a
      `results` key has `results == None`. */
  datatype Response = RequestFailed | Fetched(results: Option<seq<ApiRate>>)

  /** The exception `get_rates` lets escape: a record that cannot be read
      (a `KeyError` or `ValueError`), at its index in `results`. */
  datatype RecordError = MalformedRecord(index: nat)

  /** The dict `get_rates` builds for one record. */
  function ParseRecord(a: ApiRate): (r: Option<Rate>)
    ensures r.Some? <==> a.valueIncVat.Some? && a.validFrom.Some? && a.validTo.Some?
    ensures r.Some? ==> r.value == Rate(a.valueIncVat.value, a.validFrom.value, a.validTo.value)
  {
    if a.valueIncVat.Some? && a.validFrom.Some? && a.validTo.Some? then
      Some(Rate(a.valueIncVat.value, a.validFrom.value, a.validTo.value))
    else None
  }

  /** The formatting loop: every record converted in order, or the index of
      the first one that raises. */
  function ParseAll(results: seq<ApiRate>): (r: Result<seq<Rate>, RecordError>)
    ensures r.Success? ==>
      (|r.value| == |results| && forall i :: 0 <= i < |results| ==> ParseRecord(results[i]) == Some(r.value[i]))
    ensures r.Failure? ==>
      (r.error.index < |results| && ParseRecord(results[r.error.index]).None?
       && forall j :: 0 <= j < r.error.index ==> ParseRecord(results[j]).Some?)
    decreases |results|
  {
    if |results| == 0 then Success([])
    else
      match ParseRecord(results[0])
      case None => Failure(MalformedRecord(0))
      case Some(rate) =>
        match ParseAll(results[1..])
        case Failure(MalformedRecord(i)) => Failure(MalformedRecord(i + 1))
        case Success(rest) => Success([rate] + rest)
  }

  /** `get_rates` after the request: a request exception gives no rates; a
      body gives all of its records, unfiltered, sorted by start; a record
      that cannot be read propagates as an error. */
  function GetRates(resp: Response): (r: Result<seq<Rate>, RecordError>)
    ensures resp.RequestFailed? ==> r == Success([])
    ensures resp.Fetched? ==> var results := resp.results.GetOr([]);
      (r.Failure? <==> exists i :: 0 <= i < |results| && ParseRecord(results[i]).None?)
      && (r.Success? ==> |r.value| == |results| && SortedBy(r.value, StartOf)
                         && multiset(r.value) == multiset(ParseAll(results).value))
  {
    match resp
    case RequestFailed => Success([])
    case Fetched(results) =>
      var parsed :- ParseAll(results.GetOr([]));
      Success(ByStart(parsed))
  }

  // ---------------------------------------------------------------------
  // find_cheapest_blocks and get_negative_rates

  /** `int(hours_needed * 2)`. */
  function SlotsFor(hoursNeeded: real): int {
    TruncToInt(hoursNeeded * 2.0)
  }

  /** `find_cheapest_blocks`: with fewer rates than slots needed the input
      comes back unchanged; otherwise the cheapest `int(hours * 2)` rates
      (Python's slice for a negative count), in chronological order. */
  function FindCheapestBlocks(rates: seq<Rate>, hoursNeeded: real): (r: seq<Rate>)
    ensures |rates| < SlotsFor(hoursNeeded) ==> r == rates
    ensures |rates| >= SlotsFor(hoursNeeded) ==>
      |r| == PySliceEnd(|rates|, SlotsFor(hoursNeeded))
      && SortedBy(r, StartOf)
      && multiset(r) == multiset(Cheapest(rates, SlotsFor(hoursNeeded)))
    ensures 0 <= SlotsFor(hoursNeeded) <= |rates| ==> |r| == SlotsFor(hoursNeeded)
    ensures multiset(r) <= multiset(rates)
  {
    var n := SlotsFor(hoursNeeded);
    if |rates| < n then rates
    else ByStart(Cheapest(rates, n))
  }

  /** `get_negative_rates`: the rates priced at or below the threshold
      (0.0 when not given), in input order. */
  function GetNegativeRates(rates: seq<Rate>, threshold: real := 0.0): (r: seq<Rate>)
    ensures forall i :: 0 <= i < |r| ==> r[i].price <= threshold
    ensures forall x :: multiset(r)[x] == if x.price <= threshold then multiset(rates)[x] else 0
  {
    var p := (x: Rate) => x.price <= threshold;
    forall x ensures multiset(Filter(rates, p))[x] == if x.price <= threshold then multiset(rates)[x] else 0 {
      FilterMultiplicity(rates, p, x);
    }
    Filter(rates, p)
  }

  // ---------------------------------------------------------------------
  // find_smart_daily_slots

  /** The calendar days of the rates' starts, each once, in the order they
      are first seen (the insertion order of the `day_rates` dict). */
  function DaysInOrder(rates: seq<Rate>): (days: seq<int>)
    ensures forall i, j :: 0 <= i < j < |days| ==> days[i] != days[j]
    ensures forall i :: 0 <= i < |rates| ==> StartDay(rates[i]) in days
    ensures forall k :: 0 <= k < |days| ==> exists i :: 0 <= i < |rates| && StartDay(rates[i]) == days[k]
    decreases |rates|
  {
    if |rates| == 0 then []
    else
      var front := rates[..|rates| - 1];
      var seen := DaysInOrder(front);
      var d := StartDay(rates[|rates| - 1]);
      assert forall k :: 0 <= k < |seen| ==> exists i :: 0 <= i < |rates| && StartDay(rates[i]) == seen[k] by {
        forall k | 0 <= k < |seen| ensures exists i :: 0 <= i < |rates| && StartDay(rates[i]) == seen[k] {
          var i :| 0 <= i < |front| && StartDay(front[i]) == seen[k];
          assert rates[i] == front[i];
        }
      }
      assert forall i :: 0 <= i < |front| ==> rates[i] == front[i];
      if d in seen then seen else seen + [d]
  }

  /** `day_rates[day]`: the rates starting on `day`, in input order. */
  function DayRates(rates: seq<Rate>, day: int): (r: seq<Rate>)
    ensures forall i :: 0 <= i < |r| ==> StartDay(r[i]) == day
    ensures forall x :: multiset(r)[x] == if StartDay(x) == day then multiset(rates)[x] else 0
  {
    var p := (x: Rate) => StartDay(x) == day;
    forall x ensures multiset(Filter(rates, p))[x] == if StartDay(x) == day then multiset(rates)[x] else 0 {
      FilterMultiplicity(rates, p, x);
    }
    Filter(rates, p)
  }

  /** The mean price of a day's rates (0.0 for a day without rates, which
      the grouping never produces). */
  function DayAverage(rates: seq<Rate>, day: int): real {
    var d := DayRates(rates, day);
    if |d| == 0 then 0.0 else MeanBy(d, PriceOf)
  }

  /** One day's selection: its rates priced at or below its own mean. */
  function DaySlots(rates: seq<Rate>, day: int): (r: seq<Rate>)
    ensures forall i :: 0 <= i < |r| ==> StartDay(r[i]) == day && r[i].price <= DayAverage(rates, day)
    ensures forall x ::
              multiset(r)[x] == if StartDay(x) == day && x.price <= DayAverage(rates, day) then multiset(rates)[x] else 0
  {
    var d := DayRates(rates, day);
    if |d| == 0 then []
    else
      var avg := MeanBy(d, PriceOf);
      var p := (x: Rate) => x.price <= avg;
      forall x ensures multiset(Filter(d, p))[x] == if p(x) then multiset(d)[x] else 0 {
        FilterMultiplicity(d, p, x);
      }
      DrawnFromFilter(Filter(d, p), d, p);
      DrawnFromFilter(Filter(d, p), rates, (x: Rate) => StartDay(x) == day);
      Filter(d, p)
  }

  /** The selections of the given days, concatenated in order. */
  function CollectDays(rates: seq<Rate>, days: seq<int>): seq<Rate>
    decreases |days|
  {
    if |days| == 0 then [] else DaySlots(rates, days[0]) + CollectDays(rates, days[1..])
  }

  /** `find_smart_daily_slots`: for each day, in first-seen order, the
      rates at or below that day's mean price. */
  function FindSmartDailySlots(rates: seq<Rate>): (r: seq<Rate>)
    ensures |rates| == 0 ==> r == []
  {
    if |rates| == 0 then [] else CollectDays(rates, DaysInOrder(rates))
  }
}
