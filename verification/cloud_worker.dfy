/** The recording decision of the Shelly cloud worker
    (ingestion/cloud_worker.py): which emeter readings become database
    rows, and the per-channel tracker of the last reading. The Shelly and
    database calls are left out; the fetched status is an input. */
module CloudWorker {
  import opened Wrappers

  /** One emeter of the device status (a missing field reads as 0.0). */
  datatype Emeter = Emeter(power: real, voltage: real, total: real)

  /** The row inserted for a recorded reading; `createdAt` is the poll's
      UTC instant. */
  datatype Row = Row(channel: nat, powerW: real, voltage: real, energyTotalWh: real, createdAt: int)

  /** `last_readings`, keyed by channel index. */
  type Tracker = map<nat, Emeter>

  /** The power last seen on a channel, `None` before its first reading. */
  function LastPower(tracker: Tracker, idx: nat): (p: Option<real>)
    ensures p.Some? <==> idx in tracker
    ensures p.Some? ==> p.value == tracker[idx].power
  {
    if idx in tracker then Some(tracker[idx].power) else None
  }

  /** `should_record`: the first reading of a channel, any reading with
      power, and the reading that sees the power drop from positive to
      exactly zero. */
  function ShouldRecord(lastPower: Option<real>, power: real): (b: bool)
    ensures lastPower.None? ==> b
    ensures power > 0.0 ==> b
    ensures lastPower.Some? && power <= 0.0 ==> (b <==> lastPower.value > 0.0 && power == 0.0)
  {
    if lastPower.None? then true
    else if power > 0.0 then true
    else lastPower.value > 0.0 && power == 0.0
  }

  function RowFor(idx: nat, e: Emeter, now: int): (r: Row)
    ensures r.channel == idx && r.powerW == e.power && r.voltage == e.voltage && r.energyTotalWh == e.total
  {
    Row(idx, e.power, e.voltage, e.total, now)
  }

  /** True when some row is for `idx`. */
  predicate HasChannel(rows: seq<Row>, idx: nat) {
    exists i :: 0 <= i < |rows| && rows[i].channel == idx
  }

  /** The rows of the emeters from index `from` on, in index order. */
  function RowsFrom(tracker: Tracker, emeters: seq<Emeter>, now: int, from: nat): (rows: seq<Row>)
    requires from <= |emeters|
    ensures forall i :: 0 <= i < |rows| ==>
      from <= rows[i].channel < |emeters| && rows[i] == RowFor(rows[i].channel, emeters[rows[i].channel], now)
    ensures forall i, j :: 0 <= i < j < |rows| ==> rows[i].channel < rows[j].channel
    decreases |emeters| - from
  {
    if from == |emeters| then []
    else
      var rest := RowsFrom(tracker, emeters, now, from + 1);
      if ShouldRecord(LastPower(tracker, from), emeters[from].power) then [RowFor(from, emeters[from], now)] + rest
      else rest
  }

  /** A channel has a row exactly when its reading passes `ShouldRecord`. */
  lemma {:induction false} RowsFromChannels(tracker: Tracker, emeters: seq<Emeter>, now: int, from: nat, idx: nat)
    requires from <= idx < |emeters|
    ensures HasChannel(RowsFrom(tracker, emeters, now, from), idx) <==> ShouldRecord(LastPower(tracker, idx), emeters[idx].power)
    decreases |emeters| - from
  {
    var rows := RowsFrom(tracker, emeters, now, from);
    var rest := RowsFrom(tracker, emeters, now, from + 1);
    var record := ShouldRecord(LastPower(tracker, from), emeters[from].power);
    if idx == from {
      if record {
        assert rows[0].channel == idx;
      } else {
        assert rows == rest;
        forall i | 0 <= i < |rows| ensures rows[i].channel != idx { }
      }
    } else {
      RowsFromChannels(tracker, emeters, now, from + 1, idx);
      if record {
        assert rows == [RowFor(from, emeters[from], now)] + rest;
        if HasChannel(rest, idx) {
          var i :| 0 <= i < |rest| && rest[i].channel == idx;
          assert rows[i + 1].channel == idx;
        }
        if HasChannel(rows, idx) {
          var i :| 0 <= i < |rows| && rows[i].channel == idx;
          assert i > 0 && rest[i - 1].channel == idx;
        }
      } else {
        assert rows == rest;
      }
    }
  }

  /** Every emeter of the status, by index, as the new tracker entries. */
  function UpdateTracker(tracker: Tracker, emeters: seq<Emeter>): (t: Tracker)
    ensures forall idx :: 0 <= idx < |emeters| ==> idx in t && t[idx] == emeters[idx]
    ensures forall k :: k in tracker && k >= |emeters| ==> k in t && t[k] == tracker[k]
    ensures forall k :: k in t ==> k in tracker || k < |emeters|
  {
    tracker + map idx: nat | idx < |emeters| :: emeters[idx]
  }

  /** `process_reading` after the status fetch: no status (a failed fetch or
      an empty dict) changes nothing; otherwise every channel's tracker is
      overwritten with its reading and the readings that pass
      `ShouldRecord` against the previous tracker become rows, in channel
      order. */
  function ProcessReading(tracker: Tracker, status: Option<seq<Emeter>>, now: int): (r: (Tracker, seq<Row>))
    ensures status.None? ==> r == (tracker, [])
    ensures status.Some? ==> r.0 == UpdateTracker(tracker, status.value)
    ensures forall i :: 0 <= i < |r.1| ==>
      r.1[i].channel < |status.GetOr([])| && r.1[i] == RowFor(r.1[i].channel, status.value[r.1[i].channel], now)
    ensures forall i, j :: 0 <= i < j < |r.1| ==> r.1[i].channel < r.1[j].channel
    ensures forall idx :: 0 <= idx < |status.GetOr([])| ==>
      (HasChannel(r.1, idx) <==> ShouldRecord(LastPower(tracker, idx), status.value[idx].power))
  {
    match status
    case None => (tracker, [])
    case Some(emeters) =>
      var rows := RowsFrom(tracker, emeters, now, 0);
      forall idx | 0 <= idx < |emeters|
        ensures HasChannel(rows, idx) <==> ShouldRecord(LastPower(tracker, idx), emeters[idx].power)
      {
        RowsFromChannels(tracker, emeters, now, 0, idx);
      }
      (UpdateTracker(tracker, emeters), rows)
  }

  /** The tracker after the loop has handled the channels below `n`. */
  function TrackerUpTo(tracker: Tracker, emeters: seq<Emeter>, n: nat): Tracker
    requires n <= |emeters|
  {
    tracker + map k: nat | k < n :: emeters[k]
  }

  /** Handling channel `n` overwrites its entry, which the loop has not
      yet touched. */
  lemma TrackerStep(tracker: Tracker, emeters: seq<Emeter>, n: nat)
    requires n < |emeters|
    ensures LastPower(TrackerUpTo(tracker, emeters, n), n) == LastPower(tracker, n)
    ensures TrackerUpTo(tracker, emeters, n)[n := emeters[n]] == TrackerUpTo(tracker, emeters, n + 1)
  {
  }

  /** One more channel of rows. */
  lemma RowsStep(tracker: Tracker, emeters: seq<Emeter>, now: int, n: nat)
    requires n < |emeters|
    ensures RowsFrom(tracker, emeters, now, n)
      == (if ShouldRecord(LastPower(tracker, n), emeters[n].power) then [RowFor(n, emeters[n], now)] else [])
         + RowsFrom(tracker, emeters, now, n + 1)
  {
  }

  /** The loop ends with every channel in the tracker. */
  lemma TrackerDone(tracker: Tracker, emeters: seq<Emeter>)
    ensures TrackerUpTo(tracker, emeters, |emeters|) == UpdateTracker(tracker, emeters)
  {
  }

  /** One iteration of the loop: channel `idx` is compared against the
      tracker as the loop has left it, then overwritten, and its row, if
      any, is appended. */
  method HandleChannel(tracker: Tracker, emeters: seq<Emeter>, now: int, idx: nat, current: Tracker, recorded: seq<Row>)
    returns (next: Tracker, recordedNext: seq<Row>)
    requires idx < |emeters|
    requires current == TrackerUpTo(tracker, emeters, idx)
    requires recorded + RowsFrom(tracker, emeters, now, idx) == RowsFrom(tracker, emeters, now, 0)
    ensures next == TrackerUpTo(tracker, emeters, idx + 1)
    ensures recordedNext + RowsFrom(tracker, emeters, now, idx + 1) == RowsFrom(tracker, emeters, now, 0)
  {
    TrackerStep(tracker, emeters, idx);
    RowsStep(tracker, emeters, now, idx);
    var lastPower := LastPower(current, idx);
    var record := ShouldRecord(lastPower, emeters[idx].power);
    next := current[idx := emeters[idx]];
    ghost var rest := RowsFrom(tracker, emeters, now, idx + 1);
    if record {
      var row := RowFor(idx, emeters[idx], now);
      assert (recorded + [row]) + rest == recorded + ([row] + rest);
      recordedNext := recorded + [row];
    } else {
      assert [] + rest == rest;
      recordedNext := recorded;
    }
  }

  /** The loop of `process_reading` as written: reads the tracker as it is
      being updated, one channel at a time. */
  method ProcessReadingLoop(tracker: Tracker, status: Option<seq<Emeter>>, now: int)
    returns (newTracker: Tracker, rows: seq<Row>)
    ensures (newTracker, rows) == ProcessReading(tracker, status, now)
  {
    if status.None? {
      return tracker, [];
    }
    var emeters := status.value;
    newTracker := tracker;
    var recorded: seq<Row> := [];
    var idx := 0;
    assert newTracker == TrackerUpTo(tracker, emeters, 0);
    while idx < |emeters|
      invariant 0 <= idx <= |emeters|
      invariant newTracker == TrackerUpTo(tracker, emeters, idx)
      invariant recorded + RowsFrom(tracker, emeters, now, idx) == RowsFrom(tracker, emeters, now, 0)
    {
      newTracker, recorded := HandleChannel(tracker, emeters, now, idx, newTracker, recorded);
      idx := idx + 1;
    }
    TrackerDone(tracker, emeters);
    assert recorded + [] == recorded;
    rows := recorded;
  }
}
