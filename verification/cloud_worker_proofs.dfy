/** The worker's recording across successive polls. */
module CloudWorkerProofs {
  import opened Wrappers
  import opened CloudWorker

  /** A channel seen for the first time is always recorded. */
  lemma FirstObservationRecorded(tracker: Tracker, emeters: seq<Emeter>, now: int, idx: nat)
    requires idx < |emeters| && idx !in tracker
    ensures HasChannel(ProcessReading(tracker, Some(emeters), now).1, idx)
  {
  }

  /** Across two polls of a channel with non-negative power, the second
      reading is skipped exactly when both readings are zero: a heater that
      stays off leaves no rows, while its switching off is recorded once. */
  lemma SecondPollRecordsUnlessStillOff(tracker: Tracker, first: seq<Emeter>, second: seq<Emeter>, now1: int, now2: int, idx: nat)
    requires idx < |first| && idx < |second|
    requires first[idx].power >= 0.0 && second[idx].power >= 0.0
    ensures var t := ProcessReading(tracker, Some(first), now1).0;
      HasChannel(ProcessReading(t, Some(second), now2).1, idx) <==> first[idx].power > 0.0 || second[idx].power > 0.0
  {
    var t := ProcessReading(tracker, Some(first), now1).0;
    assert LastPower(t, idx) == Some(first[idx].power);
  }

  /** A failed or empty status leaves the tracker as it was, so the next
      poll compares against the reading before the gap. */
  lemma GapKeepsTracker(tracker: Tracker, first: seq<Emeter>, now1: int, now2: int, idx: nat)
    requires idx < |first|
    ensures var t := ProcessReading(tracker, Some(first), now1).0;
      var t2 := ProcessReading(t, None, now2).0;
      LastPower(t2, idx) == Some(first[idx].power)
  {
  }

  /** A negative reading after a positive one is neither "on" nor the
      exact zero of switching off, so it is skipped. */
  lemma NegativeAfterOnSkipped()
    ensures !ShouldRecord(Some(2000.0), -1.0)
  {
  }
}
