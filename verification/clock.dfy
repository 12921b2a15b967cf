/** Calendar fields of an instant given as milliseconds since the Unix epoch,
    read in UTC (every datetime the controller and the clients handle is
    UTC-aware). Dafny's `/` and `%` with a positive divisor round towards
    negative infinity, which is what Python's `datetime` does for instants
    before the epoch as well. */
module Clock {

  const MsPerSecond: int := 1000
  const MsPerMinute: int := 60 * MsPerSecond
  const MsPerHour: int := 60 * MsPerMinute
  const MsPerDay: int := 24 * MsPerHour

  /** `datetime.hour` of the instant. */
  function HourOf(t: int): (h: int)
    ensures 0 <= h < 24
  {
    (t / MsPerHour) % 24
  }

  /** `datetime.minute` of the instant. */
  function MinuteOf(t: int): (m: int)
    ensures 0 <= m < 60
  {
    (t / MsPerMinute) % 60
  }

  /** `datetime.date()` of the instant, as a day number since the epoch. */
  function DayOf(t: int): int {
    t / MsPerDay
  }

  /** Two instants on the same calendar day are less than a day apart, and
      the day number never decreases as time goes on. */
  lemma DayOfMonotone(s: int, t: int)
    requires s <= t
    ensures DayOf(s) <= DayOf(t)
    ensures DayOf(s) == DayOf(t) ==> t - s < MsPerDay
  {
  }
}
