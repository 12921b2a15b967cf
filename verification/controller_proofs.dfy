/** Properties of the heater controller across loop iterations. */
module ControllerProofs {
  import opened Wrappers
  import opened Clock
  import opened Rates
  import opened SmartScheduler
  import opened Controller

  /** What one iteration does to the cooldown and the idle counter, in
      the three cases the loop distinguishes. */
  lemma TankOutcome(s: ControllerState, cfg: ControllerConfig, inp: LoopInputs)
    ensures var r := ControlLoop(s, cfg, inp);
      var cooling := s.cooldownUntil.Some? && inp.now < s.cooldownUntil.value;
      var inSlot := IsInSlot(inp.offPeakSlots, inp.now).Some?;
      if cooling then
        r.state.cooldownUntil == s.cooldownUntil && r.state.lowPowerCount == s.lowPowerCount && !r.offPeakTarget
      else if !inSlot then
        r.state.cooldownUntil.None? && r.state.lowPowerCount == s.lowPowerCount && !r.offPeakTarget
      else
        var t := TankCheck(s.(cooldownUntil := None), inp.now, inp.power, cfg.blockedHours);
        r.state.cooldownUntil == t.0.cooldownUntil && r.state.lowPowerCount == t.0.lowPowerCount
        && r.offPeakTarget == t.1
  {
  }

  /** The idle counter never reaches the confirmation count: reaching it
      starts the cooldown and resets the counter. */
  lemma CounterStaysBelowRequired(s: ControllerState, cfg: ControllerConfig, inp: LoopInputs)
    requires s.lowPowerCount < LowPowerReadingsRequired
    ensures ControlLoop(s, cfg, inp).state.lowPowerCount < LowPowerReadingsRequired
  {
    TankOutcome(s, cfg, inp);
  }

  /** An idle reading outside the grace period during an active slot. */
  predicate IdleReading(cfg: ControllerConfig, inp: LoopInputs) {
    IsInSlot(inp.offPeakSlots, inp.now).Some?
    && inp.power.Some? && inp.power.value < LowPowerThreshold
    && !InGrace(inp.now, cfg.blockedHours)
  }

  /** Three idle readings in a row confirm a full tank: the first two keep
      the heater on, the third switches it off for ninety minutes. */
  lemma ThreeIdleReadingsStartCooldown(s: ControllerState, cfg: ControllerConfig, a: LoopInputs, b: LoopInputs, c: LoopInputs)
    requires s.cooldownUntil.None? && s.lowPowerCount == 0
    requires IdleReading(cfg, a) && IdleReading(cfg, b) && IdleReading(cfg, c)
    ensures var r1 := ControlLoop(s, cfg, a);
      var r2 := ControlLoop(r1.state, cfg, b);
      var r3 := ControlLoop(r2.state, cfg, c);
      r1.offPeakTarget && r2.offPeakTarget && !r3.offPeakTarget
      && r3.state.cooldownUntil == Some(c.now + CooldownMs) && r3.state.lowPowerCount == 0
  {
    var r1 := ControlLoop(s, cfg, a);
    TankOutcome(s, cfg, a);
    assert r1.state.cooldownUntil.None? && r1.state.lowPowerCount == 1;
    var r2 := ControlLoop(r1.state, cfg, b);
    TankOutcome(r1.state, cfg, b);
    assert r2.state.cooldownUntil.None? && r2.state.lowPowerCount == 2;
    TankOutcome(r2.state, cfg, c);
  }

  /** A reading at normal draw clears the idle count, so idle readings must
      be consecutive to count. */
  lemma NormalDrawResetsCount(s: ControllerState, cfg: ControllerConfig, inp: LoopInputs)
    requires s.cooldownUntil.None?
    requires IsInSlot(inp.offPeakSlots, inp.now).Some?
    requires inp.power.Some? && inp.power.value >= LowPowerThreshold
    ensures ControlLoop(s, cfg, inp).state.lowPowerCount == 0
    ensures ControlLoop(s, cfg, inp).offPeakTarget
  {
    TankOutcome(s, cfg, inp);
  }

  /** In the grace period after a blocked hour, a mechanical timer may have
      cut the supply: an idle reading clears the count instead of adding. */
  lemma GraceIdleResetsCount(s: ControllerState, cfg: ControllerConfig, inp: LoopInputs)
    requires s.cooldownUntil.None?
    requires IsInSlot(inp.offPeakSlots, inp.now).Some?
    requires inp.power.Some? && inp.power.value < LowPowerThreshold
    requires InGrace(inp.now, cfg.blockedHours)
    ensures ControlLoop(s, cfg, inp).state.lowPowerCount == 0
    ensures ControlLoop(s, cfg, inp).offPeakTarget
  {
    TankOutcome(s, cfg, inp);
  }

  /** A failed power reading leaves the count alone and the heater on. */
  lemma MissingReadingKeepsHeating(s: ControllerState, cfg: ControllerConfig, inp: LoopInputs)
    requires s.cooldownUntil.None?
    requires IsInSlot(inp.offPeakSlots, inp.now).Some?
    requires inp.power.None?
    ensures ControlLoop(s, cfg, inp).state.lowPowerCount == s.lowPowerCount
    ensures ControlLoop(s, cfg, inp).offPeakTarget
  {
    TankOutcome(s, cfg, inp);
  }

  /** While the cooldown runs the off-peak heater is off, whatever its
      slots and the power reading say, and the cooldown stays. */
  lemma CooldownHoldsHeaterOff(s: ControllerState, cfg: ControllerConfig, inp: LoopInputs)
    requires s.cooldownUntil.Some? && inp.now < s.cooldownUntil.value
    ensures !ControlLoop(s, cfg, inp).offPeakTarget
    ensures ControlLoop(s, cfg, inp).state.cooldownUntil == s.cooldownUntil
    ensures ControlLoop(s, cfg, inp).state.cooldownMode
  {
    TankOutcome(s, cfg, inp);
  }

  /** Once the cooldown has run out, the heater follows its slots again:
      at normal draw in a slot it is switched on. */
  lemma CooldownExpires(s: ControllerState, cfg: ControllerConfig, inp: LoopInputs)
    requires s.cooldownUntil.Some? && inp.now >= s.cooldownUntil.value
    requires IsInSlot(inp.offPeakSlots, inp.now).Some?
    requires inp.power.Some? && inp.power.value >= LowPowerThreshold
    ensures ControlLoop(s, cfg, inp).offPeakTarget
    ensures ControlLoop(s, cfg, inp).state.cooldownUntil.None?
    ensures !ControlLoop(s, cfg, inp).state.cooldownMode
  {
    TankOutcome(s, cfg, inp);
  }

  /** A live command that succeeded settles the cache: repeating the same
      target sends nothing. */
  lemma ApplySettles(e: CacheEntry, target: bool, result: TuyaResult, result2: TuyaResult)
    requires result == OtherResult || target
    ensures var a := ApplyDeviceState(e, target, false, result);
      ApplyDeviceState(a.entry, target, false, result2).command.None?
  {
  }

  /** When the quota is exhausted the cache says ON, so a switch-off is
      sent again on the next iteration. */
  lemma QuotaRetriesSwitchOff(e: CacheEntry, result2: TuyaResult)
    requires e.state != Off
    ensures var a := ApplyDeviceState(e, false, false, QuotaExceeded);
      a.command == Some(false) && ApplyDeviceState(a.entry, false, false, result2).command == Some(false)
  {
  }

  /** After a health check the cache agrees with the device: a target the
      device already has sends nothing, and a device that could not be
      read is commanded whatever the target. */
  lemma HealthCheckThenApply(status: DeviceStatus, target: bool, result: TuyaResult)
    ensures status.StatusOk? && status.isOn == target ==>
      ApplyDeviceState(HealthEntry(status), target, false, result).command.None?
    ensures status == StatusFailed ==>
      ApplyDeviceState(HealthEntry(status), target, false, result).command == Some(target)
  {
  }

  /** With both device ids unset they compare equal, so the off-peak
      decision is checked against the peak heater's cache entry: an
      off-peak heater cached as ON is not switched off. */
  lemma UnsetIdsShareEntry(s: ControllerState, dryRun: bool, blocked: set<int>, inp: LoopInputs)
    requires IsInSlot(inp.peakSlots, inp.now).None? && IsInSlot(inp.offPeakSlots, inp.now).None?
    requires s.peak == CacheEntry(true, Off) && s.offPeak == CacheEntry(true, On)
    ensures var r := ControlLoop(s, ControllerConfig(dryRun, blocked, None, None), inp);
      !r.offPeakTarget && r.state.offPeak.state == On && r.offPeakCommand.None?
  {
  }

  /** The advertised next check is when the scheduler next finds a check
      due, provided the publication window is on the same side then. */
  lemma NextCheckIsDue(st: SchedulerState, now: int, windowStart: int, windowEnd: int)
    requires InPublishWindow(now, windowStart, windowEnd) ==
             InPublishWindow(NextCheckInstant(now, windowStart, windowEnd), windowStart, windowEnd)
    ensures ShouldCheckForNewRates(MarkRateCheck(st, now), NextCheckInstant(now, windowStart, windowEnd), windowStart, windowEnd).check
    ensures forall t ::
      (now <= t < NextCheckInstant(now, windowStart, windowEnd)
       && InPublishWindow(t, windowStart, windowEnd) == InPublishWindow(now, windowStart, windowEnd)) ==>
        !ShouldCheckForNewRates(MarkRateCheck(st, now), t, windowStart, windowEnd).check
  {
  }

  /** Near the end of the window the advertised time is early: a check at
      19:50 in a 16:00-20:00 window advertises 20:05, when the two-hour
      interval applies and no check is due. */
  lemma NextCheckAtWindowEnd(st: SchedulerState)
    ensures NextScheduleCheckTime(19 * MsPerHour + 50 * MsPerMinute, 16, 20) == ClockTime(20, 5)
    ensures !ShouldCheckForNewRates(MarkRateCheck(st, 19 * MsPerHour + 50 * MsPerMinute),
                                    20 * MsPerHour + 5 * MsPerMinute, 16, 20).check
  {
    var now := 19 * MsPerHour + 50 * MsPerMinute;
    assert HourOf(now) == 19;
    var t := 20 * MsPerHour + 5 * MsPerMinute;
    assert HourOf(t) == 20 && MinuteOf(t) == 5;
  }
}
