/** The heater controller of ingestion/main.py: slot membership, the smart
    cooldown with its "tank full" detection, the device-command decision
    against the cached switch state, and the health-check status mapping.
    The clock, the Shelly power reading and the Tuya responses are inputs;
    instants are UTC milliseconds. */
module Controller {
  import opened Wrappers
  import opened Clock
  import opened Rates
  import opened SmartScheduler

  /** Below this draw (watts) the off-peak heater counts as idle. */
  const LowPowerThreshold: real := 10.0
  /** Consecutive idle readings that confirm a full tank. */
  const LowPowerReadingsRequired: nat := 3
  /** How long a confirmed full tank keeps the off-peak heater off. */
  const CooldownMs: int := 90 * MsPerMinute
  /** The grace period after a blocked hour: its first half hour. */
  const GraceMinutes: int := 30

  /** The cached switch state ("ON", "OFF", "UNKNOWN"). */
  datatype SwitchState = On | Off | Unknown

  /** One heater's entry in `system_state`. */
  datatype CacheEntry = CacheEntry(online: bool, state: SwitchState)

  const InitialEntry: CacheEntry := CacheEntry(false, Unknown)

  /** The two cache keys. */
  datatype HeaterKey = PeakHeater | OffPeakHeater

  /** The controller's mutable fields that the loop reads or writes. */
  datatype ControllerState = ControllerState(
    cooldownUntil: Option<int>,
    lowPowerCount: nat,
    peak: CacheEntry,
    offPeak: CacheEntry,
    cooldownMode: bool,
    cooldownUntilShown: Option<int>)

  const InitialController: ControllerState :=
    ControllerState(None, 0, InitialEntry, InitialEntry, false, None)

  /** Settings the loop consults: dry-run mode, the blocked hours and the two
      Tuya device ids (`None` when unset). */
  datatype ControllerConfig = ControllerConfig(
    dryRun: bool,
    blockedHours: set<int>,
    mainId: Option<string>,
    secondId: Option<string>)

  /** What a Tuya `turn_on`/`turn_off` call returned: a dict flagging an
      exhausted quota, or anything else. */
  datatype TuyaResult = QuotaExceeded | OtherResult

  /** The world as one loop iteration sees it. */
  datatype LoopInputs = LoopInputs(
    now: int,
    peakSlots: seq<Rate>,
    offPeakSlots: seq<Rate>,
    power: Option<real>,
    peakResult: TuyaResult,
    offPeakResult: TuyaResult)

  function Entry(s: ControllerState, key: HeaterKey): CacheEntry {
    if key == PeakHeater then s.peak else s.offPeak
  }

  function WithEntry(s: ControllerState, key: HeaterKey, e: CacheEntry): ControllerState {
    if key == PeakHeater then s.(peak := e) else s.(offPeak := e)
  }

  // ---------------------------------------------------------------------
  // Slot membership

  /** `is_in_slot`: the first slot covering `t`, if any. */
  function IsInSlot(slots: seq<Rate>, t: int): (r: Option<Rate>)
    ensures r.Some? <==> exists i :: 0 <= i < |slots| && Covers(slots[i], t)
    ensures r.Some? ==>
      exists i :: (0 <= i < |slots| && slots[i] == r.value && Covers(slots[i], t)
                   && forall j :: 0 <= j < i ==> !Covers(slots[j], t))
    decreases |slots|
  {
    if |slots| == 0 then None
    else if Covers(slots[0], t) then Some(slots[0])
    else
      var r := IsInSlot(slots[1..], t);
      assert forall i :: 0 < i < |slots| ==> slots[i] == slots[1..][i - 1];
      r
  }

  // ---------------------------------------------------------------------
  // Device commands

  /** What `apply_device_state` did: the target it sent, if it sent one. */
  datatype Applied = Applied(entry: CacheEntry, command: Option<bool>)

  /** `apply_device_state` on one cache entry: a command goes out when the
      cached state is unknown or differs from the target, even for a
      device cached as offline; in dry-run mode nothing is sent and the
      cache stays; otherwise the cache records the target, or ON when the
      quota is exhausted. The online flag is never touched. */
  function ApplyDeviceState(e: CacheEntry, target: bool, dryRun: bool, result: TuyaResult): (r: Applied)
    ensures r.entry.online == e.online
    ensures dryRun ==> r == Applied(e, None)
    ensures !dryRun ==> (r.command.Some? <==> e.state == Unknown || (e.state == On) != target)
    ensures r.command.Some? ==> r.command.value == target
    ensures r.command.None? && !dryRun ==> r.entry == e
    ensures r.command.Some? ==> r.entry.state == (if result == QuotaExceeded || target then On else Off)
  {
    var isOn := e.state == On;
    if isOn != target || e.state == Unknown then
      if dryRun then Applied(e, None)
      else
        var newState := if result == QuotaExceeded then On else if target then On else Off;
        Applied(e.(state := newState), Some(target))
    else Applied(e, None)
  }

  /** `"peak_heater" if device_id == Config.TUYA_DEVICE_ID_MAIN else
      "off_peak_heater"`. */
  function KeyFor(deviceId: Option<string>, mainId: Option<string>): HeaterKey {
    if deviceId == mainId then PeakHeater else OffPeakHeater
  }

  /** `apply_device_state` on the controller: picks the entry by device id. */
  function ApplyTo(s: ControllerState, cfg: ControllerConfig, deviceId: Option<string>, target: bool, result: TuyaResult): (r: (ControllerState, Option<bool>))
    ensures deviceId == cfg.mainId ==>
              var a := ApplyDeviceState(s.peak, target, cfg.dryRun, result);
              r.0 == s.(peak := a.entry) && r.1 == a.command
    ensures deviceId != cfg.mainId ==>
              var a := ApplyDeviceState(s.offPeak, target, cfg.dryRun, result);
              r.0 == s.(offPeak := a.entry) && r.1 == a.command
  {
    var key := KeyFor(deviceId, cfg.mainId);
    var a := ApplyDeviceState(Entry(s, key), target, cfg.dryRun, result);
    (WithEntry(s, key, a.entry), a.command)
  }

  // ---------------------------------------------------------------------
  // The control loop

  /** Lines 182-191: the UI flag is raised while the cooldown runs; once it
      has run out it is cleared. */
  function ExpireCooldown(s: ControllerState, now: int): (r: ControllerState)
    ensures r.cooldownMode <==> s.cooldownUntil.Some? && now < s.cooldownUntil.value
    ensures r.cooldownUntil == (if r.cooldownMode then s.cooldownUntil else None)
    ensures r.lowPowerCount == s.lowPowerCount && r.peak == s.peak && r.offPeak == s.offPeak
    ensures r.cooldownMode ==> r.cooldownUntilShown == s.cooldownUntil
    ensures s.cooldownUntil.Some? && !r.cooldownMode ==> r.cooldownUntilShown == None
    ensures s.cooldownUntil.None? ==> r.cooldownUntilShown == s.cooldownUntilShown
  {
    var s1 := s.(cooldownMode := false);
    match s.cooldownUntil
    case None => s1
    case Some(until) =>
      if now < until then s1.(cooldownMode := true, cooldownUntilShown := Some(until))
      else s1.(cooldownUntil := None, cooldownUntilShown := None)
  }

  /** The mechanical-timer grace period: the previous hour was blocked and
      the current half hour is its first. */
  predicate InGrace(now: int, blocked: set<int>) {
    (HourOf(now) - 1) % 24 in blocked && MinuteOf(now) < GraceMinutes
  }

  /** Lines 211-239, run while a heating slot is active and no cooldown is
      set: returns the new state and whether the heater stays on. */
  function TankCheck(s: ControllerState, now: int, power: Option<real>, blocked: set<int>): (r: (ControllerState, bool))
    requires s.cooldownUntil.None?
    ensures r.0.peak == s.peak && r.0.offPeak == s.offPeak
    ensures r.0.cooldownMode == s.cooldownMode && r.0.cooldownUntilShown == s.cooldownUntilShown
    ensures power.None? ==> r == (s, true)
    ensures power.Some? && power.value >= LowPowerThreshold ==> r == (s.(lowPowerCount := 0), true)
    ensures power.Some? && power.value < LowPowerThreshold && InGrace(now, blocked) ==> r == (s.(lowPowerCount := 0), true)
    ensures power.Some? && power.value < LowPowerThreshold && !InGrace(now, blocked) ==>
      (if s.lowPowerCount + 1 >= LowPowerReadingsRequired
       then r == (s.(cooldownUntil := Some(now + CooldownMs), lowPowerCount := 0), false)
       else r == (s.(lowPowerCount := s.lowPowerCount + 1), true))
  {
    match power
    case None => (s, true)
    case Some(w) =>
      if InGrace(now, blocked) && w < LowPowerThreshold then (s.(lowPowerCount := 0), true)
      else if w < LowPowerThreshold then
        var count := s.lowPowerCount + 1;
        if count >= LowPowerReadingsRequired then
          (s.(cooldownUntil := Some(now + CooldownMs), lowPowerCount := 0), false)
        else (s.(lowPowerCount := count), true)
      else (s.(lowPowerCount := 0), true)
  }

  /** What one iteration decided, with the commands it sent to the peak and
      off-peak devices. */
  datatype LoopResult = LoopResult(
    state: ControllerState,
    peakTarget: bool,
    offPeakTarget: bool,
    peakCommand: Option<bool>,
    offPeakCommand: Option<bool>)

  /** `control_loop`. The peak heater follows its slots; the off-peak heater
      follows its slots unless a cooldown runs or the tank check confirms a
      full tank. */
  function ControlLoop(s: ControllerState, cfg: ControllerConfig, inp: LoopInputs): (r: LoopResult)
    ensures r.peakTarget == IsInSlot(inp.peakSlots, inp.now).Some?
    ensures r.offPeakTarget ==> IsInSlot(inp.offPeakSlots, inp.now).Some?
    ensures r.offPeakTarget ==> r.state.cooldownUntil.None?
    ensures r.state.cooldownUntil.Some? ==> !r.offPeakTarget
    ensures r.state.cooldownMode <==> s.cooldownUntil.Some? && inp.now < s.cooldownUntil.value
  {
    var s1 := ExpireCooldown(s, inp.now);
    var activePeak := IsInSlot(inp.peakSlots, inp.now).Some?;
    var (s2, peakCommand) := ApplyTo(s1, cfg, cfg.mainId, activePeak, inp.peakResult);
    var inSlot := IsInSlot(inp.offPeakSlots, inp.now).Some?;
    var (s3, activeOffPeak) :=
      if inSlot && s2.cooldownUntil.Some? then (s2, false)
      else if inSlot then TankCheck(s2, inp.now, inp.power, cfg.blockedHours)
      else (s2, false);
    var (s4, offPeakCommand) := ApplyTo(s3, cfg, cfg.secondId, activeOffPeak, inp.offPeakResult);
    LoopResult(s4, activePeak, activeOffPeak, peakCommand, offPeakCommand)
  }

  // ---------------------------------------------------------------------
  // Health check and next-check time

  /** What `tuya.get_status` returned: a quota-exhausted dict, a successful
      status, or anything else (None, an error, `success` false). */
  datatype DeviceStatus = StatusQuotaExceeded | StatusOk(online: bool, isOn: bool) | StatusFailed

  /** The health-check update of one cache entry. */
  function HealthEntry(status: DeviceStatus): (e: CacheEntry)
    ensures status == StatusQuotaExceeded ==> e == CacheEntry(true, On)
    ensures status.StatusOk? ==> e.online == status.online && (e.state == On <==> status.isOn) && e.state != Unknown
    ensures status == StatusFailed ==> e == CacheEntry(false, Unknown)
  {
    match status
    case StatusQuotaExceeded => CacheEntry(true, On)
    case StatusOk(online, isOn) => CacheEntry(online, if isOn then On else Off)
    case StatusFailed => CacheEntry(false, Unknown)
  }

  /** `not dev_id`: no id configured, or an empty one. */
  predicate Unconfigured(id: Option<string>) {
    id.None? || id.value == ""
  }

  /** `perform_health_check`: each configured device's entry is replaced
      by what its status says; an unconfigured device's entry stays. */
  function PerformHealthCheck(s: ControllerState, cfg: ControllerConfig, peakStatus: DeviceStatus, offPeakStatus: DeviceStatus): (r: ControllerState)
    ensures r.peak == (if Unconfigured(cfg.mainId) then s.peak else HealthEntry(peakStatus))
    ensures r.offPeak == (if Unconfigured(cfg.secondId) then s.offPeak else HealthEntry(offPeakStatus))
    ensures r.cooldownUntil == s.cooldownUntil && r.lowPowerCount == s.lowPowerCount
    ensures r.cooldownMode == s.cooldownMode && r.cooldownUntilShown == s.cooldownUntilShown
  {
    var s1 := if Unconfigured(cfg.mainId) then s else s.(peak := HealthEntry(peakStatus));
    if Unconfigured(cfg.secondId) then s1 else s1.(offPeak := HealthEntry(offPeakStatus))
  }

  /** `_get_next_schedule_check_time` before formatting: fifteen minutes on
      inside the publication window, two hours on outside it. */
  function NextCheckInstant(now: int, windowStart: int, windowEnd: int): (t: int)
    ensures t - now == RecheckInterval(now, windowStart, windowEnd)
  {
    if windowStart <= HourOf(now) < windowEnd then now + 15 * MsPerMinute else now + 2 * MsPerHour
  }

  /** The "%H:%M" fields of the next check time. */
  datatype ClockTime = ClockTime(hour: int, minute: int)

  function NextScheduleCheckTime(now: int, windowStart: int, windowEnd: int): (c: ClockTime)
    ensures 0 <= c.hour < 24 && 0 <= c.minute < 60
    ensures c == ClockTime(HourOf(NextCheckInstant(now, windowStart, windowEnd)), MinuteOf(NextCheckInstant(now, windowStart, windowEnd)))
  {
    var t := NextCheckInstant(now, windowStart, windowEnd);
    ClockTime(HourOf(t), MinuteOf(t))
  }
}
