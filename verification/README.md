# A Dafny model of the GWhFi heater controller and energy dashboard

GWhFi drives two immersion heaters from the half-hourly Octopus Agile tariff
and reports what the heating cost. This project models its decision-making
core as pure Dafny functions and proves properties of that model:

- **Rate client** (`OctopusClient`, module file `octopus_client.dfy`). Parses
  the tariff records, picks the cheapest blocks and the negative-price slots,
  and selects each day's below-average slots.
- **Smart scheduler** (`SmartScheduler`). Chooses the slots to heat in:
  - it filters by blocked hours and a price cap, optionally lowered to the
    mean of all supplied rates;
  - it secures a one-hour afternoon boost from 14:00 to 16:00;
  - it fills the rest of the budget with the cheapest remaining slots;
  - it decides when to poll for newly published rates and keeps the
    bookkeeping flags.
- **Controller** (`Controller`). One iteration of the control loop of
  `ingestion/main.py`:
  - slot membership, and the cached switch state with its Tuya-quota
    failsafe;
  - the "tank full" detector: three consecutive idle readings outside the
    grace period after a blocked hour start a 90-minute cooldown;
  - the device health check and the next-check time shown in the UI.
- **Tariff reconciliation** (`EnergyStats`). The engine of the `energy-stats`
  endpoint:
  - it pages through the tariff, keeping valid intervals, then sorts them;
  - it clips each rising reading pair to the query window;
  - it spreads the pair's energy over the rates in proportion to time
    overlap;
  - it computes the average price paid and the coverage ratio.
- **Dashboard label** (`PaidPriceInsights`). How one window result is
  rendered.
- **Pilot-lead form** (`PilotLead`). The `trim`/`slice` field cleaning, the
  email regular expression, and the order of the handler's checks.
- **Cloud worker** (`CloudWorker`). Which Shelly emeter readings are recorded,
  and the per-channel tracker.
- **Usage analysis** (`AnalyzeUsage`). The offline report:
  - readings grouped by UTC day;
  - daily kWh from the counter's range;
  - on minutes and full-power minutes;
  - averages over days with at least sixty readings.

Representation:

- Instants are integers: UTC milliseconds since the epoch (`Clock`).
- Energies and prices are `real`.
- Python's `int()` truncation and slicing with negative bounds are written
  out in `Seqs` (`TruncToInt`, `PySliceEnd`, `PySliceTo`).
- Calls to the network and to devices are replaced by their outcomes, given
  as parameters:
  - the HTTP responses of the tariff API;
  - Tuya command, status and quota replies;
  - the Shelly power reading;
  - the notification e-mail's outcome.
- Each `*_proofs.dfy` file holds the lemmas that relate several calls of its
  module.

## Model

| member | source | states |
|---|---|---|
| OctopusClient.ParseRecord | ingestion/octopus_client.py:41-45 | a record yields a rate exactly when its price and both timestamps can be read, and the rate carries those three values |
| OctopusClient.ParseAll | ingestion/octopus_client.py:39-45 | on success every record is converted, position by position; otherwise the error names a record that cannot be read, and every record before it can be |
| OctopusClient.GetRates | ingestion/octopus_client.py:16-53 | a request exception gives no rates; a body fails exactly when some record is unreadable; otherwise it gives every record (a missing `results` counts as none), sorted by start, as a permutation of the parsed records |
| OctopusClientProofs.GetRatesKeepsSortedFeed | ingestion/octopus_client.py:36-49 | records already in chronological order come back exactly as parsed |
| OctopusClientProofs.GetRatesFailsAtFirstBadRecord | ingestion/octopus_client.py:40-45 | the exception is raised at the first unreadable record |
| OctopusClient.FindCheapestBlocks | ingestion/octopus_client.py:55-79 | with fewer rates than `int(hours*2)` the input comes back unchanged; otherwise the result is the cheapest `int(hours*2)` rates, with Python's slice length for a negative count, in chronological order, drawn from the input |
| OctopusClientProofs.CheapestBlocksOptimal | ingestion/octopus_client.py:70-74 | no rate left out of the cheapest blocks is cheaper than a chosen one |
| OctopusClient.GetNegativeRates | ingestion/octopus_client.py:81-85 | each rate priced at or below the threshold is kept as often as it occurs, and every other rate is dropped |
| OctopusClientProofs.NegativeRatesKeepOrder | octopus_client.py:81-84 | the filter keeps input order: filtering a concatenation concatenates the filtered parts (the root copy of the client has the same code) |
| OctopusClient.DaysInOrder | ingestion/octopus_client.py:96-101 | the days of the rate starts, each once; every rate's day is listed and every listed day has a rate |
| OctopusClientProofs.DaysPrefix | ingestion/octopus_client.py:96-101 | days are listed in first-seen order: reading more rates only appends days |
| OctopusClient.DayRates | ingestion/octopus_client.py:96-101 | a day's group holds exactly the rates starting that day, each as often as it occurs |
| OctopusClient.DaySlots | ingestion/octopus_client.py:105-113 | one day's selection holds exactly that day's rates priced at or below the day's mean |
| OctopusClientProofs.SmartSlotsCharacterised | ingestion/octopus_client.py:87-117 | a rate occurs in the result exactly as often as in the input when it is at or below the mean of its own day, and otherwise not at all |
| OctopusClientProofs.SmartSlotsBelowDayMean | ingestion/octopus_client.py:105-113 | every selected slot is an input rate, priced at or below its day's mean |
| OctopusClientProofs.SmartSlotsGroupedByDay | ingestion/octopus_client.py:103-113 | the result lists one day's slots after another, days in the order the input first shows them |
| OctopusClient.FindSmartDailySlots | ingestion/octopus_client.py:92-93 | no rates give no slots |
| Selection.ByPrice | ingestion/services/smart_scheduler.py:93 | the price sort is sorted by price and a permutation of its input |
| Selection.ByStart | ingestion/services/smart_scheduler.py:117 | the chronological sort is sorted by start and a permutation of its input |
| Selection.LeftOutIsDearer | ingestion/services/smart_scheduler.py:93-94 | taking a prefix of the price order leaves out only rates at least as dear as every one taken |
| SmartScheduler.Threshold | ingestion/services/smart_scheduler.py:49-55 | the threshold is the cap, lowered to the mean of all supplied rates when the below-average rule is on |
| SmartScheduler.Eligible | ingestion/services/smart_scheduler.py:64-77 | every eligible slot starts in an unblocked hour and is priced at or below the threshold; each admissible rate is kept exactly as often as it occurs, and no other rate is kept |
| SmartScheduler.SlotsNeeded | ingestion/services/smart_scheduler.py:80 | for a non-negative budget, the number of half-hour slots is the whole part of twice the budget |
| SmartScheduler.AfternoonPicks | ingestion/services/smart_scheduler.py:85-94 | the boost takes two afternoon candidates, or all of them when there are fewer, from the eligible slots starting 14:00-16:00 |
| SmartSchedulerProofs.AfternoonPicksCheapest | ingestion/services/smart_scheduler.py:93-94 | no afternoon candidate left out is cheaper than one picked |
| SmartScheduler.Remaining | ingestion/services/smart_scheduler.py:104-105 | the fill candidates are the eligible slots whose start differs from every afternoon pick |
| SmartScheduler.PicksDisjoint | ingestion/services/smart_scheduler.py:101-114 | the afternoon picks and the fill never take the same slot twice: together they fit inside the eligible slots |
| SmartScheduler.ComputeOptimalSlots | ingestion/services/smart_scheduler.py:30-125 | no rates leave the scheduler untouched with no slots; otherwise the schedule is the afternoon picks plus the fill, in chronological order, drawn from the rates, each slot unblocked, within the cap and, under the below-average rule, at most the mean; it is stored with the computation time |
| SmartSchedulerProofs.SlotCount | ingestion/services/smart_scheduler.py:101-114 | as written, the schedule holds at most the budget when the budget covers the boost; when it does not, the negative slice count keeps all but the dearest few fill candidates |
| SmartSchedulerProofs.OverBudgetExample | ingestion/services/smart_scheduler.py:101-111 | a half-hour budget with two afternoon slots and two night slots schedules three slots, more than both the budget and the boost |
| SmartScheduler.ComputeOptimalSlotsClamped | ingestion/services/smart_scheduler.py:30-125 | the same computation with the fill count clamped at zero keeps every promise above and never schedules more than the larger of the budget and the boost |
| SmartSchedulerProofs.ClampedSlotCount | ingestion/services/smart_scheduler.py:80-114 | with the clamp, the schedule has exactly the larger of the budget and the boost whenever there are enough candidates |
| SmartSchedulerProofs.ClampedExample | ingestion/services/smart_scheduler.py:80-114 | with the clamp, the over-budget input heats only the two boost slots |
| SmartSchedulerProofs.AfternoonBoost | ingestion/services/smart_scheduler.py:83-94 | the schedule holds at least two afternoon slots, or every eligible afternoon slot when there are fewer |
| SmartSchedulerProofs.FillAvoidsAfternoonStarts | ingestion/services/smart_scheduler.py:103-111 | no fill slot starts at the same instant as an afternoon pick |
| SmartSchedulerProofs.FillIsCheapest | ingestion/services/smart_scheduler.py:107-111 | an eligible slot left out of the schedule, and not excluded by the boost, is at least as dear as every fill slot |
| SmartSchedulerProofs.CheapestRateEligible | ingestion/services/smart_scheduler.py:49-77 | the cheapest rate is always eligible under the below-average rule, provided its hour is not blocked and it is within the cap |
| SmartScheduler.ShouldCheckForNewRates | ingestion/services/smart_scheduler.py:159-187 | the first call always checks; after that a check is due exactly when the interval for the current side of the window (15 minutes inside it, 2 hours outside) has elapsed; the reason names the branch |
| SmartSchedulerProofs.NoRecheckRightAfterMark | ingestion/services/smart_scheduler.py:159-187 | for fifteen minutes after a recorded check no new check is due |
| SmartSchedulerProofs.RecheckEventuallyDue | ingestion/services/smart_scheduler.py:159-187 | two hours after the last check a check is always due, and inside the window fifteen minutes suffice |
| SmartScheduler.HasTomorrowRates | ingestion/services/smart_scheduler.py:189-192 | true exactly when some rate starts on the calendar day after today |
| SmartSchedulerProofs.RateADayAheadIsTomorrow | ingestion/services/smart_scheduler.py:189-192 | a rate starting exactly one day after now counts as tomorrow's |
| SmartScheduler.MarkRateCheck | ingestion/services/smart_scheduler.py:194-196 | records the check time and changes nothing else |
| SmartScheduler.MarkTomorrowScheduled | ingestion/services/smart_scheduler.py:198-200 | raises the flag and changes nothing else |
| SmartScheduler.ResetDailyFlags | ingestion/services/smart_scheduler.py:202-204 | lowers the flag and changes nothing else |
| SmartSchedulerProofs.FlagsRoundTrip | ingestion/services/smart_scheduler.py:198-204 | resetting undoes marking and marking undoes resetting |
| SmartScheduler.GetScheduleForDisplay | ingestion/services/smart_scheduler.py:206-213 | shows the current schedule and its computation time, its slot count, and half an hour per slot |
| SmartSchedulerProofs.DisplayAfterCompute | ingestion/services/smart_scheduler.py:101-123 | after a computation the display shows the new schedule, stamped with the computation time; when the budget buys at least the afternoon picks, it shows no more hours than the budget |
| SmartSchedulerProofs.DisplayAfterComputeClamped | ingestion/services/smart_scheduler.py:101-123 | with the fill count clamped, the display shows the new schedule and never more hours than the larger of the budget and the one-hour boost |
| SmartSchedulerProofs.OverBudgetDisplay | ingestion/services/smart_scheduler.py:101-123 | as written, a half-hour budget with two afternoon and two night slots displays an hour and a half |
| Controller.IsInSlot | ingestion/main.py:169-174 | a slot is returned exactly when some slot covers the instant, and it is the first such slot |
| Controller.ApplyDeviceState | ingestion/main.py:243-283 | a command is sent exactly when the cached state is unknown or differs from the target, outside dry runs; the command is the target; after it the cache says ON when the quota is exhausted and the target otherwise; the online flag is untouched |
| ControllerProofs.ApplySettles | ingestion/main.py:258-281 | once a command has taken effect, repeating the same target sends nothing |
| ControllerProofs.QuotaRetriesSwitchOff | ingestion/main.py:276-278 | when the quota is exhausted the cache says ON, so a switch-off is sent again on the next iteration |
| Controller.ApplyTo | ingestion/main.py:245 | the main device id applies the target to the peak heater's entry, any other id to the off-peak heater's; the command sent is that application's, and the other entry is unchanged |
| ControllerProofs.UnsetIdsShareEntry | ingestion/main.py:241-245 | with both device ids unset, the off-peak decision is checked against the peak heater's entry, so an off-peak heater cached ON is not switched off |
| Controller.ExpireCooldown | ingestion/main.py:182-191 | the UI flag is raised exactly while the cooldown runs; an expired cooldown is cleared, and so is its displayed time |
| Controller.TankCheck | ingestion/main.py:208-239 | a missing reading leaves the count and keeps heating; normal draw, or an idle reading in the grace period, resets the count; otherwise an idle reading adds one, and the third starts a 90-minute cooldown, resets the count and stops heating |
| Controller.ControlLoop | ingestion/main.py:176-241 | the peak heater follows its slots; the off-peak heater heats only inside its slots and never during a cooldown; the cooldown flag shows whether the previous cooldown is still running |
| ControllerProofs.TankOutcome | ingestion/main.py:199-239 | what one iteration does to the cooldown and the idle counter: kept while cooling, untouched outside a slot, and the tank check otherwise |
| ControllerProofs.CounterStaysBelowRequired | ingestion/main.py:223-232 | the idle counter never reaches the confirmation count |
| ControllerProofs.ThreeIdleReadingsStartCooldown | ingestion/main.py:223-232 | three consecutive idle readings keep heating twice and then switch off for 90 minutes, with the counter reset |
| ControllerProofs.NormalDrawResetsCount | ingestion/main.py:233-237 | a reading at normal draw resets the count and keeps heating |
| ControllerProofs.GraceIdleResetsCount | ingestion/main.py:217-222 | an idle reading in the half hour after a blocked hour resets the count instead of adding to it |
| ControllerProofs.MissingReadingKeepsHeating | ingestion/main.py:238-239 | a failed power reading leaves the count alone and the heater on |
| ControllerProofs.CooldownHoldsHeaterOff | ingestion/main.py:199-205 | while the cooldown runs the off-peak heater is off and the cooldown stays |
| ControllerProofs.CooldownExpires | ingestion/main.py:187-191 | once the cooldown has run out, a slot at normal draw switches the heater on again |
| Controller.HealthEntry | ingestion/main.py:297-317 | an exhausted quota marks the device online and ON; a successful status gives its online flag and state; anything else marks it offline and unknown |
| ControllerProofs.HealthCheckThenApply | ingestion/main.py:258 | after a health check, a target the device already has sends nothing, and an unreadable device is commanded whatever the target |
| Controller.PerformHealthCheck | ingestion/main.py:285-319 | each configured device's entry is replaced from its status, an unset or empty id is skipped, and the cooldown state is untouched |
| Controller.NextCheckInstant | ingestion/main.py:160-166 | the next check is the polling interval for the current side of the window after now |
| Controller.NextScheduleCheckTime | ingestion/main.py:160-167 | the displayed hour and minute are those of the next check instant |
| ControllerProofs.NextCheckIsDue | ingestion/main.py:160-167 | when the window side is the same then, the scheduler finds a check due at the advertised time, and none before it |
| ControllerProofs.NextCheckAtWindowEnd | ingestion/main.py:160-167 | a check at 19:50 in a 16:00-20:00 window advertises 20:05, when no check is due |
| EnergyStats.OverlapLen | src/app/api/energy-stats/route.ts:45-47 | for non-empty intervals, the overlap length is positive exactly when `overlaps` holds, and it is no longer than either interval |
| EnergyStatsProofs.OverlapsIffCommonInstant | src/app/api/energy-stats/route.ts:45-47 | for non-empty intervals, `overlaps` holds exactly when they share an instant |
| EnergyStatsProofs.OverlapLenCountsInstants | src/app/api/energy-stats/route.ts:177-183 | the overlap length counts the instants the two intervals share |
| EnergyStats.ToInterval | src/app/api/energy-stats/route.ts:61-69 | a record is kept exactly when both bounds parse and the interval is non-empty |
| EnergyStats.KeepValid | src/app/api/energy-stats/route.ts:60-70 | every kept record is a non-empty interval converted from some record of the page, and every record with a usable interval is kept |
| EnergyStats.KeepValidCounts | src/app/api/energy-stats/route.ts:60-70 | each interval is kept exactly as often as the page holds records that convert to it |
| EnergyStats.Accumulate | src/app/api/energy-stats/route.ts:53-73 | the pagination walk fails exactly when some page has a non-OK status |
| EnergyStats.AccumulateCollects | src/app/api/energy-stats/route.ts:53-73 | without a failing page, the walk gathers every page's kept records in fetch order |
| EnergyStats.LoadRates | src/app/api/energy-stats/route.ts:49-76 | `fetchRates` fails exactly when a page fails; otherwise it returns every kept record, sorted by start |
| EnergyStats.ClipPair | src/app/api/energy-stats/route.ts:149-172 | a reading pair contributes exactly when both times parse, the pair moves forward, it meets the window and the counter rises; its clipped energy is the rise in proportion to the clipped time |
| EnergyStats.ShareOf | src/app/api/energy-stats/route.ts:176-187 | the energy priced under one rate is the segment's energy times the fraction of the segment that rate covers, and it is charged at the rate's price |
| EnergyStats.PricedProportionalToOverlap | src/app/api/energy-stats/route.ts:176-187 | a segment's priced energy is its energy times the summed overlap over its duration |
| EnergyStats.PairTotals | src/app/api/energy-stats/route.ts:144-188 | a pair measures energy exactly when it contributes, and a pair without energy adds nothing |
| EnergyStatsProofs.PairMeasuredPortion | src/app/api/energy-stats/route.ts:161-174 | a rising pair contributes its counter rise in proportion to the part of it inside the window |
| EnergyStatsProofs.PairInsideWindow | src/app/api/energy-stats/route.ts:155-174 | a rising pair wholly inside the window contributes its whole counter rise |
| EnergyStats.AveragePrice | src/app/api/energy-stats/route.ts:191 | there is no average without priced energy; otherwise average times priced energy is the cost |
| EnergyStats.Coverage | src/app/api/energy-stats/route.ts:192 | coverage times measured energy is the priced energy, zero without measured energy |
| EnergyStats.Summarise | src/app/api/energy-stats/route.ts:191-200 | the result carries the totals, the cost in pounds, and is consistent |
| EnergyStats.ComputeWindowResult | src/app/api/energy-stats/route.ts:132-201 | every window result is consistent: non-negative totals, an average exactly when energy was priced, nothing priced without measured energy, and coverage tied to the totals |
| EnergyStatsProofs.CoverageAtMostOne | src/app/api/energy-stats/route.ts:176-192 | when no two rates overlap, priced energy never exceeds measured energy and coverage is at most one |
| EnergyStatsProofs.DuplicateRateExample | src/app/api/energy-stats/route.ts:176-192 | when two rates cover the same hour, a pair is priced twice and coverage reaches two |
| EnergyStatsProofs.MeasuredAdditive | src/app/api/energy-stats/route.ts:155-174 | the measured energy of two adjacent windows adds up to that of their union |
| EnergyStatsProofs.StraddlingBoundaryExample | src/app/api/energy-stats/route.ts:176-192 | 2 kWh over an hour with a rate change at minute 15 is priced half a kWh at the first price and 1.5 kWh at the second |
| EnergyStatsProofs.CounterResetExample | src/app/api/energy-stats/route.ts:161-164 | a falling counter contributes nothing |
| EnergyStatsProofs.NoRateDataExample | src/app/api/energy-stats/route.ts:174-192 | a rise with no rate data is measured but not priced: no average and zero coverage |
| PaidPriceInsights.FormatWindowValue | src/components/dashboard/PaidPriceInsights.tsx:18-32 | a missing window shows a dash; a price is shown exactly when there is an average; otherwise "No usage" exactly when nothing was measured, then "No priced data" exactly when nothing was priced, and a dash otherwise |
| PaidPriceInsightsProofs.ConsistentNeverDash | src/components/dashboard/PaidPriceInsights.tsx:25-31 | a consistent window never shows the final dash, and shows "No usage" exactly when nothing was measured |
| PaidPriceInsightsProofs.EngineWindowLabelled | src/components/dashboard/PaidPriceInsights.tsx:18-32 | every window the engine computes gets a price or an explanation |
| PaidPriceInsightsProofs.DashNeedsInconsistentWindow | src/components/dashboard/PaidPriceInsights.tsx:31 | a window with energy priced but no average reaches the final dash |
| PilotLead.Trim | src/app/api/pilot-lead/route.ts:18 | the trimmed string has no whitespace at either end and is the input with all-whitespace margins removed |
| PilotLeadProofs.TrimIdempotent | src/app/api/pilot-lead/route.ts:18 | trimming twice is trimming once |
| PilotLead.Clean | src/app/api/pilot-lead/route.ts:16-19 | a non-string gives the empty string; a string gives the first `maxLength` characters of its trim, or all of it when shorter |
| PilotLeadProofs.CleanStableWithoutCut | src/app/api/pilot-lead/route.ts:16-19 | cleaning again changes nothing when the first pass did not cut |
| PilotLeadProofs.CleanNotIdempotent | src/app/api/pilot-lead/route.ts:16-19 | a cut can leave a trailing blank: "ab c" cut to three is "ab ", which a second pass turns into "ab" |
| PilotLead.Occurrences | src/app/api/pilot-lead/route.ts:13 | counts the occurrences of a character, zero exactly when it is absent |
| PilotLead.IndexOf | src/app/api/pilot-lead/route.ts:13 | the first position of a character that occurs |
| PilotLead.IsValidEmail | src/app/api/pilot-lead/route.ts:12-14 | an accepted address contains an '@' with something before it |
| PilotLeadProofs.EmailCheckMatchesPattern | src/app/api/pilot-lead/route.ts:12-14 | the check accepts exactly the strings the regular expression matches: an '@' and a later '.' split it into three non-empty runs without whitespace or '@' |
| PilotLeadProofs.EmailExamples | src/app/api/pilot-lead/route.ts:12-14 | "a@b.c" is accepted, while "a@b@c.d" and "a@b." are rejected |
| PilotLead.CleanLead | src/app/api/pilot-lead/route.ts:78-82 | every cleaned field is within its length cap |
| PilotLead.HandleLead | src/app/api/pilot-lead/route.ts:69-113 | an unreadable body gives 500; a lead reaches the notifier only with an empty honeypot, every required field present and a valid email; 200 exactly when the reply is OK; a 400 sends nothing |
| PilotLeadProofs.HoneypotWins | src/app/api/pilot-lead/route.ts:73-76 | a filled honeypot gets success and nothing is sent, whatever the other fields hold |
| PilotLeadProofs.MissingFieldsFirst | src/app/api/pilot-lead/route.ts:84-89 | missing required fields are reported before a malformed email |
| PilotLeadProofs.BadEmailRejected | src/app/api/pilot-lead/route.ts:91-96 | an address the pattern rejects gets the email error and nothing is sent |
| PilotLeadProofs.AcceptedLead | src/app/api/pilot-lead/route.ts:98-112 | a lead passing every check is sent, cleaned; the reply is success unless the notifier fails, which gives 500 |
| CloudWorker.LastPower | ingestion/cloud_worker.py:89-91 | a channel's last power is known exactly when it is in the tracker |
| CloudWorker.ShouldRecord | ingestion/cloud_worker.py:93-109 | a first reading and any positive reading are recorded; otherwise a reading is recorded exactly when it is zero after a positive one |
| CloudWorker.RowsFromChannels | ingestion/cloud_worker.py:93-123 | a channel gets a row exactly when its reading passes the recording rule |
| CloudWorker.UpdateTracker | ingestion/cloud_worker.py:112 | every emeter of the status becomes its channel's entry, and other channels keep theirs |
| CloudWorker.ProcessReading | ingestion/cloud_worker.py:67-123 | no status leaves the tracker and records nothing; otherwise the tracker is updated, and the rows carry their emeter's values, in channel order, one for each channel the rule records |
| CloudWorker.ProcessReadingLoop | ingestion/cloud_worker.py:79-123 | the loop as written computes the same tracker and rows |
| CloudWorkerProofs.FirstObservationRecorded | ingestion/cloud_worker.py:95-97 | a channel seen for the first time is always recorded |
| CloudWorkerProofs.SecondPollRecordsUnlessStillOff | ingestion/cloud_worker.py:93-112 | with non-negative powers, the second poll of a channel is recorded exactly when either poll saw power |
| CloudWorkerProofs.GapKeepsTracker | ingestion/cloud_worker.py:71-72 | after a failed status fetch the tracker still holds the reading before the gap, which the next poll compares against |
| CloudWorkerProofs.NegativeAfterOnSkipped | ingestion/cloud_worker.py:99-109 | a negative reading after a positive one is neither "on" nor a switch-off, and is skipped |
| AnalyzeUsage.SortedDays | analysis/analyze_usage.py:110 | the days that have readings, each once, in increasing order |
| AnalyzeUsage.DayReadings | analysis/analyze_usage.py:76-87 | a day's group holds exactly its readings, each as often as it occurs |
| AnalyzeUsageProofs.DayReadingsAppend | analysis/analyze_usage.py:75-86 | appending a reading extends its own day's group at the end and leaves every other group alone, so groups keep input order |
| AnalyzeUsage.CounterRange | analysis/analyze_usage.py:89-96 | there is no range exactly when no counter value is positive; otherwise the two bounds are attained positive values that bound every positive value |
| AnalyzeUsage.DayKwh | analysis/analyze_usage.py:117-120 | the daily energy is the largest minus the smallest positive counter value, in kWh: it is attained by two positive counters and at least the rise between any two; it is 0 when no counter is positive |
| AnalyzeUsageProofs.DayKwhExample | analysis/analyze_usage.py:89-120 | a counter going from 1000 Wh to 3500 Wh, with a zero between them, gives 2.5 kWh |
| AnalyzeUsage.OnAndSolidMinutes | analysis/analyze_usage.py:124-150 | the block-tracking loop counts the readings above 100 W as on minutes and those above 2000 W as full-power minutes |
| AnalyzeUsageProofs.SolidWithinOn | analysis/analyze_usage.py:124-150 | a day's full-power minutes never exceed its on minutes |
| AnalyzeUsage.ReportDay | analysis/analyze_usage.py:112-154 | a day's report carries that day's reading count, its energy from the day's counters, and the numbers of its readings above 100 W and above 2000 W |
| AnalyzeUsage.ValidDays | analysis/analyze_usage.py:157-159 | only days with at least sixty readings enter the averages |
| AnalyzeUsageProofs.ValidDaysExactly | analysis/analyze_usage.py:157-164 | exactly the reported days with at least sixty readings enter the averages |
| AnalyzeUsage.AveragesOf | analysis/analyze_usage.py:171-178 | there are no averages without valid days; otherwise each average times the number of days is the summed figure |
| AnalyzeUsage.DayReports | analysis/analyze_usage.py:110-154 | one report per day with readings, in increasing date order, each the report of that day's readings |
| AnalyzeUsage.AnalyzeData | analysis/analyze_usage.py:66-191 | nothing exactly when there are no readings; otherwise one report per day with readings, each the report of that day's readings, and the averages over the valid days |
| AnalyzeUsageProofs.NoValidDayNoAverages | analysis/analyze_usage.py:171-173 | when no day has enough readings there are no averages |
| AnalyzeUsageProofs.SummaryNonNegative | analysis/analyze_usage.py:176-184 | the average full-power time is within the average on time, so the "maintaining" hours are non-negative, and the average energy is non-negative |

## Left out

- Network and device I/O are not modelled; their outcomes are parameters:
  - the Octopus and Supabase HTTP calls;
  - the Shelly and Tuya cloud APIs;
  - the Resend e-mail call (`sendNotificationEmail`);
  - `fetch_readings`;
  - the report file written by `analyze_data`.
- Timing and state outside one call are not modelled:
  - the `run` loops, sleeps and scheduling around `control_loop`;
  - `schedule_storage`;
  - the display-only `last_updated`, `rates` and `next_schedule_update` fields;
  - logging, including `_log_schedule_summary`.
- Timestamps:
  - Instants are milliseconds. Python's microsecond `datetime` and the
    ISO-8601 `created_at` strings are not modelled.
  - Calendar days are UTC days. `analyze_data` keys days by the local date of
    `fromisoformat`, which for the UTC timestamps it reads is the UTC date.
  - `datetime.fromisoformat` and `new Date(...)` parsing is abstract: a value
    either parses to an instant or does not.
- Floating point is not modelled: energies and prices are exact reals.
- Formatting is not modelled: the rounding of the window results
  (`round(x, 3)` and its kin), the `"%H:%M"` and ISO formatting, and the
  `toFixed(2)` of the price label.
- `PaidPriceInsightsProofs.ConsistentNeverDash`: stated over the exact totals.
  The widget branches on the rounded ones (`src/app/api/energy-stats/route.ts`
  lines 196-197, `src/components/dashboard/PaidPriceInsights.tsx` line 25). A window that measures less than 0.0005 kWh and
  prices nothing shows "No usage" in the source, where the lemma says
  "No priced data".
- Configuration and identifiers are parameters: `Config.BLOCKED_HOURS`, the
  publication window, dry-run mode, the Tuya device ids, and `now` in place of
  `datetime.utcnow()`. Rows do not carry the Shelly device id.
- `SharesStart` compares `valid_from` instants, where the source compares
  their `str()` text. The two agree for `datetime` values of one time zone.
- `PilotLead.Clean`: `slice` counts UTF-16 code units and the model counts
  Unicode scalar values. The two differ only for characters outside the Basic
  Multilingual Plane.
- `PilotLead.HandleLead`: a JSON body that is a number, string or array reads
  as an object whose fields are all absent. Such a body is answered 400
  "Missing required fields", as in the source.
- `OctopusClient.FindSmartDailySlots`: its own contract states only the empty
  case. Its content is stated by `OctopusClientProofs.SmartSlotsCharacterised`
  and its order by `OctopusClientProofs.SmartSlotsGroupedByDay`.
- `EnergyStatsProofs.CoverageAtMostOne`: holds only when no two rates
  overlap, as for the published half-hour slots. `fetchRates` does not
  enforce this, and `EnergyStatsProofs.DuplicateRateExample` shows what
  happens without it.
- Sorting stability is not modelled: `Selection.ByPrice` and
  `Selection.ByStart` are stated as sorted permutations. Python's `sort` and
  JavaScript's `Array.prototype.sort` are stable, so the order among equal
  keys is not pinned down by the model.
- `Controller.ControlLoop`: both heaters' device ids come from settings. When
  both are unset they compare equal, and both heaters share the peak entry of
  the cache. `ControllerProofs.UnsetIdsShareEntry` states this rather than
  correcting it, because it arises only when the device settings are missing.
- `Controller.NextScheduleCheckTime`: the time it shows can fall on the other
  side of the publication window, where the scheduler uses the other
  interval. `ControllerProofs.NextCheckAtWindowEnd` shows such a case. It is
  a display value only.

## Findings

| source | as written | input that shows it | evidently intended | confidence | as-written member | corrected member |
|---|---|---|---|---|---|---|
| ingestion/services/smart_scheduler.py:101-111 | `remaining_slots_count = total_slots_needed - len(selected_afternoon)` is negative when the budget is under one hour; the slice `remaining_candidates[:remaining_slots_count]` then keeps every candidate except the last few, instead of none | budget 0.5 h; two eligible afternoon slots and two eligible night slots: three slots are scheduled, where the budget buys one and the boost two | no fill beyond the afternoon boost when the boost already exceeds the budget (count clamped at zero) | medium; not executed | SmartSchedulerProofs.OverBudgetExample (its display: SmartSchedulerProofs.OverBudgetDisplay) | SmartScheduler.ComputeOptimalSlotsClamped (proved by SmartSchedulerProofs.ClampedSlotCount, SmartSchedulerProofs.ClampedExample and SmartSchedulerProofs.DisplayAfterComputeClamped) |
