# FlexiTracker: a verified model

FlexiTracker turns presence and absence events from each machine into a weekly
working-time number. A daemon watches input and emits span boundaries and heartbeats;
a durable outbox delivers them in numbered batches; a tenant store keeps the event log,
the user's corrections and a cache of sealed days; a pure engine pairs events into
intervals and composes each day and week; the client plans edits as lists of corrections.

The model follows the program's structure, one module per file.

| file | models |
|---|---|
| `Sorting`, `Intervals` | stable sorting and sums; interval lists, their point sets, canonical form and measure (`worktime/interval.ts`) |
| `Events`, `Pairing`, `PairingLaws` | event logs; `pairSpans` and its pointwise meaning |
| `LocalTime` | local days and weeks over a zone given as an arbitrary function of the instant (`worktime/time.ts`) |
| `Day`, `DayLaws`, `DayMeaning`, `DayLocality` | `computeDay`: layers, periods, marks, totals, and what a day depends on |
| `Week` | `computeWeek` |
| `Daemon`, `DaemonLaws`, `DaemonHistory` | the state machine, single steps and whole runs with restarts, and what each step does in terms of the polls before it |
| `RoundTrip` | daemon trace to backend intervals and back |
| `Outbox`, `Delivery` | the queue object, and the protocol over a channel that loses, repeats and reorders |
| `Corrections`, `Edits`, `Fill` | the correction table; `classifyPlan`; the whole-day fill |
| `Marking`, `Store`, `StoreEdits` | dirty marking; the tenant store; what its calls do to its tables, and edits as sequences of calls |
| `Totals`, `StoreLaws`, `Sealing` | what decides a rollup; the cache theorem; sealing that waits for the registry |
| `EndToEnd`, `Incidents` | a daemon's run through delivery into the recomputed day; two runs that go wrong at default settings |

A list of intervals denotes the set of milliseconds it covers. Canonical lists are
unique for their set, so every loop (`MergeIntervals`, `SubtractIntervals`,
`GapsBetween`, `PairSpans`, `ComputeDay`, ...) is proved equal to a function whose
result is fixed by its set, and the laws are then statements about instants. Objects
that the program changes in place (`StateMachine`, `Queue`, `TenantStore`, the array
of periods being marked) are classes or arrays whose methods are proved to take the
old state to a specified new one.

## Where the code and its documentation part

Each of these is a proved statement about the code as it is: an input that shows it, and
the exact condition under which the code does what is promised.

- A heartbeat can open a span. The daemon sends heartbeats past its watermark, so an
  idle that is dated back can sort before one already sent, and pairing reopens the
  span there until the next absence. `docs/wire-schema.md` promises batches in
  timestamp order; the daemon's own default run breaks it
  (`RoundTrip.HeartbeatReopensSpan`). Heartbeats are harmless exactly when every
  deciding heartbeat falls where the boundaries alone are active
  (`RoundTrip.HeartbeatsHarmless`).
- With such a log three days away go wrong: the first event after them makes all of
  them active, back to the heartbeat, and marks its own day alone
  (`Incidents.DaysAwayGoUnmarked`). Marking is complete, for any log and any batch,
  exactly when every day is marked that overlaps a stretch between neighbouring events which the
  batch switches (`Marking.MarkingExact`, a test on the events); for batches in order,
  exactly when no whole day is passed over in silence (`Marking.InOrderMarking`).
- Sealing loads the log around its day, then waits for the registry, then deletes the
  day's mark. A batch accepted meanwhile loses its mark, and the rollup stays wrong and
  clean (`Incidents.SealLosesMark`). Whatever is edited until the answer comes, the day
  ends right exactly when what was loaded claims the instants that the log claims by
  then (`Sealing.FinishExact`, `Sealing.WaitingSealExact`).
- What a poll leaves to be billed, after a suspend or a restart or at any other time, is
  younger than its freshness if and only if no return claim was under way that the poll
  lets live (`DaemonLaws.BillingExact`); otherwise a whole suspend, or the downtime of a
  restart, is claimed (`DaemonLaws.SuspendDuringReturnIsBilled`,
  `DaemonLaws.RestartDuringReturnIsBilled`).
- A retry that reuses a batch number after more events were appended loses those
  events; the server's log and what is still to be delivered add up to everything
  appended exactly when no such grown retry is acknowledged (`Delivery.NothingLost`).
- The step to the next local day reaches the next midnight exactly when the offset did
  not go down in the 24 hours and the noon it probes has it still
  (`LocalTime.NextDayExact`). In autumn it lands on the same date again, an hour later
  (`LocalTime.AutumnDayLastsOneHour`); in spring it misses the midnight by an hour
  (`LocalTime.SpringStepMissesMidnight`).
- A presence and an absence of one machine at the same millisecond are ordered by
  arrival (`PairingLaws.OrderMattersForTies`). What each machine is reported for is the
  same for every reordering exactly when such ties lie at or after the check time with no
  absence to follow (`PairingLaws.OrderExact`).
- Reclassifying a period deletes whole rows, which may reach beyond it. Which other
  instants change is stated exactly (`Edits.EditElsewhere`).
- Past the lunch threshold more time can count for less, exactly while the deduction
  takes more than the difference (`DayMeaning.MoreCanCountLess`).

## Hypotheses, kept visible

- `computeDay` and everything about one day holds for any zone, and so do the store's
  methods as long as a step to the next day gets ahead (`Advances`, which zones with one
  offset meet and `LocalTime.StepLands` decides for others). The week's conservation law
  holds where its seven steps do not go back. Statements that compare days with marks
  assume one offset, `Fixed(z, off)`.
- Marking laws are for timestamps from the epoch on, as pairing's `lastAlive` starts at 0.
- The cache theorems name what each call has to meet: an ingest that its batch marks what
  it changes, a sealing that a day of margin gives its day, and that no event is old
  enough to be pruned. `Spaced` logs meet all of it: a machine's events in timestamp
  order, each event after a presence within the grace (`StoreLaws.SpacedRunsAreAllowed`).
- Settings and machine roles do not change during a run.
- Timestamps are integers. Where SQL leaves the order of equal timestamps open, rows
  keep insertion order, and the newest of them is the last inserted.

## Model

| member | source | states |
|---|---|---|
| Intervals.CanonicalUnique | backend/src/worktime/interval.ts:64-78 | a set of instants has exactly one sorted, strictly separated list |
| Intervals.MergeOfCanonical | backend/src/worktime/interval.ts:64-78 | merging a merged list changes nothing |
| Intervals.MergeIntervals | backend/src/worktime/interval.ts:64-78 | the sweep that extends the last interval yields the canonical list of the union |
| Intervals.SubtractIntervals | backend/src/worktime/interval.ts:88-104 | the nested loop over cuts and pieces yields the canonical list of base minus cut |
| Intervals.CutPieces | backend/src/worktime/interval.ts:92-100 | one cut through every piece keeps, splits, trims or drops each |
| Intervals.GapsBetween | backend/src/worktime/interval.ts:107-116 | the canonical list of the instants with something covered before and after |
| Intervals.Gaps | backend/src/worktime/interval.ts:107-116 | an instant is in a gap iff it is uncovered and something earlier and something later is covered |
| Intervals.Clamp | backend/src/worktime/interval.ts:81-85 | exactly the instants in both; nothing when they do not meet |
| Intervals.TotalDuration | backend/src/worktime/interval.ts:59-61 | counts every covered instant once, however intervals overlap |
| Intervals.DisjointMeasure | backend/src/worktime/interval.ts:54-61 | summed durations of disjoint intervals are the number of instants covered |
| Pairing.PairOneMachine | backend/src/worktime/worktime.ts:161-195 | the loop over one machine's sorted events, with its open-span bound, is the machine's fold |
| Pairing.PairMachineMeaning | backend/src/worktime/worktime.ts:161-195 | active at an instant iff the last event there is a presence and either an absence follows or the instant is before both the check time and last sign of life plus grace |
| Pairing.PairSpans | backend/src/worktime/worktime.ts:145-199 | grouping, pairing and merging yield the specified result, machine by machine |
| Pairing.PairMeaning | backend/src/worktime/worktime.ts:145-199 | `active` is the canonical list of exactly the instants at which some machine is active |
| Pairing.UnionOfMachines | backend/src/worktime/worktime.ts:194-198 | `active` is the union of the `byMachine` lists |
| PairingLaws.ProvisionalMeaning | backend/src/worktime/worktime.ts:182-193 | exactly which span is provisional: it starts at the first instant only the grace can end, ends at check time or grace, and grows until the grace has run out |
| PairingLaws.ProvisionalOfLog | backend/src/worktime/worktime.ts:182-198 | a span is listed as provisional iff it is the open end of the events of one of the machines in the log |
| PairingLaws.ProvisionalInOrder | backend/src/worktime/worktime.ts:157-191 | the provisional spans stand in the order of their machines |
| PairingLaws.MachinesInOrder | backend/src/worktime/worktime.ts:150-155 | machines come in the order in which the log first names them |
| PairingLaws.OrderIndependence | backend/src/worktime/worktime.ts:150-198 | reordering a log, or storing events twice, gives the identical `active` list when every machine's ties are harmless |
| PairingLaws.OrderExact | backend/src/worktime/worktime.ts:150-198 | every reordering leaves what `byMachine` says of each machine unchanged iff every machine's ties lie at or after the check time with no absence to follow |
| PairingLaws.OrderMattersForTies | backend/src/worktime/worktime.ts:160-161 | with such a tie the order of arrival changes the result |
| PairingLaws.PresenceNeverRemoves | backend/src/worktime/worktime.ts:162-195 | inserting a presence anywhere never removes an active instant |
| PairingLaws.CheckTimeMonotone | backend/src/worktime/worktime.ts:182-195 | a later check time removes nothing and changes nothing before the earlier one |
| PairingLaws.NoBleed | backend/src/worktime/worktime.ts:182-195 | nothing is claimed after all events and past the last sign of life plus grace |
| PairingLaws.ActiveIsLocal | backend/src/worktime/worktime.ts:162-195 | in a spaced log the last event alone decides whether an instant is active |
| LocalTime.DayExactly | backend/src/worktime/time.ts:49-59 | in any zone: the local day of an instant is the one start within 24 hours before it that is midnight on the instant's own clock |
| LocalTime.WeekdayExactly | backend/src/worktime/time.ts:90-93 | in any zone: the weekday counts on from the Thursday that 1 January 1970 was on the local clock |
| LocalTime.AddDaysFixed | backend/src/worktime/time.ts:67-78 | with one offset, stepping n days from a midnight is n times 24 hours |
| LocalTime.WeekContains | backend/src/worktime/time.ts:81-93 | with one offset: the local week starts on a Monday midnight and holds the instant |
| LocalTime.StepLands | backend/src/worktime/time.ts:67-78 | where one step lands from the start of any day, and that it gets ahead iff the offset did not go down or the noon probed is lower still |
| LocalTime.NextDayExact | backend/src/worktime/time.ts:67-78 | the step from a midnight reaches the next one iff the offset did not go down in 24 hours and the probed noon has it still |
| LocalTime.SpringStepMissesMidnight | backend/src/worktime/time.ts:67-78 | Helsinki's spring change: the step stops an hour short of a midnight that is there |
| LocalTime.AutumnDayLastsOneHour | backend/src/worktime/time.ts:67-78 | Helsinki's autumn change as a concrete one-hour step |
| Day.ClassifyGaps | backend/src/worktime/worktime.ts:245-253 | the loop splits gaps into bridged and reviewable as specified |
| Day.MarkProvisional | backend/src/worktime/worktime.ts:304-311 | the in-place loop marks each sensor period by the first span that meets it and touches nothing else |
| Day.ComputeDay | backend/src/worktime/worktime.ts:221-364 | the whole day as specified from layers, parts, marks and totals |
| DayMeaning.LayersMeaning | backend/src/worktime/worktime.ts:236-253 | sensor time is every long enough maximal run of activity in the day; a maximal hole between runs that starts and ends on the clock within office hours is bridged below the threshold and reviewable from it on; neither in the personal ledger |
| DayMeaning.OfficeExactly | backend/src/worktime/worktime.ts:201-208 | with one offset: a gap inside a day is in office hours iff it starts no earlier than they do and ends before the minute after they end is over |
| DayMeaning.SpansMeaning | backend/src/worktime/worktime.ts:275-279 | the spans, sorted, hold exactly the instants that count, each under the type the layers give it |
| DayMeaning.ListsMeaning | backend/src/worktime/worktime.ts:281-286 | reviewable gaps and removed spans hold exactly the instants of those types, the latter in order |
| DayMeaning.EnvelopeMeaning | backend/src/worktime/worktime.ts:319-327 | the envelope spans the natural boundaries of the sensor runs that touch office hours, and exists iff there is one |
| DayMeaning.DayBooks | backend/src/worktime/worktime.ts:329-346 | working day, holiday and its correction ids, lunch, worked time, norm and balance of one day in terms of its corrections, weekday and gross time |
| DayMeaning.MoreCanCountLess | backend/src/worktime/worktime.ts:340-342 | of two work days the one with more gross time has less worked time iff the lunch threshold lies between them and the deduction exceeds the difference |
| DayMeaning.MarkedExactly | backend/src/worktime/worktime.ts:304-311 | a period is marked iff it is sensor time that meets a provisional span, and then with the facts of the first such span |
| DayLaws.DayPartition | backend/src/worktime/worktime.ts:232-313 | sorted periods are non-empty, contiguous, cover exactly the day and each instant's type is the one the layers give it |
| DayLaws.CountsByType | backend/src/worktime/worktime.ts:269-281 | an instant counts iff its type is sensor, bridged or manual |
| DayLaws.CorrectionPoints | backend/src/worktime/worktime.ts:257-260 | the add and remove layers are exactly the instants of the day some such correction covers |
| DayLaws.GrossIsMeasure | backend/src/worktime/worktime.ts:255-329 | gross time is the number of instants in an add, or in sensor or bridged time and in no remove, and also the sum of the counted periods |
| DayLaws.MarksOnlyMark | backend/src/worktime/worktime.ts:304-313 | marking then sorting changes no boundary, type or order |
| DayLocality.DaySeesItsWindow | backend/src/worktime/worktime.ts:232-346 | two activity lists that agree inside the day give the same layers and totals |
| DayLocality.LoadingLosesNothing | backend/src/tenant-do.ts:339-350 | loading only the corrections that overlap the day gives the identical day |
| DayLocality.ElapsedDayFrozen | backend/src/worktime/worktime.ts:182-195 | at any two check times after a day's end everything is equal except the growing flag of marks |
| Week.ComputeWeek | backend/src/worktime/worktime.ts:413-444 | the cursor loop over seven days and the weekly totals as specified |
| Week.WeekAddsUp | backend/src/worktime/worktime.ts:413-444 | with a grace of 15 minutes, seven days, each from its stop of the cursor with its index as weekday; worked time is their sum, the norm loses a daily norm for each relieved day but never goes below nothing, and the balance is the difference |
| Week.IndexIsWeekday | backend/src/worktime/worktime.ts:420-433 | with one offset: the loop index is the weekday of the day it stands for |
| Week.WeekConservesActiveTime | backend/src/worktime/worktime.ts:413-433 | in any zone whose seven steps do not go back, the days' clamped activity adds up to the activity between the first and the last step, each instant once |
| Week.WeekIsSevenDays | backend/src/worktime/time.ts:67-87 | with one offset the seven steps are seven days of 24 hours |
| Week.BalanceExact | backend/src/worktime/worktime.ts:434-443 | for one week, the weekly balance is the sum of the daily ones iff the weekly norm is the norm of the days not relieved |
| Week.BalanceConserved | backend/src/worktime/worktime.ts:434-443 | for every set of holidays, iff the weekly norm is the daily norm times the number of working weekdays |
| Daemon.StateMachine.TakeStep | daemon-py/src/flexitracker/state_machine.py:167-262 | one tick changes the object's fields and emits events as specified |
| Daemon.StateMachine.Reconcile | daemon-py/src/flexitracker/state_machine.py:126-148 | closes an active span over a gap at the last evidence, or does nothing |
| Daemon.StateMachine.RecoverAt | daemon-py/src/flexitracker/state_machine.py:150-159 | restart recovery closes the span the gap since the last evidence ended |
| Daemon.StateMachine.Emit | daemon-py/src/flexitracker/state_machine.py:85-105 | a boundary is raised to the watermark and moves it |
| DaemonLaws.OneEventPerOp | daemon-py/src/flexitracker/state_machine.py:126-262 | each tick or recovery emits at most one event, and only the one its state allows, never below the watermark |
| DaemonHistory.EventsExactly | daemon-py/src/flexitracker/state_machine.py:126-262 | over every run, what a poll or restart emits is decided by the history alone: last poll with input, last heartbeat or confirmation, claim under way, last boundary, last poll |
| DaemonHistory.PastIsTrace | daemon-py/src/flexitracker/state_machine.py:85-105 | that history agrees with the events emitted: active iff an odd number of boundaries so far, and the last boundary is where the trace says |
| DaemonHistory.EndingExactly | daemon-py/src/flexitracker/state_machine.py:204-223 | a poll that is locked or idle long enough leaves the machine idle; the one event is an idle at the last poll with input (locked) or where input stopped, raised to the last boundary; any other poll leaves an open span open |
| DaemonHistory.HeartbeatsKeepDistance | daemon-py/src/flexitracker/state_machine.py:161-165 | a heartbeat comes at least the interval after the one before it, or after the confirmation of the span |
| DaemonLaws.TraceShape | daemon-py/src/flexitracker/state_machine.py:85-262 | over every run, boundaries alternate from active, never go back in time, and the last one is the reported state |
| DaemonLaws.ActiveIsSustained | daemon-py/src/flexitracker/state_machine.py:231-260 | every active is anchored at a fresh poll followed by unlocked polls under the activity threshold, at least two in all |
| DaemonLaws.NoOverClaim | daemon-py/src/flexitracker/state_machine.py:85-262 | no event of any run is later than the latest input plus the largest threshold, whatever the clock does |
| DaemonLaws.SuspendCloses | daemon-py/src/flexitracker/state_machine.py:178-201 | a suspend while active emits one idle at or before the previous tick and leaves the machine idle |
| DaemonLaws.BillingExact | daemon-py/src/flexitracker/state_machine.py:167-262 | for any poll on a wall clock that never went back, later actives are younger than its freshness iff no stale return claim survives it |
| DaemonLaws.SuspendBilling | daemon-py/src/flexitracker/state_machine.py:178-260 | that equivalence for the poll that wakes up after a suspend |
| DaemonLaws.StaleClaimIsBilled | daemon-py/src/flexitracker/state_machine.py:231-260 | any surviving stale claim can be billed by some continuation |
| DaemonLaws.RestartBilling | daemon-py/src/flexitracker/state_machine.py:150-260 | and for the first poll after a restart, by the claim in the saved state |
| DaemonLaws.SuspendDuringReturnIsBilled | daemon-py/src/flexitracker/state_machine.py:231-260 | with default thresholds, three hours of suspend are claimed |
| DaemonLaws.RestartDuringReturnIsBilled | daemon-py/src/flexitracker/state_machine.py:150-159 | a claim saved before eight hours switched off is emitted in full |
| RoundTrip.SpansComeBack | backend/src/worktime/worktime.ts:160-198 | for every run, pairing the emitted boundaries gives back exactly the spans the daemon confirmed, empty ones dropped, the last possibly open |
| RoundTrip.ActiveIsConfirmed | backend/src/worktime/worktime.ts:145-199 | the `active` list is the canonical form of the confirmed spans |
| RoundTrip.ClosedSpansMeaning | backend/src/worktime/worktime.ts:160-195 | the spans pairing closes head the machine's list and are exactly the instants present with an absence to come |
| RoundTrip.HeartbeatsHarmless | backend/src/worktime/worktime.ts:88-103 | the closed spans pairing returns with and without heartbeats have the same canonical form iff every deciding heartbeat falls where the boundaries are active |
| RoundTrip.NestedHeartbeatsAreHarmless | daemon-py/src/flexitracker/state_machine.py:107-112 | with heartbeats between the start and end of their span, pairing the whole trace returns the closed spans the daemon confirmed, coalesced |
| RoundTrip.HeartbeatReopensSpan | daemon-py/tests/vectors/25-heartbeat-does-not-clamp-idle-backdate.json:9-12 | the daemon's default run in which one confirmed minute is counted as two hours |
| Outbox.Queue.Open | daemon-py/src/flexitracker/outbox.py:37-64 | reopening gives back exactly what was saved, or an empty queue |
| Outbox.Queue.Append | daemon-py/src/flexitracker/outbox.py:79-83 | events join the end and are durable on return |
| Outbox.Queue.SetMachine | daemon-py/src/flexitracker/outbox.py:75-77 | only the machine block changes, durably |
| Outbox.Queue.Next | daemon-py/src/flexitracker/outbox.py:85-96 | the next batch is the capped front under the current number, and nothing changes |
| Outbox.Queue.Ack | daemon-py/src/flexitracker/outbox.py:98-105 | drops that front, advances the number and forgets the machine block, durably |
| Delivery.LogIsSubsequence | daemon-py/src/flexitracker/outbox.py:79-105 | over any interleaving of append, send, loss, repetition, ack and reopen the server's log picks appended events in order, each at most once |
| Delivery.NothingLost | backend/src/tenant-do.ts:174-182 | stored plus undelivered is everything appended iff each acknowledged batch was stored at its acknowledged size |
| Delivery.GrownRetryLosesEvents | daemon-py/src/flexitracker/outbox.py:85-105 | a retry that grew after a lost ack drops the new event for good |
| Delivery.FlushDrains | daemon-py/src/flexitracker/cli.py:136-144 | one undisturbed round moves exactly the front batch to the server |
| Delivery.DrainedAfter | daemon-py/src/flexitracker/outbox.py:85-105 | after any number of undisturbed rounds exactly 2000 events a round have moved, in order, the number has counted the batches, and the queue is empty iff the rounds were enough |
| Delivery.FlushSends | daemon-py/src/flexitracker/outbox.py:85-105 | a round sends at most 2000 events with the number and machine block of the queue, and the block only once |
| Corrections.CountsByRows | backend/src/worktime/worktime.ts:257-260 | the layers of a ledger read from the table say exactly what its rows cover |
| Corrections.HasAfterDelete | backend/src/tenant-do.ts:329-337 | deleting ids removes exactly the cover of those rows |
| Edits.PlanAt | backend/src/ui/client-helpers.ts:176-193 | what a plan does to one instant, for all six types, three targets and both ledgers |
| Edits.PlanExactly | backend/src/ui/client-helpers.ts:176-193 | at every instant, in both ledgers and for every kind, what covers it after a plan: all but the deleted rows, and the one add or remove the choice calls for |
| Edits.NothingToDo | backend/src/ui/render.ts:677-682 | a plan is empty iff the position the period holds is picked; then, and while the period is growing, the table stays as it is |
| Edits.EditDoesWhatItSays | backend/src/ui/render.ts:677-690 | after an edit and recomputation each instant of the period counts here iff this ledger is the target, and counts there if that one is; the one exception is measured time leaving under an overlapping add, exactly |
| Edits.EditElsewhere | backend/src/ui/client-helpers.ts:176-193 | outside the edited period nothing changes in the other ledger, and an instant of this one changes iff the plan deletes every row of its kind covering it and losing that cover changes whether it counts |
| Fill.ComputeFillSpans | backend/src/ui/client-helpers.ts:157-168 | the loop collects the review and gap periods clamped to the envelope |
| Fill.WholeDayFill | backend/src/ui/render.ts:837-844 | after the fill exactly the review and gap instants of the envelope become manual, every other instant keeps its type, so all of the envelope counts or is removed; the envelope stays and nothing is left to fill |
| Marking.MarkingExact | backend/src/tenant-do.ts:193-219 | for any log and batch from the epoch on, every changed day is marked iff every day is that overlaps a stretch, between neighbouring events or up to the horizon, which the batch switches |
| Marking.MarkedDaysMeaning | backend/src/tenant-do.ts:193-219 | with one offset, the days marked: those an event of the batch falls on, and those from the first of them to the later assumed end before and after |
| Marking.AssumedEndIsActivity | backend/src/tenant-do.ts:239-248 | there is an assumed end iff the machine is present after all its events, and its activity past them ends there or at the check time |
| Marking.InOrderMarking | backend/src/tenant-do.ts:193-219 | for a batch in order, every changed day is marked iff no whole day is passed over in silence |
| Marking.SpacedMarkingSuffices | backend/src/tenant-do.ts:193-219 | spaced logs always satisfy it |
| Marking.LateBatchMissesDay | backend/src/tenant-do.ts:193-219 | a late batch out of order changes a day it does not mark |
| Marking.LoneIdleSkipsDay | backend/src/tenant-do.ts:239-248 | an idle two days after the last sign of life skips the day between |
| Store.TenantStore.Ingest | backend/src/tenant-do.ts:174-228 | a new batch adds its rows, its number and its dirty days; a duplicate changes nothing |
| Store.TenantStore.AssumedEnd | backend/src/tenant-do.ts:239-248 | the assumed end of a machine's open span, from its newest row |
| Store.TenantStore.MarkDaysInRangeDirty | backend/src/tenant-do.ts:730-737 | exactly the days from the start's midnight up to the end become dirty |
| Store.TenantStore.AddCorrection | backend/src/tenant-do.ts:272-313 | rejects as the code does; otherwise one row with a new id, holidays snapped to their day and the work ledger |
| Store.TenantStore.MoveToOtherLedger | backend/src/tenant-do.ts:322-327 | a remove here followed by an add there, or nothing when the first is rejected |
| Store.TenantStore.DeleteCorrection | backend/src/tenant-do.ts:329-337 | removes the row and marks its days; an unknown id changes nothing |
| Store.TenantStore.BeginSeal | backend/src/tenant-do.ts:663-668 | the first half of sealing loads the day and a day of margin on either side, and changes nothing |
| Store.TenantStore.FinishSeal | backend/src/tenant-do.ts:669-722 | the second half writes the rollup of both ledgers and the work ledger's sessions from what was loaded and the corrections there are by then |
| Store.TenantStore.ClearDay | backend/src/tenant-do.ts:652-653 | and takes the day off the dirty list |
| Store.TenantStore.RunMaintenance | backend/src/tenant-do.ts:644-657 | when the registry answers at once: seals every elapsed dirty day, keeps the others dirty, prunes old events; the order of the rows does not matter |
| StoreEdits.AddedExactly | backend/src/tenant-do.ts:272-313 | when an addition is refused, and otherwise the one row it adds: a new number, the span asked for or the local day of a holiday, the ledger asked for or work for a holiday |
| StoreEdits.AddedMarks | backend/src/tenant-do.ts:730-737 | with one offset, an addition marks exactly the days whose window its span overlaps |
| StoreEdits.MovedExactly | backend/src/tenant-do.ts:322-327 | a move removes the span from one ledger and adds it to the other, or is refused when it does not end after it starts, and nothing else changes |
| StoreEdits.DeletedExactly | backend/src/tenant-do.ts:329-337 | an unknown number changes nothing; otherwise that row goes, no other does, and with one offset exactly the days it overlapped are marked |
| StoreEdits.IngestedExactly | backend/src/tenant-do.ts:174-228 | a number seen before changes nothing; otherwise the events join their machine's log alone, the number is seen, and with one offset and a grace of 15 minutes exactly the days of the batch and up to the later assumed end are marked |
| StoreEdits.PlanIsCalls | backend/src/ui/render.ts:677-690 | the calls a plan makes leave in the store exactly the table the plan is about |
| StoreEdits.StoredEdit | backend/src/ui/render.ts:677-690 | so after those calls each instant of the period counts here and there as chosen, with the same exact exception |
| StoreEdits.FillIsCalls | backend/src/ui/render.ts:837-844 | the calls of a whole-day fill leave exactly the filled table |
| StoreEdits.LoadedExactly | backend/src/tenant-do.ts:597-605 | a sealing loads exactly the events of its day and of 24 hours on either side, in order |
| StoreEdits.LedgerExactly | backend/src/tenant-do.ts:378-382 | an event belongs to the ledger its machine is registered for, or to work when it is not registered |
| StoreEdits.MaintenanceExactly | backend/src/tenant-do.ts:644-657 | a dirty day that has ended is sealed and clean, any other keeps its mark and rollup, and exactly what is older than 120 days goes from the log |
| Totals.TotalsExact | backend/src/worktime/worktime.ts:255-346 | two pairs of logs, at any check times, give the same rollup under every table iff they claim the same sensor or bridged instants in both ledgers |
| Totals.SealedBooks | backend/src/tenant-do.ts:691-709 | every field of a sealed rollup from the number of instants that count in each ledger, the settings, the weekday and the holidays |
| Totals.SessionsExactly | backend/src/tenant-do.ts:710-721 | the stored sessions are, in order, the counted instants of the work ledger |
| Totals.SealExact | backend/src/tenant-do.ts:663-722 | for any rows loaded, log, day and clock, a sealing is recomputation under every table iff what was loaded claims what the log claims |
| Totals.LogChangeExact | backend/src/tenant-do.ts:174-228 | a change of the log leaves a day's rollup alone under every table iff it leaves the day's claims alone |
| StoreLaws.MarginDecides | backend/src/tenant-do.ts:663-669 | in a spaced log a margin of the grace is enough to decide every instant of the day |
| StoreLaws.SpacedGives | backend/src/tenant-do.ts:663-669 | in spaced logs a day of margin gives the claims of every elapsed day |
| StoreLaws.SealIsRecomputation | backend/src/tenant-do.ts:663-722 | under the table there is, a sealing is recomputation when what it has loaded claims what the log claims |
| StoreLaws.TouchedDays | backend/src/tenant-do.ts:730-737 | the days marked for a span are exactly those whose window it overlaps |
| StoreLaws.IngestKeeps | backend/src/tenant-do.ts:174-228 | an ingest whose batch marks what it switches keeps every clean rollup equal to recomputation |
| StoreLaws.AddKeeps | backend/src/tenant-do.ts:272-313 | so does adding a correction |
| StoreLaws.DeleteKeepsCoherent | backend/src/tenant-do.ts:329-337 | so does deleting one |
| StoreLaws.MaintainKeeps | backend/src/tenant-do.ts:644-657 | so does maintenance whose margins give the days it seals, with nothing to prune |
| StoreLaws.RollupsStayCoherent | backend/src/tenant-do.ts:174-337 | over every run from an empty store whose calls meet those conditions, a rollup whose day is not dirty equals recomputation from the whole log and all corrections |
| StoreLaws.SpacedRunsAreAllowed | backend/src/tenant-do.ts:174-337 | runs with spaced logs meet the conditions at every call |
| StoreLaws.IngestIsAccept | backend/src/tenant-do.ts:174-182 | for one machine ingest is the delivery protocol's server, and no other machine is touched |
| Sealing.FinishExact | backend/src/tenant-do.ts:663-722 | whatever is edited before the answer, the day of a waiting sealing ends clean and right iff what it has loaded claims what the log claims by then |
| Sealing.WaitingSealsStayCoherent | backend/src/tenant-do.ts:644-722 | over every interleaving of calls and waiting sealings, clean rollups are right if each batch marks what it switches and each sealing that ends gives its day |
| Sealing.WaitingSealExact | backend/src/tenant-do.ts:644-722 | in every such run, each waiting sealing ends right after all edits iff it gives its day |
| Sealing.UndisturbedIsAnswered | backend/src/tenant-do.ts:644-722 | that holds when no batch marks a day while its sealing waits |
| Incidents.SealLosesMark | backend/src/tenant-do.ts:644-669 | with default settings, a batch accepted during the wait leaves a rollup of zero, clean and wrong |
| Incidents.DaysAwayGoUnmarked | backend/src/tenant-do.ts:193-219 | with default settings and the daemon's own batches, three days away leave at most 20.5 minutes in the rollup of a day that recomputes to almost 24 hours, and the marking test says so |
| EndToEnd.StoreIsServer | backend/src/tenant-do.ts:174-182 | over every protocol run the store holds of a machine what the server does |
| EndToEnd.DayClaimsWhatWasConfirmed | backend/src/worktime/worktime.ts:145-199 | a daemon's run with nested heartbeats, delivered over any losses without a grown retry, makes each day claim what the confirmed spans claim |

## Left out

- HTTP routes, identity, mail, the page itself and URL state: plumbing and UI.
- The registry: thin SQL over keys and codes. Roles are a map from machines to ledgers that stays as it is.
- The daemon's idle detection, login autostart, sender, configuration and logging: foreign calls. A sample of the system is an arbitrary `Tick`.
- Settings range checks, wire-schema shape checks, `roundToStep`, date and ISO-week strings, raw activity lanes: they would add only easy members.
- The offsets of real zones: a zone is an arbitrary function of the instant for one day and for the store's methods, and one offset where days are compared with marks.
- Pruning's effect on old days, changes of settings and roles, `getWeek` against sealed values, `getStatus`: raw data is discarded on purpose there.
- The `machine` table, alarms, notes and creation times of corrections: nothing modelled reads them back. Sessions are written as the code does and, like the code, never read back.
- Torn or unreadable outbox and state files, `trim_expired`, and a crash between appending events and saving the daemon's state.
- Fractional timestamps, which the wire schema admits.
- Delivery.NothingLost: the protocol's moves are on values; the queue object is tied to them by `NextBatch` and `Acked`, which its methods are proved to follow.
- Store.TenantStore.RunMaintenance: runs with the registry answering at once; `Sealing` moves `BeginSeal` and `ClearDay` apart, on values. The rows of `dirty_day` are a parameter in any order.
- StoreLaws.RollupsStayCoherent: one direction for whole runs, because a rollup can be right under the corrections there are though the claims differ; `Totals.LogChangeExact` and `Totals.SealExact` are exact for each step.
- StoreLaws.TouchedDays: for one offset; where a clock is set back the loop also visits the instant an hour past midnight.
- LocalTime.WeekContains: for one offset; `LocalTime.StepLands` says where a step lands otherwise.
- Week.IndexIsWeekday: for one offset, likewise.
- PairingLaws.OrderExact: about `byMachine`; in the merged list another machine may cover an instant a tie decides, so for `active` the condition is sufficient (`PairingLaws.OrderIndependence`).
- DaemonLaws.NoOverClaim: the bound uses the largest thresholds of the run, since a restart may change them.
- Week.BalanceConserved: for the work ledger and norms that are not negative; the personal ledger always balances (`Week.BalanceExact`).
- Edits.EditDoesWhatItSays: an edit whose period is still growing changes nothing.
