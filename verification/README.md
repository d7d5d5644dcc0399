# Formal model of the SPSHW monitoring and control logic

This project models, in Dafny 4.11, the parts of `ska-low-mccs-spshw` that carry state, ordering or arithmetic, and
proves what they promise. Hardware is an arbitrary responder, and clocks are arbitrary numbers passed in by the caller.
`dafny verify dfyconfig.toml` checks everything.

| file | what it models |
|---|---|
| `OrderedMap.dfy`, `SubrackCommands.dfy`, `SubrackDriver.dfy` | the subrack polling protocol: registration and supersession of commands, building requests, polling a board that may answer anything, completion |
| `SubrackRuns.dfy`, `SubrackDispatch.dfy`, `SubrackSchedule.dfy`, `SubrackOutcomes.dfy`, `SubrackFailures.dfy` | what holds over every run of it; in what turn commands are dispatched; when values are written, attributes read and the health polled; what each answer means for a callback; how callbacks are let down, and exactly when |
| `FanDebouncer.dfy` | the filter on estimated fan speeds |
| `TpmPolling.dfy`, `PolledTables.dfy`, `RequestQueue.dfy`, `RequestProvider.dfy`, `RequestRuns.dfy`, `RequestHistories.dfy` | the scheduler of tile requests: priority queue, wipe times, the `initialise` barrier, status gating and the attribute rotation; and what holds over every run |
| `BeamformerRegions.dfy`, `BeamformerNumbers.dfy` | region lists, the table of 48 blocks, and the flat list sent to the tiles |
| `PpsDelaySpread.dfy` | the PPS delay spread as a fold over the history of tile events |
| `AntennaOrder.dfy`, `Calibration.dfy` | scattering pointing delays and calibration coefficients to tiles, gathering bandpasses |
| `PyDict.dfy`, `FindByKey.dfy`, `DeepMerge.dfy` | nested dictionaries, breadth-first search, merging of threshold modifiers |
| `HealthRules.dfy`, `HealthVerdicts.dfy` | health evaluation of a tile over threshold trees; the health of single points, by value and threshold |
| `TileDefaults.dfy`, `TileDefaultValues.dfy` | generated default values, and when they are healthy |
| `TileTime.dfy` | frame counts and UTC times, the alignment of the reference time |
| `Basics.dfy` | types shared by several files |

Classes whose methods update fields are Dafny classes. Each such method is proved to do exactly what a step function on
values does, and the laws are lemmas about those functions and about runs: sequences of steps in any order the caller or
the poller can produce. Callbacks are recorded in ghost logs.

## What the proofs show about the code

Some expectations one might have of the code do not hold in general. For each there is a lemma with the exact condition.

* A turn-all request (TPM or PDU port 0) aborts the callbacks of waiting individual commands but leaves those commands in
  the map, so they are dispatched after having been told ABORTED (`AbortedThenDispatched`), or told ABORTED once more by
  the next such request (`AbortedTwice`); `TurnAllRuns` gives runs from the start for both. A registration keeps every
  callback's life in order if and only if it is not such a request (`RegistrationIsSafeExactly`).
* A poll that raises after its command was answered OK leaves the callback active on an idle board. It stays so over every
  run until a request carries a command. That request overwrites it if and only if a command is waiting by then
  (`OverwrittenExactly`), and then it never hears anything more, on any run (`OverwrittenIsLost`; `LosingRun` is a run
  from the start that loses one). Otherwise the request is a health poll that the driver adds of its own, and what
  that is answered decides: COMPLETED, FAILED, a busy board, or as before (`HealthPollDecides`).
* `initialise_queued` stays up when a queued `initialise` expires, is refused, is run in status Initialised or
  Synchronised, or is cleaned up; the tile's check before a new `initialise` then finds it up although nothing is queued
  (`FlagTruthfulExactly`; `FlagStaysUp` gives runs that show each).
* The validation of beamformer regions does not reject negative sizes, and with one of them accepted regions can overflow
  the table of 48 entries (`NegativeSizeOverflows`, `FitsExactly`).
* Trailing blocks with channel 0 and subarray 0 are dropped before the list is sent (`RegionsReachTilesExactly`;
  `TrailingNullIsDropped` is an example).
* After `stop_communicating` the PPS delay spread is stale, until a tile event computes it again, unless it was 0
  (`StoredIsCurrentExactly`; `StopLeavesStaleSpread` is an example).
* A node of the health tree without any state of its own counts as UNKNOWN (`WorstLeafExactly`;
  `HollowNodeIsUnknown` is an example).
* Default values are healthy when each range contains a whole number of thousandths; a narrower range can round out of
  itself (`DefaultsAreHealthyExactly`; `NarrowRangeFails` is an example).

Where comments and code disagree, the model follows the code: an out-of-band fan speed is replaced by 6500 rpm where the
docstring says 6000, and the bandpass reordering stops at the first antenna that is missing from the mapping where a
comment says that such antennas are skipped.

## Model

| member | source | states |
|---|---|---|
| OrderedMap.PutUpdates | src/ska_low_mccs_spshw/subrack/subrack_driver.py:416-420 | registering a command replaces the one under its key and no other |
| OrderedMap.PutKeepsOrder | src/ska_low_mccs_spshw/subrack/subrack_driver.py:122-124 | the order of keys is that in which they were first registered; a superseding command keeps the place of the one it supersedes |
| SubrackCommands.SafeAborts | src/ska_low_mccs_spshw/subrack/subrack_driver.py:402-414 | when no individual command with a callback waits, a registration aborts the callback it replaces and nothing else; a health request aborts nothing |
| SubrackCommands.AbortsInOrder | src/ska_low_mccs_spshw/subrack/subrack_driver.py:402-414 | callbacks are aborted in the order of the superseded keys |
| OrderedMap.PutAllUpdates | src/ska_low_mccs_spshw/subrack/subrack_driver.py:574-575 | of the values registered for an attribute the last is the one pending, and no other attribute is touched |
| SubrackPolling.SubrackDriver.constructor | src/ska_low_mccs_spshw/subrack/subrack_driver.py:98-127 | a new driver assumes the board busy, has both ticks at their limit and nothing registered |
| SubrackPolling.SubrackDriver.Supersede | src/ska_low_mccs_spshw/subrack/subrack_driver.py:402-420 | callbacks found under the superseded keys are told ABORTED in order, then the new command is stored under its own key |
| SubrackPolling.SubrackDriver.TurnOffOnTpm | src/ska_low_mccs_spshw/subrack/subrack_driver.py:392-420 | turning a TPM on or off supersedes the requests for that TPM; number 0 aborts the callbacks of all keys 0 to 8 |
| SubrackPolling.SubrackDriver.TurnOffOnPduPort | src/ska_low_mccs_spshw/subrack/subrack_driver.py:295-320 | the same for PDU ports, with keys 0 to 24 |
| SubrackPolling.SubrackDriver.ReadHealthGroup | src/ska_low_mccs_spshw/subrack/subrack_driver.py:446-456 | a health request replaces a waiting one without telling its callback |
| SubrackPolling.SubrackDriver.ChangeSubrackFanSpeed | src/ska_low_mccs_spshw/subrack/subrack_driver.py:480-496 | a fan speed request supersedes the waiting one for the same fan |
| SubrackPolling.SubrackDriver.ChangeSubrackFanMode | src/ska_low_mccs_spshw/subrack/subrack_driver.py:512-528 | a fan mode request supersedes the waiting one for the same fan |
| SubrackPolling.SubrackDriver.ChangePowerSupplyFanSpeed | src/ska_low_mccs_spshw/subrack/subrack_driver.py:544-560 | a power supply fan request supersedes the waiting one for the same fan |
| SubrackPolling.SubrackDriver.WriteAttributes | src/ska_low_mccs_spshw/subrack/subrack_driver.py:574-575 | attribute writes are merged into the pending ones, last value winning |
| SubrackPolling.SubrackDriver.GetRequest | src/ska_low_mccs_spshw/subrack/subrack_driver.py:641-709 | the request built, the new state and the IN_PROGRESS event, for a busy and for an idle board |
| SubrackPolling.SubrackDriver.TakeCommand | src/ska_low_mccs_spshw/subrack/subrack_driver.py:651-661 | at most one waiting command, the first, is taken, and its callback is active from now on and told IN_PROGRESS |
| SubrackPolling.SubrackDriver.ConsiderHealth | src/ska_low_mccs_spshw/subrack/subrack_driver.py:695-708 | health is polled when due, enabled and no other command is in the request; otherwise it stays due if enabled |
| SubrackPolling.SubrackDriver.CheckBiosVersion | src/ska_low_mccs_spshw/subrack/subrack_driver.py:577-587 | the BIOS version is checked once, when board information first arrives |
| SubrackPolling.SubrackDriver.Poll | src/ska_low_mccs_spshw/subrack/subrack_driver.py:736-888 | the result, new state and events of a poll, for every sequence of answers, with a raise ending it early |
| SubrackPolling.SubrackDriver.AnswerCommand | src/ska_low_mccs_spshw/subrack/subrack_driver.py:742-809 | which answers fail the active callback, mark the board busy or raise |
| SubrackPolling.SubrackDriver.PollSucceeded | src/ska_low_mccs_spshw/subrack/subrack_driver.py:907-935 | when the active command is taken as completed, and that a full read is then forced |
| SubrackPolling.SubrackDriver.PollingStopped | src/ska_low_mccs_spshw/subrack/subrack_driver.py:966-969 | both ticks return to their limit |
| SubrackRuns.StepKeepsShape | src/ska_low_mccs_spshw/subrack/subrack_driver.py:646-709 | at every moment at most one command is in flight, and `command_completed` is asked exactly while the board is busy |
| SubrackRuns.StepKeepsFate | src/ska_low_mccs_spshw/subrack/subrack_driver.py:402-420 | every step keeps every callback's history consistent with where it is: waiting, active, dropped, overwritten or finished |
| SubrackRuns.CallbackLifecycle | src/ska_low_mccs_spshw/subrack/subrack_driver.py:738-809 | over every run and every board, a callback hears nothing, or ABORTED only, or IN_PROGRESS and then at most one of FAILED and COMPLETED |
| SubrackRuns.RegistrationIsSafeExactly | src/ska_low_mccs_spshw/subrack/subrack_driver.py:393-420 | a registration keeps all callback histories in order if and only if it is not a turn-all request that finds an individual command with a callback waiting |
| SubrackFailures.LifecycleWithoutTurnAll | src/ska_low_mccs_spshw/subrack/subrack_driver.py:738-809 | over every run without turn-all requests and every board, a callback hears nothing, or ABORTED only, or IN_PROGRESS and then at most one of FAILED and COMPLETED |
| SubrackFailures.LifecycleOfAnyRun | src/ska_low_mccs_spshw/subrack/subrack_driver.py:393-420 | over every run whatever, it hears ABORTED any number of times, and then at most IN_PROGRESS and one of FAILED and COMPLETED |
| SubrackFailures.AbortedThenDispatched | src/ska_low_mccs_spshw/subrack/subrack_driver.py:393-420 | after a turn-all request in any state, the first waiting individual command is dispatched by the next idle request although its callback was told ABORTED |
| SubrackFailures.AbortedTwice | src/ska_low_mccs_spshw/subrack/subrack_driver.py:393-420 | two turn-all requests tell the callback of a waiting individual command ABORTED twice |
| SubrackFailures.TurnAllRuns | src/ska_low_mccs_spshw/subrack/subrack_driver.py:393-420 | for every TPM a run from the start that ends with ABORTED, IN_PROGRESS, and one that ends with ABORTED, ABORTED |
| SubrackRuns.StepKeepsSettled | src/ska_low_mccs_spshw/subrack/subrack_driver.py:651-661 | unless a poll raises after an OK answer, no step leaves an active callback that could be overwritten |
| SubrackRuns.PollSettlesExactly | src/ska_low_mccs_spshw/subrack/subrack_driver.py:738-888 | a poll leaves its callback active on an idle board, open to being overwritten, if and only if it raises after answering the command OK |
| SubrackFailures.OverwrittenExactly | src/ska_low_mccs_spshw/subrack/subrack_driver.py:651-661 | such a callback stays active over every run whose requests carry no command, however they are answered, and the next request overwrites it if and only if a command waits by then: one that waited already or was registered since |
| SubrackFailures.OverwrittenIsLost | src/ska_low_mccs_spshw/subrack/subrack_driver.py:651-661 | an overwritten callback has heard IN_PROGRESS last and hears nothing more over every later run |
| SubrackFailures.LosingRun | src/ska_low_mccs_spshw/subrack/subrack_driver.py:738-888 | a run from the start that loses a callback in this way |
| SubrackFailures.HealthPollDecides | src/ska_low_mccs_spshw/subrack/subrack_driver.py:742-809 | if no command waits, a health poll decides: its answer OK completes the callback, a refusal fails it, STARTED makes it wait for the board, and a raise after OK leaves it as it was |
| SubrackRuns.EveryCallbackAccountedFor | src/ska_low_mccs_spshw/subrack/subrack_driver.py:907-935 | over every run without such raises, each registered callback is waiting, active, dropped by a later health request, or has heard exactly one terminal status |
| SubrackFailures.AccountedForInAnyRun | src/ska_low_mccs_spshw/subrack/subrack_driver.py:393-935 | over every run whatever, each registered callback is waiting, active, dropped or overwritten, or has heard FAILED or COMPLETED once, or only ABORTED and that at least once |
| SubrackFailures.SilentForEver | src/ska_low_mccs_spshw/subrack/subrack_driver.py:402-935 | over every run, a registered callback that neither waits nor is active hears nothing more |
| SubrackFailures.NothingAfterTerminal | src/ska_low_mccs_spshw/subrack/subrack_driver.py:738-935 | over every run, nothing follows FAILED or COMPLETED |
| SubrackRuns.BusyWindow | src/ska_low_mccs_spshw/subrack/subrack_driver.py:646-649 | until a poll reports `command_completed` true, every request carries only that command, no queued command or pending write is consumed, and nobody is told COMPLETED |
| SubrackRuns.StartedOpensWindow | src/ska_low_mccs_spshw/subrack/subrack_driver.py:781-785 | a STARTED answer opens such a window and keeps the active callback |
| SubrackOutcomes.StartedIsCompleted | src/ska_low_mccs_spshw/subrack/subrack_driver.py:742-935 | after a STARTED answer the callback, while it stays active, hears nothing over every run in which no poll answers that the command is completed; the first poll that does tells it COMPLETED and leaves the board idle with nothing active |
| SubrackOutcomes.FailedExactly | src/ska_low_mccs_spshw/subrack/subrack_driver.py:738-809 | over every run, a callback is told FAILED if and only if it is active and the command of a poll is answered neither OK nor STARTED, and BUSY only on an idle board |
| SubrackOutcomes.CompletedExactly | src/ska_low_mccs_spshw/subrack/subrack_driver.py:907-935 | over every run, the hook tells COMPLETED if and only if the callback is active and the command of the poll before was answered OK, with the value true if the board was busy |
| SubrackOutcomes.OnlyHooksComplete | src/ska_low_mccs_spshw/subrack/subrack_driver.py:907-935 | nothing but the hook after a poll that did not raise tells COMPLETED |
| SubrackOutcomes.HookDecides | src/ska_low_mccs_spshw/subrack/subrack_driver.py:738-935 | from a poll to its hook, whatever is registered in between: what the callback hears, by the answer |
| SubrackOutcomes.PollRaisesExactly | src/ska_low_mccs_spshw/subrack/subrack_driver.py:738-888 | a poll raises if and only if its command, a write or a read is answered with a request exception, an HTTP error or an unknown status |
| SubrackRuns.AtMostOneCommand | src/ska_low_mccs_spshw/subrack/subrack_driver.py:646-709 | every request ever built carries at most one command |
| SubrackRuns.FirstIdleRequestReadsAll | src/ska_low_mccs_spshw/subrack/subrack_driver.py:923-928 | the first request after a busy board completes reads all attributes, whatever is registered in between |
| SubrackSchedule.WritesGoOut | src/ska_low_mccs_spshw/subrack/subrack_driver.py:663-666 | over every run, the first request for an idle board writes for each attribute the last value registered since the one before, and nothing else |
| SubrackSchedule.ReadsInTurn | src/ska_low_mccs_spshw/subrack/subrack_driver.py:668-692 | over every run, all 19 attributes are read by the first request for an idle board after at least `maxTick` others, and none before |
| SubrackSchedule.HealthInTurn | src/ska_low_mccs_spshw/subrack/subrack_driver.py:695-708 | over every run, the health is polled by the first request for an idle board after at least `commandMaxTick` others for which no command waits |
| SubrackSchedule.HealthIsEnabledExactly | src/ska_low_mccs_spshw/subrack/subrack_driver.py:577-587 | over every run, the health is polled if and only if the first look at the board information found that the board knows the command |
| SubrackSchedule.NoHealthUnlessEnabled | src/ska_low_mccs_spshw/subrack/subrack_driver.py:695-708 | until then an idle request for which no command waits carries none |
| SubrackSchedule.DisabledRestarts | src/ska_low_mccs_spshw/subrack/subrack_driver.py:704-707 | the next look is taken after as many requests again |
| SubrackSchedule.DueAfterStop | src/ska_low_mccs_spshw/subrack/subrack_driver.py:966-969 | after the polling has stopped, the next idle request reads all attributes and polls the health |
| SubrackSchedule.DueAfterCompletion | src/ska_low_mccs_spshw/subrack/subrack_driver.py:923-928 | so does the next idle request after a long-running command has completed |
| SubrackDispatch.DispatchedInTurn | src/ska_low_mccs_spshw/subrack/subrack_driver.py:651-661 | over every run, a command with k ahead of it that is not superseded is in the idle request number k + 1, and waits in its turn until then |
| SubrackDispatch.DispatchedOnce | src/ska_low_mccs_spshw/subrack/subrack_driver.py:651-661 | it waits no more exactly from that request on |
| FanDebouncer.CurrentRunIsSuffix | src/ska_low_mccs_spshw/subrack/subrack_driver.py:620-630 | the current run is the longest stretch of out-of-band values at the end of a fan's history |
| FanDebouncer.OutOfBandOnlyAfterLongRun | src/ska_low_mccs_spshw/subrack/subrack_driver.py:620-630 | an out-of-band value is published if and only if the `max_fan_errors` values before it were out of band too |
| FanDebouncer.PublishedExactly | src/ska_low_mccs_spshw/subrack/subrack_driver.py:620-632 | a value is published as it is if it is in band or follows `max_fan_errors` out-of-band ones, and as 6500 rpm otherwise |
| FanDebouncer.OutOfBandExactly | src/ska_low_mccs_spshw/subrack/subrack_driver.py:624 | the band around 6500 rpm |
| FanDebouncer.ScaledExactly | src/ska_low_mccs_spshw/subrack/subrack_driver.py:614-618 | speeds are scaled up from their duty cycle, and tenfold below 10% |
| FanDebouncer.BandsAre | src/ska_low_mccs_spshw/subrack/subrack_driver.py:623-630 | a fan's history, value by value |
| FanDebouncer.Estimator.EstimateMaxFanRpm | src/ska_low_mccs_spshw/subrack/subrack_driver.py:611-632 | over every history each error counter is the smaller of the limit and the current out-of-band run, and each published value is as that run decides; readings without values change nothing, and IndexError is raised exactly when a duty cycle is missing or there are more than 4 fans |
| FanDebouncer.Estimator.DebounceAll | src/ska_low_mccs_spshw/subrack/subrack_driver.py:623-630 | one pass over the fans updates every counter and value by its fan's own run |
| TpmPolling.RequestIterator.SetState | src/ska_low_mccs_spshw/tile/tile_poll_management.py:298-307 | a new status restarts the rotation, the same status leaves it alone |
| TpmPolling.RequestIterator.Next | src/ska_low_mccs_spshw/tile/tile_poll_management.py:324-332 | the next attribute of the status's table, wrapping around |
| TpmPolling.WrapIsMod | src/ska_low_mccs_spshw/tile/tile_poll_management.py:328 | the place in the table is the remainder of the index |
| TpmPolling.FullTurn | src/ska_low_mccs_spshw/tile/tile_poll_management.py:317-332 | a full turn from any index hands out exactly the table |
| TpmPolling.RotationIsFair | src/ska_low_mccs_spshw/tile/tile_poll_management.py:317-332 | k full turns from any index hand out each element k times as often as it is listed |
| PolledTables.ShippedTablesListOnce | src/ska_low_mccs_spshw/tile/tile_poll_management.py:168-270 | in no shipped table is an attribute listed twice, so that `OncePerTurn` applies to them |
| RequestQueue.MinIndex | src/ska_low_mccs_spshw/tile/tile_poll_management.py:335-337 | the entry taken is one that no other comes before |
| RequestQueue.DrainedTakesAll | src/ska_low_mccs_spshw/tile/tile_poll_management.py:401-404 | emptying the queue tells every queued request exactly as often as it is queued |
| RequestProvider.TileRequestProvider.constructor | src/ska_low_mccs_spshw/tile/tile_poll_management.py:351-373 | a new provider is empty, with all flags down |
| RequestProvider.TileRequestProvider.Drain | src/ska_low_mccs_spshw/tile/tile_poll_management.py:402-404 | draining tells ABORTED to every queued request in queue order |
| RequestProvider.TileRequestProvider.EnqueueLrc | src/ska_low_mccs_spshw/tile/tile_poll_management.py:401-412 | an `initialise` drains the queue, restarts the counter and raises the flag; the request is queued with the next counter and a wipe time of 60 s by default |
| RequestProvider.TileRequestProvider.CleanUp | src/ska_low_mccs_spshw/tile/tile_poll_management.py:414-426 | cleaning up reports everything stale, returns to status Unknown and drains the queue |
| RequestProvider.TileRequestProvider.GetRequest | src/ska_low_mccs_spshw/tile/tile_poll_management.py:437-475 | the answer, the new state and what callbacks are told, in every case |
| RequestProvider.TileRequestProvider.RegisterConnection | src/ska_low_mccs_spshw/tile/tile_poll_management.py:375-377 | a connection is wanted from now on |
| RequestProvider.TileRequestProvider.RegisterConfigurationRead | src/ska_low_mccs_spshw/tile/tile_poll_management.py:379-381 | a configuration read is wanted from now on |
| RequestProvider.TileRequestProvider.ForgetConfigurationRead | src/ska_low_mccs_spshw/tile/tile_poll_management.py:383-385 | a configuration read is no longer wanted |
| RequestRuns.RunConserves | src/ska_low_mccs_spshw/tile/tile_poll_management.py:387-475 | over every run, requests handed in equal those queued, told ABORTED and returned together, request by request |
| RequestRuns.ExactlyOneFate | src/ska_low_mccs_spshw/tile/tile_poll_management.py:387-475 | a request handed in once is queued, told ABORTED once, or returned once, and only one of these |
| RequestRuns.InitialiseIsBarrier | src/ska_low_mccs_spshw/tile/tile_poll_management.py:401-408 | enqueueing `initialise` aborts everything waiting, and nothing enqueued before it is returned after it |
| RequestRuns.CleanupEmpties | src/ska_low_mccs_spshw/tile/tile_poll_management.py:421-426 | cleaning up leaves nothing queued and tells everything that was |
| RequestRuns.ValidHolds | src/ska_low_mccs_spshw/tile/tile_poll_management.py:401-412 | over every run queue keys are distinct despite the counter restart, at most one `initialise` is queued, and `initialise_queued` is true whenever one is |
| RequestRuns.TakesByPriorityThenArrival | src/ska_low_mccs_spshw/tile/tile_poll_management.py:449-450 | the entry taken has the lowest priority number, and of these it arrived first |
| RequestRuns.LeavesInOrder | src/ska_low_mccs_spshw/tile/tile_poll_management.py:387-475 | over every run, while an entry is queued so is every entry behind it in (priority, arrival) order |
| RequestHistories.ReturnedInTime | src/ska_low_mccs_spshw/tile/tile_poll_management.py:387-475 | over every run, a request returned was enqueued by an earlier call since which the queue was not emptied, its deadline from that call has not passed, and the status permits it |
| RequestHistories.TakenInTimeOrAborted | src/ska_low_mccs_spshw/tile/tile_poll_management.py:445-475 | over every run, a call that finds requests waiting and no connection wanted returns one if its deadline from the call that enqueued it has not passed and the status permits it, and otherwise tells it ABORTED and answers with an attribute |
| RequestHistories.AnsweredExactly | src/ska_low_mccs_spshw/tile/tile_poll_management.py:445-454 | over every run: CONNECT if and only if a connection was asked for since the call before; READ_CONFIGURATION if and only if it was not, nothing waits and the last call about the configuration asked for it |
| RequestHistories.PolledInTurn | src/ska_low_mccs_spshw/tile/tile_poll_management.py:298-332 | over every run, an attribute handed out is the first of its status's table after a change of status, and then the next one, starting over at the end |
| RequestHistories.FlagTruthfulExactly | src/ska_low_mccs_spshw/tile/tile_poll_management.py:401-475 | over every run, `initialise_queued` tells the truth if and only if the `initialise` enqueued last was not lost: cleaned up while it waited, or taken by a call after its deadline or in a status other than Unprogrammed and Programmed |
| RequestHistories.FlagStaysUp | src/ska_low_mccs_spshw/tile/tile_poll_management.py:414-475 | runs after which the flag is up and nothing is queued, for each of these ways |
| RequestRuns.LiveIsAllowed | src/ska_low_mccs_spshw/tile/tile_poll_management.py:272-307 | over every run, the attributes handed out and not since reported stale are among those allowed in the current status |
| RequestHistories.LiveExactly | src/ska_low_mccs_spshw/tile/tile_poll_management.py:283-307 | over every run, an attribute is up to date, handed out and not reported stale since, if and only if some call handed it out and none since cleaned up or brought a status that does not poll it |
| RequestRuns.PolledIsRotation | src/ska_low_mccs_spshw/tile/tile_poll_management.py:317-332 | while the status is steady, the attributes handed out are the rotation, whatever requests come and go in between |
| RequestRuns.RoundRobinIsFair | src/ska_low_mccs_spshw/tile/tile_poll_management.py:317-332 | over every such run handing out k tables' worth of attributes, each is handed out exactly k times per listing |
| RequestRuns.OncePerTurn | src/ska_low_mccs_spshw/tile/tile_poll_management.py:317-332 | with tables that list nothing twice, every allowed attribute is handed out exactly once a turn and no other ever |
| RequestRuns.ServedPromptly | src/ska_low_mccs_spshw/tile/tile_poll_management.py:429-475 | from any state and without new requests, an entry with k ahead of it is still queued after k calls of `get_request`, or k + 1 if a connection is wanted, and gone after the next |
| BeamformerRegions.DecodeEncode | src/ska_low_mccs_spshw/station/station_component_manager.py:3340-3347 | the flat list sent to the tiles decodes to the table's entries, each as a region of 8 channels |
| BeamformerRegions.ExpandPreservesMeaning | src/ska_low_mccs_spshw/station/station_device.py:2333-2338 | expanding regions into blocks describes the same channels, beams, subarrays, logical channels and identifiers, slot by slot |
| BeamformerRegions.SentMeansTheSameExactly | src/ska_low_mccs_spshw/station/station_component_manager.py:3322-3342 | what is sent means the same as the table if and only if there are entries and the last one is not null |
| BeamformerRegions.RegionsReachTilesExactly | src/ska_low_mccs_spshw/station/station_device.py:2302-2343 | end to end, the list sent describes the regions given, slot by slot, if and only if their last block is not null |
| BeamformerRegions.TrailingNullIsDropped | src/ska_low_mccs_spshw/station/station_component_manager.py:3322-3342 | accepted regions of which the last does not reach the tiles |
| BeamformerRegions.PaddedRegionsMeanTheSame | src/ska_low_mccs_spshw/station/station_device.py:2339-2342 | the 48 rows kept as the station's regions mean the same as the regions given |
| BeamformerRegions.FitsExactly | src/ska_low_mccs_spshw/station/station_device.py:2329-2338 | accepted regions fit the 48 blocks if and only if those of positive size hold at most 384 channels |
| BeamformerRegions.PositiveRegionsFit | src/ska_low_mccs_spshw/station/station_device.py:2321-2332 | accepted regions of positive size always fit |
| BeamformerRegions.NegativeSizeOverflows | src/ska_low_mccs_spshw/station/station_device.py:2321-2332 | an accepted list with a negative size that does not fit |
| BeamformerRegions.PaddingIsIgnored | src/ska_low_mccs_spshw/station/station_component_manager.py:3308-3309 | the null entries that fill the table do not change what is sent |
| BeamformerRegions.Station.SetBeamFormerRegions | src/ska_low_mccs_spshw/station/station_device.py:2302-2343 | a list is accepted if and only if it holds 1 to 48 whole regions with even start channels, sizes that are multiples of 8, beams 0 to 47 and at most 384 channels; otherwise the first fault of the first faulty region is raised and nothing changes; if accepted, the regions are kept and what is sent depends on them alone |
| BeamformerRegions.CheckedExactly | src/ska_low_mccs_spshw/station/station_device.py:2315-2332 | what the loop over the regions rejects, number by number |
| BeamformerNumbers.SentNumbers | src/ska_low_mccs_spshw/station/station_component_manager.py:3305-3347 | what is sent, number by number: eight for each block of each region, with both channels advanced by 8, but for blocks at channel 0 of subarray 0 at the end |
| BeamformerNumbers.SentEndsValid | src/ska_low_mccs_spshw/station/station_component_manager.py:3320-3340 | the list sent ends with a block that is not one of those |
| BeamformerNumbers.SlotIs | src/ska_low_mccs_spshw/station/station_device.py:2333-2338 | what a list of regions means, slot by slot |
| BeamformerRegions.Station.ExpandRegions | src/ska_low_mccs_spshw/station/station_device.py:2315-2338 | the loop over regions gives the first error, or the expansion of all regions |
| BeamformerRegions.Station.BlocksOfRegion | src/ska_low_mccs_spshw/station/station_device.py:2333-2338 | the blocks of a region, with physical and logical channel advancing together |
| BeamformerRegions.Station.SetBeamformerTable | src/ska_low_mccs_spshw/station/station_component_manager.py:3305-3310 | the table holds the entries and then null entries, the default one if all are null, and the first 48 if there are more, which raises; what is sent is decided by the entries alone |
| BeamformerRegions.Station.SendTable | src/ska_low_mccs_spshw/station/station_component_manager.py:3322-3347 | entries up to the last valid one are sent, or a default one if there is none |
| PpsDelaySpread.LastDelayIsFresh | src/ska_low_mccs_spshw/station/station_component_manager.py:1120-1159 | a delay counts if and only if it arrived and nothing since reported another, declared it invalid, showed the tile below Initialised or ended communication |
| PpsDelaySpread.SpreadIsLargestDifference | src/ska_low_mccs_spshw/station/station_component_manager.py:2594-2596 | the spread is the largest difference between two delays, 0 if there are none |
| PpsDelaySpread.StoredIsCurrentExactly | src/ska_low_mccs_spshw/station/station_component_manager.py:1097-1165 | after every history, the stored spread is that of the known delays of the Synchronised tiles if and only if communication has not stopped since it was last computed or it is 0 |
| PpsDelaySpread.StoredIsCurrent | src/ska_low_mccs_spshw/station/station_component_manager.py:1120-1165 | in particular it is after every event of a run of tile events |
| PpsDelaySpread.SpreadExactly | src/ska_low_mccs_spshw/station/station_component_manager.py:1120-1165 | over every run of tile events, the stored spread is the largest difference between delays that were reported, not since voided by an invalid reading or a state below Initialised, and whose tile last showed Synchronised; 0 if there are none |
| PpsDelaySpread.StopLeavesStaleSpread | src/ska_low_mccs_spshw/station/station_component_manager.py:1097-1100 | a history after which the stored spread is stale |
| PpsDelaySpread.Station.OnTileAttributeChange | src/ska_low_mccs_spshw/station/station_component_manager.py:1120-1165 | the station's fields agree with its history after every tile event |
| PpsDelaySpread.Station.FirePpsDelaySpread | src/ska_low_mccs_spshw/station/station_component_manager.py:2586-2596 | the spread is computed from the reported delays of the Synchronised tiles |
| PpsDelaySpread.Station.Stop | src/ska_low_mccs_spshw/station/station_component_manager.py:1097-1100 | stopping forgets every delay and leaves the spread |
| AntennaOrder.CalculateDelaysPerTile | src/ska_low_mccs_spshw/station/station_component_manager.py:1042-1084 | each deployed tile gets the beam, delay and rate of the last antenna on each pair of channels, and 0 elsewhere; exactly when an exception is raised instead |
| AntennaOrder.RecoversExactly | src/ska_low_mccs_spshw/station/station_component_manager.py:1067-1082 | gathering the delays back recovers every antenna's own if and only if the map is injective on the deployed tiles |
| AntennaOrder.OrderDoesNotMatter | src/ska_low_mccs_spshw/station/station_component_manager.py:1067-1082 | for an injective map the order of iteration does not matter |
| AntennaOrder.AntennaGetsItsDelay | src/ska_low_mccs_spshw/station/station_component_manager.py:1067-1082 | for an injective map slots 2c+1 and 2c+2 of the right tile hold the antenna's delay and rate, elements 2n-1 and 2n of the list for antenna n |
| AntennaOrder.HoldsExactly | src/ska_low_mccs_spshw/station/station_component_manager.py:1062-1069 | which antenna numbers a list has a delay for, and where |
| AntennaOrder.PortToAntennaOrder | src/ska_low_mccs_spshw/station/station_component_manager.py:866-897 | row k becomes that of antenna k + 1, 16 rows for every tile before its own and one for every pair of ports, up to the first antenna that has none; rows are zero from there on |
| AntennaOrder.HandledIsFirstGap | src/ska_low_mccs_spshw/station/station_component_manager.py:874-886 | where the reordering stops is the first gap in the mapping |
| AntennaOrder.ReorderIsPermutation | src/ska_low_mccs_spshw/station/station_component_manager.py:875-882 | for a complete injective map every row is read for exactly one antenna |
| AntennaOrder.SamePlaceExactly | src/ska_low_mccs_spshw/station/station_component_manager.py:878-881 | bandpass row and pointing delay of an antenna are at the same place of the same tile if and only if its two ports are a pair |
| Calibration.LoadForChannels | src/ska_low_mccs_spshw/station/station_component_manager.py:3391-3410 | lists of the wrong length are rejected; otherwise every place of every tile's list holds the element of the station's list that belongs there, and tiles beyond the sixteenth get no values |
| Calibration.TilePart | src/ska_low_mccs_spshw/station/station_component_manager.py:3403-3408 | slicing channel by channel gives a tile its elements, place by place |
| Calibration.PlacesCorrespond | src/ska_low_mccs_spshw/station/station_component_manager.py:3403-3408 | elements of the station's list and places in the tiles' lists correspond one to one |
| Calibration.LandsWhereItBelongs | src/ska_low_mccs_spshw/station/station_component_manager.py:3403-3408 | for any number of channels every element of the station's list stands in exactly one place of the sixteen tiles' lists |
| Calibration.LoadForAntenna | src/ska_low_mccs_spshw/station/station_component_manager.py:3361-3369 | the tile and the antenna within it with the other coefficients unchanged, or an exception exactly for an empty list and a tile that is not deployed |
| Calibration.TruncatedExactly | src/ska_low_mccs_spshw/station/station_component_manager.py:3361 | antenna numbers are truncated toward zero |
| Calibration.TwoNumbersExactly | src/ska_low_mccs_spshw/station/station_component_manager.py:3361-3365 | an antenna of a deployed tile is reached by exactly two numbers, one counting from the first antenna and one, negative, from the end |
| Calibration.LoadsAgree | src/ska_low_mccs_spshw/station/station_component_manager.py:3361-3410 | element 1+2048c+8a+k of the station's list goes to the tile that the single-antenna load names for antenna a, to position 1+128c+8b+k where b is the antenna number it gives there |
| FindByKey.Find | src/ska_low_mccs_spshw/station/station_component_manager.py:913-920 | the queue loop terminates on every finite nested dictionary and returns the first value under the key in the first level that holds the key, or None if no level does |
| FindByKey.PairsAre | src/ska_low_mccs_spshw/station/station_component_manager.py:913 | the queue starts with the items of the dictionary in its own order |
| FindByKey.FoundInFirstLevel | src/ska_low_mccs_spshw/station/station_component_manager.py:913-920 | what is found is the first occurrence, in level order, in the first level that holds the key |
| FindByKey.FoundIsShortest | src/ska_low_mccs_spshw/station/station_component_manager.py:899-912 | a path through dictionaries leads to what is found, and no path to the key is shorter |
| FindByKey.NotFoundIsUnreachable | src/ska_low_mccs_spshw/station/station_component_manager.py:914-920 | nothing is found only if no path through dictionaries ends in the key |
| DeepMerge.DeepMergeDicts | src/ska_low_mccs_spshw/tile/tile_health_rules.py:57-62 | the loop over the source's keys computes the merge |
| DeepMerge.MergeLookup | src/ska_low_mccs_spshw/tile/tile_health_rules.py:57-62 | key by key, dictionaries are merged, otherwise the source wins, and other keys are untouched |
| PyDict.SameExactly | src/ska_low_mccs_spshw/tile/tile_health_rules.py:57-62 | dictionaries are equal, in any order of keys, if and only if they have the same entries at all paths |
| DeepMerge.MergeAtPath | src/ska_low_mccs_spshw/tile/tile_health_rules.py:33-62 | at every path there is what the source has there where the source has a say, and what the destination has elsewhere: a value, a dictionary or nothing |
| DeepMerge.MergeIsIdempotent | src/ska_low_mccs_spshw/tile/tile_health_rules.py:57-62 | merging the same modifier again gives the very same dictionary, order of keys included |
| DeepMerge.ModifiersCommuteExactly | src/ska_low_mccs_spshw/tile/tile_health_rules.py:159-173 | two modifiers give equal dictionaries in either order, whatever they are merged into, if and only if they agree wherever both have a say |
| HealthRules.CombineIsWorst | src/ska_low_mccs_spshw/tile/tile_health_rules.py:469-491 | combining states gives the worst of them |
| HealthVerdicts.CombineExactly | src/ska_low_mccs_spshw/tile/tile_health_rules.py:469-491 | FAILED before UNKNOWN before DEGRADED before OK |
| HealthVerdicts.PlainThreshold | src/ska_low_mccs_spshw/tile/tile_health_rules.py:456-466 | a value other than a plain threshold is FAILED, and OK only if equal |
| HealthVerdicts.ListThreshold | src/ska_low_mccs_spshw/tile/tile_health_rules.py:446-455 | against a list, OK if and only if the elements are the same |
| HealthVerdicts.RangeThreshold | src/ska_low_mccs_spshw/tile/tile_health_rules.py:412-423 | against a range, OK if and only if the value lies in it, and FAILED otherwise |
| HealthVerdicts.SoftThreshold | src/ska_low_mccs_spshw/tile/tile_health_rules.py:428-445 | against soft and hard limits, OK, DEGRADED or FAILED by which of them is exceeded |
| HealthVerdicts.NoneIsUnknown | src/ska_low_mccs_spshw/tile/tile_health_rules.py:394-398 | no value is UNKNOWN |
| HealthVerdicts.NoThresholdRaises | src/ska_low_mccs_spshw/tile/tile_health_rules.py:394 | a point without a threshold raises |
| HealthVerdicts.IgnoredIsOk | src/ska_low_mccs_spshw/tile/tile_health_rules.py:376-391 | ignored points are OK |
| HealthVerdicts.IgnoredExactly | src/ska_low_mccs_spshw/tile/tile_health_rules.py:376-391 | which points are ignored, by name, group and version |
| HealthVerdicts.EmptyNode | src/ska_low_mccs_spshw/tile/tile_health_rules.py:358-359 | an empty node is UNKNOWN, and OK if its thresholds mention hardware |
| HealthVerdicts.NestedNode | src/ska_low_mccs_spshw/tile/tile_health_rules.py:361-372 | a nested node is evaluated against what the thresholds have under its name, and skipped if they have nothing |
| HealthVerdicts.TreeShowsItsPoints | src/ska_low_mccs_spshw/tile/tile_health_rules.py:357-491 | a tree is FAILED if and only if one of its points is by itself, at any depth; it is DEGRADED only if one is, and not OK if one is |
| HealthRules.ComputeIntermediateState | src/ska_low_mccs_spshw/tile/tile_health_rules.py:357-467 | the loop over points, with its recursion and exceptions, computes the evaluation |
| HealthRules.EvaluateIsWorst | src/ska_low_mccs_spshw/tile/tile_health_rules.py:357-491 | the recursive evaluation is the worst of everything met on a walk of the tree, at any depth |
| HealthRules.WorstLeafExactly | src/ska_low_mccs_spshw/tile/tile_health_rules.py:357-491 | it is the worst of the checked points if and only if no visited node is hollow or that worst is UNKNOWN or FAILED |
| HealthRules.HollowNodeIsUnknown | src/ska_low_mccs_spshw/tile/tile_health_rules.py:488-491 | an empty node makes a tree UNKNOWN whose only point is healthy |
| HealthRules.WorseningNeverHelps | src/ska_low_mccs_spshw/tile/tile_health_rules.py:357-491 | worsening points anywhere in the tree never improves the result and never makes the evaluation raise |
| HealthRules.RaisesExactly | src/ska_low_mccs_spshw/tile/tile_health_rules.py:357-467 | the evaluation raises if and only if a path through nodes that the thresholds know leads to an empty node whose thresholds cannot be searched, a nested node that they refuse, or a point that cannot be compared |
| HealthRules.TileHealthIsWorst | src/ska_low_mccs_spshw/tile/tile_health_model.py:88-103 | the tile's health is the worst of the base health and the intermediate healths |
| HealthVerdicts.TileHealthExactly | src/ska_low_mccs_spshw/tile/tile_health_model.py:88-103 | the tile is FAILED if its base health or a group is, OK if all of them are, and DEGRADED exactly in between |
| HealthVerdicts.GroupIsEvaluated | src/ska_low_mccs_spshw/tile/tile_health_model.py:105-123 | each group of thresholds is evaluated against the reported points of its name, and `derived` against the derived ones |
| HealthRules.TileHealthIsWorstOfAll | src/ska_low_mccs_spshw/tile/tile_health_model.py:88-123 | end to end, it is the worst of the base health and everything met in any group of points, reported or derived |
| HealthRules.WorseningNeverHelpsTile | src/ska_low_mccs_spshw/tile/tile_health_model.py:88-123 | end to end, worsening points in any group, at any depth, never improves the tile's health and never makes its evaluation raise |
| HealthRules.TileRaisesExactly | src/ska_low_mccs_spshw/tile/tile_health_model.py:104-123 | the tile's evaluation raises if and only if a path in a group leads to something that does, or a group is no dictionary and not both empty and exempt |
| TileDefaults.MidpointInRangeExactly | src/ska_low_mccs_spshw/tile/tile_data.py:460-463 | the rounded midpoint of a range is in the range if and only if the range contains a whole number of thousandths |
| TileDefaults.WideRangeHoldsThousandth | src/ska_low_mccs_spshw/tile/tile_data.py:460-463 | a range at least 0.001 wide contains one |
| TileDefaults.GenerateTileDefaults | src/ska_low_mccs_spshw/tile/tile_data.py:438-466 | the loop over the structure, with its recursion, generates the defaults or raises |
| TileDefaultValues.DefaultsAtPath | src/ska_low_mccs_spshw/tile/tile_data.py:438-466 | at every path to a point there is the threshold, 0 for `voltage_alm`, or the middle of the range to the nearest thousandth, the even one of two; and nothing at other paths |
| TileDefaultValues.RaisesExactly | src/ska_low_mccs_spshw/tile/tile_data.py:438-466 | the generation raises if and only if a node or point has no threshold, or limits no range |
| TileDefaults.DefaultsAreHealthyExactly | src/ska_low_mccs_spshw/tile/tile_data.py:438-466 | defaults generated from thresholds of matching shape evaluate to OK under them if and only if every range contains a thousandth (0 for `voltage_alm`) and no node is empty |
| TileDefaults.NarrowRangeFails | src/ska_low_mccs_spshw/tile/tile_data.py:460-463 | a range between two thousandths whose default is FAILED |
| TileTime.PeriodIsExact | src/ska_low_mccs_spshw/tile/tile_data.py:34-41 | a frame lasts exactly 6912/25 microseconds |
| TileTime.FrameIsFirstAtOrAfter | src/ska_low_mccs_spshw/tile/time_util.py:67-85 | the frame found starts at or after the given time, by less than one period |
| TileTime.FormatIsNearest | src/ska_low_mccs_spshw/tile/time_util.py:62-65 | the time given for a frame is the microsecond nearest to its start |
| TileTime.NoFrameExactly | src/ska_low_mccs_spshw/tile/time_util.py:74-83 | -1 is given exactly without a reference time, for no time, and for a time before the reference |
| TileTime.RoundsUpExactly | src/ska_low_mccs_spshw/tile/time_util.py:62-65 | which frames have their start rounded up to a microsecond |
| TileTime.RoundTripExactly | src/ska_low_mccs_spshw/tile/time_util.py:62-85 | formatting a frame and reading it back gives the frame, or the next one exactly when its start was rounded up |
| TileTime.WholeMicrosecondFrames | src/ska_low_mccs_spshw/tile/time_util.py:62-85 | every 25th frame survives the round trip |
| TileTime.TimeRoundTrip | src/ska_low_mccs_spshw/tile/time_util.py:62-85 | the time of the frame found is not before the given time and less than 277 microseconds after it |
| TileTime.ReferenceIsAligned | src/ska_low_mccs_spshw/station/station_device.py:1184-1202 | the reference time kept is the last whole step of 864 s from TAI 2000 not after the time written, and is kept if and only if it is at most 10 days old |
| TileTime.WrittenExactly | src/ska_low_mccs_spshw/station/station_device.py:1186-1196 | the step before the time written is kept, unless it lies more than 10 days back; what is no time is rejected |
| TileTime.WritingIsIdempotent | src/ska_low_mccs_spshw/station/station_device.py:1194-1202 | writing the kept time again keeps it |
| TileTime.WholeFramesFromTai2000 | src/ska_low_mccs_spshw/station/station_device.py:1194-1202 | a kept time is a whole number of frames from TAI 2000, 3125000 for every 864 s |

## Left out

* Tango devices and events, proxies, schemas, HTTP, SNMP, PDU and power marshaller code, simulators, command lines.
* Threads, locks, sleeps and time-outs: each driver or provider method is one step. `PollingComponentManager`, `BaseHealthModel`, `HealthRules.rules`, `CommunicationManager` and Python's `PriorityQueue` are not part of this model; the queue is a list in order of arrival from which the least tuple is taken.
* Component state, communication state, log and report texts: only what the modelled functions decide on. The BIOS version comparison enters as its outcome.
- SubrackPolling.SubrackDriver.PollSucceeded: does not call the fan estimator, which is modelled on its own, and does not store attribute values or the health status.
- SubrackRuns.CallbackLifecycle: assumes that every command is registered with a callback of its own, and that turn-all requests find no individual command with a callback waiting; `SubrackFailures.LifecycleOfAnyRun` and `AccountedForInAnyRun` drop the second.
- PpsDelaySpread.Station.OnTileAttributeChange: takes events of the station's own tiles, does not model the other attributes, or the reads `pps_delays` and `tile_programming_state`, which overwrite delays and states without an event; the programming state is the status it names.
- AntennaOrder.CalculateDelaysPerTile: port and tile numbers start at 0.
- BeamformerRegions.Station.SetBeamFormerRegions: does not model the tile event that overwrites the kept regions.
- HealthRules.ComputeIntermediateState: limits are numbers or strings, and NaN inside a list equals itself.
- DeepMerge.DeepMergeDicts: dictionaries are values, so updating the destination in place and the deep copies are not captured; keys are strings.
- TileDefaults.GenerateTileDefaults: the structure is rebuilt and not updated in place, and its values are exact, not floating point.
- TileTime.RoundTripExactly: arithmetic is exact, and parsing of time strings enters as its outcome.
* Equalisation, static delays, power-state aggregation, the other health rules of subrack and station, attribute managers and converters: one-branch members.
