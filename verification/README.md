# AeroLab AGI and MCP core: a verified model

The project models the decision logic behind AeroLab's AGI hosts and its MCP server, with the clouds,
files and networks around it reduced to parameters, and proves what that logic guarantees over every
input and every run.

| module | models |
|---|---|
| `IngestRecovery`, `CrashConsistency`, `LostRows`, `RecoveryHistory`, `Collectinfo` | the ingest pipeline as a transition system over what survives a crash |
| `AgiHost` | the commands that make its transitions, as methods over mutable files, each tied to the transition system |
| `PebbleSizing`, `MonitorSizing`, `InstanceLadder` | how `agi create` divides RAM, how the monitor predicts it, and how it climbs instance types |
| `BanTracker` | the monitor's IP ban tracker, against a history that is never pruned |
| `ShellQuoting` | the printer of remote commands, against a reader for the POSIX quoting rules |
| `HostKeys` | the trust-on-first-use store of SSH host keys |
| `McpSchema`, `McpRunner`, `CommandTree`, `StringOrder` | schema keys, argument translation, captured output, and the command tree of the MCP server |
| `Reattach` | the instance settings that travel in volume tags |
| `Prelude` | options and string splitting |

Where the source updates an object in place the model is a class, and each of its methods is proved
equal to a function on values; the theorems over whole runs are about those functions.

## What the proofs found

The ingest protocol keeps its promise only with care that the code does not always take. `Careful`
states that care and `CareIsExact` shows that none of it can be given up.

- Log processing flushes the database and clears the dirty marker while rows may still be in the
  asynchronous batcher (`pkg/agi/ingest/processlogs.go:387-416`, `pkg/agi/ingest/putbatcher.go:134-230`).
  A crash after that loses rows that the offsets claim, until something wipes the database. Draining
  the batcher first is exactly what is missing.
- With WAL on, offsets are saved while covered rows are still queued, so replay cannot restore them.
- A crash with WAL off followed by a start with WAL on skips the wipe and trusts wrong offsets.
- A failed marker write is only logged. The comment says that the cost is one more ingest
  (`pkg/agi/ingest/init.go:316-317`); it is lost rows.
- The soft wipe for a dirty marker is restartable at any point; the wipe for a storage version
  mismatch is not, because it removes the database first, the flags next and the offsets last. Cut
  short before the flags go, it leaves a finished host whose next start finds an empty database and
  skips log processing; nothing fills the database again, short of another wipe. Where the saved flags
  do not call log processing over, the next start trusts the stale offsets.
- A missing row of a finished file is gone until a wipe. One of a partly read file is not: a restart
  reads from two buffers before the saved position, and one that is cut short early saves a smaller one.
- Collectinfo rows are put after log processing has cleared the marker, and nothing flushes them before
  the flags are saved. A crash then loses them although every step was prudent with respect to log rows.
- The soft wipe leaves `cf-processor.json` alone. That file marks only failures, so everything else is
  processed again after a wipe, and a file that failed once is not tried again before a storage upgrade.
- The marker is written at every initialisation but cleared only by log processing, so a restart after a
  finished ingest makes the next start wipe a complete database. `FinishedKeepsDatabaseExactly` says
  which runs keep it.
- Both processing flags are set even when log processing failed; only the recorded error tells.

Elsewhere:

- With the other knobs at their defaults, the monitor and `create` are in lockstep exactly while
  `CacheMaxGB` is 1..16, and exactly while the multiplier is at least 4.
- The branch for an exhausted family moves to a smaller type exactly when the current one is above the cap.
- Translating MCP arguments depends on Go's map order exactly when two keys name one flag with different values.
- The comment that a schema key is always found (`pkg/mcp/schema.go:146`) holds up to 99 parameters and not beyond.
- An empty write to a full output buffer sets the truncation flag although nothing is lost. The report is
  wrong exactly when the last write is empty and the output fills the buffer to the byte.
- A forced create over an existing volume cannot clear its Route53 tags, and when it stops early it can
  leave the volume without an instance type.

Where comments and code disagree the model follows the code: a 16 GiB host gets 12 memtables, and the
floor of 8 never raises the count of an accepted host (`cli/cmd/v1/cmdAgiCreate.go:2096`); the RAM
prediction rounds to nearest, not up (`cli/cmd/v1/cmdAgiMonitorListen.go:1062`); a path is tried below every root, not only the first
(`pkg/mcp/registry.go:97-99`); the capped buffer keeps no count of dropped bytes
(`pkg/mcp/runner.go:285-286`).

## Assumptions

- Rows are log lines at byte offsets or collectinfo files. A progress entry is written only for rows
  already handed to the batcher, or at most one rewind (two read buffers) ahead of them.
- Log processing opens only files that the loaded offsets do not call finished, reads a resumed file
  from its resume point, and saves a position only after reading something. `steps.json` may fail to
  be read at a start; the program then goes on with empty flags.
- The instance catalogue and the monitor's knobs do not change during one history of events.
- A crash stops the process: committed rows with WAL on survive it, unflushed memtables without WAL do not.
- A rewrite through a temporary file and a rename is atomic, and so is one call that sets tags.
- Clocks, file failures, cloud catalogues and the success of each stage are parameters. Time does not go backwards.
- Go map iteration may visit keys in any order, and `sort.Slice` may order ties in any way.

## Model

| member | source | states |
|---|---|---|
| `CrashConsistency.CarefulRunsStayConsistent` | cli/cmd/v1/cmdAgiExecService.go:127-165 | For every interleaving of pipeline progress, wipes, upgrades, crashes and restarts, with WAL on or off from start to start, careful steps never reach a start of log processing whose saved offsets claim a row the opened database lacks |
| `CrashConsistency.CareIsExact` | pkg/agi/ingest/processlogs.go:353-416 | In every state careful runs can be in, any step, starts included, is careful if and only if no careful continuation of it ever trusts wrong offsets: no weaker care is enough. Until the saved flags say that log processing is over, this needs no failing read of `steps.json` |
| `RecoveryHistory.CareIsExactOnRuns` | cli/cmd/v1/cmdAgiExecIngest.go:169-207 | The same equivalence, for every step, after any careful run from a fresh host |
| `CrashConsistency.StepKeepsInv` | cli/cmd/v1/cmdAgiExecIngest.go:472-582 | Every careful event keeps the invariant that ties offsets, marker, memtable, queue and rows |
| `CrashConsistency.PrudentIsCareful` | cli/cmd/v1/cmdAgiExecService.go:127-145 | Care follows from conditions that need no look at rows: marker written, queue drained before a clear or a WAL-on save, WAL not switched on over a marker, mismatch wipe not interrupted |
| `CrashConsistency.FinishedFilesAreStored` | pkg/agi/ingest/processlogs.go:1140-1155 | After any careful run, on a stopped host whose next start will not wipe, offsets that call every file finished mean that every log row is in the database |
| `CrashConsistency.ShutdownLosesNothing` | pkg/agi/ingest/init.go:358-417 | A clean shutdown after any careful run stores everything that was committed, and the saved offsets claim no missing row, even where the next start is going to wipe |
| `CrashConsistency.ClearNeedsDrainedQueue` | pkg/agi/ingest/processlogs.go:387-416 | Flushing and clearing the marker at the end of log processing is safe exactly when the batcher queue is empty (none of its rows stored yet, all their files finished) |
| `LostRows.UndrainedClearLosesRows` | pkg/agi/ingest/putbatcher.go:134-230 | The code does not drain: from a reachable state in which log processing ends as written, one careful run without read failures trusts wrong offsets, and one ends with a row that no further run stores, short of a wipe |
| `LostRows.LostRowStaysLost` | pkg/agi/ingest/processlogs.go:959-963 | A log row that is missing while its file counts as finished, in the offsets saved or loaded, stays missing through every possible run, until a wipe |
| `LostRows.GoneExactlyWhenFinished` | pkg/agi/ingest/processlogs.go:959-994 | On a host that stopped in log processing, a missing row that the offsets skip is beyond every further run, short of a wipe, if and only if its file counts as finished; in a partly read file, restarts cut short move the resume point back until the row is read |
| `LostRows.SkippedRowIsNotStored` | pkg/agi/ingest/processlogs.go:987-993 | In the lifetime of one process, a missing row behind the resume point of its file is not stored either |
| `LostRows.SkipsExactly` | pkg/agi/ingest/processlogs.go:960-993 | A resumed run skips exactly the rows of finished files and those more than two read buffers behind a saved position inside the file |
| `CrashConsistency.SwitchingWalOnExact` | cli/cmd/v1/cmdAgiExecService.go:127-145 | Starting with WAL on over a marker skips the wipe; that breaks consistency exactly when the offsets claim a row that is missing |
| `LostRows.SwitchingWalOnLosesRows` | cli/cmd/v1/cmdAgiExecIngest.go:169-189 | Such a state is reachable: crash with WAL off, start with WAL on; the offsets are trusted, and a row is gone, short of a wipe |
| `CrashConsistency.CarelessSaveBreaks` | pkg/agi/ingest/trackprogress.go:103-175 | With WAL on, saving offsets that cover rows still in the queue leads to a broken start |
| `CrashConsistency.CarelessInitBreaks` | pkg/agi/ingest/init.go:308-320 | Going on after a failed marker write leads to a broken start |
| `RecoveryHistory.MismatchWipeIsNotRestartable` | cli/cmd/v1/cmdAgiExecWipe.go:31-59 | A mismatch wipe that stops after removing the database leaves offsets that a later start trusts, exactly when they claim anything; if every read of the flags succeeds, exactly when they claim anything and the saved flags do not say that log processing is over |
| `RecoveryHistory.MismatchStopIsHollowExactly` | cli/cmd/v1/cmdAgiExecWipe.go:38-50 | Exactly which stops of the mismatch wipe make the next start find a saved ProcessLogs flag above a database that lost rows: those before `steps.json` goes, unless a marker is left and WAL is off; never the whole wipe |
| `RecoveryHistory.DirtyStopIsHollowExactly` | cli/cmd/v1/cmdAgiExecWipe.go:80-139 | No stop of the soft wipe does, unless the next start switches WAL on; then exactly those that lost rows before the flags are reset |
| `RecoveryHistory.HollowStartNeverFills` | cli/cmd/v1/cmdAgiExecIngest.go:525-537 | The whole chain from such a stop: after the next start, as long as the flags can be read and nothing is wiped, log processing never starts and no log row is stored that the start did not find |
| `RecoveryHistory.SettledStaysHollow` | cli/cmd/v1/cmdAgiExecIngest.go:525-537 | On a host whose saved flags are set, under the same conditions, log processing never starts, no row is removed and no missing log row is stored |
| `RecoveryHistory.SavedFlagsAreSound` | cli/cmd/v1/cmdAgiExecIngest.go:191-207 | In every `steps.json` any run can leave behind: ProcessLogs implies PreProcess implies Unpack implies Download, the two processing flags agree, and a stage flag means that stage returned without error since the last reset |
| `RecoveryHistory.FailedProcessingIsFlagged` | cli/cmd/v1/cmdAgiExecIngest.go:521-614 | What the flags do not say: after failed log processing both are set all the same, with the error beside them and nothing stored |
| `RecoveryHistory.StepKeepsFlags` | cli/cmd/v1/cmdAgiExecIngest.go:353-582 | Each event keeps that flag invariant, in memory and on disk |
| `RecoveryHistory.WipeIsRestartable` | cli/cmd/v1/cmdAgiExecWipe.go:80-139 | However often and wherever the soft wipe is cut short, the run that completes reaches the state of an uninterrupted wipe, and the marker stays until then |
| `RecoveryHistory.WipedState` | cli/cmd/v1/cmdAgiExecWipe.go:80-139 | That one state: empty database, no log progress, both processing flags down, the three stage flags unchanged, no marker |
| `RecoveryHistory.SoftWipeOrder` | cli/cmd/v1/cmdAgiExecWipe.go:80-139 | At every stop of the soft wipe: flags are reset only when the offsets are gone, offsets go only when the database is, and marker and failed files stay |
| `RecoveryHistory.StartOpens` | cli/cmd/v1/cmdAgiExecService.go:127-165 | The disk a start opens, field by field: after a marker with WAL off an empty database with nothing but the three stage flags and the failed files; after an old layout nothing at all; otherwise the disk as it was |
| `RecoveryHistory.MismatchWipedState` | cli/cmd/v1/cmdAgiExecWipe.go:31-59 | However often the mismatch wipe is cut short, the start that completes it opens a host with no row, flag, offset, failed file or marker of the old one |
| `RecoveryHistory.MismatchWipeOrder` | cli/cmd/v1/cmdAgiExecWipe.go:31-59 | At every stop of that wipe: the files of the progress directory go only after `steps.json`, and that only after the database |
| `Collectinfo.InfoCareIsExact` | cli/cmd/v1/cmdAgiExecIngest.go:538-581 | After any careful run from a fresh host, a step is careful if and only if no careful continuation ever stops with a collectinfo row lost that the database had accepted: missing, the flags saved, no wipe due |
| `Collectinfo.InfoStepExact` | cli/cmd/v1/cmdAgiExecIngest.go:538-581 | In every state that careful steps keep, a step is careful if and only if a crash right after it loses no accepted collectinfo row |
| `Collectinfo.InfoStepKeeps` | cli/cmd/v1/cmdAgiExecIngest.go:538-581 | Every careful event keeps all accepted collectinfo rows in the database once the flags are saved and no wipe is due |
| `Collectinfo.UnflushedInfoIsLost` | pkg/agi/ingest/processcf.go:359-362 | The order of the program without WAL, every step prudent with respect to log rows: log processing flushes and clears the marker, a collectinfo row is put, the flags are saved, and a crash loses the row, with no wipe due |
| `Collectinfo.UnflushedInfoIsReachable` | cli/cmd/v1/cmdAgiExecIngest.go:525-554 | Such a state is reached by a careful run from a fresh host |
| `Collectinfo.LostInfoIsGone` | cli/cmd/v1/cmdAgiExecIngest.go:541 | A lost collectinfo row is stored by no later run that can read the flags, short of a wipe |
| `Collectinfo.WipeRetriesExactly` | pkg/agi/ingest/processcf.go:116-121 | After the soft wipe exactly the collectinfo files that had not failed are due again, and exactly those that had are given up |
| `Collectinfo.GivenUpStaysGivenUp` | pkg/agi/ingest/processcf.go:229-246 | No later run without a storage upgrade processes a failed collectinfo file again |
| `Collectinfo.FailureSticksOnceSaved` | pkg/agi/ingest/processcf.go:229-246 | A failed file is not tried again by the same process, and is given up for good once the progress is saved and not before |
| `RecoveryHistory.FinishedKeepsDatabaseExactly` | cli/cmd/v1/cmdAgiExecService.go:127-145 | On a finished host, in any run with readable flags and no upgrade, nothing is wiped, and no row removed, if and only if no start with WAL off meets a marker that was there or that an earlier initialisation wrote |
| `RecoveryHistory.RestartAfterSuccessWipes` | pkg/agi/ingest/init.go:308-320 | The run that does: after a finished ingest without WAL, one clean restart is enough for the start after it to empty the database and clear the processing flags |
| `AgiHost.Host.WipeOnDirty` | cli/cmd/v1/cmdAgiExecWipe.go:80-139 | The ordered deletions and rewrites, stopped at any point, reach exactly the corresponding intermediate disk |
| `AgiHost.Host.WipeOnVersionMismatch` | cli/cmd/v1/cmdAgiExecWipe.go:31-59 | Every stop reaches its intermediate disk, stops inside the removal of the progress directory included; a completed wipe leaves no row, flag, offset, failed file or marker and the current layout |
| `AgiHost.Host.StartService` | cli/cmd/v1/cmdAgiExecService.go:127-165 | Dirty check, wipe, open, mismatch wipe, open is one enabled event of the transition system; what a running service has opened is named field by field for each of the three cases |
| `AgiHost.Host.RunToLogs` | cli/cmd/v1/cmdAgiExecIngest.go:191-519 | Every execution of the pipeline up to log processing is a legal event sequence; when it gets there all three stages have completed, and a recorded failure leaves the error flag on disk |
| `AgiHost.Host.RunStage` | cli/cmd/v1/cmdAgiExecIngest.go:353-447 | One stage: skipped when flagged, failed exactly when the stage or its notification fails, otherwise flagged |
| `AgiHost.Host.RecordFailure` | cli/cmd/v1/cmdAgiExecIngest.go:65-86 | Recording an error, at any point after the start and also after both processing flags are set, refines one event: the flags written are those of the file, not those in memory |
| `AgiHost.Host.FinishLogs` | pkg/agi/ingest/processlogs.go:387-416 | Flush, then clear only after a successful flush, is one enabled event |
| `AgiHost.Host.Initialise` | pkg/agi/ingest/init.go:270-331 | Progress loaded, marker attempted, flags saved, as one legal step that records whether the marker was written |
| `BanTracker.RecordFailureExact` | cli/cmd/v1/cmdAgiMonitorListen.go:98-121 | Over every call history in time order, `recordFailure` answers yes exactly when this is at least the fifth failure of the address since its last ban within five minutes |
| `BanTracker.IsBannedExact` | cli/cmd/v1/cmdAgiMonitorListen.go:82-96 | An address is refused exactly when some ban of it was followed by contacts all less than an hour apart up to now |
| `BanTracker.CleanupIsInvisible` | cli/cmd/v1/cmdAgiMonitorListen.go:131-160 | Removing or inserting any clean-ups in a history changes no answer |
| `BanTracker.FailuresAgree` | cli/cmd/v1/cmdAgiMonitorListen.go:98-121 | Under the current and any later cut-off the pruned list equals the never-pruned history of the address |
| `BanTracker.SinceCountsWindow` | cli/cmd/v1/cmdAgiMonitorListen.go:98-121 | The unpruned list, cut at the window, counts exactly the positions of the history that qualify |
| `BanTracker.WalkIsSliding` | cli/cmd/v1/cmdAgiMonitorListen.go:82-96 | The step-by-step view of an extending ban equals the declarative sliding one |
| `BanTracker.AtMostFourIsKept` | cli/cmd/v1/cmdAgiMonitorListen.go:455-491 | Serial handling keeps every failure list at four entries or fewer |
| `BanTracker.IpBanTracker.IsBanned` | cli/cmd/v1/cmdAgiMonitorListen.go:83-96 | The two maps after a check, entry by entry: an expired ban goes, a live one is extended |
| `BanTracker.IpBanTracker.RecordFailure` | cli/cmd/v1/cmdAgiMonitorListen.go:99-121 | The two maps and the answer after a failure |
| `BanTracker.IpBanTracker.Ban` | cli/cmd/v1/cmdAgiMonitorListen.go:124-129 | A ban starts the hour and forgets the failures of that address only |
| `BanTracker.IpBanTracker.Cleanup` | cli/cmd/v1/cmdAgiMonitorListen.go:132-160 | Exactly the live bans and the non-empty pruned lists remain |
| `BanTracker.IpBanTracker.Handle` | cli/cmd/v1/cmdAgiMonitorListen.go:455-491 | One request: refused exactly when banned; the bound of four holds again afterwards |
| `BanTracker.IpBanTracker.CountFailure` | cli/cmd/v1/cmdAgiMonitorListen.go:1588-1611 | A failure from the handler or the TLS error log is counted and may ban; the bound of four holds again |
| `BanTracker.KeepRecent` | cli/cmd/v1/cmdAgiMonitorListen.go:104-112 | The filtering loop keeps exactly the times after the cut-off, in order |
| `PebbleSizing.MemoryIsConserved` | cli/cmd/v1/cmdAgiCreate.go:1921-2123 | On every accepted cloud host cache plus all memtables that may exist fit the budget, the budget is at most half the RAM, and with both reserves it fits the host; threshold in 8..32, cache in 512 MiB..16 GiB |
| `PebbleSizing.PeakFitsExactlyFromCutoff` | cli/cmd/v1/cmdAgiCreate.go:1758-1779 | Over every host size, cache and memtable peak fit the budget if and only if the host has at least one byte less than the smallest accepted one: the acceptance cut-off is tight |
| `PebbleSizing.AcceptedPlan` | cli/cmd/v1/cmdAgiCreate.go:1962-2035 | The shape of an accepted plan: which floors and caps still bind |
| `PebbleSizing.RungCount` | cli/cmd/v1/cmdAgiCreate.go:2008-2123 | On the chosen memtable rung at least 8 and, below 1 GiB, fewer than 16 memtables fit the budget |
| `PebbleSizing.SmallHostPlan` | cli/cmd/v1/cmdAgiCreate.go:2100-2123 | Below the cut-off the smallest memtable is chosen and the floor of eight wins |
| `PebbleSizing.SizingIsMonotone` | cli/cmd/v1/cmdAgiCreate.go:1962-2298 | More RAM never lowers budget, cache, memtable size, LBase size or memtable peak |
| `PebbleSizing.ThresholdNeverFellExactly` | cli/cmd/v1/cmdAgiCreate.go:2008-2123 | An accepted host has at least the memtable count of every smaller accepted one if and only if its memtables have 64 MiB or it has at least 15 of them |
| `PebbleSizing.ThresholdIsNotMonotone` | cli/cmd/v1/cmdAgiCreate.go:2100-2123 | The count does fall: 15 at 31 GiB, 8 at 32 GiB |
| `PebbleSizing.CeilingBindsOnTopRungOnly` | cli/cmd/v1/cmdAgiCreate.go:2100-2123 | A count above 15, so also the ceiling of 32, occurs only with 1 GiB memtables |
| `MonitorSizing.DefaultsAreInLockstep` | cli/cmd/v1/cmdAgiMonitor.go:65-83 | With the default knobs, for every log size, every cloud host with the predicted RAM is accepted by create and gets at least the cache the monitor aimed for |
| `MonitorSizing.LockstepWithHeadroom` | cli/cmd/v1/cmdAgiMonitorListen.go:1045-1064 | The same for every knob setting that keeps the documented relations, even with a host one GiB below the prediction and without the free-RAM margin |
| `MonitorSizing.LockstepExactInCacheMax` | cli/cmd/v1/cmdAgiMonitorListen.go:1045-1064 | With the other knobs at their defaults lockstep holds if and only if the cache ceiling is 1..16 |
| `MonitorSizing.LockstepExactInMultiplier` | cli/cmd/v1/cmdAgiMonitor.go:65-83 | With the other knobs at their defaults lockstep holds if and only if the multiplier is at least 4 |
| `MonitorSizing.RequiredAtLeast` | cli/cmd/v1/cmdAgiMonitorListen.go:1045-1064 | What the prediction still guarantees after rounding to nearest |
| `MonitorSizing.RequiredIsNearest` | cli/cmd/v1/cmdAgiMonitorListen.go:1056-1063 | The prediction is floor plus multiplier times target plus headroom rounded to nearest: within half a GiB to either side, so it does not round up in general |
| `MonitorSizing.TargetExact` | cli/cmd/v1/cmdAgiMonitorListen.go:1046-1054 | In whole numbers: the cache target is the percentage of the log size between the limits, the floor below, the positive ceiling above |
| `MonitorSizing.DefaultPrediction` | cli/cmd/v1/cmdAgiMonitor.go:65-83 | With the default knobs: 16 GiB up to 10 GiB of logs, 76 GiB from 160 GiB of logs, and in between within half a GiB of 12 plus 0.4 per GiB of logs |
| `MonitorSizing.HostYieldsCache` | cli/cmd/v1/cmdAgiCreate.go:1921-1978 | 4 GiB of host per GiB of cache, and 8.5 GiB on top, always yield that cache despite integer halving |
| `InstanceLadder.SizeInstanceType` | cli/cmd/v1/cmdAgiMonitorListen.go:1173-1223 | Filter, sort and scan against a set-level specification: success exactly when a type of the family lies in [required, cap], then one of least RAM; otherwise one of greatest RAM with an error, or the current type |
| `InstanceLadder.AnswerAmongSiblings` | cli/cmd/v1/cmdAgiMonitorListen.go:1173-1223 | The same answer with no prefix in its statement: it ranges over exactly the listed types within the cap that share the text before the first dot on AWS, or the first two parts on GCP, and is least among the large enough, or greatest with an error |
| `InstanceLadder.SiblingExactly` | cli/cmd/v1/cmdAgiMonitorListen.go:1178-1206 | The prefix test picks exactly the types that agree with the current one this way |
| `InstanceLadder.SizableExactly` | cli/cmd/v1/cmdAgiMonitorListen.go:1178-1189 | A type can be sized exactly when its name has a dot on AWS, three dash-free parts on GCP |
| `InstanceLadder.CheckRamSizing` | cli/cmd/v1/cmdAgiMonitorListen.go:1066-1149 | Exactly when each event orders a resize, and to which type |
| `InstanceLadder.ResizeExactly` | cli/cmd/v1/cmdAgiMonitorListen.go:1080-1149 | When a host is resized, event by event, in whole numbers of bytes and percent |
| `InstanceLadder.HeadroomExact` | cli/cmd/v1/cmdAgiMonitorListen.go:1126-1134 | The live-memory test in whole numbers: enough free, and no more than the given share used |
| `InstanceLadder.DemandIsNext` | cli/cmd/v1/cmdAgiMonitorListen.go:1087-1096 | Without a prediction the demand is the least whole GiB above what the host has |
| `InstanceLadder.ResizeIsRotationOrExhausted` | cli/cmd/v1/cmdAgiMonitorListen.go:1066-1149 | Every ordered resize climbs within the family, or is the exhausted branch |
| `InstanceLadder.LadderTerminates` | cli/cmd/v1/cmdAgiMonitorListen.go:1073-1223 | Whatever events arrive, exhausted resizes in between included, the monitor answers with at most as many error-free resizes as the first host has larger types of its family within the cap |
| `InstanceLadder.EveryRotationRises` | cli/cmd/v1/cmdAgiMonitorListen.go:1073-1223 | Each error-free resize in any such history raises RAM, within the cap, to a type that agrees with the first host in its family parts |
| `InstanceLadder.ExhaustedLeavesNoRoom` | cli/cmd/v1/cmdAgiMonitorListen.go:1111-1118 | After a resize by the exhausted branch no type is left to climb to |
| `InstanceLadder.ClimbIsBounded` | cli/cmd/v1/cmdAgiMonitorListen.go:1073-1223 | A chain of rotations alone, for any demands, is no longer than the number of types above the first host |
| `InstanceLadder.RotationClimbs` | cli/cmd/v1/cmdAgiMonitorListen.go:1173-1223 | One error-free resize strictly shrinks the set of types still above |
| `InstanceLadder.FamilyIsKept` | cli/cmd/v1/cmdAgiMonitorListen.go:1178-1189 | A type reached inside a family is sized inside that family again |
| `InstanceLadder.ExhaustedShrinksExactlyAboveCap` | cli/cmd/v1/cmdAgiMonitorListen.go:1111-1118 | The exhausted branch lowers RAM exactly when the current type is above the cap |
| `InstanceLadder.Lookup` | cli/cmd/v1/cmdAgiMonitorListen.go:1151-1171 | The type answered is a listed one of that name, and none is answered only if none is listed |
| `InstanceLadder.SortByRam` | cli/cmd/v1/cmdAgiMonitorListen.go:1211-1213 | Sorted by RAM and a permutation; nothing about ties |
| `ShellQuoting.QuotingRoundTrip` | pkg/sshexec/exec.go:614-620 | A reader for the POSIX rules (sections 2.2.1, 2.2.2, 2.3) reads the printed line back as exactly the arguments, empty and quote-laden ones included, if no argument holds NUL, and as malformed otherwise |
| `ShellQuoting.ScriptArrayRoundTrip` | pkg/sshexec/exec.go:604-612 | The same for the array assignment that the generated script evaluates |
| `ShellQuoting.PrintingIsInjective` | pkg/sshexec/exec.go:604-612 | Different commands never print the same script text |
| `ShellQuoting.ReadLine` | pkg/sshexec/exec.go:614-620 | A printed line inside a longer text is read as its arguments and leaves the rest to be read |
| `ShellQuoting.ReadInsideQuotes` | pkg/sshexec/exec.go:614-620 | From inside an opening quote the reader collects exactly the argument, across embedded quotes |
| `ShellQuoting.EscapeForBash` | pkg/sshexec/exec.go:614-620 | The array loop quotes every argument in place order |
| `ShellQuoting.MakeArray` | pkg/sshexec/exec.go:604-612 | The array text that is printed is read back as the command |
| `HostKeys.StrictConnectionsShareOneKey` | pkg/sshexec/knownhosts.go:230-273 | In any serial history all strict connections accepted for an identity between changes of its entry show one fingerprint; whatever happens in between may include failing remembers and forgets of that identity and connections without strict checking |
| `HostKeys.StrictConnectionsMatchKnownKey` | pkg/sshexec/knownhosts.go:230-273 | A key known at the start is the only one strict mode accepts until the entry changes |
| `HostKeys.EntryChangesExactly` | pkg/sshexec/knownhosts.go:163-273 | An entry changes exactly by an operation entitled to it whose files can be read and written, and by a connection only when it is not strict and shows another key |
| `HostKeys.OperationsAreIsolated` | pkg/sshexec/knownhosts.go:128-222 | No operation on one identity alters the entry of another |
| `HostKeys.EntryPersists` | pkg/sshexec/knownhosts.go:128-222 | An entry stays as it is through every operation not entitled to change it |
| `HostKeys.AcceptedIsPinned` | pkg/sshexec/knownhosts.go:230-257 | After a strictly accepted connection the store holds the accepted key |
| `HostKeys.StrictAcceptanceExact` | pkg/sshexec/knownhosts.go:230-264 | Exactly when strict mode lets a connection through, failures of load and save included |
| `HostKeys.ChangeLeavesTrail` | pkg/sshexec/knownhosts.go:255-272 | Over any run of connections, an entry that differs from the first one names the fingerprint that stood just before its last change, and carries the key of the connection that changed it |
| `HostKeys.TrailNamesLastChange` | pkg/sshexec/knownhosts.go:255-272 | The same over any run of operations, for an entry that a connection changed last |
| `HostKeys.ConnectionWrites` | pkg/sshexec/knownhosts.go:163-187 | What a connection writes: the key shown, with no trail on first contact, and with the replaced fingerprint as the trail on a change |
| `HostKeys.RememberWrites` | pkg/sshexec/knownhosts.go:163-187 | What an explicit remember writes |
| `HostKeys.ForgetRemoves` | pkg/sshexec/knownhosts.go:191-222 | Exactly which identities a forget removes, the rest unchanged |
| `HostKeys.FirstUseExact` | pkg/sshexec/knownhosts.go:243-252 | An unknown key is learned exactly when the files can be read and written |
| `HostKeys.LaxAcceptsAll` | pkg/sshexec/knownhosts.go:230-272 | Without strict checking every connection is let through |
| `HostKeys.HostKeyStore.Callback` | pkg/sshexec/knownhosts.go:230-273 | Answer and whole store after one connection |
| `HostKeys.HostKeyStore.Remember` | pkg/sshexec/knownhosts.go:163-187 | The whole store after a remember; on a failed load or save it is unchanged |
| `HostKeys.HostKeyStore.Forget` | pkg/sshexec/knownhosts.go:191-212 | Exactly the named identities go; nothing is saved when none was known |
| `HostKeys.HostKeyStore.Lookup` | pkg/sshexec/knownhosts.go:128-139 | The entry, no entry, or a load failure; the store is unchanged |
| `HostKeys.HostKeyStore.ForgetAll` | pkg/sshexec/knownhosts.go:215-222 | The store is emptied unless the save fails |
| `McpSchema.BuildInputSchema` | pkg/mcp/schema.go:89-141 | Every kept parameter is described under its own key that leads back to its own flag, no extra replaces a parameter, and the required list is exactly the kept required keys, ascending |
| `McpSchema.KeysAreInjective` | pkg/mcp/schema.go:89-141 | No two parameters ever share a key |
| `McpSchema.NothingDroppedExactlyUpTo99` | pkg/mcp/schema.go:143-169 | No named parameter is dropped from any list of n parameters if and only if n is at most 99 |
| `McpSchema.NamedAreKept` | pkg/mcp/schema.go:89-141 | The positive half, parameter by parameter |
| `McpSchema.RefusalNeeds99` | pkg/mcp/schema.go:143-169 | A refused parameter proves that at least 99 keys are taken |
| `McpSchema.CopiesExhaustKeys` | pkg/mcp/schema.go:143-169 | The negative half: copies of an awkward parameter take exactly the numbered keys in turn |
| `McpSchema.CollisionKey` | pkg/mcp/schema.go:147-169 | The loop over candidates returns the first free one in the documented order |
| `McpSchema.CollisionKeyExact` | pkg/mcp/schema.go:147-169 | A colliding parameter gets the key with its namespace if free, then the one with its group, then the least free number from 2 to 99, and otherwise none |
| `McpSchema.DecimalDenotes` | pkg/mcp/schema.go:160-167 | A printed number denotes itself, without leading zero |
| `McpSchema.ParamNameExact` | pkg/mcp/schema.go:241-252 | Which of its names a parameter goes by: long before name before short |
| `McpSchema.TrimSpaceExact` | pkg/mcp/schema.go:241-244 | Trimming takes white space off both ends and nothing else |
| `McpSchema.KeyIsFresh` | pkg/mcp/schema.go:147-169 | A key that is given out was not in use |
| `McpSchema.FirstFreeIsFree` | pkg/mcp/schema.go:147-169 | A numbered key is refused only when all up to 99 are in use |
| `McpSchema.SanitiseKey` | pkg/mcp/schema.go:171-195 | A sanitised key is lower-case letters and digits in groups joined by single underscores |
| `McpSchema.SanitisedKeepsLetters` | pkg/mcp/schema.go:171-195 | Sanitising keeps every letter and digit, lowered, in order |
| `McpSchema.SanitisedSeparates` | pkg/mcp/schema.go:171-195 | Whatever stands between two words becomes one underscore |
| `McpSchema.CleanIsUnchanged` | pkg/mcp/schema.go:171-195 | A clean key stays as it is |
| `McpSchema.AddExtras` | pkg/mcp/schema.go:118-127 | Extras fill only the keys that no parameter has |
| `McpRunner.ArgumentRoundTrip` | pkg/mcp/runner.go:177-233 | String values under keys with distinct flags give the path segments followed by one `--flag=value` per key in ascending order; where no flag holds `=`, reading those flags back gives exactly the supplied map |
| `McpRunner.TranslationIsUniqueExactly` | pkg/mcp/tools_auto.go:247-263 | The translated map is independent of map order if and only if no two supplied keys lead to one flag with different values |
| `McpRunner.TranslateArgs` | pkg/mcp/tools_auto.go:247-263 | For any iteration order: exactly the flags of the supplied keys, each with the value of one of its keys |
| `McpRunner.SchemaTranslates` | pkg/mcp/tools_auto.go:247-263 | With the map that the schema returns, a value supplied under the key of a kept parameter arrives under the name of that parameter unless another supplied key leads there, and a key outside the map keeps its name |
| `McpRunner.SchemaReachesArgv` | pkg/mcp/tools_auto.go:247-263 | The whole way: a text supplied under the key of a kept parameter is on the command line as the flag of that parameter with that text |
| `McpRunner.TranslatesByMap` | pkg/mcp/tools_auto.go:247-263 | In terms of the map alone: a flag is translated to exactly when a supplied key leads to it, with the value of such a key |
| `McpRunner.TranslationKeepsValues` | pkg/mcp/tools_auto.go:247-263 | With distinct flags nothing is merged or lost |
| `McpRunner.ReadRendered` | pkg/mcp/runner.go:198-229 | Reading rendered flags back recovers keys and values, values containing `=` included |
| `McpRunner.BuildArgv` | pkg/mcp/runner.go:177-233 | Independent of map order: refused when a path segment begins with a dash, the first failing flag in ascending order, or path, flags and positionals in this order |
| `McpRunner.SingleValueExact` | pkg/mcp/runner.go:199-228 | What each kind of single value contributes: nothing for null and false, the bare flag for true, an error for an object, otherwise the flag with the text |
| `McpRunner.ListValueExact` | pkg/mcp/runner.go:210-221 | A list contributes one flag with a value per item, in order |
| `McpRunner.ListErrorExact` | pkg/mcp/runner.go:210-221 | A list with an item that has no text contributes the error of the first such item |
| `McpRunner.ArgsComeInBlocks` | pkg/mcp/runner.go:198-229 | Every key contributes one block, between those of the keys before and after it |
| `McpRunner.FirstErrorWins` | pkg/mcp/runner.go:198-229 | The failing key that comes first in order decides the error |
| `McpRunner.PathRoundTrip` | pkg/mcp/runner.go:273-282 | A path printed from clean names is split into exactly those names |
| `McpRunner.SegmentsAreApart` | pkg/mcp/runner.go:273-282 | No segment of a path holds a slash, a blank or a tab |
| `McpRunner.LimitedBuffer.Write` | pkg/mcp/runner.go:293-308 | After any sequence of writes the buffer is the prefix of everything written that fits, every write reports its full length, and the truncation flag is exact |
| `McpRunner.WriteExtends` | pkg/mcp/runner.go:287-308 | What one more write does to prefix and report, for every cap |
| `McpRunner.CappedIsPrefix` | pkg/mcp/runner.go:293-308 | What is kept is the beginning of the output, as much as fits |
| `McpRunner.TruncationExact` | pkg/mcp/runner.go:293-308 | For every sequence of writes and every cap, the report says that output was dropped, and exactly that, if and only if it is not the case that the last write was empty and the output fills the buffer to the byte |
| `McpRunner.EmptyWriteIsReported` | pkg/mcp/runner.go:298-300 | The exception occurs: truncation reported with nothing dropped |
| `McpRunner.TruncationIsLoss` | pkg/mcp/runner.go:293-308 | Without empty writes, truncation is reported if and only if bytes were dropped |
| `McpRunner.LimitedBuffer.String` | pkg/mcp/runner.go:310-316 | What the caller is shown |
| `StringOrder.ListingIsUnique` | pkg/mcp/runner.go:191-196 | A set of keys has only one ascending listing, so map order cannot show |
| `StringOrder.LeExact` | pkg/mcp/runner.go:191-196 | The order is by the first difference, a prefix first |
| `StringOrder.SortStrings` | pkg/mcp/schema.go:129-130 | The ascending listing of a duplicate-free list |
| `CommandTree.FindInExact` | pkg/mcp/registry.go:120-140 | The search succeeds exactly when some command sits at that path of names, backtracking over namesakes, and answers the first in depth-first order |
| `CommandTree.FindExact` | pkg/mcp/registry.go:78-105 | A path answers the first command from the roots, or failing that the first one below the first root that has it, and nothing exactly when neither exists; an empty path names the only root |
| `CommandTree.FindBelowExact` | pkg/mcp/registry.go:97-104 | The fallback succeeds exactly when some root has the path below it, and answers the first command below the first such root |
| `CommandTree.NothingMissed` | pkg/mcp/registry.go:120-140 | When the search gives up, no position in the whole tree has that path |
| `CommandTree.FirstPosition` | pkg/mcp/registry.go:120-140 | The answer sits at the first position with that path |
| `CommandTree.LeavesExact` | pkg/mcp/registry.go:107-118 | The leaves are exactly the commands without children, wherever they sit |
| `CommandTree.LeavesAreFound` | pkg/mcp/registry.go:68-140 | In a tree without namesake siblings and with clean names, every leaf sits at some path of names, and resolving that path as text returns that very leaf |
| `CommandTree.RelativeLeavesAreFound` | pkg/mcp/registry.go:91-104 | A leaf below a root is found by its path without that root, unless the path means something from the roots or below an earlier one |
| `CommandTree.LeavesInOrder` | pkg/mcp/registry.go:107-118 | The leaves stand in the order of a depth-first walk, one per position |
| `CommandTree.EveryLeafHasAPosition` | pkg/mcp/registry.go:107-118 | Every leaf of the tree has its position in that list |
| `CommandTree.LeafList.CollectLeaves` | pkg/mcp/registry.go:107-118 | The shared list is extended by the leaves below the command, in depth-first order |
| `Reattach.ReattachChain` | cli/cmd/v1/cmdAgiStart.go:301-453 | Over any number of reattaches, each stopped anywhere between its tag writes, the next one creates the first settings with defaults filled in once and the latest overrides applied |
| `Reattach.FilledExact` | cli/cmd/v1/cmdAgiStart.go:344-389 | The defaults, setting by setting; what has a value keeps it, and nothing else is touched |
| `Reattach.CoreTagNames` | cli/cmd/v1/cmdAgiCreate.go:1650-1657 | Under which tag each setting is stored, and flags as `true` or `false` |
| `Reattach.ExtraTagNames` | cli/cmd/v1/cmdAgiCreate.go:1624-1663 | The same for the settings of the full write |
| `Reattach.AttemptIsCarried` | cli/cmd/v1/cmdAgiCreate.go:1202-1241 | One attempt, whichever of its two tag writes took effect, leaves the volume storing the same settings or the overridden ones, nothing in between |
| `Reattach.LatestIsLastGiven` | cli/cmd/v1/cmdAgiStart.go:325-341 | An overridable setting holds the value last given by an attempt that wrote anything |
| `Reattach.OnlyOverridesChange` | cli/cmd/v1/cmdAgiStart.go:325-341 | No other setting ever changes, and none changes without an override |
| `Reattach.ForcedCreateIsCarriedExactly` | cli/cmd/v1/cmdAgiCreate.go:1650-1671 | A create over an existing volume is carried exactly when it does not mean to clear a Route53 setting |
| `Reattach.StoppedCreateStrandsExactly` | cli/cmd/v1/cmdAgiCreate.go:1206-1241 | A forced create stopped before its instance exists makes the volume impossible to reattach exactly when it left the instance type to default and no override names one |
| `Reattach.ResolvedIsReadBack` | cli/cmd/v1/cmdAgiCreate.go:1624-1688 | What a full tag write stores is what the next read finds, apart from stale Route53 tags |
| `Reattach.EarlyIsReadBack` | cli/cmd/v1/cmdAgiCreate.go:1219-1236 | The first write replaces the settings it names and leaves the others |
| `Reattach.Volume.ReadSettings` | cli/cmd/v1/cmdAgiStart.go:301-394 | Reading tags, overriding and defaulting in sequence gives the plan, or the error for a missing type or half a Route53 setting |
| `Reattach.Volume.CreateInstance` | cli/cmd/v1/cmdAgiCreate.go:1607-1694 | The tags after either, both or none of the writes |
| `Reattach.Volume.ReattachFromEFS` | cli/cmd/v1/cmdAgiStart.go:298-453 | Plan and tags of one whole reattach |
| `Reattach.DisksSurviveExactly` | cli/cmd/v1/cmdAgiStart.go:569-576 | A disk list survives its tag exactly when it is neither empty nor one empty entry and no entry holds `;` |

## Left out

- `float64`: the monitor's formula and the RAM of instance types are real numbers here; the only rounding kept is the conversion to an integer.
- Integer width: byte counts are far below 64 bits and are not wrapped.
- Power loss: the model covers a process that stops, not an operating system that loses a WAL written without sync.
- Rows dropped by a failed batch write and its per-row fallback: a batch either commits or stays queued.
- `log-processor.json` and its `.gz` variant are one file; a malformed `steps.json` reads as no flags, and its write errors inside the soft wipe are not modelled.
- AgiHost.Host.StartService: the order for the merged service; the stand-alone ingest command makes the same checks from its own configuration, in the order of its own initialisation.
- Collectinfo.InfoCareIsExact: speaks of rows that the database accepted; a row it refused, and files that were not reached because processing returned early, are not covered, though the flags are saved all the same.
- Collectinfo.WipeRetriesExactly: does not promise that a processed collectinfo file is skipped or lost after the soft wipe, because only failed files are marked as attempted.
- AgiHost.Host.RunToLogs: log processing and collectinfo run concurrently after it and are events of the transition system, not a method.
- Partial lines at the end of a read buffer and the sharding of log files.
- McpSchema.CollisionKey: the JSON schema of a property is opaque text; the type mapping of `buildPropertySchema` is easy branches.
- McpSchema.SanitiseKey: trims and lowers ASCII only, where Go also knows Unicode spaces and letters.
- McpRunner.BuildArgv: the printed form of numbers and of values of other types is taken as given.
- Base64 transport of the script, and the shell prelude around the array assignment.
- HostKeys.HostKeyStore.Callback: look-up and remember are separate critical sections; connections that race on first use are not modelled, nor other processes writing the file, nor a nil store or key.
- BanTracker.IpBanTracker.Handle: requests are serial; authentication after the header, and the challenge, are left out.
- InstanceLadder.CheckRamSizing: a catalogue that cannot be fetched, responses to the caller and the disk growth beside it are left out.
- Docker sizing beyond its constants, the retry loop around `free -b`, and the other Pebble options of a profile.
- Reattach.Volume.ReattachFromEFS: expiries, owner, template and architecture are not carried in the model; the GCP reattach follows the same pattern and only its disk list is modelled.
- A change back to the previous storage layout after an upgrade.
- All cloud, SSH, HTTP, systemd and Grafana calls.
