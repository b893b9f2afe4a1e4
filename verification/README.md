# Hook dispatcher: a verified model

`factory-dispatcher` runs WebAssembly hook plugins for every tool event of an
editor session and answers with an exit code: 2 blocks the tool call, 0 lets it
through. This project models the parts of it that carry state or a protocol and
proves, with Dafny, what they guarantee over all inputs, runs and interleavings.

`dafny verify dfyconfig.toml` checks everything.

## Structure

| file | models |
|---|---|
| `MarkerLog.dfy` | the audit log of the quarantine marker as events, and the fold that infers an unlogged deletion |
| `LogFile.dfy` | the same log as bytes: newline framing, the bounded tail read, line splitting |
| `MarkerMachine.dfy` | the marker file, the log and the operator as a state machine, and what it is for log and file to agree |
| `StaleWrites.dfy`, `MarkerAgreement.dfy` | writes by callers whose reading may be stale; log and file agree in every run of the machine |
| `OperatorDeletions.dfy` | what the log's records prove about an operator's deletions, over runs of that machine |
| `MarkerCalendar.dfy` | the machine's log as the files of its days, scanned as bytes |
| `Quarantine.dfy` | what the marker promises over runs of that machine: who lifts a quarantine, and how long it lasts |
| `MarkerRaces.dfy` | the same operations taken apart into file call and audit appends, interleaved |
| `MarkerRefinement.dfy` | every run of the serialized machine as one of the interleaved machine |
| `QuarantineRaces.dfy` | the quarantine under that interleaving: what a removal was decided on and what it takes |
| `MarkerStore.dfy` | the marker operations as methods of a class, each proved to be one machine step |
| `TempNames.dfy`, `MarkerWriters.dfy` | concurrent writers, one file-system call at a time |
| `PluginCache.dfy` | the compiled-module cache under concurrent callers and file rewrites |
| `AsyncDrain.dfy` | the channel-and-timer drain of asynchronous plugins, and the accounting after it |
| `Registry.dfy`, `Routing.dfy` | load-time validation; matching, partition, priority tiers |
| `Verdict.dfy` | the execution fold, the three block predicates, the exit code |
| `GuestMemory.dfy` | linear memory: bounds-checked access, the grow-and-write protocol, the plugin library's side |
| `Resolver.dfy` | the resolver registry, context resolution, the overlay merge and its collision log |
| `Dedup.dfy` | capped error deduplication, the mount gate behind it, the character-safe hashed prefix |
| `ShardRoll.dfy` | rolling an over-cap artifact into sealed shards: seal, truncate, index, and self-heal after a crash at any point |
| `ShardRaces.dfy` | any number of dispatchers rolling and healing one artifact at once |
| `ShardReclaim.dfy` | publishers of one shard racing over an empty file at its name |
| `Outcomes.dfy`, `UnixPath.dfy`, `Wrappers.dfy` | plugin results and policies; path equality; Option, Result, bytes |

Code the dispatcher runs as a loop or on fields it updates is a method or a
class here, proved against a function or a relation; the run theorems are about
that function or relation.

## Main results

* **The log agrees with the file.** In every reachable state of the serialized
  machine the fold over the whole log leaves exactly the marker on disk and the
  markers an operator deleted unreported (`AgreementRun`). So each
  `OPERATOR_OVERRIDE` record names a real deletion, never reported before and never
  written over (`OverrideIsRealDeletion`), although only the tail of one day's file is read
  (`SuffixSound`, `TailScanSound`, `ByteScanIsPreCheck`), and a second
  reconciliation finds nothing wherever its window lies (`TailScanIdempotent`).
* **What interleaving costs the agreement is known exactly.** With file calls and
  appends as separate steps of any number of tasks, a state is safe if and only if
  every order in which the appends in flight can land ends in agreement
  (`SafeIffAlwaysSettlesWell`); a run is safe throughout if and only if each step
  meets a local condition on what its task saw and what is in flight
  (`SafeRunIffClean`); and a scan's report is then true of an operator's deletion
  if and only if the pair is not on disk and no clear of it is in flight
  (`ReportIsTrueIff`). The serialized machine is the case in which every task finishes
  its appends first (`RunSimulated`).
* **Quarantine is safe in the serialized machine, and what interleaving costs it is
  known exactly.** Serialized, a marker leaves the disk only at a step that is one of
  the sanctioned ways (`QuarantineSafety`): a plugin's end lifts it only if that plugin
  exited 0, was shown all it asked for, and is the one the marker names, on the artifact
  it names (`QuarantineStep`, `OnlyPassLifts`); and every change leaves its own record
  (`StepRecords`). Interleaved, only a write that lands between
  a removal's first read and its file call can undo that: the removal is sanctioned if
  and only if it is so for the last such write, if there is one
  (`RemovalSanctionedIff`, `QuarantineHoldsIff`). A lock that keeps writes out of those
  windows keeps the quarantine (`QuarantineHoldsUnderLock`). Without one, a run can keep
  log and file in agreement throughout and still lose it (`ExpiryTakesFreshMarker`,
  `PassLiftsAnothersQuarantine`).
* **Quarantine is bounded, interleaved or not.** A crash is blocked exactly within a
  day of a fail-closed write that is still in place (`BoundedQuarantine`,
  `RacedBoundedQuarantine`), and the exit code of any dispatch says so
  (`QuarantineVerdict`, `RacedQuarantineVerdict`).
* **The marker file is an atomic register** under all interleavings of writers
  and deletions (`MarkerIsRegister`, `MarkerIsNeverTorn`, `TempFilesLeft`).
* **The module cache is fresh exactly when mtimes tell versions apart**
  (`FreshIffMtimesTell`), and the call as written is covered under any
  interference (`GetOrCompile`). What a call returns is fixed in every case by what the
  disk or the cache told it last (`CallResult`).
* **The drain loses nothing and always ends,** one turn for each outcome after the last
  sender is gone, timer or no timer (`DrainCollects`, `ClosedChannelStops`, `Drain`); it
  accounts for every entry in every run exactly when the names in the group are distinct
  (`AccountedIffNamesDistinct`).
* **The plan.** Of an accepted registry exactly the enabled entries of this event whose
  pattern matches, or that have none, are planned, each once (`PlanConserves`), in
  tiers of rising priority (`TierOrder`, `TieringUnique`).
* **A file reaches the guest whole.** What `read_file` answers, and where the guest finds
  address, length and bytes, is fixed for every path, file and memory (`ReadFileExact`);
  the plugin library then returns those bytes exactly if the guest had any memory
  (`DeliveredIsRead`).
* **The verdict.** The exit code is characterised by what the dispatch was given
  (`ExitCodeExact`); it agrees with the list of blockers exactly but for exit
  codes that wrap (`VerdictExact`, `VerdictAgreement`).
* **A roll is crash-safe as long as writes come through the gate,** for one dispatcher
  at a time. Whatever the crash points and later self-heals, the sealed shards in
  sequence and then the artifact hold every byte written, in order and once, or with
  the bytes of a roll that stopped before its truncate twice (`GatedRunKeepsDocument`,
  `EveryByteOnce`); sealed shards never change (`RunKeepsShards`). For any state, a
  self-heal restores the document if and only if the artifact still tells how far
  the roll came (`HealExact`).
* **What several dispatchers at once can lose is known exactly.** Whatever their number
  and interleaving, crashes and self-heals included, shards are numbered without gap
  and never change (`ShardRaces.RunKeepsInv`, `RunKeepsSealed`), and no byte is lost or
  doubled if and only if every truncate finds the artifact as the roll that sealed the
  shard read it, or changed last to something that may be truncated
  (`TruncateKeepsIffWindow`, `DocumentKeptIff`). A lock from that read to the truncate
  suffices (`DocumentKeptUnderLock`); the gate alone does not (`FirstTakesSecondsWrite`).
  The index can lose a row only to a publisher that read it before the row was there
  (`RowStaysIff`).
* **A shard is lost exactly when it is sealed between another publisher's last look at
  an empty file and its unlink** (`SealsStayIffQuiet`), that is, exactly when someone
  told that its shard is published does not find it there (`SealsStayIffTruthful`).

## Where the code and its documentation differ

The model follows the code. Each of these is a lemma with an exact condition or
a concrete input:

* Exit codes are cast to one byte before aggregation but compared whole when
  blockers are listed: should the runtime hand back 258, the dispatcher would
  exit 2 and name nobody (`WrappedExitCodeNamesNoBlocker`, `VerdictExact`).
* Collected outcomes are matched to spawned entries by name, but registry
  entries are unique by (name, event, tool): of two async entries of one name an
  abandoned one can go unreported (`AsyncNamesMayRepeat`,
  `AccountedIffNamesDistinct`), and a completed one can carry the other's index
  (`IndexIsOwn`).
* The async/block check reads the explicit `on_error` only, so a blocking default
  reaches async entries that do not override it (`AsyncNeverBlocks`).
* A write of the temp file that breaks off half-way leaves it behind; clean-up
  covers failed renames only (`TempFilesLeft`).
* Log and file can come apart, and a later reconciliation then reports a deletion
  no operator made: when two writers both read "no marker" before either renames
  (`RacingWritersForgeOverride`, `StaleWriteAgreement`); when a scan comes between
  a removal and its record (`ScanBetweenRemovalAndRecord`); and when the record of
  a write lands after the record that it was superseded (`RecordsOutOfOrder`). The
  last two need no stale read. `StepSafeIffClean` is the exact condition.
* `env()` in the plugin library returns an over-long value as 1024 NUL bytes and
  an empty one as unset (`ReadEnvExact`).
* An error event among the first 1024 distinct ones that is first offered while
  the mount gate is closed is remembered as seen, so it is never logged
  (`LoggedExact`).
* A clear re-reads the marker's artifact but not its plugin before it removes the
  file, and an expiry check does not re-read at all. A marker renamed over the one
  that was read is removed in its place: a fresh marker as expired
  (`ExpiryTakesFreshMarker`), another plugin's by the first one's Pass
  (`PassLiftsAnothersQuarantine`). `RemovalSanctionedIff` is the exact condition: it
  depends on the last write between the first read and the removal only.
* A write that reaches the artifact after its seal and before its truncate leaves the
  sealed bytes in the history twice, if the dispatcher dies there
  (`UngatedWriteDoubles`), or is lost, if the roll goes on (`WriteInsideRollIsLost`). A
  write that came through its own dispatcher's gate can be lost in the same way to
  another dispatcher's roll (`FirstTakesSecondsWrite`).
* A sealed shard is meant to be written once. The second look at an empty file in its
  place narrows the window in which a racing publisher's shard is unlinked, and does
  not close it: both publishers are then told that theirs is published
  (`FirstTakesSecondsShard`). Without an empty file there is no window
  (`NoEmptyNoLoss`).

## Assumptions

In `MarkerMachine` and `MarkerStore` a step is one serialized operation: reading
the existing marker, renaming and emitting happen together, that read succeeds,
audit appends succeed, and the clock is read once. `MarkerRaces` drops the first
two and keeps the third; `SerializedIsClean` says that serialized steps meet its
condition. A scan reads a suffix of the log: `ByteScanIsPreCheck` derives that
from the framing and a calendar that does not go back. Writers of one set have
distinct (pid, nonce) pairs. Times are whole seconds; marker and events are
records; whether a line decodes, a pattern compiles or matches, a module
compiles, a character is alphanumeric, the clock and every I/O outcome are
parameters. `usize` is taken to have 64 bits.

## Model

| member | source | states |
|---|---|---|
| `MarkerLog.ScanUnmatched` | crates/factory-dispatcher/src/indeterminate_marker.rs:843-913 | the scan loop keeps a pair exactly when some line writes it and no later line mentions it |
| `MarkerLog.UnmatchedIsOpenWrite` | crates/factory-dispatcher/src/indeterminate_marker.rs:843-913 | the fold agrees with the fold-free definition of an open write, and rebuilds that line's fields |
| `MarkerLog.SuffixSound` | crates/factory-dispatcher/src/indeterminate_marker.rs:834-913 | a scan of any suffix finds only what the full scan finds, with the same fields, and misses exactly the open writes before the suffix |
| `MarkerLog.IntoValues` | crates/factory-dispatcher/src/indeterminate_marker.rs:915-926 | the unmatched entries are reported once each, in any order |
| `MarkerLog.UnmatchedAfterClears` | crates/factory-dispatcher/src/indeterminate_marker.rs:915-926 | appended clear records take exactly their own pairs out of the fold |
| `MarkerLog.ReconcileTwice` | crates/factory-dispatcher/src/indeterminate_marker.rs:834-929 | once everything a window left unmatched has a clear record, no later window leaves anything |
| `MarkerLog.TodaysFileIsSuffix` | crates/factory-dispatcher/src/indeterminate_marker.rs:829-834 | while local dates do not run backwards today's file is a suffix of the whole log |
| `LogFile.LinesOfFrame` | crates/factory-dispatcher/src/indeterminate_marker.rs:849-853 | splitting a file of newline-terminated records gives the records back |
| `LogFile.PlainLinesOfFrame` | crates/factory-dispatcher/src/indeterminate_marker.rs:849-853 | records that do not end in a carriage return come back unchanged |
| `LogFile.ReturnIsStripped` | crates/factory-dispatcher/src/indeterminate_marker.rs:849-853 | of one that does exactly that byte is lost |
| `LogFile.LinesOfTorn` | crates/factory-dispatcher/src/indeterminate_marker.rs:849-853 | a last record without its newline is a line of its own |
| `LogFile.DropLandsOnRecord` | crates/factory-dispatcher/src/indeterminate_marker.rs:935-953 | seeking anywhere and dropping the partial line lands on the first record that begins after the offset |
| `LogFile.TailIsWindow` | crates/factory-dispatcher/src/indeterminate_marker.rs:935-953 | the tail read yields whole records only: all of them if the file fits in the cap, else the longest run of last records shorter than the cap |
| `LogFile.WindowAdvances` | crates/factory-dispatcher/src/indeterminate_marker.rs:935-953 | the window never moves back when the file grows |
| `LogFile.ScanIsSuffixScan` | crates/factory-dispatcher/src/indeterminate_marker.rs:846-913 | scanning the bytes of the tail is scanning a suffix of the decoded events |
| `LogFile.ScanOfTodaysFile` | crates/factory-dispatcher/src/indeterminate_marker.rs:829-913 | scanning the bytes of the day's file is scanning a suffix of the whole log |
| `LogFile.TailScanSound` | crates/factory-dispatcher/src/indeterminate_marker.rs:758-929 | the bounded scan can miss a deletion but never invents one, keeps the fields, and is complete when the file fits |
| `LogFile.TailScanIdempotent` | crates/factory-dispatcher/src/indeterminate_marker.rs:810-929 | reconciliation is idempotent under the cap, whatever the emission order and however far the window moved |
| `StaleWrites.StaleWriteAgreement` | crates/factory-dispatcher/src/indeterminate_marker.rs:585-670 | a write keeps log and file in agreement exactly when what its caller saw closes the pair on disk and closes no operator-deleted one |
| `MarkerAgreement.AgreesAfterReconcile` | crates/factory-dispatcher/src/indeterminate_marker.rs:810-929 | reconciling over any window reports only operator deletions, all of them if the window is the whole log, and keeps the agreement |
| `MarkerAgreement.AgreementStep` | crates/factory-dispatcher/src/indeterminate_marker.rs:640-929 | every marker step keeps log and file in agreement |
| `MarkerAgreement.AgreementRun` | crates/factory-dispatcher/src/executor.rs:883-1001 | in every reachable state the fold over the log leaves exactly the operator-deleted pairs and the marker on disk |
| `OperatorDeletions.RawDeletedHistory` | crates/factory-dispatcher/src/indeterminate_marker.rs:810-929 | an outstanding deletion goes back to an operator step, with no write and no report of the pair since |
| `OperatorDeletions.OverrideIsRealDeletion` | crates/factory-dispatcher/src/indeterminate_marker.rs:915-926 | every OPERATOR_OVERRIDE record names the pair and trace id of a marker an operator deleted, not written since and not reported before |
| `OperatorDeletions.FullScanReportsAll` | crates/factory-dispatcher/src/indeterminate_marker.rs:810-929 | a scan that reaches the whole log reports every outstanding deletion and leaves none |
| `OperatorDeletions.SecondPreCheckReportsNothing` | crates/factory-dispatcher/src/executor.rs:726-759 | a second pre-check straight after one appends nothing |
| `Quarantine.QuarantineStep` | crates/factory-dispatcher/src/executor.rs:894-1001 | one step removes a marker if and only if it is an expiry, an operator deletion, or the end of the PostToolUse plugin it names with exit code 0 and nothing withheld on the artifact it names; it leaves one if and only if a fail-closed PostToolUse plugin timed out, or exited 0 with something withheld, and that one names this plugin, artifact, cause and trace and lasts a day |
| `Quarantine.OnlyPassLifts` | crates/factory-dispatcher/src/executor.rs:132-189 | a plugin's end lifts a marker only on exit code 0 with nothing withheld, leaves one only on a timeout or exit code 0 with something withheld; a crash or another exit code changes nothing |
| `Quarantine.StepRecords` | crates/factory-dispatcher/src/executor.rs:883-1001 | each step leaves exactly its own records: REVALIDATED for a Pass, TTL_EXPIRED for an expiry, SUPERSEDED only for another pair's marker, then marker.written with the fields of the marker |
| `Outcomes.ClassifyExact` | crates/factory-dispatcher/src/executor.rs:132-189 | which plugin results pass, fail, and are indeterminate for which cause |
| `Quarantine.QuarantineSafety` | crates/factory-dispatcher/src/indeterminate_marker.rs:300-365 | over runs of serialized operations, a marker that is gone left at a step that took it off the disk in one of those ways or successfully overwrote it |
| `Quarantine.MarkerOrigin` | crates/factory-dispatcher/src/executor.rs:956-1001 | whatever is on disk was put there by a successful fail-closed write and has been there since |
| `Quarantine.OwnPassLifts` | crates/factory-dispatcher/src/executor.rs:894-936 | the plugin a marker names lifts it by passing on the same artifact |
| `Quarantine.BoundedQuarantine` | crates/factory-dispatcher/src/indeterminate_marker.rs:393-440 | the crash path blocks at a time exactly when the marker can be read and a fail-closed write less than 86400 seconds earlier is still in place |
| `Quarantine.CheckAfterPreCheck` | crates/factory-dispatcher/src/executor.rs:726-759 | after a pre-check without I/O error the native check, at its own clock reading, blocks exactly when it can read the file, the file is still there and did not expire in between |
| `MarkerCalendar.RunDates` | crates/factory-dispatcher/src/internal_log.rs:180-208 | if the calendar does not go back from step to step, the log's dates are in order |
| `MarkerCalendar.ByteScanIsPreCheck` | crates/factory-dispatcher/src/indeterminate_marker.rs:810-929 | in any run state, scanning the capped tail of today's file is a PreCheck step, and reports only operator deletions |
| `StaleWrites.RacingWritersForgeOverride` | crates/factory-dispatcher/src/executor.rs:956-1001 | two writers that both read "no marker" make a later scan report a deletion no operator made |
| `MarkerRaces.AppendKeepsSafe` | crates/factory-dispatcher/src/indeterminate_marker.rs:640-670 | landing a pending append never makes a safe state unsafe |
| `MarkerRaces.StepSafeIffClean` | crates/factory-dispatcher/src/executor.rs:894-1001 | a step keeps a safe state safe exactly when what its task saw and what is in flight meet the stated condition |
| `MarkerRaces.SafeRunIffClean` | crates/factory-dispatcher/src/executor.rs:707-1001 | a run of interleaved file calls and appends is safe throughout if and only if every step is clean |
| `MarkerRaces.SafeIsAgreement` | crates/factory-dispatcher/src/indeterminate_marker.rs:843-913 | with nothing in flight, safe is the agreement of log and file |
| `MarkerRaces.UnsafeCanSettleBadly` | crates/factory-dispatcher/src/indeterminate_marker.rs:640-670 | from an unsafe state some order of the pending appends ends in disagreement |
| `MarkerRaces.SafeIffAlwaysSettlesWell` | crates/factory-dispatcher/src/indeterminate_marker.rs:640-670 | a state is safe if and only if every order of the pending appends ends in agreement |
| `MarkerRaces.RawDeletedIffOutstanding` | crates/factory-dispatcher/src/indeterminate_marker.rs:810-929 | a deletion is outstanding in the bookkeeping exactly when an operator made it and no later step wrote or reported the pair |
| `MarkerRaces.ReportIsTrueIff` | crates/factory-dispatcher/src/indeterminate_marker.rs:810-929 | after clean steps a scan's report is of an outstanding operator deletion exactly when the pair is not on disk and no clear of it is in flight |
| `MarkerRaces.SerializedIsClean` | crates/factory-dispatcher/src/executor.rs:894-1001 | with nothing in flight and nothing stale, every step is clean |
| `MarkerRefinement.RunSimulated` | crates/factory-dispatcher/src/executor.rs:883-1001 | every run of the serialized machine is one of the interleaved machine, in which each task finishes its appends before the next one starts |
| `MarkerRaces.ScanBetweenRemovalAndRecord` | crates/factory-dispatcher/src/indeterminate_marker.rs:735-745 | a scan between a removal and its record reports a pair no operator deleted |
| `MarkerRaces.RecordsOutOfOrder` | crates/factory-dispatcher/src/indeterminate_marker.rs:640-670 | two writers that saw the disk correctly can leave the first pair open for good, by the order of their appends |
| `QuarantineRaces.RemovalSanctionedIff` | crates/factory-dispatcher/src/indeterminate_marker.rs:300-339 | in a run, a removal whose reads began in a given state takes a marker in a sanctioned way if and only if it is sanctioned for the last marker written between that state and the file call, if any was |
| `QuarantineRaces.QuarantineHoldsIff` | crates/factory-dispatcher/src/executor.rs:900-936 | over any interleaving, markers leave the disk in sanctioned ways or under a later fail-closed write only, if and only if no removal has a last write in its read-to-remove window for which it is not sanctioned |
| `QuarantineRaces.QuarantineHoldsUnderLock` | crates/factory-dispatcher/src/indeterminate_marker.rs:714-748 | if no write lands between the first read of a removal and its file call, no quarantine is lost |
| `QuarantineRaces.RacedOrigin` | crates/factory-dispatcher/src/executor.rs:956-1001 | in any interleaving what is on disk is one fail-closed write's marker, in place ever since |
| `QuarantineRaces.RacedBoundedQuarantine` | crates/factory-dispatcher/src/indeterminate_marker.rs:393-440 | in any interleaving the crash path blocks exactly when the marker can be read and a fail-closed write made less than a day before is still in place |
| `QuarantineRaces.ExpiryTakesFreshMarker` | crates/factory-dispatcher/src/indeterminate_marker.rs:714-748 | for any expired and any fresh marker of one pair there is a run, clean and with honest reads, whose expiry clear removes the fresh one |
| `QuarantineRaces.PassLiftsAnothersQuarantine` | crates/factory-dispatcher/src/executor.rs:900-936 | for any two plugins' markers of one artifact there is such a run in which the first one's Pass removes the second one's marker |
| `MarkerStore.Store.WriteIndeterminateMarker` | crates/factory-dispatcher/src/indeterminate_marker.rs:93-180 | a write replaces the whole marker or changes nothing |
| `MarkerStore.Store.EmitSupersededIfCrossPair` | crates/factory-dispatcher/src/indeterminate_marker.rs:585-608 | SUPERSEDED is logged exactly when the overwritten marker is of another pair |
| `MarkerStore.Store.EmitWriteTiedAuditEvents` | crates/factory-dispatcher/src/indeterminate_marker.rs:640-670 | a failed write logs neither SUPERSEDED nor marker.written |
| `MarkerStore.Store.DeleteMarkerIfPass` | crates/factory-dispatcher/src/indeterminate_marker.rs:300-339 | the marker is removed exactly when its artifact is empty or the same path as the current one |
| `UnixPath.SeparatorsDoNotCount` | crates/factory-dispatcher/src/indeterminate_marker.rs:320-325 | a repeated separator, and `.` between two, make no other path |
| `UnixPath.TrailingDoesNotCount` | crates/factory-dispatcher/src/indeterminate_marker.rs:320-325 | nor does a separator at the end |
| `UnixPath.OrdinaryPathsDiffer` | crates/factory-dispatcher/src/indeterminate_marker.rs:320-325 | paths of ordinary components are the same only if equal, and never if one is absolute and the other not |
| `MarkerStore.Store.PluginFinished` | crates/factory-dispatcher/src/executor.rs:883-1001 | what a plugin task does after the plugin returned is one Finished step, with that effect on the file and exactly its records |
| `MarkerStore.Store.CheckAndClearExpiredMarker` | crates/factory-dispatcher/src/indeterminate_marker.rs:714-748 | an expired marker is removed and logged, any other left; an I/O error of the read or the delete is returned and changes nothing |
| `MarkerStore.Store.ReconcileRawDelete` | crates/factory-dispatcher/src/indeterminate_marker.rs:810-929 | with a marker present it does nothing; else it appends one override per entry its window leaves unmatched |
| `MarkerStore.Store.PreCheckMarker` | crates/factory-dispatcher/src/executor.rs:726-759 | the pre-check of a block_if_marker plugin is one PreCheck step |
| `MarkerStore.Store.CheckBlock` | crates/factory-dispatcher/src/indeterminate_marker.rs:393-428 | blocks exactly for a readable marker that has not expired, one without expiry included; a read error allows |
| `TempNames.DecimalInjective` | crates/factory-dispatcher/src/indeterminate_marker.rs:100-123 | two numbers with the same decimal digits are the same number |
| `TempNames.DecimalValue` | crates/factory-dispatcher/src/indeterminate_marker.rs:100-123 | the digits written for a number read back as that number |
| `TempNames.PlainNameKept` | crates/factory-dispatcher/src/indeterminate_marker.rs:103-114 | sanitizing keeps a name exactly if it has only alphanumerics, hyphens and underscores |
| `TempNames.TempNameInjective` | crates/factory-dispatcher/src/indeterminate_marker.rs:100-123 | equal temp names have equal pid, nonce and sanitized plugin name, which has no dot |
| `TempNames.TempNameIsNotFinal` | crates/factory-dispatcher/src/indeterminate_marker.rs:100-123 | a temp name is never the marker's own |
| `MarkerWriters.StepKeepsInv` | crates/factory-dispatcher/src/indeterminate_marker.rs:93-180 | every file-system call keeps each writer's temp file its own, and acts on the marker as a register operation |
| `MarkerWriters.RunKeepsInv` | crates/factory-dispatcher/src/indeterminate_marker.rs:93-180 | in every interleaving a temp file exists exactly while its own writer needs it, so nobody renames or removes another's |
| `MarkerWriters.MarkerIsRegister` | crates/factory-dispatcher/src/indeterminate_marker.rs:159-180 | the marker path holds what an atomic register written at the renames would |
| `MarkerWriters.MarkerIsNeverTorn` | crates/factory-dispatcher/src/indeterminate_marker.rs:159-180 | a reader sees the old content, nothing, or one writer's whole content |
| `MarkerWriters.TempFilesLeft` | crates/factory-dispatcher/src/indeterminate_marker.rs:159-180 | when all have returned, a temp file is left exactly where the write broke off or the clean-up after a failed rename failed |
| `MarkerWriters.OtherFilesKept` | crates/factory-dispatcher/src/indeterminate_marker.rs:93-180 | no other file is touched |
| `PluginCache.StepKeepsInv` | crates/factory-dispatcher/src/plugin_loader.rs:59-84 | every move of a caller and every change on disk keeps: an entry's bytes are at least as new as its mtime |
| `PluginCache.StaleRun` | crates/factory-dispatcher/src/plugin_loader.rs:59-106 | if two versions share an mtime and one in between compiles, a run hands out that one when the later version is on disk |
| `PluginCache.FreshIffMtimesTell` | crates/factory-dispatcher/src/plugin_loader.rs:59-106 | over all interleavings every returned module is no older than the file at the call and no newer than at the return, if and only if mtimes tell versions apart |
| `PluginCache.CallResult` | crates/factory-dispatcher/src/plugin_loader.rs:59-84 | over any interleaving a finished call returns an error if its probe or read failed, the module it found if it found one, else the version it read, exactly if that compiles |
| `PluginCache.ModuleCache.GetOrCompile` | crates/factory-dispatcher/src/plugin_loader.rs:59-106 | the call as written, with others acting wherever the lock is not held, is a machine run; if mtimes tell versions apart what it returns is no older than the file at the call and no newer than at the return; undisturbed, a present file gives the cached module of its mtime, else the version on disk if it compiles, which is then in the cache |
| `AsyncDrain.RunKeepsInv` | crates/factory-dispatcher/src/main.rs:698-783 | in every run received followed by still-in-channel is sent, each entry reports at most once and under its name |
| `AsyncDrain.DrainCollects` | crates/factory-dispatcher/src/main.rs:760-783 | when the loop stops it has received everything sent before its last poll; without the timer, every task that did not panic |
| `AsyncDrain.SentExact` | crates/factory-dispatcher/src/main.rs:740-757 | what is in the channel is what the tasks reported, each under its own name |
| `AsyncDrain.SleepsIff` | crates/factory-dispatcher/src/main.rs:766-783 | the loop sleeps exactly while the channel is empty, some sender is left and the timer has not fired |
| `AsyncDrain.ClosedChannelStops` | crates/factory-dispatcher/src/main.rs:766-783 | once all senders are gone with n outcomes in the channel the loop takes one a turn and stops at turn n+1, timer or no timer, whatever else happens |
| `AsyncDrain.Drain` | crates/factory-dispatcher/src/main.rs:760-783 | the loop returns what the machine receives under any schedule; once the senders are gone and a turn is left for each outcome it has stopped, with everything if the timer had not fired by then |
| `AsyncDrain.DrainIsRun` | crates/factory-dispatcher/src/main.rs:760-783 | the loop under any schedule is a run of the machine |
| `AsyncDrain.AccountFor` | crates/factory-dispatcher/src/main.rs:785-859 | one terminal event per collected outcome that is not a crash, then one abandoned event per entry whose name was not collected |
| `AsyncDrain.EventsExact` | crates/factory-dispatcher/src/main.rs:785-859 | which events are reported: a block or exit code 2 as discarded, another exit under the first index of its name, a timeout as such, a crash not at all, an uncollected name as abandoned under its own index |
| `AsyncDrain.AccountingExact` | crates/factory-dispatcher/src/main.rs:785-859 | no entry is both collected and abandoned; every uncollected one is abandoned once exactly when none shares its name with a collected one |
| `AsyncDrain.AccountedIffNamesDistinct` | crates/factory-dispatcher/src/main.rs:698-859 | every drain accounts for every entry if and only if the names of the group are distinct |
| `AsyncDrain.IndexIsOwn` | crates/factory-dispatcher/src/main.rs:811-823 | a completed event carries the entry's own index exactly when no earlier entry has its name |
| `Registry.ValidateAsyncBlockInvariant` | crates/factory-dispatcher/src/registry.rs:508-531 | accepts exactly the lists without an async entry that blocks explicitly, else names the first and its policy |
| `Registry.ValidateUniqueness` | crates/factory-dispatcher/src/registry.rs:542-555 | accepts exactly the lists with pairwise distinct (name, event, tool), else names the first repetition |
| `Registry.Validate` | crates/factory-dispatcher/src/registry.rs:476-499 | accepts exactly the registries all four checks accept, and reports the first failure in order |
| `Routing.PartitionPlugins` | crates/factory-dispatcher/src/partition.rs:90-104 | splits the list by the async flag and keeps the order of each part |
| `Routing.FilterConcat` | crates/factory-dispatcher/src/partition.rs:90-104 | matching and partition go entry by entry and keep the order |
| `Routing.SortByKey` | crates/factory-dispatcher/src/routing.rs:69-76 | a list with the same elements, strictly ordered by priority and then position |
| `Routing.SortedAtPriority` | crates/factory-dispatcher/src/routing.rs:69-76 | however the sort works, one priority's entries come out in registry order |
| `Routing.GroupByPriority` | crates/factory-dispatcher/src/routing.rs:63-87 | non-empty tiers of one effective priority each, strictly increasing, each all entries of its priority in registry order, none missing |
| `Routing.TieringUnique` | crates/factory-dispatcher/src/routing.rs:63-87 | a list has exactly one such tiering |
| `Routing.TierOrder` | crates/factory-dispatcher/src/routing.rs:63-87 | entries of one tier have one priority, their own or the default, and a later tier has a larger one |
| `Routing.TieringConserves` | crates/factory-dispatcher/src/routing.rs:63-87 | flattening the tiers is a permutation of the list |
| `Routing.PlanConserves` | crates/factory-dispatcher/src/routing.rs:37-87 | in an accepted registry an entry that is enabled, of this event, and without a tool pattern or with one that matches is in the sync tiers or the async group, once and never in both, and nothing else is |
| `Routing.AsyncNeverBlocks` | crates/factory-dispatcher/src/registry.rs:388-531 | no async entry effectively blocks if and only if the default does not block or every enabled async entry overrides it |
| `Routing.AsyncNamesMayRepeat` | crates/factory-dispatcher/src/registry.rs:542-555 | an accepted registry can put two entries of one name into one async group |
| `Verdict.ExtractBlockInfo` | crates/factory-dispatcher/src/main.rs:985-1037 | the comma-joined names of exactly the blocking outcomes in order, and the escaped reason of the first blocker that has one, which is one line |
| `Verdict.ReasonExact` | crates/factory-dispatcher/src/main.rs:1087-1150 | a reason is the marker if that is what blocks, the "reason" of a block, the "message" of an error, or the way the plugin died |
| `Verdict.GateIsFirstBlocker` | crates/factory-dispatcher/src/executor.rs:472-530 | a fired gate is the first blocker, under its own name and with its own text |
| `Verdict.SplitJoin` | crates/factory-dispatcher/src/main.rs:1032-1036 | comma-free names can be recovered from the joined text |
| `Verdict.EscapeIsOneLine` | crates/factory-dispatcher/src/main.rs:1032-1036 | an escaped reason has no line break, and is unchanged exactly if it had none |
| `Verdict.EscapeConcat` | crates/factory-dispatcher/src/main.rs:1032-1036 | escaping goes character by character and writes each line break as a backslash and a letter |
| `Verdict.ExecuteTier` | crates/factory-dispatcher/src/executor.rs:1018-1046 | one outcome per entry in order, a lost task becoming an unnamed non-blocking crash |
| `Verdict.ExamineTier` | crates/factory-dispatcher/src/executor.rs:646-689 | the crash gate and the block predicates over one tier extend the fold by that tier |
| `Verdict.ExecuteTiers` | crates/factory-dispatcher/src/executor.rs:632-698 | one outcome for a fired gate, then one per entry of the flattened tiers whatever blocked before, and block intent exactly if the gate or an outcome blocks |
| `Verdict.AggregateExact` | crates/factory-dispatcher/src/aggregator.rs:61-73 | the aggregate of the cast exit codes is 2 exactly if some outcome's byte is 2 under a blocking policy |
| `Verdict.PredicatesAgree` | crates/factory-dispatcher/src/executor.rs:1538-1602 | outcome by outcome, executor or aggregator block if and only if the reporter does or the exit code wraps |
| `Verdict.ExitCodeExact` | crates/factory-dispatcher/src/main.rs:888-921 | the exit code is 2 exactly when the gate fired or some entry blocks, stated on the dispatch's inputs, and never on PostCompact |
| `Verdict.VerdictExact` | crates/factory-dispatcher/src/main.rs:888-1037 | the exit code is 2 exactly when some blocker is listed or some exit code wraps to 2 |
| `Verdict.VerdictAgreement` | crates/factory-dispatcher/src/main.rs:888-1037 | for exit codes in 0..255 the code is 2 exactly when a blocker is listed |
| `Verdict.WrappedExitCodeNamesNoBlocker` | crates/factory-dispatcher/src/main.rs:888-902 | an exit code of 258, if the runtime hands one back, exits 2 under a blocking policy with no blocker listed |
| `Verdict.ShortCircuitAgrees` | crates/factory-dispatcher/src/main.rs:445-488 | with nothing to run the short circuit gives the full path's exit code and outcomes |
| `Verdict.QuarantineVerdict` | crates/factory-dispatcher/src/executor.rs:1538-1602 | any dispatch exits 2 exactly when the gate fired, an entry blocks by itself, or a block_if_marker gate died while a marker written less than a day before was in place and readable, never on PostCompact |
| `Verdict.RacedQuarantineVerdict` | crates/factory-dispatcher/src/executor.rs:1538-1602 | the same over any interleaving of the marker operations |
| `Verdict.OneOutcomePerEntry` | crates/factory-dispatcher/src/executor.rs:632-698 | a run reports one outcome per sync entry, under its name, plus one for a fired gate |
| `GuestMemory.LittleEndianRoundTrip` | crates/factory-dispatcher/src/invoke.rs:1098-1108 | reading back a written 32-bit word gives the word |
| `GuestMemory.GrowthMakesRoom` | crates/factory-dispatcher/src/invoke.rs:780-788 | if growth succeeds the old size fits in 32 bits and the body fits above it |
| `GuestMemory.DeliverCode` | crates/factory-dispatcher/src/invoke.rs:764-803 | exactly when each result code is returned, and that a failed growth changes nothing |
| `GuestMemory.DeliverContents` | crates/factory-dispatcher/src/invoke.rs:764-803 | on OK, for disjoint out-params off the body, the body is at the old end, the out-params read back address and length, every other old byte is unchanged |
| `GuestMemory.DeliveredIsRead` | crates/hook-sdk/src/host.rs:203-221 | a delivered body is what the plugin library returns if and only if the guest had any memory before |
| `GuestMemory.EmptyIsRead` | crates/hook-sdk/src/host.rs:428-436 | an empty body is always OK, zeroes the out-params that are in memory, changes nothing else, and is read as empty |
| `GuestMemory.NoPagesNoDelivery` | crates/factory-dispatcher/src/invoke.rs:733-752 | where the empty path cannot be read, a guest of no pages is never told OK, as it can pass no other |
| `GuestMemory.ReadFileExact` | crates/factory-dispatcher/src/invoke.rs:723-807 | a bad path gives -4 and a failed preparation its own code, both with nothing written; else code, address, length, body and the rest of memory are as handed over, on the caller's own out-params |
| `GuestMemory.ReadStringExact` | crates/hook-sdk/src/host.rs:126-141 | asking for the size and fetching returns exactly the text |
| `GuestMemory.ReadEnvExact` | crates/hook-sdk/src/host.rs:181-198 | an environment value comes back exactly when its length is 1 to 1024; longer ones come back as NULs, empty ones as unset |
| `GuestMemory.Guest.ReadBytes` | crates/factory-dispatcher/src/invoke.rs:1035-1054 | the range if it is inside memory, else the bounds error |
| `GuestMemory.Guest.WriteBytes` | crates/factory-dispatcher/src/invoke.rs:1065-1094 | writes only if the offered capacity suffices, returns the size needed, leaves the rest of memory |
| `GuestMemory.Guest.HandOver` | crates/factory-dispatcher/src/invoke.rs:764-803 | the shared delivery steps in place compute the delivered memory and code |
| `GuestMemory.Guest.ReadFile` | crates/factory-dispatcher/src/invoke.rs:723-807 | code and memory of read_file for every path, said on the caller's own out-params, and the too-large flag is raised exactly with that code and never lowered |
| `GuestMemory.Guest.ReadPrefix` | crates/factory-dispatcher/src/invoke.rs:822-885 | the same for a prefix, without the flag |
| `Resolver.ResolverRegistry.Register` | crates/factory-dispatcher/src/resolver.rs:194-201 | a name is registered once; a second one is refused and changes nothing |
| `Resolver.ResolverRegistry.ResolveContextForEntry` | crates/factory-dispatcher/src/resolver.rs:265-310 | each request, in order, becomes an output under the registered context key, a not-found report, an error report, or nothing |
| `Resolver.MergeResolverOutputs` | crates/factory-dispatcher/src/resolver.rs:458-487 | each key holds its last valued output else its static value; merged size plus collisions is static size plus valued outputs |
| `Resolver.MergeUnique` | crates/factory-dispatcher/src/resolver.rs:458-487 | those conditions determine the merged map |
| `Resolver.MergeInStages` | crates/factory-dispatcher/src/resolver.rs:458-487 | merging a concatenation is merging in two stages, collisions included |
| `Resolver.CollisionsExact` | crates/factory-dispatcher/src/resolver.rs:458-487 | a collision is logged exactly for an output that found its key taken, with its key, its resolver's name, and both values |
| `Resolver.TrailIsChain` | crates/factory-dispatcher/src/resolver.rs:458-487 | a key's collisions lead link by link from its first value to its merged one |
| `Resolver.StaticRecovered` | crates/factory-dispatcher/src/resolver.rs:458-487 | a static value is the old value of its key's first collision, else still there |
| `Dedup.InternalLog.WriteInner` | crates/factory-dispatcher/src/internal_log.rs:326-393 | one write is one machine step, and fails exactly on an I/O error that was reached |
| `Dedup.SeenSize` | crates/factory-dispatcher/src/internal_log.rs:326-347 | the seen set has as many hashes as were offered, capped at 1024 |
| `Dedup.SeenExact` | crates/factory-dispatcher/src/internal_log.rs:326-347 | exactly the first 1024 distinct hashes are remembered |
| `Dedup.SuppressedExact` | crates/factory-dispatcher/src/internal_log.rs:326-347 | an error is suppressed if and only if its hash was offered before, among the first 1024 distinct ones |
| `Dedup.PassesExactlyOnce` | crates/factory-dispatcher/src/internal_log.rs:326-347 | with at most 1024 distinct hashes each passes exactly at its first offer |
| `Dedup.FullNeverSuppressesNew` | crates/factory-dispatcher/src/internal_log.rs:340-346 | once full, a hash that is not remembered passes every time |
| `Dedup.LinesExact` | crates/factory-dispatcher/src/internal_log.rs:326-393 | the file holds exactly what was neither suppressed nor gated and could be written |
| `Dedup.LinesInOrder` | crates/factory-dispatcher/src/internal_log.rs:326-393 | each of them once, in the order offered |
| `Dedup.LoggedExact` | crates/factory-dispatcher/src/internal_log.rs:326-375 | an error among the first 1024 distinct ones is in the file if and only if its first offer found the gate open and the write worked; a later one if and only if some offer of it did |
| `Dedup.FloorCharBoundary` | crates/factory-dispatcher/src/internal_log.rs:483-487 | the largest index up to the limit at which the text can be cut |
| `Dedup.BoundaryIsStart` | crates/factory-dispatcher/src/internal_log.rs:483-487 | the text can be cut only where a character starts or at its end |
| `Dedup.HashedPrefix` | crates/factory-dispatcher/src/internal_log.rs:469-489 | whole characters, at most 4096 bytes, the longest such prefix, the whole message exactly when it fits |
| `ShardRoll.RunKeepsShards` | crates/factory-dispatcher/src/shard_manager.rs:3094-3151 | over all runs and crash points the index lists the shards 1, 2, ... with their sizes, at most the next one is unlisted, and no sealed shard changes or is lost |
| `ShardRoll.StepKeepsDocumentIff` | crates/factory-dispatcher/src/shard_manager.rs:3512-3590 | a step of a roll or a self-heal keeps every byte, none lost and none twice, exactly when it truncates what was sealed or indexes what is not in the artifact any more |
| `ShardRoll.PastGrows` | crates/factory-dispatcher/src/shard_manager.rs:3512-3590 | what has been rolled away is only added to, and an agent's write replaces the rest only |
| `ShardRoll.GatedRunKeepsDocument` | crates/factory-dispatcher/src/shard_manager.rs:1721-1735 | with one dispatcher at a time, while writes come through the gate, rolls, crashes and self-heals change nothing, and on disk is the document, or the document with a stopped roll's bytes twice |
| `ShardRoll.EveryByteOnce` | crates/factory-dispatcher/src/shard_manager.rs:3512-3590 | of an artifact that is appended to through the gate, shards and artifact hold every byte appended, in order and once, when no truncate is due |
| `ShardRoll.HealRuns` | crates/factory-dispatcher/src/shard_manager.rs:3865-3885 | an uninterrupted self-heal is a run of the machine |
| `ShardRoll.HealExact` | crates/factory-dispatcher/src/shard_manager.rs:3901-4021 | a self-heal leaves nothing pending, truncates only bytes the shard holds, and restores the document exactly when the artifact is the shard's bytes if and only if the truncate is due |
| `ShardRoll.UngatedWriteDoubles` | crates/factory-dispatcher/src/shard_manager.rs:3901-4021 | a write let through between seal and truncate leaves the sealed bytes twice after self-heal |
| `ShardRoll.WriteInsideRollIsLost` | crates/factory-dispatcher/src/shard_manager.rs:3512-3590 | a write let through between seal and truncate is lost when the roll goes on |
| `ShardRoll.ShardStore.ExecuteRoll` | crates/factory-dispatcher/src/shard_manager.rs:3512-3590 | the result for every fate of the file operations, the files after each, and that it is a run of the machine whatever fails |
| `ShardRoll.ShardStore.PublishSealedShard` | crates/factory-dispatcher/src/shard_manager.rs:3143-3210 | a shard that is there is refused and kept, an empty one replaced; it succeeds exactly if none is there and the write works |
| `ShardRoll.ShardStore.TruncateAndPublish` | crates/factory-dispatcher/src/shard_manager.rs:3420-3492 | the last two steps, and the files if one fails |
| `ShardRoll.ShardStore.SelfHeal` | crates/factory-dispatcher/src/shard_manager.rs:3865-4158 | if it succeeds the files are the healed ones; if it fails they are those of a run cut short, unchanged if the probe or the comparison is what failed |
| `ShardRaces.RunKeepsInv` | crates/factory-dispatcher/src/shard_manager.rs:3512-3590 | with any number of dispatchers, at every point of every interleaving the shards are numbered without gap, none is empty, and each index row names one with its size |
| `ShardRaces.RunKeepsSealed` | crates/factory-dispatcher/src/shard_manager.rs:3094-3097 | no sealed shard is ever changed or lost |
| `ShardRaces.OnDiskIsDocumentIff` | crates/factory-dispatcher/src/shard_manager.rs:3512-3590 | shards and artifact hold every byte once exactly when no truncate is due |
| `ShardRaces.OthersKeepDocument` | crates/factory-dispatcher/src/shard_manager.rs:3865-4158 | reads, seals, index updates, crashes and scans neither lose nor double a byte |
| `ShardRaces.TruncateKeepsIff` | crates/factory-dispatcher/src/shard_manager.rs:3420-3438 | a truncate keeps every byte exactly when the artifact and the shards after it hold the shard's bytes if they are due, and nothing if they are not |
| `ShardRaces.KeepsIff` | crates/factory-dispatcher/src/shard_manager.rs:3901-3984 | if no later shard was truncated first, that is: the artifact is the shard's bytes if they are due, and empty if not |
| `ShardRaces.Origin` | crates/factory-dispatcher/src/shard_manager.rs:3512-3563 | every sealed shard holds the artifact as one roll read it before it sealed the shard |
| `ShardRaces.TruncateKeepsIffWindow` | crates/factory-dispatcher/src/shard_manager.rs:3901-4021 | a truncate, by the roll or by anyone's self-heal, keeps every byte if and only if the last change to the artifact since the roll that made the shard read it, if any, left what may be truncated |
| `ShardRaces.DocumentKeptIff` | crates/factory-dispatcher/src/shard_manager.rs:3512-3590 | over any interleaving, rolls and self-heals lose and double nothing if and only if that holds of every truncate |
| `ShardRaces.DocumentKeptUnderLock` | crates/factory-dispatcher/src/shard_manager.rs:3512-3590 | nothing is lost or doubled while no change lands between a roll's read and the truncate of its shard |
| `ShardRaces.FirstTakesSecondsWrite` | crates/factory-dispatcher/src/shard_manager.rs:3865-3885 | one dispatcher seals, another's self-heal finishes the roll and lets its agent write, then the first truncates that write away |
| `ShardRaces.RowStaysIff` | crates/factory-dispatcher/src/shard_manager.rs:3440-3490 | a row stays in the index through a publish exactly when it was there when the publisher read the index, or is its own |
| `ShardRaces.RowsKeptUnderLock` | crates/factory-dispatcher/src/shard_manager.rs:3440-3490 | no row is lost while no other publish lands between a publisher's read and its publish |
| `ShardReclaim.SealsStayIffQuiet` | crates/factory-dispatcher/src/shard_manager.rs:3143-3275 | however many publishers race over one name, no shard is lost if and only if none is sealed between a publisher's last look at an empty file and its unlink |
| `ShardReclaim.SealsStayIffTruthful` | crates/factory-dispatcher/src/shard_manager.rs:3143-3275 | no shard is lost if and only if every publisher told that its shard is published finds its bytes there |
| `ShardReclaim.OnePublished` | crates/factory-dispatcher/src/shard_manager.rs:3143-3275 | then at most one publisher is told so |
| `ShardReclaim.NoEmptyNoLoss` | crates/factory-dispatcher/src/shard_manager.rs:3094-3097 | while nobody puts an empty file at the name, every interleaving keeps every shard |
| `ShardReclaim.FirstTakesSecondsShard` | crates/factory-dispatcher/src/shard_manager.rs:3230-3275 | two publishers see one empty file, the second replaces it, the first unlinks the second's shard, and both are told that theirs is published |

## Left out

- Wasmtime, WASI, fuel and epochs: a plugin's result is an arbitrary input.
- The shard gate's verdict, the resolver loader and the host functions' capability checks: their answers are arbitrary inputs of the dispatch.
- Of the shard manager: when the gate fires, retention and archiving, the backfill split, the item-count shape, an index lost or edited by hand, and the 32-bit limit of shard numbers.
- `ShardRaces.DocumentKeptIff`: nobody puts an empty file at a shard's name; `ShardReclaim` has that race for one name, and `ShardRoll` the replacement without a race. A scan may take in any sealed shard, where the code takes those its listing missed.
- `Quarantine.QuarantineSafety`: the reads and the file call of one clear are one step there; `QuarantineRaces` takes them apart and gives the exact condition.
- `ShardRoll.GatedRunKeepsDocument`: one dispatcher at a time; with several the gate is not enough, and `ShardRaces` gives the exact condition.
- JSON, TOML and RFC 3339 encodings: markers, events and times are values; only newline framing is modelled as bytes.
- Regular expressions, and the Unicode table behind `is_alphanumeric`: parameters.
- Lost or torn audit appends, an unreadable or hand-edited marker file, plugin-emitted events that use the marker event names, and the mount gate on the audit log: outside the agreement model.
- The clock within one marker step: the code reads it more than once, the model once, except that the native check has its own reading.
- `MarkerWriters.RunKeepsInv`: starts with no file under the writers' temp names; a leftover of an earlier process with the same pid and nonce is not modelled.
- `PluginCache.FreshIffMtimesTell`: a read returns one whole version; a read that overlaps a rewrite and mixes two is not modelled.
- Tokio scheduling beyond tasks finishing in any order; the drain window's length.
- Elapsed times, fuel figures, versions, stderr and message texts in outcomes and events; a block reason is its kind, the plugin's own text or the marker fields read for it, and its wording is a parameter.
- Exit codes when the engine cannot be built or the registry cannot be read.
- A plugin that exports no memory: every host call that needs it fails before the modelled steps.
- `GuestMemory.DeliverContents`: asks for disjoint out-params that do not lie on the body, as the plugin library passes them; for others only code and bounds are stated.
- The hash function of deduplication: a hash is an arbitrary number per event.
- Log pruning, the log-directory walk, git context injection, environment gathering, the stderr relay, the debug sink and the thin wrappers around them: easy members.
