# Verification of the fn-cloudsync engine

A Dafny model of the synchronisation engine of fn-cloudsync, a single-node WebDAV sync controller,
with proofs of what a sync run, a queue of retried actions and their supporting pieces guarantee.
`dafny verify dfyconfig.toml` checks the whole project.

## What is modelled

Two file trees, one local and one on a WebDAV server, are maps from relative paths (sequences of
names) to directories and file bodies. A file index keeps one row per path. A sync task has a
direction, a delete policy (mirror or not) and a conflict policy.

- `Trees.dfy`, `Actions.dfy`: the trees, the file operations of both sides, the eleven actions, the
  executor `Apply` for one action (internal/sync/planner.go:48-93), `Run` for a list that stops at the
  first failure and `Perform` for one that does not.
- `Planner.dfy`, `PlanLoops.dfy`: what a plan is (`Decide`, `BidirectionalPlan`, `UploadPlan`,
  `DownloadPlan`), and the planning loops that produce one. A Go map iteration is a loop that takes an
  arbitrary remaining key, so the results hold for every iteration order.
- `Detection.dfy`, `Readability.dfy`: move detection as visits of paths in any order, and exactly when it
  fails over a directory it cannot read.
- `Settling.dfy`: why order hardly matters. Fix the trees before a run and the trees it should end
  with; if every action changes paths to their final values only, any order works.
- `Convergence.dfy`, `Conditions.dfy`, `OneWay.dfy`, `KeepBoth.dfy`, `UsedNames.dfy`, `Stability.dfy`: the
  theorems about runs, and their conditions restated on what the planner is given.
- `ThreeWay.dfy`: what such a run makes of two edited trees, path by path: a three-way merge over what the
  index knows both sides to have had, and renames followed.
- `ConflictNames.dfy`: the names of conflict copies, as text.
- `FileIndex.dfy`: the index with its two writers, `WriteResult` after a queued action and
  `WriteSnapshot` after a baseline run, and histories of writes.
- `Runner.dfy`: both trees and the index as an object, with the executor, the two index writers and
  the three baseline runs as methods.
- `Text.dfy`, `Timestamps.dfy`, `OperationQueue.dfy`: text comparison, the RFC 3339 text of a time
  (calendar included), the queue table and its listings.
- `Execution.dfy`, `Drain.dfy`, `FreshQueue.dfy`: one attempt at a queue item, the drain of a sync task's
  items, enqueueing a plan and the order in which its listing drains it.
- `Retries.dfy`, `Risks.dfy`: attempts at a plan's actions in any interleaving, with any faults, and what a
  reported success is worth.
- `Service.dfy`, `Failures.dfy`, `Scheduler.dfy`, `AtLeastOnce.dfy`: the task service's drivers, failure
  records and their retry, the scheduler's tick, and whole runs of drains, ticks and manual retries.
- `Replans.dfy`, `Redelivery.dfy`, `Losses.dfy`: what the plans of later drains add to a first plan that is
  half done, whole runs in which every drain plans again, and two ways to lose a file in two drains.
- `Bases.dfy`: what a plan that went through the queue leaves for the next one to merge over.
- `PathText.dfy`, `RemoteWalk.dfy`, `Watcher.dfy`: path texts, the remote snapshot, the local watcher.
- `Examples.dfy`, `QueueExamples.dfy`: concrete inputs that show a condition is needed.

## Main results

- `Convergence.ConvergesExactly`: under `prefer_local` and `prefer_remote`, for all trees, any index,
  any plan, any execution order and any repetition of actions (a local move excepted), a planned
  bidirectional run succeeds with two equal trees if and only if (1) no path is a file on one side and
  a directory on the other, (2) nothing is kept below a remotely deleted directory, and (3) no move out
  of a remotely deleted directory first happens after that delete. The code checks none of the three.
- `Readability.ReadableExactly`: there is a fourth way to fail, before any action: move detection stops
  with an error over a local directory that the index calls clean and the remote lacks, while the moves
  leave a remote file over. With such a directory it never fails, in any order of visits, if and only if
  every remote-only file has a clean row and at least as many equal local-only files as it has equals; and
  it always fails if and only if some body has more remote-only than local-only files, or more remote-only
  files with an unclean row than local-only files with a clean one. On all other inputs some order fails
  and some order does not (`Examples.UnreadableDirectory`, `RenameBesideUnreadable`, `OrderDecides`).
- `Conditions.NothingKeptExactly`, `Conditions.NothingKeptByInputs`: condition (2) on the inputs. Below a
  remote directory that is to be deleted every entry is to be deleted, and no local move ends there. Only a
  row marked as a conflict can make one end there, and a baseline run leaves none.
  `Runner.BaselineRunner.BidirectionalOnce` puts (1), (2) and planning together for a baseline run, in
  whose order (3) always holds.
- `Redelivery.RedeliveryReachesTarget`: through the retry queue, where everything that plans plans again.
  From the drain that enqueues a plan on, in any run of drains with whatever they plan, ticks whose items may
  run the sync task too, manual retries and other sync tasks' drains, with any faults: once that plan's rows
  have succeeded, both sides are its target. It asks for a prefer policy, (1) and (2); that no delete was
  performed before a planned move out of the directory it deletes, which is (3) and holds in every order
  where no planned delete lies above a move's source (`Redelivery.RedeliveryInAnyOrder`); that no file can be
  joined with two others (`QueueExamples.AmbiguousMoves` shows why); that nothing of the sync task was waiting
  before; and that the risks of the lossy success below are harmless. `Replans.PlannedAgainIsAllowed` is the
  heart of it: a later plan holds nothing but actions of the first one and the remote side of directories
  that were just made locally (`QueueExamples.SecondPlanAddsDir`).
- `Risks.RisksExactly`: when the risks are harmless. In a setting with (1) and (2), every interleaving of
  attempts that reports each planned action as a success, and performs no move late, ends in equal trees if
  and only if every path that the plan is to change can be changed by an action that is not at risk. It is so
  where only remote directories are at risk that exist already (`Risks.IdleIsHarmless`): the planner asks for
  every local directory on the remote, also for those long in sync, and skipping that loses nothing.
- `Convergence.DeliveredConvergesExactly`, `Risks.ReportedConvergeExactly`,
  `AtLeastOnce.DeliveryConvergesExactly`: the equivalence with (1), (2) and (3) even where some of the plan is
  never performed, as long as what took effect could change every path that is to change; hence for any
  interleaving of attempts at one plan's actions, and for runs whose queue attempts nothing else for the sync
  task, the risks being harmless.
- `Losses.KeptFileIsLost`: what breaking (2) costs. A file that is new on the remote below a directory that
  was deleted locally is downloaded by one drain, deleted by the next, and then on neither side, unless the
  remote has an equal file that the local side lacks.
- `Losses.LateMoveLosesFile`: what breaking (3) costs. A remote move that comes after the delete of its source
  is reported as a success and its row written as synced, so the next plan deletes the local file, which is
  the last one unless the remote has an equal file elsewhere.
- `Retries.TruthfulExactly`: a success can be reported for an action that never took effect, exactly if
  its index row already looks like its result before the run, or it is one half of a keep_both pair.
  `QueueExamples.EditedFileNotUploaded` is the everyday case: a synced file is edited, its upload fails
  once, and the retry is skipped as done.
- `FreshQueue.FreshPlanConvergesExactly`, `FreshQueue.ListingOrderExactly`: through a freshly filled queue
  (3) becomes a comparison of the plan's indexes as texts. It holds for up to ten actions and can fail
  from eleven on: `QueueExamples.LongPlanDiverges`. One-way plans need neither (2) nor (3).
- `OneWay.UploadExactly`, `OneWay.DownloadExactly`: one-way runs need (1) alone.
- `ThreeWay.LaterRunMerges`: what two baseline runs with edits in between come to, in terms of the trees. If the first ended with two equal trees, the second does so if and only if no path clashes and, with
  mirror, nothing is new on the remote below a directory that was removed locally; and then it has merged the
  two edited trees over the tree of the first run. With mirror, what only one side still has is gone if both
  had it, directories that the local side has excepted; all else is kept, under either prefer policy. Moves
  change nothing about that, except where each side has removed the other's copy of a file, which then stays.
  `ThreeWay.RemovalFollowed` spells out what becomes of a removal.
- `ThreeWay.FinalIsMerge`: the same for any index and every policy, on the tree a run is to leave: it is the
  merge over the paths the index knows. With the results above this holds for runs through the queue too.
- `ThreeWay.RenameFollowed`, `ThreeWay.RenameDetected`: a file that one side renamed is renamed on the other, in
  every plan, if no other file that only one side has is equal.
- `Bases.QueueKnowsExactly`: the queue writes only the rows of its actions. Once a plan was written back, the
  index knows exactly the tree that both sides have, if and only if it did so before for the paths that
  needed nothing. If not, the next merge goes wrong: a path that both sides have removed stays known, and a new
  file that one side puts there later is deleted (`Bases.NewFileAtRemovedPath`, `QueueExamples.NewFileDeleted`);
  a file that both sides got alike stays unknown, and comes back when one side removes it
  (`Bases.RemovedFileComesBack`). A baseline run has neither fault.
- `Execution.SkipsExactly`, `Execution.SkipsAfterBaseline`: when the guard skips a retry, by what the index writer
  would change, and by the trees of the last baseline run.
- `Settling.RunSettles`, `Settling.PerformSettles`: the order-insensitivity theorems behind them.
- `Stability.StableAfterOneRun`: after one run that ended with equal trees the index is exact and no
  later run changes a tree.
- `UsedNames.KeepBothExactly`, `ConflictNames.ConflictNameInjective`, `FileIndex.ConflictNamesNotReused`:
  without mirror, and where no path clashes, no order of a keep_both plan loses a version if and only if
  every conflict name that is in use holds the very bytes that are copied there and is not moved away.
- `Scheduler.AtMostTenProcessings`: the scheduler's queue half processes an item at most ten times, with
  any drains, of this sync task and of others, and any manual retries in between, and with items that run the
  sync task within a tick. Drains have no such limit: `QueueExamples.StuckForever` is a run on two equal trees
  in which a local rename whose index write failed leaves an item that every drain attempts again, for as
  long as the sync task runs (a degraded sync task is due at every tick).
- `Failures.MatchesExactly`, `Failures.OwnItemRetried`: retrying a failure record re-queues the failed item
  itself, except after a failed local delete or a failed keep_both upload.
- `Timestamps.FormatOrder`, `Timestamps.FormatReads`: where text order is time order, exactly, and what each
  part of the text stands for.
- `Watcher.Watcher.HandleEvent`: an event triggers every sync task it concerns whose triggers are all at least
  the debounce ago, and triggers of one sync task are never closer than that.

## Assumptions

- Trees are snapshots: prefix-closed, without an entry for the root. Nothing else edits them during a run.
- The server accepts `PUT` and `MOVE` to a place whose parent does not exist yet, deletes collections
  recursively (section 9.6.1 of RFC 4918), refuses to put a file where a directory is or below a file,
  and answers `MKCOL` on an existing entry without changing it. The client reports a refused request as
  a success (internal/connector/webdav/client.go:236-314), and so does the model.
- The body a `GET` on a collection yields never equals a local file. Reading a local directory is an
  error, as in `os.ReadFile`, and makes planning fail.
- Listings show directories without a trailing slash.
- A run of the queue keeps one sync task's trees; items of other tasks are attempted elsewhere, and only
  their outcome is given.
- The repository's own README lists move detection as not implemented; the code has it, and the model
  follows the code.

## Model

| member | source | states |
|---|---|---|
| Settling.StepSettles | internal/sync/planner.go:48-93 | one executor step that is sound for given final trees changes paths to their final values only and makes its own targets final; it fails exactly if it is a local move that was carried out before |
| Settling.OccurrenceTakesEffect | internal/sync/planner.go:48-93 | in any ordering of sound actions each occurrence succeeds, of a local move the first |
| Settling.PerformSettles | internal/sync/planner.go:48-93 | sound actions that reach every changed path end exactly in the final trees, in any order, with repetitions, and whatever failures on the way are passed over |
| Settling.RunSettles | internal/sync/planner.go:48-93 | the same for a run that stops at the first failure, no local move being repeated; the run succeeds |
| Settling.LateMoveIsLost | internal/sync/planner.go:71-85 | a remote move first executed after a delete of a directory above its source never creates its destination |
| Actions.RunIsPerform | internal/sync/planner.go:48-93 | a run succeeds exactly if every action succeeds where it stands, and has then done what passing over failures does |
| Actions.LocalChange | internal/sync/planner.go:50-81 | the only ways an action can change a local path; a directory never becomes a file nor the reverse |
| Actions.RemoteChange | internal/sync/planner.go:55-85 | the same for the remote side |
| Actions.LocalStaysClosed | internal/sync/planner.go:48-93 | performing any actions in any order, failures included, leaves the local side the snapshot of a real tree |
| Actions.NothingPutBelowFile | internal/connector/webdav/client.go:236-314 | no transfer or move puts anything below a remote file |
| Trees.MkcolMakesDirs | internal/connector/webdav/client.go:236-259 | the segment-by-segment MKCOL creates exactly the missing parents when no file is in the way |
| Convergence.PlannedBecause | internal/sync/planner.go:425-540 | what each planned action implies about its path on both sides, the index and the policy |
| Convergence.PlannedFor | internal/sync/planner.go:425-540 | what is planned for a path that no move consumes and that differs between the sides |
| Convergence.GoneExactly | internal/sync/planner.go:442-447 | a run takes away exactly the move sources and, with mirror and whatever the policy, the unmoved paths that one side lacks and whose row has both existence flags and no tombstone, of local entries only files |
| Convergence.DeletesExactly | internal/sync/baseline_runner.go:422-436 | which deletes a plan holds for an unmoved path, by the columns of its row, and which it does not |
| Convergence.ParentsKept | internal/sync/planner.go:419-541 | the directories above a kept path are kept, when nothing is kept below a remotely deleted directory |
| Convergence.RunReachesFinal | internal/sync/planner.go:419-541 | under any conflict policy every schedule of a plan ends in the same explicitly given pair of trees |
| Convergence.PerformReachesFinal | internal/sync/planner.go:419-541 | so does performing the planned actions any number of times each with failures passed over, and each takes effect |
| Convergence.ConvergesIf | internal/sync/planner.go:419-541 | under a prefer policy both sides end in the merged tree, deletes, moves and conflicts included, whether failures stop the run or not |
| Convergence.ClashPersists | internal/sync/planner.go:458-460 | a file-against-directory clash survives every run |
| Convergence.KeptUnderDeleteDiverges | internal/sync/planner.go:515-538 | something kept below a remotely deleted directory ends on one side only, once the directory was deleted and the entry brought over |
| Convergence.LateMoveDiverges | internal/sync/planner.go:573-583 | a late move out of a deleted directory leaves the file on the local side only |
| Convergence.PerformConvergesExactly | internal/sync/planner.go:419-541 | failures passed over: every planned action took effect and the trees are equal, if and only if the three conditions hold |
| Convergence.DeliveredConvergesExactly | internal/sync/planner.go:419-541 | even where part of the plan is never performed: as long as what took effect could change every path that is to change, the trees are equal if and only if the three conditions hold |
| Convergence.ConvergesExactly | internal/sync/planner.go:419-541 | for every plan, order and repetition: success with equal trees if and only if the three conditions hold |
| Conditions.NothingKeptExactly | internal/sync/planner.go:442-447 | nothing is kept below a remotely deleted directory exactly if below every remote directory that is to go all entries are to go and no local move ends there |
| Conditions.NothingKeptByInputs | internal/sync/planner.go:556-631 | with sound rows and none marked as a conflict the first of these decides alone, since a remote file with a clean row moves itself |
| Conditions.SnapshotHasNoConflicts | internal/sync/baseline_runner.go:285-340 | a baseline run leaves such rows |
| Examples.NewFileInDeletedDir | internal/sync/planner.go:515-522 | a file added remotely in a directory deleted locally: no order converges |
| Examples.MoveIntoDeletedDir | internal/sync/planner.go:588-625 | a rename undone into a directory that goes, over a row marked as a conflict: the clause about local moves is needed |
| Examples.UnreadableDirectory | internal/sync/planner.go:588-613 | a synced directory removed remotely next to one new remote file: all three conditions hold and planning fails in every order |
| Examples.RenameBesideUnreadable | internal/sync/planner.go:556-586 | the same next to a file renamed locally: planning never fails |
| Examples.OrderDecides | internal/sync/planner.go:588-613 | the same next to a file renamed remotely: one order of visits fails and one does not |
| QueueExamples.LongPlanDiverges | internal/app/task_service.go:633-680 | ten files moved out of a directory that was removed: the plan of eleven actions converges in its own order and never through the queue |
| QueueExamples.EditedFileNotUploaded | internal/app/task_service.go:994-1010 | the upload of an edited file fails once, its retry is reported as a success, and the sides still differ |
| QueueExamples.StuckForever | internal/app/task_service.go:656-680 | a local move that took effect while its index write failed: from then on the trees are equal, every plan is empty, and every drain attempts the item again, its attempts growing without limit |
| QueueExamples.SecondPlanAddsDir | internal/app/task_service.go:626 | once a new remote directory has been made locally, every new plan makes it on the remote too, which the first plan did not |
| QueueExamples.AmbiguousMoves | internal/sync/planner.go:571-585 | two equal files renamed: two plans pair them differently, and performing both leaves one file on the remote and two on the local side |
| QueueExamples.OlderCopyPutsBack | internal/scheduler/scheduler.go:102-132 | within one tick a row that has succeeded can be put back: an item runs the sync task, which ends the row, and the tick then attempts its own older copy |
| QueueExamples.NewFileDeleted | internal/sync/planner.go:442-447 | a path in sync that both sides remove, through the queue: nothing to plan, and a new local file there is all that every later plan deletes |
| Examples.LaterButTextEarlier | internal/store/sqlite/operation_queue_repository.go:146 | a full second is text-later than half a second past it |
| Examples.UsedConflictName | internal/sync/planner.go:486-488 | a conflict name that is in use for another body: the run overwrites a version |
| OneWay.UploadExactly | internal/sync/planner.go:272-308 | any sequence with exactly the planned uploads, repetitions included, leaves the local side alone and makes the remote the local tree (mirror) or the overlay, if and only if no path clashes |
| OneWay.DownloadExactly | internal/sync/planner.go:310-346 | the same for downloads |
| OneWay.UploadPlansExactly | internal/sync/planner.go:272-308 | an upload plans every local directory and file and, with mirror, the delete of every entry that only the remote has, with its type, and nothing else |
| OneWay.DownloadPlansExactly | internal/sync/planner.go:310-346 | the same for downloads |
| KeepBoth.KeepBothLosesNothing | internal/sync/planner.go:485-505 | without mirror and with conflict names that are unused or hold the very bytes copied there, every body stays at its place on its side or where its move takes it, and both versions of each conflict end on both sides, in any order |
| UsedNames.KeepBothExactly | internal/sync/planner.go:485-505 | where no path clashes, no order of a keep_both plan without mirror loses anything if and only if every used conflict name holds the bytes copied there and is not moved away |
| KeepBoth.OneWriterPerPath | internal/sync/planner.go:424-541 | with unused conflict names no two planned actions write the same path on the same side |
| Stability.BaselineConvergesExactly | internal/sync/baseline_runner.go:122-143 | in the planner's own order convergence needs only the conditions on the inputs, and the clause about local moves only where a row is marked as a conflict |
| Stability.EqualTreesStay | internal/sync/planner.go:431-440 | on equal trees every later plan only re-creates existing remote directories and every later run changes nothing |
| Stability.StableAfterOneRun | internal/sync/baseline_runner.go:122-143 | after a run that ended with equal trees and its index write-back, all later runs keep both trees, and the index has both flags exactly for the present paths |
| Stability.PlannedAgainOnlyAfterRecovery | internal/sync/baseline_runner.go:422-436 | a path whose delete was written back is deleted or moved again only after a write put both flags back; a planned delete names a path the other side lacks |
| Stability.WrittenBackAgrees | internal/sync/planner.go:139-198 | with unused conflict names presence, type, conflict mark and state written back for a planned action agree with the final trees, except that after a delete the other side's flag is stale and only the tombstone tells; a move's source reads as never used |
| ThreeWay.FinalIsMerge | internal/sync/planner.go:424-541 | under every policy the tree a side is to end with is, conflict copies aside, the three-way merge over the paths whose rows say that both sides had them |
| ThreeWay.TargetIsMerge | internal/sync/planner.go:424-541 | the same for the common tree of a prefer policy |
| ThreeWay.MovesKeepTheMerge | internal/sync/planner.go:544-631 | with mirror and sound rows, moves change nothing about the merge but where a remote move ends at a path that was known too: its file stays |
| ThreeWay.RenameDetected | internal/sync/planner.go:556-627 | two equal files, one on each side only and without other equals, are joined by a move exactly if one of their rows is beyond doubt, by a remote move exactly if the remote one is |
| ThreeWay.LaterRunMerges | internal/sync/baseline_runner.go:122-143 | after a run that ended with equal trees and any edits, the next one ends so exactly under two conditions on the three trees, and has then merged the edits over the tree of the first run |
| ThreeWay.RemovalFollowed | internal/sync/baseline_runner.go:422-436 | with mirror a path of the first run that one side removed is gone from both after the second, unless a move ends there or it is a directory only the local side kept; without mirror it is back on both |
| ThreeWay.RenameFollowed | internal/sync/planner.go:556-627 | a file of the first run that one side renamed is, after the second, at its new place on both sides and at the old one on neither |
| Bases.RowWrittenExactly | internal/sync/planner.go:424-541 | a plan has rows to write for exactly the paths that differ between the sides and the local directories |
| Bases.WrittenKnown | internal/sync/planner.go:95-137 | once every action of a plan was written back, in any interleaving, a path with such a row is known exactly if both sides are to have it |
| Bases.QueueKnowsExactly | internal/app/task_service.go:621-681 | the index then knows exactly the common tree, if and only if before it knew every file that both sides had alike and nothing that neither had |
| Bases.NewFileAtRemovedPath | internal/sync/planner.go:442-447 | a known path that both sides removed stays known through a drain, and with mirror every later plan deletes a new file that one side has there, unless a move joins it |
| Bases.RemovedFileComesBack | internal/sync/planner.go:448-456 | a file that both sides got alike stays unknown through a drain, and every later plan brings it back when one side removed it, unless a move joins it |
| ConflictNames.ConflictNameInjective | internal/sync/baseline_runner.go:410-420 | a conflict name determines the original name, the side and the version |
| ConflictNames.ConflictNameFresh | internal/sync/baseline_runner.go:410-420 | a conflict name differs from the original name |
| ConflictNames.NamedWithExtension | internal/sync/baseline_runner.go:410-420 | the stamp stands before the extension, names the side the version is from, and carries the version, at least 1 |
| ConflictNames.NamedWithoutExtension | internal/sync/baseline_runner.go:410-420 | without an extension the stamp stands last |
| ConflictNames.ConflictNameIsPerComponent | internal/sync/baseline_runner.go:410-420 | only the last path component is renamed |
| ConflictNames.CopyPathInjective | internal/sync/baseline_runner.go:410-420 | the same injectivity on tree paths |
| FileIndex.WriteEffect | internal/sync/planner.go:117-137 | a write raises the version of exactly the rows it touches |
| FileIndex.ReplayKeepsOk | internal/sync/planner.go:198-199 | after any history of both writers the state column follows from the flags, and a tombstone excludes presence on both sides |
| FileIndex.SnapshotExact | internal/sync/baseline_runner.go:285-340 | after a baseline run presence, type and conflict mark are those of the two snapshots, no path lacks a row, the next plan may delete or move exactly what both sides have, and a tombstone marks exactly what was known and is now missing somewhere |
| FileIndex.SnapshotState | internal/sync/baseline_runner.go:285-340 | the state column tells apart what both sides have, what was lost somewhere, what one side has got since, and what was never there |
| FileIndex.DeleteThenRecover | internal/sync/planner.go:187-192 | between a written-back delete and the next permission to delete or move lies a write that restores both flags |
| FileIndex.MoveAlongWritten | internal/sync/planner.go:205-263 | wherever a file is moved and back, only its last place may be moved or deleted again, its other places read as never used, the last version has risen with every move, and no other row changed |
| FileIndex.VersionCountsWrites | internal/sync/planner.go:117-137 | a row's version counts its writes, over any history in which no move touches it |
| FileIndex.CopiesCarryNextVersion | internal/sync/planner.go:633-638 | the copies of a conflict carry the version its row has once the conflict is written back; those of a path without a row carry 1 |
| FileIndex.ConflictNamesNotReused | internal/sync/planner.go:633-638 | two conflict copies named in a sync task's life coincide only for the same path and side with no write to its row in between |
| Detection.DetectedIs | internal/sync/planner.go:544-631 | whatever orders the two loops visit their paths in, the moves are a matching, a success leaves no joinable pair free, and detection fails exactly over a clean local-only directory with a remote-only file the moves leave over |
| Readability.FirstLoopExactly | internal/sync/planner.go:556-586 | the first loop uses up every remote-only file, in every order, if and only if each has a clean row and at least as many equal local-only files as remote-only ones |
| Readability.ReadableExactly | internal/sync/planner.go:598-613 | on the inputs: when detection succeeds in every order of visits, and when it fails in every order, both if and only if |
| PlanLoops.FindLocal | internal/sync/planner.go:556-586 | finds an unused equal file that only the local side has, or there is none |
| PlanLoops.FindRemote | internal/sync/planner.go:598-627 | the remote counterpart; fails exactly over a local directory with a comparable remote file |
| PlanLoops.DetectRemoteMoves | internal/sync/planner.go:552-586 | the first loop on sets of used paths is a sequence of visits in some order, and uses up every remote-only file exactly under the condition on the inputs |
| PlanLoops.DetectMoves | internal/sync/planner.go:544-631 | both loops are visits in some order: a matching of equal files, one on each side only, with a clean index row at every source and at no end of a local move, that a success leaves maximal; fails exactly over a clean local-only directory with a remote-only file the moves leave over |
| PlanLoops.PlanBidirectional | internal/sync/planner.go:419-542 | the plan is the moves followed by the decision of every path no move consumes; planning fails exactly if the detection, in its order of visits, does, so always or never where the inputs decide |
| PlanLoops.PlanUpload | internal/sync/planner.go:272-308 | exactly the upload decisions of all paths |
| PlanLoops.PlanDownload | internal/sync/planner.go:310-346 | exactly the download decisions of all paths |
| PlanLoops.Plan | internal/sync/planner.go:14-46 | a plan of the sync task's direction without repetitions; only a bidirectional one can fail, where the inputs allow it to |
| Runner.BaselineRunner.ExecuteOne | internal/sync/planner.go:50-90 | performs the specified step on the live trees |
| Runner.BaselineRunner.ExecutePlan | internal/sync/planner.go:48-93 | performs the actions in order up to the first failure |
| Runner.BaselineRunner.WriteActionResult | internal/sync/planner.go:102-203 | the index after the write is the specified one, whose invariants are proved in FileIndex |
| Runner.BaselineRunner.PersistFileIndex | internal/sync/baseline_runner.go:264-342 | one row for every path of either snapshot or the old index, for every iteration order; what the rows say is FileIndex.SnapshotExact |
| Runner.BaselineRunner.ExecuteAction | internal/sync/planner.go:95-100 | the index is written exactly when the step succeeded |
| Runner.BaselineRunner.BidirectionalOnce | internal/sync/baseline_runner.go:122-143 | whether planning fails is an outcome of detection in some order of visits, fixed by the inputs where they decide; a failed plan changes nothing; with sound rows and none marked as a conflict, a run under a prefer policy succeeds with equal trees exactly if planning does not fail and the two conditions on the inputs hold; it has then merged the two trees over what the index knew, leaves such rows, and writes the index exactly on success |
| Runner.BaselineRunner.UploadOnce | internal/sync/baseline_runner.go:72-97 | reaches the upload target exactly when no path clashes |
| Runner.BaselineRunner.DownloadOnce | internal/sync/baseline_runner.go:99-120 | reaches the download target exactly when no path clashes |
| Execution.ApplyTwice | internal/sync/planner.go:48-93 | repeating an executed action changes neither tree, and only a local move then fails |
| Execution.ExecutedIsAbsorbed | internal/app/task_service.go:520-540 | the state right after an action was executed and written back is one in which further attempts at it are harmless |
| Execution.AttemptsHarmless | internal/app/task_service.go:520-540 | once executed and written back, any number of further attempts with any faults changes no tree and no flag |
| Execution.RepeatedMoveSucceeds | internal/app/task_service.go:994-1022 | a repeated move is reported succeeded by its second further attempt at the latest |
| Execution.GuardRecognisesResult | internal/app/task_service.go:994-1022 | the skip guard recognises the written-back result of every kind of action, on retries only |
| Execution.SkipsExactly | internal/app/task_service.go:994-1022 | on sound rows a retry is skipped exactly where writing the result back would change no flag of the row; for a delete none but the type, for a conflict half where the row is marked as a conflict, for a refresh wherever there is a row |
| Execution.SkipsAfterBaseline | internal/app/task_service.go:994-1022 | after a baseline run a retry is skipped exactly where both sides have a file, or an entry that is a directory somewhere; a delete where its side lacks the path and it was known; a conflict never |
| Execution.SecondHalfSkipped | internal/app/task_service.go:1015-1016 | the guard takes the first half of a keep_both pair for the second, whose failed upload is then never repeated |
| Execution.LostLocalMoveIsStuck | internal/app/task_service.go:994-1022 | a local move that took effect but was reported failed keeps failing |
| Drain.DrainStopsCleanly | internal/app/task_service.go:656-680 | every queued, pending or waiting action item succeeded, or there is a first failing one, waiting with one more attempt until the given time, with all earlier ones succeeded and all other rows unchanged |
| Drain.DrainIsRun | internal/app/task_service.go:656-680 | a drain of first attempts completes exactly if the run of the actions in list order succeeds and no fault befalls one, and has then done the same |
| FreshQueue.FreshQueueSchedule | internal/app/task_service.go:633-660 | with nothing left over the drained actions are a schedule of the new plan, each item a new one at attempt zero |
| FreshQueue.DrainedInTextOrder | internal/store/sqlite/operation_queue_repository.go:52 | item j of a plan is drained before item k exactly if j comes before k as a text |
| FreshQueue.ListingOrderExactly | internal/store/sqlite/operation_queue_repository.go:52 | no move is drained after a delete above its source exactly if the texts of the plan's indexes put none there |
| FreshQueue.TenActionsInOrder | internal/sync/planner.go:424 | up to ten actions keep the planner's order, in which moves come first |
| FreshQueue.FreshPlanConvergesExactly | internal/app/task_service.go:621-681 | planning, enqueueing and draining on a fresh queue completes with the trees the direction asks for exactly if no path clashes, no fault befalls an item and, for a bidirectional sync task, the conditions on the inputs and the text order hold |
| Drain.QueueConvergesExactly | internal/app/task_service.go:621-681 | the exact condition for convergence in one drain, with the listing's order and any faults |
| Retries.TriesPerform | internal/app/task_service.go:520-540 | any attempts with any faults leave the trees that performing the unskipped, unlost ones leaves |
| Retries.LandedIsEffect | internal/app/task_service.go:520-540 | an attempt succeeded on the trees exactly if the action did among the performed ones |
| Retries.RowsOwned | internal/sync/planner.go:117-200 | no index row is written by two planned actions, the halves of one conflict aside |
| Retries.RowUntilLanded | internal/sync/planner.go:95-137 | until an action takes effect its row stays as it was, whatever else of the plan is attempted |
| Retries.WrittenRowStays | internal/sync/planner.go:95-137 | once an action is written back its row's flags stay, whatever is attempted in between |
| Retries.LossySuccess | internal/app/task_service.go:994-1022 | an action whose row already looks like its result fails once without effect and is then reported as a success, still without effect |
| Retries.TruthfulExactly | internal/app/task_service.go:994-1022 | in every interleaving a reported success means the action took effect, if and only if it is no half of a conflict and its row did not look like its result beforehand |
| Retries.DeletesNotAtRisk | internal/sync/planner.go:442-447 | a planned delete never is at that risk |
| Retries.TriesConvergeExactly | internal/app/task_service.go:520-540 | attempts in any interleaving after which every planned action took effect: the trees are equal exactly under the three conditions, the third for the performed order |
| Risks.IdleIsHarmless | internal/sync/planner.go:431-440 | risks are harmless where only the re-creation of remote directories that exist already is at risk |
| Risks.ReportedConvergeExactly | internal/app/task_service.go:520-540 | the same when each planned action was once reported as a success and the risks are harmless |
| Risks.RisksExactly | internal/app/task_service.go:994-1022 | reported successes suffice for convergence, in every interleaving that performs no move late, if and only if every path the plan is to change can be changed by an action that is not at risk |
| AtLeastOnce.StepAccounts | internal/scheduler/scheduler.go:102-132 | every step is exactly its attempts at actions of the sync task's rows, and a row that ends well in it was reported as a success |
| AtLeastOnce.RunTried | internal/scheduler/scheduler.go:69-132 | the state after any run of drains, ticks and manual retries is that after its attempts, and a row that ended well was reported as a success |
| AtLeastOnce.DeliveryConvergesExactly | internal/app/task_service.go:621-681 | whatever drains, ticks, retries and faults follow, as long as the queue attempts nothing but the plan for the sync task: once every planned row has succeeded the trees are equal exactly under the three conditions |
| AtLeastOnce.EnqueuedPlanDelivers | internal/app/task_service.go:633-655 | the same from the drain that enqueues the plan, by the ids of its rows and with the conditions on the inputs |
| Replans.PermittedReachTarget | internal/sync/planner.go:48-93 | performing every planned action, and the remote side of kept directories as often as one likes, in any order that puts no move late, ends in the target on both sides |
| Replans.ChangedIsSettled | internal/sync/planner.go:95-137 | halfway through, wherever an index row has changed both sides of the path are already final |
| Replans.PlannedAgainIsAllowed | internal/sync/planner.go:419-542 | every action of a new plan halfway through, no move having come late, is one of the first plan or the remote side of a kept directory that the local side already has |
| Replans.AllReportedReachTarget | internal/app/task_service.go:994-1022 | once every planned action was reported as a success, the risks being harmless, both sides are the target |
| Redelivery.RedeliveryReachesTarget | internal/app/task_service.go:621-681 | from the drain that enqueues a plan, over any run of drains and ticks that plan again, manual retries and faults in which no move comes late: once the plan's rows have succeeded both sides are its target |
| Redelivery.RedeliveryInAnyOrder | internal/app/task_service.go:621-681 | the same in every order for plans in which no delete lies above a move's source |
| Losses.KeptFileIsExposed | internal/sync/planner.go:515-522 | after a drain that downloads a new file below a remotely deleted directory, the file is on the local side only and its row lets the next plan delete it |
| Losses.KeptFileIsLost | internal/sync/planner.go:442-447 | every plan of the next drain deletes that download, unless the remote has an equal file that only it has, and then the file is on neither side |
| Losses.LateMoveIsExposed | internal/sync/planner.go:573-583 | after a late remote move, reported as a success and written back, the file is on the local side only and its row lets the next plan delete it |
| Losses.LateMoveLosesFile | internal/sync/planner.go:442-447 | every next plan deletes that file, unless the remote has an equal file that only it has, and then the file is on neither side |
| Service.TaskService.ExecuteQueueOperation | internal/app/task_service.go:520-540 | one attempt on the live objects is the specified attempt |
| Service.TaskService.EnqueuePlan | internal/app/task_service.go:633-655 | adds one row per action and nothing else, or an id was taken; every added row is unattempted, of plain priority, and due at every time |
| Service.TaskService.DrainQueue | internal/app/task_service.go:660-680 | the drain on the live objects is the specified drain |
| Service.TaskService.ExecutePlannedActions | internal/app/task_service.go:621-681 | plans in the sync task's direction, enqueues and drains; on a fresh queue it completes with the trees the direction asks for exactly under those conditions; an error drains nothing, and every row it adds carries an action of a plan for the trees at hand |
| Service.TaskService.RetryFailureByID | internal/app/task_service.go:240-281 | refuses the record of another sync task; otherwise re-queues exactly the stuck items of this one that match, which are then due at every time with their attempts kept, counts them, and resolves the record if there are any |
| Failures.MatchesExactly | internal/app/task_service.go:881-892 | a record of a path matches exactly the stuck items of its type, local deletes excepted, whose full remote path ends with it component by component |
| Failures.OwnItemRetried | internal/app/task_service.go:780-797 | the record of a failed action matches its own item, unless it is a local delete or the upload half of a keep_both pair |
| Failures.TypeNamesDiffer | internal/app/task_service.go:885 | the type names tell the types of actions apart, and from a request to run the sync task |
| Failures.PathlessRecords | internal/app/task_service.go:785-788 | a record without a path matches every stuck item of its type, and the record of an action on the root its own |
| OperationQueue.OperationQueueTable.Enqueue | internal/store/sqlite/operation_queue_repository.go:21-44 | inserts, an unset or pending status as queued, or refuses a taken id |
| OperationQueue.OperationQueueTable.RescheduleItem | internal/store/sqlite/operation_queue_repository.go:166-190 | updates the retry columns of one row only |
| OperationQueue.ResetMakesDue | internal/store/sqlite/operation_queue_repository.go:192-206 | every stuck row of the sync task is due at once, attempts kept, none of its rows is stuck any more, and no other row changes |
| OperationQueue.ResetOnce | internal/store/sqlite/operation_queue_repository.go:192-206 | it is the retry of exactly the rows of one sync task, and a second one changes nothing |
| OperationQueue.OperationQueueTable.ListByTaskID | internal/store/sqlite/operation_queue_repository.go:46-89 | exactly the sync task's rows, in creation and id order as text |
| OperationQueue.OperationQueueTable.ListDue | internal/store/sqlite/operation_queue_repository.go:137-164 | the due rows by priority, creation and id, rows being left out only at the limit and only from the end |
| OperationQueue.DueBySecond | internal/store/sqlite/operation_queue_repository.go:146-149 | no row due in a later second is due by text, every live row due in an earlier second is, and within a second the test errs exactly when one fraction extends the other |
| Timestamps.DatesRise | internal/store/sqlite/task_runtime_repository.go:101-106 | calendar dates rise with the day count, leap years included |
| Timestamps.DateIsGregorian | internal/store/sqlite/task_runtime_repository.go:101-106 | the date of a day count is the Gregorian one, by the closed formula for days since the epoch |
| Timestamps.SecondOrder | internal/store/sqlite/task_runtime_repository.go:101-106 | texts up to the second order like times |
| Timestamps.FormatOrder | internal/store/sqlite/task_runtime_repository.go:101-106 | text order is time order except exactly where two times share a second and one fraction extends the other, where it is reversed |
| Timestamps.FormatReads | internal/store/sqlite/task_runtime_repository.go:101-106 | the text has the form of section 5.6 of RFC 3339, and its parts read as the date, the time of day and the nanoseconds they stand for |
| Scheduler.BackoffBounds | internal/scheduler/scheduler.go:171-180 | the delay never shrinks and stays within 1 to 256 seconds, so the cap is never reached |
| Scheduler.TickProgress | internal/scheduler/scheduler.go:102-132 | in a tick in which no item runs a sync task, every processed item becomes terminal or stays live below ten with one more attempt, only its retry columns change, and no other row does |
| Scheduler.TickWears | internal/scheduler/scheduler.go:102-132 | in any tick, items that run their sync task included, each processing uses up some of what remains of an item, nothing gives any back, and a row changes only if it was live when the tick began |
| Scheduler.DrainKeepsRemaining | internal/app/task_service.go:656-680 | a drain gives no item any of the queue half's processings back |
| Scheduler.FinishedStays | internal/store/sqlite/operation_queue_repository.go:91-108 | a row that is succeeded or failed between two steps is never changed again by a drain of this or another sync task, a tick (with items that run a sync task) or a manual retry; within one tick older copies can put a row back |
| Scheduler.UnattemptedHere | internal/scheduler/scheduler.go:110-131 | an item whose sync task cannot be resolved is never taken for a success: it costs an attempt and nothing else; one of another sync task ends well exactly if it did there |
| Scheduler.ProcessingsUseRemaining | internal/scheduler/scheduler.go:102-132 | over any run of drains of this and other sync tasks, ticks (with items that run a sync task) and manual retries the processings of an item by queue halves plus what remains never exceed what remained at the start |
| Scheduler.AtMostTenProcessings | internal/scheduler/scheduler.go:121-123 | the queue half never processes an item more than ten times, and one that it does has ended; drains are not bounded |
| Scheduler.FailedRowStep | internal/scheduler/scheduler.go:117-127 | each failing attempt takes a row to the next of the ten rows, with the delay the backoff gives |
| Scheduler.DelaysAddUp | internal/scheduler/scheduler.go:119-127 | the first k delays add up to one second less than the next power of two |
| Scheduler.NineDelays | internal/scheduler/scheduler.go:119-127 | the nine delays before giving up add up to 511 seconds |
| Scheduler.TickOne | internal/scheduler/scheduler.go:110-131 | one due item on the live objects: attempted, or running the sync task it asks for, which counts as a success only where a plan was enqueued |
| Scheduler.TickQueue | internal/scheduler/scheduler.go:102-132 | the queue half of a tick on the live objects, over at most 64 due items; a baseline_sync row of the sync task runs it, and what it queues is planned for what it finds |
| Scheduler.TickTask | internal/scheduler/scheduler.go:81-99 | a tick's drain of one sync task is a drain step that queues planned actions only; a drain that a failure stopped counts as executed; after a failed plan a baseline_sync row stands under the failure's id, unless the id was taken, no other row but the plan's is added, and all of these are unattempted and due at every time |
| Scheduler.TickFirst | internal/scheduler/scheduler.go:81-99 | the first half of a tick for one sync task: it counts as executed unless its run failed, and then the rows that ask again are there |
| Scheduler.TickBoth | internal/scheduler/scheduler.go:69-132 | a tick on the live objects is the sync task's drain, if it is to run, followed by the queue half: a run of such steps |
| PathText.JoinInjective | internal/sync/baseline_runner.go:160-164 | different relative paths have different texts |
| PathText.RelativeUndoesJoin | internal/sync/baseline_runner.go:392-399 | stripping the root undoes joining exactly for roots with at most one trailing slash or nothing but slashes |
| RemoteWalk.WalkRemote | internal/sync/baseline_runner.go:153-173 | terminates and collects all strict descendants and nothing foreign |
| RemoteWalk.SnapshotRemote | internal/sync/baseline_runner.go:145-151 | holds exactly the served tree |
| Watcher.WithinIsComponentwise | internal/watcher/watcher.go:174-180 | on clean absolute paths within a root means a component-wise prefix |
| Watcher.DueWhenQuiet | internal/watcher/watcher.go:149-158 | a sync task whose logged triggers are all at least the debounce ago is due, as is one never triggered |
| Watcher.Watcher.Reconcile | internal/watcher/watcher.go:89-124 | the watch set afterwards, exactly, and the sync task each directory and each root stands for; it equals the backend's if it did before; every watched directory lies in an active root |
| Watcher.Watcher.HandleEvent | internal/watcher/watcher.go:126-158 | logs a trigger for exactly the concerned sync tasks that are due, which are at least those that have been quiet for the debounce; what is remembered of each is its last logged trigger, and triggers of one sync task stay at least the debounce apart |

## Left out

- Trees.MoveFile: renaming a directory reads as an error; planned moves join files only (`Planner.MoveOf`).
- Actions.Apply: a download of a missing remote file is an error, where the WebDAV client would hand over the server's error page; the convergence results show that the file is there, and the divergence results hold either way.
- Retries.TruthfulExactly: the conflict names are taken to be unused, which makes the other half of a pair executable; the direction that says when a success can be trusted (`Retries.TruthfulIf`) does not need it.
- Execution.Execute: the queue payload is the action itself; JSON encoding, events and conflict history rows are not part of this model.
- Scheduler.TickQueue: on the live objects a due `baseline_sync` row of another sync task is refused, its objects being no part of the model; in the steps of a run it may run that sync task (`Scheduler.Delivery`). Which other sync tasks ran in the tick's first half is a parameter.
- Failures.MatchesExactly: the remote root is taken to be a clean absolute path up to trailing slashes, and listed paths to be the joined ones.
- Redelivery.RedeliveryReachesTarget: one direction. That the trees can also be equal when a move has two candidates or comes late is left to the equivalence `AtLeastOnce.DeliveryConvergesExactly`, for runs that attempt the first plan only.
- Service.TaskService.ExecutePlannedActions: the path without a queue repository is modelled on the runner.
- FileIndex.WriteResult: sizes, times, etags, hashes and directions are dropped, as no plan reads them; rows are keyed by path, so the clash of two paths whose row ids coincide (internal/sync/baseline_runner.go:453-459) is not captured.
- RemoteWalk.SnapshotRemote: a failing listing request is not modelled beyond a missing location.
- Watcher.Watcher.Reconcile: path cleaning and the directory walk are parameters, and a failing removal is not modelled.
- Timestamps.Format: years after 9999 are excluded, and parsing is taken to undo formatting.
- The escalation of a sync task from degraded to retrying, runtime state, checkpoints and the poller: easy or ineffective bookkeeping.
- HTTP handlers, admin page, configuration, encryption, the WebDAV protocol and SQL: plumbing and foreign code.
- Interleaving of scheduler, poller, watcher and HTTP calls inside one step: each call is one atomic step.
