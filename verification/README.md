# Verified models of the workbench engine, the patch transactions and the export formats

This project restates the stateful core of the code assistant in Dafny and proves what that core is
for. `dafny verify dfyconfig.toml` checks everything. It has three parts.

**Workbench engine** (`StateMachine`, `Workbench*`, `EventLog`, `EventStream`, `TaskManifest`). Runs and
steps live in tables; every status change is committed together with an event. `Workbench` gives each
service call as one atomic step `Exec(state, call, ok)`, where `ok` is the fate of its transaction;
`WorkbenchService` is the service object, whose methods rewrite the tables in place and are proved equal
to those steps, rollback included. `WorkbenchReplay` proves what one call keeps, `WorkbenchHistories` what
every history of any calls keeps: the replay of the log, and which status changes ever happen;
`WorkbenchStray` is a history in which replay and tables part. `WorkbenchDrift` and `TaskManifest` prove
that drift detection is exact, what resuming needs, and which calls set a run going; `WorkbenchCalls` says
for every other call exactly when it succeeds and what it leaves. `WorkbenchWorker`, `WorkbenchWorkerProofs`
and `WorkbenchTraces` interleave the worker thread with any other calls and prove the shape of the plan;
`WorkbenchProgress` proves how steps end, that an undisturbed run is worked off to its end, and that a halted
one is left alone; `WorkbenchRace` follows one interleaving to a wrong result. `EventLog` is the event table
under concurrent appenders, `EventStream` the generator that follows it in pages.

**Patch, restore-point, backup, atomic-write and command-run transactions** (`Calls`, `WorkspaceDisk`,
`RestorePoints`, `RestoreTrace`, `RestorePointService`, `FileChanges`, `FileChangeService`, `PathNames`,
`PatchProposals`, `PatchPreviews`, `PatchCoordinator`, `PatchLoss`, `NewestFirst`, `Backups`, `BackupService`,
`AtomicFileWrite`, `CommandRuns`). Every call on the file system may fail. The fates of the calls are an oracle, a constant
function of the number of the call and of what it is: a call works, throws and leaves anything behind, or (for a
write of a workspace file) claims success without having written the text. A log keeps the calls that were made, and
the workspace files are at any time what the calls of the log, by their fates, have made of them (`Disk.Valid`).
The services are classes on top of that. Their contracts hold for every oracle, say which files failed by way of the
log, and what follows when every call that was made has worked; a result that gives up is tied to the failed call
that it gives up for. The modules without `Service` or `Coordinator` in their name hold the same operations on
values, and the theorems about them. `RestoreTrace` tells from the fates alone what a restore leaves in each file.
`PatchLoss` follows one proposal through the calls to a rollback with loss, and to one that cannot begin.

**Formats** (`ZipRecords`, `ZipArchive`, `RuntimeChatStream`, `TextDiff`, `WindowsCommandLauncher`, `Text`).
Each writer has a reader written independently, and the two are proved inverse; the stream parser is
proved independent of chunk boundaries. Fields and constants of the archive follow sections 4.3.7,
4.3.12, 4.3.16 and 4.4.6 of PKWARE APPNOTE.TXT.

## What the proofs found

These follow the code where it differs from what its names or documentation suggest.

- Completing or failing a step does not compare the step's run with the run named by the caller. A run's status
  equals the replay of its log in every history all the same; its steps do exactly when none of them was
  finished under another run's name since the run was last planned (`TablesEqualReplayExactly`; `StrayHappens` is a
  history in which one was, from the empty tables on). The worker
  never does that, so that in its interleavings with other calls they always agree (`TraceTablesEqualReplay`).
- The worker lists the steps and later completes the run. A pause, a new plan and a start in between make it
  complete a run with a pending step, reached from the empty tables in `RaceHappens`;
  `WorkerCompletesRightlyExactly` says when it is right.
- Drift holds a run back only from being resumed. Starting it does not look at the workspace, and is allowed for a
  paused run and even for one under review (`RunningExactly`, `StartPassesReview`).
- A missing manifest counts as drift under a name of its own, so that a paused run without one is accepted by naming it
  and goes around the migration review (`MissingManifestAccepted`).
- Recovery and drift acceptance take three edges that are not in the status table (`OffTableEdgesAreTaken`).
- The stream generator may stop without having sent events that came between its empty page and its
  terminal status read, exactly when there were more than 500 of them (`EventGenerator`).
- The approval version of a patch does not depend on the proposed texts. The version of an earlier preview of the
  same files is still the current one exactly when the snapshots are (`SameVersionExactly`): as long as the clock
  does not show the time of a snapshot again, when none of the files was undone or snapshotted explicitly in
  between (`StaleVersionExactly`). An approval with it then passes for texts it was not given for
  (`PreviewAgainAndApprove`). Rejecting does not withdraw an approval
  and applying does not use it up (`ApprovedExactly`).
- Two spellings of one path pass as two files (`SameFileTwice`); an applied proposal gives every change what it
  asks for exactly when changes to one file ask for the same (`AppliedExactly`).
- A rolled back patch is reported as rolled back even when restoring some files failed: `RolledBackWithLoss` is a
  proposal, an oracle and a run of the coordinator that ends so with a file gone. The files that are not as
  they were are among those on which a call failed since the restore point was read, which the log keeps and
  the result does not (`ApplyApprovedProposal`); with no such call every file is as it was (`CleanRollback`). Exactly,
  every file is as it was when the fates of the restoring calls let the last write of each target that existed leave
  its text, and a removal of each other one work unless it is absent already (`RolledBackExactly`, `BackExactly`).
- A rollback that cannot begin raises and leaves the files as the failed apply left them, some changes applied and the
  rest not: `RollbackCannotBegin` is a run that ends so. It does exactly where the store cannot be made ready, or the
  point cannot be read or is gone (`RollBack`).
- Restoring a backup that stands last among as many as are kept deletes it first, unless the safety backup is listed
  behind it (`SurvivesSafetyExactly`).
- The atomic write removes the target before it renames when a rename is refused, so both texts can be lost; the
  fates of the renames and removals under which that happens are given by `LossExactly` and `WriteLosesExactly`.
- Cancelling an awaited command leaves its promise unresolved for good (`FirstEndDecides`).
- When the directory of restore points cannot be listed, rebuilding overwrites the index with an empty one
  (`RebuildIndexFromDisk`). The index is ordered by time only as long as the clock does not go back
  (`CreateSortedExactly`); it is ordered by creation in any case (`CreatesKeepStore`).

## Model

| member | source | states |
|---|---|---|
| WorkbenchService.AgentWorkbenchService.NextEventSequence | backend/app/agent_workbench/repository.py:454-459 | the next number is one more than the largest of the run |
| WorkbenchService.AgentWorkbenchService.AppendWithSequence | backend/app/agent_workbench/events.py:18-41 | the log of the run grows by one event with the next number; nothing else changes |
| WorkbenchService.AgentWorkbenchService.AppendStandalone | backend/app/agent_workbench/events.py:43-68 | an event on its own, committed or rolled back |
| WorkbenchService.AgentWorkbenchService.TransitionRunWithEvent | backend/app/agent_workbench/events.py:70-92 | a run's status and its event change together |
| WorkbenchService.AgentWorkbenchService.TransitionStepWithEvent | backend/app/agent_workbench/events.py:94-116 | a step's row and its event change together |
| WorkbenchService.AgentWorkbenchService.CreateRun | backend/app/agent_workbench/service.py:131-168 | the whole new state, and on failure the manifest file removed again |
| WorkbenchService.AgentWorkbenchService.InsertPlan | backend/app/agent_workbench/service.py:187-254 | the insert loop succeeds exactly for new, distinct ids and numbers the steps 1, 2, ... with one event each |
| WorkbenchService.AgentWorkbenchService.SetPlan | backend/app/agent_workbench/service.py:187-254 | the old steps are replaced and the run is ready, or everything is as before |
| WorkbenchService.AgentWorkbenchService.TakeEdge | backend/app/agent_workbench/service.py:293-313 | pausing, cancelling, completing and failing a run: the edge is taken if the table has it, in one transaction |
| WorkbenchService.AgentWorkbenchService.StartRun | backend/app/agent_workbench/service.py:264-291 | a run without steps is refused, otherwise the edge to running |
| WorkbenchService.AgentWorkbenchService.ResumeRun | backend/app/agent_workbench/service.py:315-382 | every outcome of resuming: missing manifest, unreadable manifest, drift, refused edge, running |
| WorkbenchService.AgentWorkbenchService.AcceptWorkspaceChanges | backend/app/agent_workbench/service.py:390-445 | accepting drift writes the manifest and pauses the run, or puts the old manifest back |
| WorkbenchService.AgentWorkbenchService.AcceptResumeBaseline | backend/app/agent_workbench/service.py:447-467 | a first manifest for a run without one, removed again when the commit fails |
| WorkbenchService.AgentWorkbenchService.ActivateStep | backend/app/agent_workbench/service.py:503-536 | one more attempt of a step of this run while no other step is active |
| WorkbenchService.AgentWorkbenchService.FinishStep | backend/app/agent_workbench/service.py:538-591 | completing or failing a step found by its id alone |
| WorkbenchService.AgentWorkbenchService.RecoverOnStartup | backend/app/agent_workbench/service.py:110-129 | exactly the running runs whose transaction commits move to recovery, with one event each, and they are counted |
| WorkbenchCalls.LeadsTo | backend/app/agent_workbench/state_machine.py:7-22 | the table from the other side: from which statuses a run can be started, paused, failed, completed, cancelled and planned |
| WorkbenchCalls.LeadsElsewhere | backend/app/agent_workbench/state_machine.py:7-22 | the same for the statuses that no call takes from the table |
| WorkbenchCalls.StepLeadsTo | backend/app/agent_workbench/state_machine.py:24-33 | the same for steps |
| StateMachine.TerminalExactly | backend/app/agent_workbench/state_machine.py:7-55 | a status is final exactly when nothing leads on from it |
| WorkbenchCalls.StartExactly | backend/app/agent_workbench/service.py:264-291 | starting succeeds if and only if the run has a step, the status is one of six and the commit works; then just this run is running and its log one event longer |
| WorkbenchCalls.EndsExactly | backend/app/agent_workbench/service.py:293-313 | pausing, cancelling, completing and failing: the statuses each succeeds from, and that the run then has the status named, with one event; otherwise nothing changes |
| WorkbenchCalls.RecoverExactly | backend/app/agent_workbench/service.py:110-129 | recovery moves a run if and only if it is running and the commit works |
| WorkbenchCalls.CreateExactly | backend/app/agent_workbench/service.py:131-168 | a run is created if and only if the workspace exists, the id is new and the commit works; its manifest then shows no drift |
| WorkbenchCalls.PlanExactly | backend/app/agent_workbench/service.py:187-254 | a run is planned if and only if its status is one of five, the ids can be inserted and the commit works; it is then ready with just these steps, pending and numbered in order, and other steps are as before |
| WorkbenchCalls.ActivateExactly | backend/app/agent_workbench/service.py:503-536 | a step is started if and only if it belongs to the run, waits for it and no step of the run is active; it is then active with one more attempt, and the current one |
| WorkbenchCalls.FinishExactly | backend/app/agent_workbench/service.py:538-591 | the statuses a step can be completed and failed from, whatever the run is doing; just this step changes |
| WorkbenchCalls.AppendExactly | backend/app/agent_workbench/events.py:43-68 | the events that are added on their own change nothing but the log |
| WorkbenchCalls.NotCreated | backend/app/agent_workbench/service.py:131-168 | a run that could not be created leaves no manifest behind and no other file changed |
| WorkbenchCalls.BaselineManifest | backend/app/agent_workbench/service.py:447-467 | a first manifest whose acceptance could not be committed is gone again; no other file has changed |
| WorkbenchCalls.AcceptedManifest | backend/app/agent_workbench/service.py:390-445 | accepting drift changes no file but the manifest, also where it raises |
| WorkbenchCalls.RematerializeExactly | backend/app/agent_workbench/task_manifest.py:44-63 | writing the manifest anew changes no other file and nothing in the tables, and leaves no drift |
| WorkbenchHistories.StatusEqualsReplay | backend/app/agent_workbench/events.py:70-92 | in every history of any calls each run's status is the replay of its log, the log is numbered 1..n, and every status change in it is an edge of the table or one of three others |
| WorkbenchHistories.TablesEqualReplayExactly | backend/app/agent_workbench/events.py:70-116 | in every history a run's status and step table are the replay of its log if and only if none of its steps was finished under another run's name since the run was last planned |
| WorkbenchHistories.CallKeepsOrder | backend/app/agent_workbench/service.py:110-634 | every call, well addressed or not, keeps the agreement up to the steps finished under another name, and only extends logs |
| WorkbenchTraces.TraceTablesEqualReplay | backend/app/agent_workbench/worker.py:59-131 | in every interleaving of the worker with other calls status and steps of each run are the replay of its log |
| WorkbenchStray.StrayHappens | backend/app/agent_workbench/service.py:538-564 | from the empty tables on: two runs, a step of the first completed under the name of the second; the table has it completed and the replay of its run's log has it active |
| WorkbenchReplay.ExecKeeps | backend/app/agent_workbench/service.py:110-634 | every call that names the owner of the step it finishes keeps tables and replay equal and only extends logs |
| WorkbenchHistories.TerminalIsNeverLeft | backend/app/agent_workbench/state_machine.py:7-55 | along any history of any calls a completed or cancelled run stays so |
| WorkbenchReplay.FailureChangesNothing | backend/app/agent_workbench/service.py:315-382 | a call that raises leaves the tables alone, except a resume that records what it found |
| WorkbenchReplay.FinishConsistentExactly | backend/app/agent_workbench/service.py:538-591 | after finishing a step tables and replay agree if and only if the named run owns the step |
| WorkbenchReplay.OffTableEdgesAreTaken | backend/app/agent_workbench/service.py:117-124 | recovery and drift acceptance do take the edges outside the table |
| WorkbenchDrift.ResumeExactly | backend/app/agent_workbench/service.py:315-382 | resuming succeeds if and only if the manifest is there, nothing drifted, no review is due and the edge exists; otherwise the run does not become running |
| WorkbenchDrift.ResumeRecords | backend/app/agent_workbench/service.py:315-382 | what resuming writes: running; or for a paused run migration review without a manifest and workspace review with drift; or nothing |
| WorkbenchDrift.AcceptExactly | backend/app/agent_workbench/service.py:390-445 | accepting drift succeeds if and only if the status is one of three, the manifest can be read, the commit works and there is drift which is the named list where one is named, or none under review; then the run is paused and shows no drift; a list is refused as a mismatch if and only if it is not the drift |
| WorkbenchDrift.BaselineExactly | backend/app/agent_workbench/service.py:447-467 | the same for a first manifest: if and only if the migration is under review and the commit works |
| WorkbenchDrift.MissingManifestAccepted | backend/app/agent_workbench/service.py:390-445 | a paused run without a manifest is accepted by naming that as the drift, and has a manifest then |
| WorkbenchDrift.AcceptThenResume | backend/app/agent_workbench/service.py:390-445 | accepting drift and then resuming, with no edit between, always succeeds |
| WorkbenchDrift.BaselineThenResume | backend/app/agent_workbench/service.py:447-467 | the same for accepting a first manifest |
| WorkbenchDrift.AcceptsOnlyTheNamedDrift | backend/app/agent_workbench/service.py:390-445 | a named list of changes is accepted only if it is the drift |
| WorkbenchDrift.RunningExactly | backend/app/agent_workbench/service.py:264-382 | for every call: a run that is not running becomes running if and only if the call commits along an edge of the table and either starts the run, which has a plan, whatever the workspace, or resumes it with its manifest there, no drift and no review due |
| WorkbenchDrift.StartPassesReview | backend/app/agent_workbench/service.py:264-291 | a paused run with drift is refused on resuming and put under review, and starting it then succeeds with the drift unaccepted |
| TaskManifest.WorkspaceSnapshot | backend/app/agent_workbench/task_manifest.py:83-97 | the loop collects exactly the readable files that are not ignored |
| TaskManifest.Validate | backend/app/agent_workbench/task_manifest.py:65-73 | the drifted paths, each once, in ascending order |
| TaskManifest.DriftExact | backend/app/agent_workbench/task_manifest.py:44-73 | after writing the manifest and any edits, a path is reported if and only if what a snapshot sees of it has changed |
| TaskManifest.WrittenFileExactly | backend/app/agent_workbench/task_manifest.py:65-73 | one file written since the manifest is reported if and only if a snapshot sees it and the text is another |
| TaskManifest.IgnoredExactly | backend/app/agent_workbench/task_manifest.py:83-89 | a path is left out if and only if one of its parts is an ignored name or its first part a generated directory |
| TaskManifest.MaterializeInvisible | backend/app/agent_workbench/task_manifest.py:14-16 | writing a manifest changes nothing a snapshot sees |
| TaskManifest.NoDriftAfterMaterialize | backend/app/agent_workbench/task_manifest.py:44-63 | right after writing there is no drift |
| TaskManifest.TaskPathInjective | backend/app/agent_workbench/task_manifest.py:20-21 | two runs never share a manifest file |
| WorkbenchTraces.NextKeeps | backend/app/agent_workbench/worker.py:59-131 | every step of worker or caller keeps the invariant of tables and worker |
| WorkbenchTraces.PlanShapeAlways | backend/app/agent_workbench/worker.py:59-131 | in every interleaving: ordinals are 1..n, at most one step is active, pending steps come last, completed steps stay within the limit |
| WorkbenchTraces.WorkerCompletesRightlyExactly | backend/app/agent_workbench/worker.py:100-131 | when the worker completes a run, no step is pending or the limit is reached if and only if the plan it listed is still the plan (or the new one is empty, or the limit is none) |
| WorkbenchProgress.StepEnds | backend/app/agent_workbench/worker.py:100-120 | from a step at work, undisturbed: a step that succeeds is completed, one that raises is failed and its run failed, one that takes too long is failed and its run paused; nothing else in the tables changes |
| WorkbenchProgress.WorkerFinishes | backend/app/agent_workbench/worker.py:59-131 | a running run without an active step on which nobody else acts is completed by the worker: every pending step is completed, or as many as the limit allows, and no other is touched |
| WorkbenchProgress.WorkerHalts | backend/app/agent_workbench/worker.py:86-131 | once a run is paused, recovered, cancelled, failed or completed, the worker touches no step but the one in hand, however long it goes on |
| WorkbenchRace.ReplanRace | backend/app/agent_workbench/worker.py:100-131 | from every state in which the worker is about to complete a running run, a pause, a new plan and a start make it complete the run wrongly, unless its limit allows no step |
| WorkbenchRace.RaceHappens | backend/app/agent_workbench/worker.py:77-131 | that happens from the empty tables on: a run with a limit of two or more ends completed with its one step pending |
| EventLog.CommittedSequencesAreGapless | backend/app/agent_workbench/repository.py:454-485 | for every interleaving of appenders the committed numbers of each run are 1..n in commit order |
| EventLog.ConflictRepeats | backend/app/agent_workbench/migrations.py:81 | without the unique index a conflicting commit would break that |
| EventLog.CommitLandsExactly | backend/app/agent_workbench/events.py:18-68 | a commit adds all rows of its transaction if and only if they are above everything committed for their runs, and none otherwise |
| EventLog.AppendLands | backend/app/agent_workbench/events.py:43-68 | an appender that sees everything committed and commits first gets its event into the table under the next number |
| EventLog.SecondLoses | backend/app/agent_workbench/migrations.py:81 | of two appenders that have seen the same the second to commit loses its row |
| EventLog.OnlyCommitsAdd | backend/app/agent_workbench/events.py:43-68 | the table only grows, and only by commits |
| EventLog.StepKeepsInv | backend/app/agent_workbench/events.py:18-68 | each action keeps the invariant of committed and uncommitted numbers |
| EventStream.EventGenerator | backend/app/agent_workbench/event_stream.py:54-78 | events are sent from the cursor on without gap or repeat, in every round a page of what was committed; it stops in the first round with a terminal status and nothing left, after one more page; all events committed before the terminal status read were sent if and only if at most 500 came since the empty page |
| EventStream.EverythingIsSent | backend/app/agent_workbench/event_stream.py:58-63 | as long as no round finds more than 500 new events, everything committed at the last listing has been sent |
| EventStream.EmitPage | backend/app/agent_workbench/repository.py:487-506 | a page of at most 500 rows continues what was sent and moves the cursor accordingly |
| RestorePoints.UniqueExactly | apps/desktop/electron/restorePointService.ts:34-36 | the file list is the trimmed, non-empty names, each once, in order of first appearance |
| PathNames.ResolvePlain | apps/desktop/electron/agentPatchCoordinator.ts:95-104 | a path of plain parts names the file at exactly these parts |
| PathNames.DotsDoNotCount | apps/desktop/electron/agentPatchCoordinator.ts:95-104 | empty parts and dots make no difference, wherever they stand |
| PathNames.SameFileExactly | apps/desktop/electron/agentPatchCoordinator.ts:95-104 | two paths name one file if and only if the parts that count are the same |
| PathNames.NormalizeExactly | apps/desktop/electron/agentPatchCoordinator.ts:39-45 | a relative path with forward slashes and nothing to trim is accepted as it is if and only if it has no `..` part |
| PathNames.NormalIsInside | apps/desktop/electron/agentPatchCoordinator.ts:39-45 | every accepted path is relative, trimmed, with forward slashes and without `..` |
| PathNames.SlashesDoNotCount | apps/desktop/electron/agentPatchCoordinator.ts:39-45 | leading slashes and backslashes make no difference |
| PathNames.AppliedInPlace | apps/desktop/electron/agentPatchCoordinator.ts:275-307 | applying plain paths leaves each text under the very path of its change and changes nothing else |
| RestorePoints.RestoreUndoes | apps/desktop/electron/restorePointService.ts:297-354 | restoring a captured list undoes every change made to those files since |
| RestorePoints.CreateKeepsStore | apps/desktop/electron/restorePointService.ts:215-264 | a create keeps the index within the limit, each point listed once and with its file |
| RestorePoints.CreateSortedExactly | apps/desktop/electron/restorePointService.ts:259-261 | the index stays ordered by time if and only if the new point is not older than the first, or the only one kept |
| RestorePoints.CreatesKeepStore | apps/desktop/electron/restorePointService.ts:215-264 | over any run of creates the index lists the points last created first, then what it listed before, up to the limit, in step with the files |
| RestorePoints.CreatedIsFirst | apps/desktop/electron/restorePointService.ts:256-263 | whatever the index held, also a corrupted one, the new point is on disk and first |
| RestorePoints.RetentionExactly | apps/desktop/electron/restorePointService.ts:372-393 | a point survives later creates if and only if fewer than the limit are newer |
| RestorePoints.RebuildExactly | apps/desktop/electron/restorePointService.ts:402-439 | the rebuilt index is sorted and holds exactly the well-formed point files |
| RestorePoints.RebuildRecoversIndex | apps/desktop/electron/restorePointService.ts:395-439 | rebuilding after a corruption lists exactly the points that were listed, and gives back the very index if and only if it was ordered by time and ties stood as the directory lists them |
| RestorePoints.RebuildIsIndex | apps/desktop/electron/restorePointService.ts:395-439 | with different times that is the very index |
| NewestFirst.SortSorts | apps/desktop/electron/restorePointService.ts:435 | the sort orders by time, keeps every item and is stable |
| NewestFirst.SortPlaces | apps/desktop/electron/backupService.ts:287 | an item ends after the newer ones and those as old that stood before it |
| RestorePointService.RestorePointService.CreateRestorePoint | apps/desktop/electron/restorePointService.ts:215-264 | it succeeds if and only if every call works and a file is named; then the point holds the files as they are and the store is the pruned one; after any failure earlier points are lost only at the limit and never rewritten |
| RestorePointService.RestorePointService.CleanupOldRestorePoints | apps/desktop/electron/restorePointService.ts:372-393 | the loop removes exactly what is beyond the limit, names it in order, and fails if and only if a call does; a failure midway loses nothing within the limit |
| RestorePointService.RestorePointService.RestorePoint | apps/desktop/electron/restorePointService.ts:297-354 | every file of the point is written or removed, by exactly the calls the source makes, and holds what these calls by their fates have left in it; the reported errors are exactly the files on which a call failed since the point was read, and outside them the workspace is exactly the restored one; it gives up, without touching a file, if and only if the store cannot be made ready or the point cannot be read, is not there or holds no list of files |
| RestoreTrace.BackExactly | apps/desktop/electron/restorePointService.ts:313-345 | for any list of files, a file saved in it with one content is left with that content if and only if, where it is saved as absent, it is absent already or one of its removals works, and where it is saved with a text, the last write of it leaves that text |
| RestorePointService.RestorePointService.RestoreFiles | apps/desktop/electron/restorePointService.ts:313-353 | the loop makes exactly the calls on each file in order, leaves in every file what they leave, and names every file as restored, deleted or an error |
| RestorePointService.RestorePointService.RestoreFile | apps/desktop/electron/restorePointService.ts:313-345 | one removal, or one write and unless it threw one reading; the file holds what the write or removal left, whatever the reading says; it is fine exactly when no call on it failed, and only after its text was read back |
| RestorePointService.RestorePointService.DeleteRestorePoint | apps/desktop/electron/restorePointService.ts:356-370 | the file and every entry of the point are gone, the rest is kept in order, and the result says whether it was listed |
| RestorePointService.RestorePointService.RebuildIndexFromDisk | apps/desktop/electron/restorePointService.ts:402-439 | the new index, the number recovered and the corrupted files, also when the directory cannot be listed; it fails if and only if another call does |
| RestorePointService.CorruptedExactly | apps/desktop/electron/restorePointService.ts:423-432 | the corrupted files are those with text that is no JSON, or without an id or a time |
| RestorePointService.WithoutExactly | apps/desktop/electron/restorePointService.ts:363-368 | filtering drops exactly the entries of the point |
| FileChanges.UndoRestoresBaseline | apps/desktop/electron/fileChangeService.ts:269-287 | after any run of previews, applies, edits, snapshots and undos an undo brings back the state at the last explicit snapshot or else the first preview since the last undo |
| FileChanges.UndoReturnsToFirstPreview | apps/desktop/electron/fileChangeService.ts:161-188 | without explicit snapshots undo goes back to the first preview, however much happened since |
| FileChanges.HeldSince | apps/desktop/electron/fileChangeService.ts:74-81 | after any run the time of the snapshot held is told by the operations alone |
| FileChanges.SnapshotStaysExactly | apps/desktop/electron/fileChangeService.ts:161-178 | a snapshot is kept if and only if the file was neither undone nor snapshotted explicitly, as long as the clock does not repeat its time |
| FileChangeService.FileChangeService.CreateSnapshot | apps/desktop/electron/fileChangeService.ts:127-159 | a snapshot of the file as it is becomes its latest one, or nothing changes |
| FileChangeService.FileChangeService.CreateDiff | apps/desktop/electron/fileChangeService.ts:161-188 | the diff is against the snapshot held, which a preview takes only when there is none |
| FileChangeService.FileChangeService.ApplyChange | apps/desktop/electron/fileChangeService.ts:190-252 | success, reached when every call works on a snapshotted file, means the text is on disk, no other file changed and a point of the old state is stored; failure touches at most this file, with at most one write, of the text |
| FileChangeService.FileChangeService.RestoreSnapshot | apps/desktop/electron/fileChangeService.ts:254-267 | the snapshot is written back unless a call on the file failed; what it reports is what is on disk, and the file holds what the write or removal left also where the reading fails |
| FileChangeService.FileChangeService.UndoPatch | apps/desktop/electron/fileChangeService.ts:269-287 | undo restores the snapshot, unless a call on the file failed, and forgets it |
| PatchProposals.ValidateProposal | apps/desktop/electron/agentPatchCoordinator.ts:137-173 | the loop finds the first error in the order of the checks, or normalises every path |
| PatchProposals.AcceptedExactly | apps/desktop/electron/agentPatchCoordinator.ts:137-173 | a proposal is accepted if and only if it is complete, has 1 to the limit well-formed changes on different paths and is small enough; only its paths change |
| PatchProposals.RefusedExactly | apps/desktop/electron/agentPatchCoordinator.ts:137-173 | the error of a refused proposal: the first check that fails, and among the changes what is wrong with the first bad one |
| PatchProposals.PlanPassesExactly | apps/desktop/electron/patchPipelineService.ts:78-103 | the pipeline lets through exactly what keeps all six limits, and a missing approval or commit is looked at last |
| PatchProposals.BytesOfOne | apps/desktop/electron/agentPatchCoordinator.ts:164 | the bytes of one character; sizes add up |
| PatchProposals.LastChangeWins | apps/desktop/electron/agentPatchCoordinator.ts:275-307 | of several changes to one file the last one counts |
| PatchProposals.AppliedExactly | apps/desktop/electron/agentPatchCoordinator.ts:275-307 | every change gets what it proposes if and only if changes to one file propose the same; nothing else changes |
| PatchProposals.SameFileTwice | apps/desktop/electron/agentPatchCoordinator.ts:150-155 | validation accepts changes with different paths to one file that ask for different texts |
| PatchProposals.PipelineAgrees | apps/desktop/electron/patchPipelineService.ts:78-103 | the pipeline's limits never refuse a change of an accepted proposal |
| PatchCoordinator.AgentPatchCoordinator.CreatePreview | apps/desktop/electron/agentPatchCoordinator.ts:175-226 | a preview stores the accepted proposal unapproved, with what each change was shown as and the snapshots that make its version; failing changes no proposal; when every call works it succeeds exactly for accepted proposals whose targets exist as they should and are no binary files |
| PatchCoordinator.AgentPatchCoordinator.PreviewChanges | apps/desktop/electron/agentPatchCoordinator.ts:179-208 | the loop, with the snapshots it takes |
| PatchCoordinator.AgentPatchCoordinator.PreviewAgainAndApprove | apps/desktop/electron/agentPatchCoordinator.ts:210-236 | a caller that previews other texts for the same files under the same id and time gets the same version, and an approval with the first version makes the second proposal ready to apply |
| PatchCoordinator.AgentPatchCoordinator.ApproveProposal | apps/desktop/electron/agentPatchCoordinator.ts:228-236 | only the version of the last preview can be approved |
| PatchCoordinator.AgentPatchCoordinator.RejectProposal | apps/desktop/electron/agentPatchCoordinator.ts:238-242 | rejecting changes the state and leaves the approval |
| PatchCoordinator.AgentPatchCoordinator.ApplyApprovedProposal | apps/desktop/electron/agentPatchCoordinator.ts:244-346 | all or nothing with one way out: applied with every file as proposed, under the very paths of the changes where these are plain; rolled back, the calls ending with the reading of the batch point and the restore of every target, and every file as at the start except those on which a call failed since; failed without a change; refused; or raised by a rollback that could not begin, with the changes before some place applied, none after it, and the point gone or a reading of it that gave up as the last calls. Nothing is written without an approval since the last preview, a change stops the apply only where it is not granted or a call had failed, and when every call works the proposal is applied |
| PatchCoordinator.PlainIsApplicable | apps/desktop/electron/agentPatchCoordinator.ts:256-307 | a stored proposal of plain paths is applicable if and only if none of its targets is binary |
| PatchCoordinator.AgentPatchCoordinator.TryApply | apps/desktop/electron/agentPatchCoordinator.ts:256-346 | the same for an approved proposal, guards first, with the same ways to end |
| PatchCoordinator.AgentPatchCoordinator.ApplyOrRollBack | apps/desktop/electron/agentPatchCoordinator.ts:264-333 | the point named in the result is the one made at the beginning and holds the files of the proposal as they were; every failure after it is rolled back, unless the rollback raises before it touches a file, and then the point is not on disk, or the last calls are those of a reading that gave up after the apply had stopped |
| PatchCoordinator.AgentPatchCoordinator.ApplyAll | apps/desktop/electron/agentPatchCoordinator.ts:275-307 | success, reached when every call works, means every change was applied in order; otherwise those before some change are applied, at most the file of that one has changed besides, and it was not granted or a call had failed; older points are lost only at the limit |
| PatchCoordinator.AgentPatchCoordinator.ApplyOne | apps/desktop/electron/agentPatchCoordinator.ts:282-306 | a change counts only when deletion or text was checked on disk; its file is removed or written at most once, with the proposed text |
| PatchCoordinator.AgentPatchCoordinator.ApplyPatchWithRestorePoint | apps/desktop/electron/patchPipelineService.ts:113-132 | success means the text is on disk and one more point, of the file as it was, is first in the store |
| PatchCoordinator.AgentPatchCoordinator.RollBack | apps/desktop/electron/agentPatchCoordinator.ts:321-333 | it reports rolled back if and only if the store can be made ready and the batch point can be read and is there, and raises with the files untouched otherwise; rolled back, every file is as at the start if and only if the fates of the restoring calls bring every target back |
| PatchCoordinator.CleanRollback | apps/desktop/electron/agentPatchCoordinator.ts:321-333 | a rollback during which every call works leaves every file as it was before the apply |
| PatchCoordinator.RolledBackExactly | apps/desktop/electron/agentPatchCoordinator.ts:321-333 | after a restore of the batch point every file is as at the start if and only if for every target that did not exist it was absent already or one of its removals works, and for every other the last write of it leaves its text |
| PatchLoss.RolledBackWithLoss | apps/desktop/electron/agentPatchCoordinator.ts:321-333 | two deletions, of which the second fails and the first cannot be undone: through preview, approval and apply of a fresh coordinator the result is rolled back and the first file is gone |
| PatchLoss.RollbackCannotBegin | apps/desktop/electron/agentPatchCoordinator.ts:321-333 | the same deletions where the restore point cannot be read: applying raises, the first file is gone and the second is still there |
| PatchCoordinator.AgentPatchCoordinator.Rollback | apps/desktop/electron/agentPatchCoordinator.ts:348-359 | it reports if and only if the point can be read, is there and holds a list of files, and otherwise changes no file; then every file is restored but those on which a call failed since the point was read, and success is reported if and only if there is none |
| PatchCoordinator.ApprovedExactly | apps/desktop/electron/agentPatchCoordinator.ts:218-242 | a proposal may be applied if and only if some approval of it has no later preview |
| PatchCoordinator.BatchStillThere | apps/desktop/electron/restorePointService.ts:372-393 | with fewer writes than points kept the batch point is on disk, unchanged, when rollback needs it |
| PatchCoordinator.DefaultLimitsSuffice | apps/desktop/electron/agentPatchCoordinator.ts:91-92 | with eight files and sixty points rollback never misses its point |
| PatchPreviews.SameVersionExactly | apps/desktop/electron/agentPatchCoordinator.ts:210 | after any operations in between, a later preview of the same files has the version of an earlier one if and only if id, time and every snapshot are still the same, whatever the texts |
| PatchPreviews.StaleVersionPasses | apps/desktop/electron/agentPatchCoordinator.ts:210-236 | that is so when no target was undone or snapshotted explicitly in between |
| PatchPreviews.StaleVersionExactly | apps/desktop/electron/agentPatchCoordinator.ts:210-236 | and only then, as long as the clock does not repeat a snapshot's time |
| PatchCoordinator.RolledBackTo | apps/desktop/electron/agentPatchCoordinator.ts:264-273 | the batch point covers the files of the proposal, so restoring it gives back the start |
| Backups.PruneKeeps | apps/desktop/electron/backupService.ts:290-302 | a backup with fewer newer ones than the limit is kept, even when some manifests could not be read |
| Backups.PruneExactly | apps/desktop/electron/backupService.ts:262-302 | a backup survives pruning if and only if its place, after the newer ones and those as old listed before it, is within the limit |
| Backups.SurvivesSafetyExactly | apps/desktop/electron/backupService.ts:304-315 | the backup being restored survives the safety backup if and only if its place, plus one where the safety backup goes ahead of it, is within the limit |
| Backups.RestoreBringsBack | apps/desktop/electron/backupService.ts:319-329 | copying back gives every file of the manifest its content at the backup and touches no other |
| BackupService.BackupService.ListBackups | apps/desktop/electron/backupService.ts:262-288 | the backups newest first, leaving out only those whose manifest, or the directory, could not be read |
| BackupService.BackupService.ReadManifests | apps/desktop/electron/backupService.ts:269-287 | the loop over the directories: a backup is left out only when reading its manifest failed |
| BackupService.BackupService.PruneOldBackups | apps/desktop/electron/backupService.ts:290-302 | it fails if and only if a deletion does, and then only backups at or beyond the limit are gone; otherwise exactly the backups beyond the limit, among those whose manifest could be read, go and are named |
| BackupService.BackupService.CreateBackup | apps/desktop/electron/backupService.ts:193-260 | it fails if and only if making the directory, a copy, writing the manifest or the marker, or deleting an old backup does; on success the new directory holds every source that exists, unless looking at it failed, as it is, and the old ones are pruned; other backups are lost only if this one pushed them to the limit |
| BackupService.BackupService.FillDirectory | apps/desktop/electron/backupService.ts:198-254 | the copies and a manifest that names exactly them |
| BackupService.BackupService.CopySources | apps/desktop/electron/backupService.ts:97-106 | every source that exists has its copy and entry, unless a call on it failed; a failing copy ends the loop |
| BackupService.BackupService.RestoreFromBackup | apps/desktop/electron/backupService.ts:304-332 | it goes ahead if and only if the manifest can be read, whatever becomes of the safety backup; where the backup survives the safety backup, which it does at rank r with r + 1 below the limit, every manifest file is as backed up except exactly those whose copy failed, which are the errors and hold what the failed copies left; where it is gone, nothing is restored and every file is an error |
| BackupService.BackupService.CopyBack | apps/desktop/electron/backupService.ts:317-331 | the loop, with every file named as restored or an error and holding what the copies by their fates have left in it |
| AtomicFileWrite.AtomicWriter.ReplaceWithRetry | apps/desktop/electron/atomicFileWrite.ts:63-102 | the retry loop is the attempts in order, with their sleeps |
| AtomicFileWrite.AtomicWriter.WriteFileAtomic | apps/desktop/electron/atomicFileWrite.ts:104-119 | temporary file, replace, and clean-up on failure |
| AtomicFileWrite.WriteSafe | apps/desktop/electron/atomicFileWrite.ts:104-119 | for every pattern of failures the target holds its old text, nothing or the new text after each call; a normal return leaves the new text and no temporary file, and an exception none either unless its removal fails |
| AtomicFileWrite.ReplaceSafe | apps/desktop/electron/atomicFileWrite.ts:63-102 | the same for the loop from any attempt on |
| AtomicFileWrite.ReplaceBounded | apps/desktop/electron/atomicFileWrite.ts:69-98 | at most two renames an attempt; the sleeps are one, two, ... delays up to some retry |
| AtomicFileWrite.SleepBounded | apps/desktop/electron/atomicFileWrite.ts:93-97 | all sleeps together are at most delay times retries times (retries + 1) over 2 |
| AtomicFileWrite.RetriesOutlastFaults | apps/desktop/electron/atomicFileWrite.ts:42-52 | the write gets through when the faults are retryable and end before the last attempt |
| AtomicFileWrite.LossExactly | apps/desktop/electron/atomicFileWrite.ts:69-98 | the old file is lost with nothing in its place if and only if the fates of the renames, looks and removals, read off in order, remove it and let no later rename work |
| AtomicFileWrite.WriteLosesExactly | apps/desktop/electron/atomicFileWrite.ts:104-119 | the same for a whole write |
| AtomicFileWrite.WrittenExactly | apps/desktop/electron/atomicFileWrite.ts:69-98 | the new text is written if and only if the fates of the calls, read off in order, place it |
| AtomicFileWrite.WriteWrittenExactly | apps/desktop/electron/atomicFileWrite.ts:104-119 | the same for a whole write |
| AtomicFileWrite.BothTextsCanBeLost | apps/desktop/electron/atomicFileWrite.ts:79-91 | a pattern of failures after which neither text is left |
| CommandRuns.FirstEndDecides | apps/desktop/electron/commandExecutionService.ts:401-417 | for every order of events the first ending event fixes the whole status, resolves the promise once unless it was a cancel, kills or not, and clears process and timer |
| CommandRuns.EndedStays | apps/desktop/electron/commandExecutionService.ts:407-409 | after that no event changes status, promise, process or timer |
| CommandRuns.TailExactly | apps/desktop/electron/commandExecutionService.ts:519-526 | a tail is the last million characters of a text, or all of it where there are fewer |
| CommandRuns.StdoutIsTheTail | apps/desktop/electron/commandExecutionService.ts:519-526 | the kept output is the last million characters of all chunks, or all where there are fewer |
| CommandRuns.StderrHoldsTheTail | apps/desktop/electron/commandExecutionService.ts:528-550 | the error log is a suffix of everything written that contains its last million characters |
| CommandRuns.RunsAreIndependent | apps/desktop/electron/commandExecutionService.ts:490-602 | interleaved runs each see only their own events |
| CommandRuns.CommandExecutionService.Start | apps/desktop/electron/commandExecutionService.ts:466-517 | a run with process and timer, or one that failed at once |
| CommandRuns.CommandExecutionService.FinishRun | apps/desktop/electron/commandExecutionService.ts:401-417 | a run that is running is ended; any other is left alone |
| CommandRuns.CommandExecutionService.OnData | apps/desktop/electron/commandExecutionService.ts:519-535 | the chunk is added and the log cut |
| CommandRuns.CommandExecutionService.OnError | apps/desktop/electron/commandExecutionService.ts:541-561 | the handler is the event's effect on its run alone |
| CommandRuns.CommandExecutionService.OnExit | apps/desktop/electron/commandExecutionService.ts:563-580 | the same for exit |
| CommandRuns.CommandExecutionService.OnTimeout | apps/desktop/electron/commandExecutionService.ts:582-601 | the same for the timeout |
| CommandRuns.CommandExecutionService.CancelCommand | apps/desktop/electron/commandExecutionService.ts:741-759 | the same for cancel, and it reports whether the run was running |
| ZipRecords.DosDateTimeRoundTrip | apps/desktop/electron/diagnosticsZipExport.ts:68-72 | the packed date decodes to the date with even seconds for 1980 to 2107, and fits its field exactly then |
| ZipRecords.ShiftedFieldsAdd | apps/desktop/electron/diagnosticsZipExport.ts:68-72 | packing the fields with shifts and ors is the sum the model computes with |
| ZipArchive.BuildZipArchive | apps/desktop/electron/diagnosticsZipExport.ts:79-141 | it returns if and only if every field fits, and then the archive byte for byte |
| ZipRecords.BuildLocalHeader | apps/desktop/electron/diagnosticsZipExport.ts:90-102 | the local header byte for byte, or a field does not fit |
| ZipRecords.BuildCentralHeader | apps/desktop/electron/diagnosticsZipExport.ts:104-122 | the central header byte for byte, or a field does not fit |
| ZipRecords.BuildEndRecord | apps/desktop/electron/diagnosticsZipExport.ts:127-138 | the end record byte for byte, or a field does not fit |
| ZipArchive.ZipRoundTrip | apps/desktop/electron/diagnosticsZipExport.ts:79-141 | a reader that starts at the end record and follows every offset, and takes only archives on one disk whose entries are stored without flags and compression, recovers the entries in order with checksum, sizes and date |
| RuntimeChatStream.ParseSseEvents | apps/desktop/electron/runtimeChatStream.ts:15-39 | the loop gives the events of the complete parts and the unfinished rest |
| RuntimeChatStream.ChunkingIndependence | apps/desktop/electron/runtimeChatStream.ts:100-154 | events and rest do not depend on how the text was cut |
| RuntimeChatStream.StreamChat | apps/desktop/electron/runtimeChatStream.ts:81-155 | the response and the reported chunks are a function of the whole text, although the loop may stop early |
| RuntimeChatStream.CallsAddUp | apps/desktop/electron/runtimeChatStream.ts:100-154 | the content is the sum of the reported pieces and every reported length is right |
| RuntimeChatStream.FirstFinalDecides | apps/desktop/electron/runtimeChatStream.ts:108-145 | the first final event decides: exactly the pieces before it are reported, a done event gives their text with its own model and reason, an error its message, a value without a type breaks off |
| RuntimeChatStream.EndWithoutFinal | apps/desktop/electron/runtimeChatStream.ts:146-154 | without a final event the text so far is the response, or it is incomplete where there is none |
| RuntimeChatStream.LinesMakeOneEvent | apps/desktop/electron/runtimeChatStream.ts:20-36 | the data lines of an event are one JSON text, joined by line feeds |
| RuntimeChatStream.OtherLinesDoNotCount | apps/desktop/electron/runtimeChatStream.ts:20-30 | other lines make no difference |
| RuntimeChatStream.ServerRoundTrip | backend/app/api/runtime.py:480-500 | what the server writes is read back event by event with nothing left over |
| TextDiff.CreateTextDiff | apps/desktop/electron/fileChangeService.ts:95-125 | the loop prints the diff line by line |
| TextDiff.DiffRecovers | apps/desktop/electron/fileChangeService.ts:95-125 | from the printed diff the lines of both texts can be read back |
| TextDiff.MarksExactly | apps/desktop/electron/fileChangeService.ts:95-125 | exactly the lines that both texts have at the same place are printed as kept, the others of either text as removed or added |
| TextDiff.LinesOfReturns | apps/desktop/electron/fileChangeService.ts:95-125 | lines that end in carriage return and line feed are read back |
| TextDiff.LinesOfFeeds | apps/desktop/electron/fileChangeService.ts:95-125 | lines that end in a line feed are read back |
| WindowsCommandLauncher.QuotingRoundTrip | apps/desktop/electron/windowsCommandLauncher.ts:45-93 | reading the built command line gives back executable and arguments |
| WindowsCommandLauncher.QuotingInjective | apps/desktop/electron/windowsCommandLauncher.ts:45-93 | different argument vectors give different lines |
| WindowsCommandLauncher.BuildAcceptsExactly | apps/desktop/electron/windowsCommandLauncher.ts:45-93 | which vectors are accepted, character by character: an executable that is not blank, without shell characters and `..`, and arguments without line breaks and shell characters |
| WindowsCommandLauncher.QuotedExactly | apps/desktop/electron/windowsCommandLauncher.ts:45-59 | an argument is quoted if and only if it is empty or has white space or a quote in it |

## Left out

- SQLite, HTTP, child processes, timers, clocks and random ids: maps, sequences and free choices stand for them.
  New ids (runs are named by the caller, steps and restore points are minted) are assumed fresh.
- SHA-256 is taken as injective (a text stands for its hash); CRC-32 is an arbitrary function.
- Race windows inside one workbench service method, between a read and its transaction: each method is one step.
- Followups, host actions, the planner, tool execution and model turns of the worker: single guards, or an oracle
  that succeeds, fails or times out. The worker's loop is a machine with a place for each service call, because
  what happens between two of its calls is the point; it is not a Dafny loop.
- plan.json, events.jsonl and event payloads: copies of what the tables hold.
- Workspace containment, protected path patterns and symbolic links: guards that may refuse a file at any time.
  Directories are not entries of the file map, and a `..` in a path given straight to the restore point service
  is not resolved. Case-insensitive file systems are not modelled.
- `listRestorePoints`: it rewrites the index without the entries whose file is gone or malformed, and is not modelled
  as a call.
- Labels, reasons and git metadata of restore points: display only.
- `set_plan` with `auto_start` is `SetPlan` followed by `StartRun`.
- The workspace files and the store of restore points are kept apart: no call on a workspace file changes the store.
  The guard for protected paths is not modelled, and it alone does not make sure of that.
- Two workspaces in one restore point store, and edits made by others while an apply is running.
- The commit, iteration and command limits of the pipeline beyond the values an apply passes.
- TextDecoder and UTF-8: the stream parser works on characters, files hold text.
- Abort signals and connection errors of the chat stream; keepalive comments and the sleep of the event stream.
- The allow-list of commands and the choice of the Windows launcher: plain lookups.
- AgentRegistryService, BackendStartupService, Electron IPC, the clients and the routers: plumbing.
- WorkspaceDisk.Disk.WriteFile: a workspace write may lie, but a write of the restore point store either throws or
  is truthful, because only workspace files are read back by the code.
- WorkspaceDisk.Disk.RemoveFile: a removal that returns has removed the file; a write can lie, a removal cannot.
- PatchCoordinator.AgentPatchCoordinator.PreviewAgainAndApprove: a caller of the coordinator, not one of its
  operations; it shows two calls and an approval in a row, and leaves what may happen in between to the lemmas
  on versions.
- TextDiff.DiffRecovers: lines are read back after cutting at line feeds alone, because a carriage return at the end
  of a line would be taken for part of the line end by the diff's own splitting.
- ZipRecords.DosDateTimeRoundTrip: dates outside 1980 to 2107 have no round trip, because the field cannot hold them and
  the writer throws at the first entry; an invalid date is not modelled.
- RestorePoints.CreatesKeepStore: a create whose clean-up fails midway can leave entries without files, which the
  next listing drops; the run-level statement is about creates that return.
- RestorePointService.RestorePointService.RebuildIndexFromDisk: the listing of the directory is handed in, in any order.
- BackupService.BackupService.RestoreFromBackup: says nothing once two backups were begun in the same millisecond and
  share a directory.
- EventStream.EventGenerator: speaks of any finite number of polls; that the database is polled again is not modelled.
