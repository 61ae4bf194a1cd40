/** Exactly when each call of the service succeeds, told by the statuses it starts from, and what it leaves. */
module WorkbenchCalls {
  import opened Text
  import opened StateMachine
  import opened Workbench
  import WorkbenchWorkerProofs
  import TaskManifest

  // Which statuses a call starts from

  function Startable(): set<RunStatus> {
    {Ready, WaitingReview, Paused, PausedRecovery, WorkspaceReviewRequired, Retrying}
  }

  function Pausable(): set<RunStatus> {
    {Planning, WaitingPlanReview, Ready, Running, WaitingReview, MigrationReviewRequired, WorkspaceReviewRequired}
  }

  function Failable(): set<RunStatus> {
    {Planning, Running, WaitingReview, Paused, PausedRecovery, MigrationReviewRequired, WorkspaceReviewRequired,
     Retrying}
  }

  /** The status table read from the other side: which statuses lead to a status. */
  lemma LeadsTo(status: RunStatus)
    ensures Running in RunTransitions(status) <==> status in Startable()
    ensures Paused in RunTransitions(status) <==> status in Pausable()
    ensures Failed in RunTransitions(status) <==> status in Failable()
    ensures Completed in RunTransitions(status) <==> status in {Running, WaitingReview}
    ensures Cancelled in RunTransitions(status) <==> status !in {Completed, Cancelled}
    ensures Planning in RunTransitions(status) <==>
      status in {Created, WaitingPlanReview, Ready, Paused, PausedRecovery}
  {
  }

  /** And which lead to the statuses that no call takes from the table. */
  lemma LeadsElsewhere(status: RunStatus)
    ensures WaitingPlanReview in RunTransitions(status) <==> status == Planning
    ensures Ready in RunTransitions(status) <==> status in {Planning, WaitingPlanReview}
    ensures WaitingReview in RunTransitions(status) <==> status == Running
    ensures Retrying in RunTransitions(status) <==> status == Failed
    ensures MigrationReviewRequired in RunTransitions(status) <==> status in {Paused, PausedRecovery}
    ensures WorkspaceReviewRequired in RunTransitions(status) <==> status in {Paused, PausedRecovery}
    ensures Created !in RunTransitions(status) && PausedRecovery !in RunTransitions(status)
  {
  }

  /** The same for steps. */
  lemma StepLeadsTo(status: StepStatus)
    ensures Active in StepTransitions(status) <==> status in {Pending, StepWaitingReview, StepRetrying}
    ensures StepCompleted in StepTransitions(status) <==> status in {Active, StepWaitingReview}
    ensures StepFailed in StepTransitions(status) <==> status in {Active, StepRetrying}
    ensures StepWaitingReview in StepTransitions(status) <==> status == Active
    ensures StepRetrying in StepTransitions(status) <==> status == StepFailed
    ensures Skipped in StepTransitions(status) <==> status == Pending
    ensures Rejected in StepTransitions(status) <==> status == StepWaitingReview
    ensures Pending !in StepTransitions(status)
  {
  }

  // Calls on a run

  /** The run has this status now, one event of this kind is added to its log, and nothing else has changed. */
  predicate RunMoved(before: Db, after: Db, run: RunId, status: RunStatus, kind: EventKind) {
    && run in before.runs && after.steps == before.steps
    && after.runs == before.runs[run := before.runs[run].(status := status)]
    && OneMore(before, after, run, None, kind)
  }

  predicate OneMore(before: Db, after: Db, run: RunId, step: Option<StepId>, kind: EventKind) {
    && run in after.logs && |after.logs[run]| == |LogOf(before, run)| + 1
    && Front(after.logs[run]) == LogOf(before, run)
    && Last(after.logs[run]).kind == kind && Last(after.logs[run]).step == step
    && after.logs == before.logs[run := after.logs[run]]
  }

  lemma TransitionMoves(db: Db, run: RunId, status: RunStatus, kind: EventKind)
    requires run in db.runs
    ensures RunMoved(db, TransitionRun(db, run, status, kind), run, status, kind)
  {
    hide MaxSequence;
  }

  lemma EdgeMoves(s: State, run: RunId, target: RunStatus, kind: EventKind, ok: bool)
    ensures var (after, outcome) := TakeEdge(s, run, target, kind, ok);
      && (outcome.Done? <==> run in s.db.runs && target in RunTransitions(s.db.runs[run].status) && ok)
      && (outcome.Done? ==> RunMoved(s.db, after.db, run, target, kind) && after.disk == s.disk)
      && (outcome.Raised? ==> after == s)
  {
    hide TransitionRun, RunTransitions, RunMoved;
    if run in s.db.runs {
      TransitionMoves(s.db, run, target, kind);
    }
  }

  /** Starting succeeds exactly for a run with a plan in one of the startable statuses, and then the run is running. */
  lemma StartExactly(s: State, run: RunId, ok: bool)
    ensures var (after, outcome) := Exec(s, StartRun(run), ok);
      && (outcome.Done? <==>
          run in s.db.runs && ok && s.db.runs[run].status in Startable()
          && exists id :: id in s.db.steps && s.db.steps[id].run == run)
      && (outcome.Done? ==> RunMoved(s.db, after.db, run, Running, RunStarted) && after.disk == s.disk)
      && (outcome.Raised? ==> after == s)
  {
    EdgeMoves(s, run, Running, RunStarted, ok);
    if run in s.db.runs {
      LeadsTo(s.db.runs[run].status);
    }
    hide TakeEdge, RunTransitions, RunMoved, Startable;
    HasPlan(s.db, run);
  }

  lemma HasPlan(db: Db, run: RunId)
    ensures StepIds(db, run) != {} <==> exists id :: id in db.steps && db.steps[id].run == run
  {
    if id :| id in db.steps && db.steps[id].run == run {
      assert id in StepIds(db, run);
    }
  }

  /** Pausing, cancelling, completing and failing: each succeeds exactly from these statuses, and leads to the status it
      names. */
  lemma EndsExactly(s: State, run: RunId, ok: bool)
    ensures var (after, outcome) := Exec(s, PauseRun(run), ok);
      && (outcome.Done? <==> run in s.db.runs && ok && s.db.runs[run].status in Pausable())
      && (outcome.Done? ==> RunMoved(s.db, after.db, run, Paused, RunPaused) && after.disk == s.disk)
      && (outcome.Raised? ==> after == s)
    ensures var (after, outcome) := Exec(s, CancelRun(run), ok);
      && (outcome.Done? <==> run in s.db.runs && ok && s.db.runs[run].status !in {Completed, Cancelled})
      && (outcome.Done? ==> RunMoved(s.db, after.db, run, Cancelled, RunCancelled) && after.disk == s.disk)
      && (outcome.Raised? ==> after == s)
    ensures var (after, outcome) := Exec(s, CompleteRun(run), ok);
      && (outcome.Done? <==> run in s.db.runs && ok && s.db.runs[run].status in {Running, WaitingReview})
      && (outcome.Done? ==> RunMoved(s.db, after.db, run, Completed, RunCompleted) && after.disk == s.disk)
      && (outcome.Raised? ==> after == s)
    ensures var (after, outcome) := Exec(s, FailRun(run), ok);
      && (outcome.Done? <==> run in s.db.runs && ok && s.db.runs[run].status in Failable())
      && (outcome.Done? ==> RunMoved(s.db, after.db, run, Failed, RunFailed) && after.disk == s.disk)
      && (outcome.Raised? ==> after == s)
  {
    EdgeMoves(s, run, Paused, RunPaused, ok);
    EdgeMoves(s, run, Cancelled, RunCancelled, ok);
    EdgeMoves(s, run, Completed, RunCompleted, ok);
    EdgeMoves(s, run, Failed, RunFailed, ok);
    if run in s.db.runs {
      LeadsTo(s.db.runs[run].status);
    }
    hide TakeEdge, RunTransitions, RunMoved, Pausable, Failable;
  }

  /** Recovery moves exactly the running runs. */
  lemma RecoverExactly(s: State, run: RunId, ok: bool)
    ensures var (after, outcome) := Exec(s, RecoverRun(run), ok);
      var running := run in s.db.runs && s.db.runs[run].status == Running;
      && (outcome.Done? <==> running ==> ok)
      && after.disk == s.disk
      && if running && ok then RunMoved(s.db, after.db, run, PausedRecovery, RunRecovered) else after == s
  {
    hide TransitionRun, RunMoved;
    if run in s.db.runs {
      TransitionMoves(s.db, run, PausedRecovery, RunRecovered);
    }
  }

  /** A new run is created exactly in an existing workspace and under a new id; its manifest then shows no drift. */
  lemma CreateExactly(s: State, run: RunId, root: Root, maxSteps: int, ok: bool)
    ensures var (after, outcome) := Exec(s, CreateRun(run, root, maxSteps), ok);
      && (outcome.Done? <==> root in s.disk && run !in s.db.runs && ok)
      && (outcome.Done? ==>
          && after.db.runs == s.db.runs[run := RunRow(Created, maxSteps, root, None)]
          && after.db.steps == s.db.steps && OneMore(s.db, after.db, run, None, RunCreated)
          && TaskManifest.TaskPath(run) in FsOf(after, run)
          && TaskManifest.Drift(FsOf(after, run), run) == Some({}))
      && (outcome.Raised? ==> after.db == s.db)
  {
    if root in s.disk {
      TaskManifest.NoDriftAfterMaterialize(s.disk[root], run);
    }
    hide MaxSequence, TaskManifest.Drift, TaskManifest.Materialize, TaskManifest.TaskPath;
  }

  /** The ids are new to the step table, or in use by this run alone, and different. */
  predicate Insertable(db: Db, run: RunId, ids: seq<StepId>) {
    && (forall k :: 0 <= k < |ids| && ids[k] in db.steps ==> db.steps[ids[k]].run == run)
    && (forall j, k :: 0 <= j < k < |ids| ==> ids[j] != ids[k])
  }

  lemma PlanDoneExactly(s: State, run: RunId, ids: seq<StepId>, ok: bool)
    ensures var (after, outcome) := Exec(s, SetPlan(run, ids), ok);
      && (outcome.Done? <==>
          && run in s.db.runs && ok && Insertable(s.db, run, ids)
          && s.db.runs[run].status in {Created, WaitingPlanReview, Ready, Paused, PausedRecovery})
      && (outcome.Done? ==> after == Materialized(s.(db := PlannedDb(s.db, run, ids)), run))
      && (outcome.Raised? ==> after == s)
  {
    if run in s.db.runs {
      LeadsTo(s.db.runs[run].status);
    }
    SameInsertable(s.db, run, ids);
    hide PlannedDb, RunTransitions, Materialized, IdsInsertable, Insertable;
  }

  lemma SameInsertable(db: Db, run: RunId, ids: seq<StepId>)
    ensures IdsInsertable(db, run, ids) == Insertable(db, run, ids)
  {
  }

  /** A run is planned exactly from these statuses with insertable ids. It is then ready, its steps are the planned
      ones, numbered in order and pending, the steps of other runs are as before, and the manifest shows no drift. */
  lemma PlanExactly(s: State, run: RunId, ids: seq<StepId>, ok: bool)
    ensures var (after, outcome) := Exec(s, SetPlan(run, ids), ok);
      && (outcome.Done? <==>
          && run in s.db.runs && ok && Insertable(s.db, run, ids)
          && s.db.runs[run].status in {Created, WaitingPlanReview, Ready, Paused, PausedRecovery})
      && (outcome.Done? ==>
          && after.db.runs == s.db.runs[run := s.db.runs[run].(status := Ready)]
          && (forall id :: id in after.db.steps <==> id in ids || (id in s.db.steps && s.db.steps[id].run != run))
          && (forall k :: 0 <= k < |ids| ==> after.db.steps[ids[k]] == StepRow(run, k + 1, Pending, 0))
          && (forall id :: id in after.db.steps && id !in ids ==> after.db.steps[id] == s.db.steps[id])
          && TaskManifest.TaskPath(run) in FsOf(after, run)
          && TaskManifest.Drift(FsOf(after, run), run) == Some({}))
      && (outcome.Raised? ==> after == s)
  {
    PlanDoneExactly(s, run, ids, ok);
    SameInsertable(s.db, run, ids);
    hide Exec, PlannedDb, Materialized, FsOf, Insertable, IdsInsertable, TaskManifest.Drift, TaskManifest.TaskPath;
    if Exec(s, SetPlan(run, ids), ok).1.Done? {
      WorkbenchWorkerProofs.PlanRows(s.db, run, ids);
      PlannedRuns(s.db, run, ids);
      PlannedManifest(s, run, ids);
    }
  }

  lemma PlannedManifest(s: State, run: RunId, ids: seq<StepId>)
    requires run in s.db.runs
    ensures var after := Materialized(s.(db := PlannedDb(s.db, run, ids)), run);
      && after.db == PlannedDb(s.db, run, ids)
      && TaskManifest.TaskPath(run) in FsOf(after, run)
      && TaskManifest.Drift(FsOf(after, run), run) == Some({})
  {
    var planned := s.(db := PlannedDb(s.db, run, ids));
    hide PlannedDb, TaskManifest.Drift, TaskManifest.TaskPath;
    TaskManifest.NoDriftAfterMaterialize(FsOf(planned, run), run);
  }

  lemma PlannedRuns(db: Db, run: RunId, ids: seq<StepId>)
    requires run in db.runs
    ensures PlannedDb(db, run, ids).runs == db.runs[run := db.runs[run].(status := Ready)]
  {
    hide MaxSequence;
  }

  // Calls on a step

  /** The step has this row now, one event is added to the log of the named run, and no other step has changed. */
  predicate StepMoved(before: Db, after: Db, run: RunId, id: StepId, row: StepRow, kind: EventKind) {
    after.steps == before.steps[id := row] && OneMore(before, after, run, Some(id), kind)
  }

  lemma StepTransitionMoves(db: Db, run: RunId, id: StepId, row: StepRow, kind: EventKind)
    ensures StepMoved(db, TransitionStep(db, run, id, row, kind), run, id, row, kind)
    ensures TransitionStep(db, run, id, row, kind).runs == db.runs
  {
    hide MaxSequence;
  }

  /** A step is started exactly when it belongs to the run, waits for it and no other step of the run is active; it is
      then active with one more attempt, and the current one. */
  lemma ActivateExactly(s: State, run: RunId, id: StepId, ok: bool)
    ensures var (after, outcome) := Exec(s, ActivateStep(run, id), ok);
      && (outcome.Done? <==>
          && run in s.db.runs && id in s.db.steps && s.db.steps[id].run == run && ok
          && s.db.steps[id].status in {Pending, StepWaitingReview, StepRetrying} && !SomeActive(s.db, run))
      && (outcome.Done? ==>
          var row := s.db.steps[id];
          && StepMoved(s.db, after.db, run, id, row.(status := Active, attempts := row.attempts + 1), StepStarted)
          && after.db.runs == s.db.runs[run := s.db.runs[run].(currentStep := Some(id))] && after.disk == s.disk)
      && (outcome.Raised? ==> after == s)
  {
    hide TransitionStep, StepMoved, SomeActive;
    if id in s.db.steps {
      var row := s.db.steps[id];
      StepLeadsTo(row.status);
      StepTransitionMoves(s.db, run, id, row.(status := Active, attempts := row.attempts + 1), StepStarted);
      MovedOn(s.db, run, id, row.(status := Active, attempts := row.attempts + 1));
    }
  }

  lemma MovedOn(db: Db, run: RunId, id: StepId, row: StepRow)
    ensures var moved := TransitionStep(db, run, id, row, StepStarted);
      forall runs :: StepMoved(db, moved.(runs := runs), run, id, row, StepStarted)
  {
    hide MaxSequence;
  }

  /** Completing and failing a step: exactly from these statuses, whatever the run is doing and whoever owns the
      step. */
  lemma FinishExactly(s: State, run: RunId, id: StepId, ok: bool)
    ensures var (after, outcome) := Exec(s, CompleteStep(run, id), ok);
      && (outcome.Done? <==> id in s.db.steps && ok && s.db.steps[id].status in {Active, StepWaitingReview})
      && (outcome.Done? ==>
          && StepMoved(s.db, after.db, run, id, s.db.steps[id].(status := StepCompleted), StepDone)
          && after.db.runs == s.db.runs && after.disk == s.disk)
      && (outcome.Raised? ==> after == s)
    ensures var (after, outcome) := Exec(s, FailStep(run, id), ok);
      && (outcome.Done? <==> id in s.db.steps && ok && s.db.steps[id].status in {Active, StepRetrying})
      && (outcome.Done? ==>
          && StepMoved(s.db, after.db, run, id, s.db.steps[id].(status := StepFailed), StepWasFailed)
          && after.db.runs == s.db.runs && after.disk == s.disk)
      && (outcome.Raised? ==> after == s)
  {
    hide TransitionStep, StepMoved;
    if id in s.db.steps {
      var row := s.db.steps[id];
      StepLeadsTo(row.status);
      StepTransitionMoves(s.db, run, id, row.(status := StepCompleted), StepDone);
      StepTransitionMoves(s.db, run, id, row.(status := StepFailed), StepWasFailed);
    }
  }

  /** Notes, and the failure note of a step, are the only events added on their own; they change nothing but the log. */
  lemma AppendExactly(s: State, run: RunId, step: Option<StepId>, kind: EventKind, ok: bool)
    ensures var (after, outcome) := Exec(s, Append(run, step, kind), ok);
      && (outcome.Done? <==> run in s.db.runs && ok && (kind == Note || (kind == RunFailed && step != None)))
      && (outcome.Done? ==>
          && after.db.runs == s.db.runs && after.db.steps == s.db.steps && after.disk == s.disk
          && OneMore(s.db, after.db, run, step, kind))
      && (outcome.Raised? ==> after == s)
  {
    AppendMoves(s.db, run, step, kind);
    hide AppendEvent, OneMore;
  }

  lemma AppendMoves(db: Db, run: RunId, step: Option<StepId>, kind: EventKind)
    ensures var after := AppendEvent(db, run, step, kind);
      after.runs == db.runs && after.steps == db.steps && OneMore(db, after, run, step, kind)
  {
    hide MaxSequence;
  }

  // The files

  /** Of the files on disk at most the manifest of this run has changed. */
  ghost predicate OnlyManifest(before: State, after: State, root: Root, run: RunId) {
    && after.disk.Keys == before.disk.Keys + (if after.disk == before.disk then {} else {root})
    && (forall other :: other in before.disk && other != root ==> after.disk[other] == before.disk[other])
    && AgreeOutside(if root in after.disk then after.disk[root] else map[],
                    if root in before.disk then before.disk[root] else map[], {TaskManifest.TaskPath(run)})
  }

  lemma WithManifest(s: State, run: RunId)
    requires run in s.db.runs
    ensures OnlyManifest(s, Materialized(s, run), s.db.runs[run].root, run)
    ensures TaskManifest.TaskPath(run) in FsOf(Materialized(s, run), run)
  {
    hide TaskManifest.TaskPath, TaskManifest.Snapshot;
  }

  lemma WithoutManifest(s: State, run: RunId)
    requires run in s.db.runs
    ensures var after := WithFs(s, run, FsOf(s, run) - {TaskManifest.TaskPath(run)});
      OnlyManifest(s, after, s.db.runs[run].root, run) && TaskManifest.TaskPath(run) !in FsOf(after, run)
  {
    hide TaskManifest.TaskPath;
  }

  /** A run that could not be created leaves no manifest behind, and no other file has changed. */
  lemma NotCreated(s: State, run: RunId, root: Root, maxSteps: int, ok: bool)
    requires Exec(s, CreateRun(run, root, maxSteps), ok).1.Raised? && root in s.disk
    ensures var after := Exec(s, CreateRun(run, root, maxSteps), ok).0;
      OnlyManifest(s, after, root, run) && TaskManifest.TaskPath(run) !in after.disk[root]
  {
    hide TaskManifest.TaskPath;
  }

  /** A first manifest whose acceptance could not be committed is gone again; no other file has changed. */
  lemma BaselineManifest(s: State, run: RunId, ok: bool)
    requires run in s.db.runs
    ensures var (after, outcome) := Exec(s, AcceptBaseline(run), ok);
      && OnlyManifest(s, after, s.db.runs[run].root, run)
      && (outcome == Raised(CommitFailed) ==> TaskManifest.TaskPath(run) !in FsOf(after, run))
      && (outcome == Raised(NotRequired) ==> after == s)
  {
    WithoutManifest(s, run);
    SameManifest(s, s, run);
    MaterializedSame(s, run, BaselineAccepted);
    hide OnlyManifest, Materialized, WithFs, FsOf, TransitionRun, TaskManifest.TaskPath;
  }

  /** Accepting drift changes no file but the manifest, also where it raises. */
  lemma AcceptedManifest(s: State, run: RunId, expected: Option<set<TaskManifest.Path>>, ok: bool)
    requires run in s.db.runs
    ensures OnlyManifest(s, Exec(s, AcceptChanges(run, expected), ok).0, s.db.runs[run].root, run)
  {
    WithManifest(s, run);
    SameManifest(s, s, run);
    MaterializedSame(s, run, ChangesAccepted);
    hide OnlyManifest, Materialized, FsOf, TransitionRun, TaskManifest.TaskPath, TaskManifest.Drift;
  }

  /** Writing the manifest anew, too; and then nothing has drifted. */
  lemma RematerializeExactly(s: State, run: RunId, ok: bool)
    requires run in s.db.runs
    ensures var (after, outcome) := Exec(s, Rematerialize(run), ok);
      && outcome.Done? && after.db == s.db && OnlyManifest(s, after, s.db.runs[run].root, run)
      && TaskManifest.TaskPath(run) in FsOf(after, run) && TaskManifest.Drift(FsOf(after, run), run) == Some({})
  {
    WithManifest(s, run);
    TaskManifest.NoDriftAfterMaterialize(FsOf(s, run), run);
    hide OnlyManifest, TaskManifest.TaskPath, TaskManifest.Drift, TaskManifest.Materialize;
  }

  lemma SameManifest(s: State, after: State, run: RunId)
    requires run in s.db.runs && after.disk == s.disk
    ensures OnlyManifest(s, after, s.db.runs[run].root, run)
  {
  }

  lemma MaterializedSame(s: State, run: RunId, kind: EventKind)
    requires run in s.db.runs
    ensures var db := TransitionRun(s.db, run, Paused, kind);
      && run in db.runs && db.runs[run].root == s.db.runs[run].root
      && Materialized(s.(db := db), run).disk == Materialized(s, run).disk
      && OnlyManifest(s, Materialized(s.(db := db), run), s.db.runs[run].root, run)
      && OnlyManifest(s, Materialized(s, run).(db := db), s.db.runs[run].root, run)
  {
    hide MaxSequence, TaskManifest.Materialize;
    WithManifest(s, run);
  }
}
