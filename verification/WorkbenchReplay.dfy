/** What one service call keeps when it names the owner of the step it finishes: the tables equal the replayed log, logs
    only grow and are numbered 1, 2, ..., and every status change is one of the allowed edges. */
module WorkbenchReplay {
  import opened Text
  import opened StateMachine
  import opened Workbench
  import TaskManifest

  lemma ReplaySnoc(log: seq<Event>, event: Event)
    ensures Replay(log + [event]) == ReplayOne(Replay(log), event)
  {
    assert Front(log + [event]) == log;
  }

  lemma {:induction false} NumberedMax(log: seq<Event>)
    requires Numbered(log)
    ensures MaxSequence(log) == |log|
    decreases |log|
  {
    if log != [] {
      NumberedMax(Front(log));
    }
  }

  /** Whatever status the event changes, run or step, it moves along an allowed edge. A step event for a step
      that is not in the plan changes nothing. */
  predicate LegalEvent(view: RunView, event: Event) {
    match event.step
    case None =>
      (match StatusAfter(event.kind)
       case None => true
       case Some(target) =>
         if event.kind.RunCreated? then view.status.None?
         else view.status.Some? && AllowedEdge(view.status.value, target))
    case Some(id) =>
      (match event.kind
       case StepStarted => id in view.steps ==> Active in StepTransitions(view.steps[id].status)
       case StepDone => id in view.steps ==> StepCompleted in StepTransitions(view.steps[id].status)
       case StepWasFailed => id in view.steps ==> StepFailed in StepTransitions(view.steps[id].status)
       case _ => true)
  }

  predicate Legal(log: seq<Event>) {
    log == [] || (Legal(Front(log)) && LegalEvent(Replay(Front(log)), Last(log)))
  }

  /** One run's table rows, log and history are in order. */
  ghost predicate Good(db: Db, run: RunId) {
    && ViewOf(db, run) == Replay(LogOf(db, run))
    && Legal(LogOf(db, run))
    && Numbered(LogOf(db, run))
  }

  ghost predicate Inv(db: Db) {
    forall run :: Good(db, run)
  }

  /** Nothing of this run differs. */
  predicate SameRun(db: Db, db': Db, run: RunId) {
    ViewOf(db', run) == ViewOf(db, run) && LogOf(db', run) == LogOf(db, run)
  }

  /** Appending an event whose effect on the tables is `view'` keeps the run in order. */
  lemma AppendGood(db: Db, before: Db, run: RunId, step: Option<StepId>, kind: EventKind)
    requires Good(before, run) && LogOf(db, run) == LogOf(before, run)
    requires var event := Event(|LogOf(before, run)| + 1, step, kind);
      LegalEvent(ViewOf(before, run), event) && ViewOf(db, run) == ReplayOne(ViewOf(before, run), event)
    ensures Good(AppendEvent(db, run, step, kind), run)
    ensures LogOf(AppendEvent(db, run, step, kind), run)
         == LogOf(before, run) + [Event(|LogOf(before, run)| + 1, step, kind)]
  {
    var log := LogOf(before, run);
    var event := Event(|log| + 1, step, kind);
    NumberedMax(log);
    ReplaySnoc(log, event);
    assert Front(log + [event]) == log;
    var db' := AppendEvent(db, run, step, kind);
    assert ViewOf(db', run) == ViewOf(db, run);
  }

  /** A run-level transition along an allowed edge. */
  lemma TransitionRunGood(db: Db, run: RunId, status: RunStatus, kind: EventKind)
    requires Inv(db) && run in db.runs
    requires StatusAfter(kind) == Some(status) && !kind.PlanningStarted? && !kind.RunCreated?
    requires AllowedEdge(db.runs[run].status, status)
    ensures var db' := TransitionRun(db, run, status, kind);
      Inv(db') && Extends(db, db', run) && db'.steps == db.steps
  {
    hide Replay, Legal, MaxSequence;
    var db1 := db.(runs := db.runs[run := db.runs[run].(status := status)]);
    var db' := TransitionRun(db, run, status, kind);
    assert Good(db, run);
    assert ViewOf(db1, run) == ReplayOne(ViewOf(db, run), Event(|LogOf(db, run)| + 1, None, kind));
    AppendGood(db1, db, run, None, kind);
    forall other | other != run ensures Good(db', other) {
      assert Good(db, other);
      assert SameRun(db, db', other);
    }
  }

  /** Only this run's log has grown, and only at its end. */
  ghost predicate Extends(db: Db, db': Db, run: RunId) {
    && LogOf(db, run) <= LogOf(db', run)
    && forall other :: other != run ==> SameRun(db, db', other)
  }

  /** A step-level transition of one of the run's own steps, or of a new step. */
  lemma TransitionStepGood(db: Db, run: RunId, id: StepId, row: StepRow, kind: EventKind)
    requires Inv(db)
    requires row.run == run && (id in db.steps ==> db.steps[id].run == run)
    requires var event := Event(|LogOf(db, run)| + 1, Some(id), kind);
      && LegalEvent(ViewOf(db, run), event)
      && ReplayOne(ViewOf(db, run), event)
         == ViewOf(db, run).(steps := ViewOf(db, run).steps[id := StepView(row.ordinal, row.status, row.attempts)])
    ensures var db' := TransitionStep(db, run, id, row, kind);
      Inv(db') && Extends(db, db', run)
  {
    hide Replay, Legal, LegalEvent, ReplayOne, MaxSequence;
    var db1 := db.(steps := db.steps[id := row]);
    var db' := TransitionStep(db, run, id, row, kind);
    assert Good(db, run);
    assert ViewOf(db1, run).steps == ViewOf(db, run).steps[id := StepView(row.ordinal, row.status, row.attempts)];
    AppendGood(db1, db, run, Some(id), kind);
    forall other | other != run ensures Good(db', other) && SameRun(db, db', other) {
      assert Good(db, other);
      assert ViewOf(db', other).steps == ViewOf(db, other).steps;
      assert SameRun(db, db', other);
    }
  }

  lemma ExtendsTrans(a: Db, b: Db, c: Db, run: RunId)
    requires Extends(a, b, run) && Extends(b, c, run)
    ensures Extends(a, c, run)
  {
    forall other | other != run ensures SameRun(a, c, other) {
      assert SameRun(a, b, other) && SameRun(b, c, other);
    }
  }

  /** Deleting the steps and appending `run.planning_started` agree, because replay clears them too. */
  lemma PlanningGood(db: Db, run: RunId)
    requires Inv(db) && run in db.runs && AllowedEdge(db.runs[run].status, Planning)
    ensures var db' := TransitionRun(DeleteSteps(db, run), run, Planning, PlanningStarted);
      && Inv(db') && Extends(db, db', run) && StepIds(db', run) == {}
      && db'.runs == db.runs[run := db.runs[run].(status := Planning)]
      && forall id :: id in db'.steps <==> id in db.steps && db.steps[id].run != run
  {
    hide Replay, Legal, MaxSequence;
    var db1 := DeleteSteps(db, run);
    var db2 := db1.(runs := db.runs[run := db.runs[run].(status := Planning)]);
    var db' := TransitionRun(db1, run, Planning, PlanningStarted);
    assert Good(db, run);
    assert ViewOf(db2, run) == RunView(Some(Planning), map[]);
    AppendGood(db2, db, run, None, PlanningStarted);
    forall other | other != run ensures Good(db', other) && SameRun(db, db', other) {
      assert Good(db, other);
      assert ViewOf(db', other).steps == ViewOf(db, other).steps;
      assert SameRun(db, db', other);
    }
  }

  lemma {:induction false} InsertStepsGood(db: Db, run: RunId, ids: seq<StepId>, ordinal: nat)
    requires Inv(db)
    requires forall i, j :: 0 <= i < j < |ids| ==> ids[i] != ids[j]
    requires forall i :: 0 <= i < |ids| ==> ids[i] !in db.steps
    ensures Inv(InsertSteps(db, run, ids, ordinal)) && Extends(db, InsertSteps(db, run, ids, ordinal), run)
    decreases |ids|
  {
    hide Replay, Legal, AppendEvent, ViewOf, Good;
    if ids != [] {
      var row := StepRow(run, ordinal, Pending, 0);
      TransitionStepGood(db, run, ids[0], row, StepWasCreated(ordinal));
      var next := TransitionStep(db, run, ids[0], row, StepWasCreated(ordinal));
      TransitionStepRows(db, run, ids[0], row, StepWasCreated(ordinal));
      InsertStepsGood(next, run, ids[1..], ordinal + 1);
      ExtendsTrans(db, next, InsertSteps(next, run, ids[1..], ordinal + 1), run);
    }
  }

  lemma TransitionStepRows(db: Db, run: RunId, id: StepId, row: StepRow, kind: EventKind)
    ensures TransitionStep(db, run, id, row, kind).steps == db.steps[id := row]
    ensures TransitionStep(db, run, id, row, kind).runs == db.runs
  {
  }

  lemma PlannedGood(db: Db, run: RunId, ids: seq<StepId>)
    requires Inv(db) && run in db.runs && Planning in RunTransitions(db.runs[run].status)
    requires IdsInsertable(db, run, ids)
    ensures Inv(PlannedDb(db, run, ids)) && Extends(db, PlannedDb(db, run, ids), run)
  {
    hide Good, TransitionRun, DeleteSteps, InsertSteps, AppendEvent;
    PlanningGood(db, run);
    var planning := TransitionRun(DeleteSteps(db, run), run, Planning, PlanningStarted);
    InsertStepsGood(planning, run, ids, 1);
    var planned := InsertSteps(planning, run, ids, 1);
    TransitionRunGood(planned, run, Ready, PlanReady);
    ExtendsTrans(db, planning, planned, run);
    ExtendsTrans(db, planned, PlannedDb(db, run, ids), run);
  }

  lemma CreateRunGood(db: Db, run: RunId, row: RunRow)
    requires Inv(db) && run !in db.runs && row.status == Created
    ensures var db' := AppendEvent(db.(runs := db.runs[run := row]), run, None, RunCreated);
      Inv(db') && Extends(db, db', run)
  {
    hide Replay, Legal, MaxSequence;
    var db1 := db.(runs := db.runs[run := row]);
    assert Good(db, run);
    assert ViewOf(db1, run).steps == ViewOf(db, run).steps;
    AppendGood(db1, db, run, None, RunCreated);
    forall other | other != run ensures Good(AppendEvent(db1, run, None, RunCreated), other) {
      assert Good(db, other);
      assert SameRun(db, AppendEvent(db1, run, None, RunCreated), other);
    }
  }

  /** Notes and the worker's stray `run.failed` change nothing a replay looks at. */
  lemma AppendNoteGood(db: Db, run: RunId, step: Option<StepId>, kind: EventKind)
    requires Inv(db) && StandaloneEvent(step, kind)
    ensures var db' := AppendEvent(db, run, step, kind);
      Inv(db') && Extends(db, db', run)
  {
    hide Replay, Legal, MaxSequence;
    assert Good(db, run);
    AppendGood(db, db, run, step, kind);
    forall other | other != run ensures Good(AppendEvent(db, run, step, kind), other) {
      assert Good(db, other);
      assert SameRun(db, AppendEvent(db, run, step, kind), other);
    }
  }

  lemma ActivateGood(db: Db, run: RunId, id: StepId)
    requires Inv(db) && run in db.runs && id in db.steps && db.steps[id].run == run
    requires Active in StepTransitions(db.steps[id].status)
    ensures var row := db.steps[id].(status := Active, attempts := db.steps[id].attempts + 1);
            var db1 := TransitionStep(db, run, id, row, StepStarted);
            var db' := db1.(runs := db1.runs[run := db1.runs[run].(currentStep := Some(id))]);
      Inv(db') && Extends(db, db', run)
  {
    hide Replay, Legal, AppendEvent;
    var row := db.steps[id].(status := Active, attempts := db.steps[id].attempts + 1);
    var db1 := TransitionStep(db, run, id, row, StepStarted);
    TransitionStepRows(db, run, id, row, StepStarted);
    TransitionStepGood(db, run, id, row, StepStarted);
    var db' := db1.(runs := db1.runs[run := db1.runs[run].(currentStep := Some(id))]);
    forall any ensures Good(db', any) && SameRun(db1, db', any) {
      assert Good(db1, any);
      assert ViewOf(db', any).steps == ViewOf(db1, any).steps;
      assert SameRun(db1, db', any);
    }
    ExtendsTrans(db, db1, db', run);
  }

  lemma FinishGood(db: Db, id: StepId, status: StepStatus, kind: EventKind)
    requires Inv(db) && id in db.steps && status in StepTransitions(db.steps[id].status)
    requires (status, kind) in {(StepCompleted, StepDone), (StepFailed, StepWasFailed)}
    ensures var run := db.steps[id].run;
            var db' := TransitionStep(db, run, id, db.steps[id].(status := status), kind);
      Inv(db') && Extends(db, db', run)
  {
    hide Replay, Legal, AppendEvent;
    var run := db.steps[id].run;
    assert id in ViewOf(db, run).steps;
    TransitionStepGood(db, run, id, db.steps[id].(status := status), kind);
  }

  // Every call

  /** Every log keeps what it had. */
  ghost predicate LogsGrow(db: Db, db': Db) {
    forall run :: LogOf(db, run) <= LogOf(db', run)
  }

  lemma ExtendsGrow(db: Db, db': Db, run: RunId)
    requires Extends(db, db', run)
    ensures LogsGrow(db, db')
  {
    forall other ensures LogOf(db, other) <= LogOf(db', other) {
      assert other != run ==> SameRun(db, db', other);
    }
  }

  /** The edge calls, and resuming, accepting and recovering, which all move one run. */
  lemma MoveGood(db: Db, run: RunId, status: RunStatus, kind: EventKind)
    requires Inv(db) && run in db.runs
    requires StatusAfter(kind) == Some(status) && !kind.PlanningStarted? && !kind.RunCreated?
    requires AllowedEdge(db.runs[run].status, status)
    ensures Inv(TransitionRun(db, run, status, kind)) && LogsGrow(db, TransitionRun(db, run, status, kind))
  {
    TransitionRunGood(db, run, status, kind);
    ExtendsGrow(db, TransitionRun(db, run, status, kind), run);
  }

  lemma TakeEdgeKeeps(s: State, run: RunId, target: RunStatus, kind: EventKind, ok: bool)
    requires Inv(s.db)
    requires StatusAfter(kind) == Some(target) && !kind.PlanningStarted? && !kind.RunCreated?
    ensures Inv(TakeEdge(s, run, target, kind, ok).0.db) && LogsGrow(s.db, TakeEdge(s, run, target, kind, ok).0.db)
  {
    hide Inv, TransitionRun;
    if run in s.db.runs && target in RunTransitions(s.db.runs[run].status) {
      MoveGood(s.db, run, target, kind);
    }
  }

  lemma ResumeKeeps(s: State, run: RunId, ok: bool)
    requires Inv(s.db)
    ensures Inv(DoResumeRun(s, run, ok).0.db) && LogsGrow(s.db, DoResumeRun(s, run, ok).0.db)
  {
    hide Inv, TransitionRun;
    if run in s.db.runs {
      var status := s.db.runs[run].status;
      if status in {Paused, PausedRecovery} {
        MoveGood(s.db, run, MigrationReviewRequired, BaselineMissing);
        MoveGood(s.db, run, WorkspaceReviewRequired, ChangesDetected);
      }
      if Running in RunTransitions(status) {
        MoveGood(s.db, run, Running, RunResumed);
      }
    }
  }

  lemma AcceptKeeps(s: State, run: RunId, expected: Option<set<TaskManifest.Path>>, ok: bool)
    requires Inv(s.db)
    ensures Inv(DoAcceptChanges(s, run, expected, ok).0.db)
    ensures LogsGrow(s.db, DoAcceptChanges(s, run, expected, ok).0.db)
    ensures Inv(DoAcceptBaseline(s, run, ok).0.db) && LogsGrow(s.db, DoAcceptBaseline(s, run, ok).0.db)
  {
    hide Inv, TransitionRun;
    if run in s.db.runs {
      var status := s.db.runs[run].status;
      if status in {Paused, PausedRecovery, WorkspaceReviewRequired} {
        MoveGood(s.db, run, Paused, ChangesAccepted);
      } else if status == MigrationReviewRequired {
        MoveGood(s.db, run, Paused, BaselineAccepted);
      }
    }
  }

  lemma PlanKeeps(s: State, run: RunId, ids: seq<StepId>, ok: bool)
    requires Inv(s.db)
    ensures Inv(DoSetPlan(s, run, ids, ok).0.db) && LogsGrow(s.db, DoSetPlan(s, run, ids, ok).0.db)
  {
    hide Inv, PlannedDb, IdsInsertable;
    if DoSetPlan(s, run, ids, ok).1.Done? {
      PlannedGood(s.db, run, ids);
      ExtendsGrow(s.db, PlannedDb(s.db, run, ids), run);
    }
  }

  lemma StepCallKeeps(s: State, op: Op, ok: bool)
    requires Inv(s.db) && WellAddressed(s.db, op)
    requires op.ActivateStep? || op.CompleteStep? || op.FailStep?
    ensures Inv(Exec(s, op, ok).0.db) && LogsGrow(s.db, Exec(s, op, ok).0.db)
  {
    hide Inv, TransitionStep, SomeActive;
    if Exec(s, op, ok).1.Done? {
      match op {
        case ActivateStep(run, id) => ActivateGood(s.db, run, id);
        case CompleteStep(run, id) => FinishGood(s.db, id, StepCompleted, StepDone);
        case FailStep(run, id) => FinishGood(s.db, id, StepFailed, StepWasFailed);
      }
      ExtendsGrow(s.db, Exec(s, op, ok).0.db, op.run);
    }
  }

  lemma CreateKeeps(s: State, run: RunId, root: Root, maxSteps: int, ok: bool)
    requires Inv(s.db)
    ensures Inv(DoCreateRun(s, run, root, maxSteps, ok).0.db)
    ensures LogsGrow(s.db, DoCreateRun(s, run, root, maxSteps, ok).0.db)
  {
    hide Inv, AppendEvent;
    if DoCreateRun(s, run, root, maxSteps, ok).1.Done? {
      CreateRunGood(s.db, run, RunRow(Created, maxSteps, root, None));
      ExtendsGrow(s.db, DoCreateRun(s, run, root, maxSteps, ok).0.db, run);
    }
  }

  /** Every call keeps every run in order and every log as a prefix of what it becomes. */
  lemma ExecKeeps(s: State, op: Op, ok: bool)
    requires Inv(s.db) && WellAddressed(s.db, op)
    ensures Inv(Exec(s, op, ok).0.db) && LogsGrow(s.db, Exec(s, op, ok).0.db)
  {
    hide Inv, DoCreateRun, DoSetPlan, DoResumeRun, DoAcceptChanges, DoAcceptBaseline, TransitionRun, AppendEvent;
    match op {
      case CreateRun(run, root, maxSteps) => CreateKeeps(s, run, root, maxSteps, ok);
      case SetPlan(run, ids) => PlanKeeps(s, run, ids, ok);
      case StartRun(run) => TakeEdgeKeeps(s, run, Running, RunStarted, ok);
      case PauseRun(run) => TakeEdgeKeeps(s, run, Paused, RunPaused, ok);
      case ResumeRun(run) => ResumeKeeps(s, run, ok);
      case AcceptChanges(run, expected) => AcceptKeeps(s, run, expected, ok);
      case AcceptBaseline(run) => AcceptKeeps(s, run, None, ok);
      case CancelRun(run) => TakeEdgeKeeps(s, run, Cancelled, RunCancelled, ok);
      case CompleteRun(run) => TakeEdgeKeeps(s, run, Completed, RunCompleted, ok);
      case FailRun(run) => TakeEdgeKeeps(s, run, Failed, RunFailed, ok);
      case RecoverRun(run) =>
        if run in s.db.runs && s.db.runs[run].status == Running {
          MoveGood(s.db, run, PausedRecovery, RunRecovered);
        }
      case Append(run, step, kind) =>
        if StandaloneEvent(step, kind) {
          AppendNoteGood(s.db, run, step, kind);
          ExtendsGrow(s.db, AppendEvent(s.db, run, step, kind), run);
        }
      case Rematerialize(run) =>
      case EditWorkspace(root, edit) =>
      case _ => StepCallKeeps(s, op, ok);
    }
  }

  /** A failed call leaves every table as it was, with two exceptions: a resume that finds no
      manifest or finds drift commits that finding and then raises. */
  lemma FailureChangesNothing(s: State, op: Op, ok: bool)
    requires Exec(s, op, ok).1.Raised?
    requires op.ResumeRun? ==> Exec(s, op, ok).1.error !in {BaselineIsMissing, WorkspaceChanged}
    ensures Exec(s, op, ok).0.db == s.db
  {
  }

  /** Exactly when a completed or failed step leaves the tables equal to the replay: when the
      caller names the run that owns the step. */
  lemma FinishConsistentExactly(s: State, run: RunId, id: StepId, status: StepStatus, kind: EventKind)
    requires Inv(s.db) && (status, kind) in {(StepCompleted, StepDone), (StepFailed, StepWasFailed)}
    requires DoFinishStep(s, run, id, status, kind, true).1.Done?
    ensures Consistent(DoFinishStep(s, run, id, status, kind, true).0.db) <==> s.db.steps[id].run == run
  {
    var db' := DoFinishStep(s, run, id, status, kind, true).0.db;
    var owner := s.db.steps[id].run;
    if owner == run {
      FinishGood(s.db, id, status, kind);
      forall any ensures ViewOf(db', any) == Replay(LogOf(db', any)) {
        assert Good(db', any);
      }
    } else {
      assert Good(s.db, owner);
      assert LogOf(db', owner) == LogOf(s.db, owner);
      assert ViewOf(db', owner).steps[id].status == status;
      assert ViewOf(s.db, owner).steps[id].status == s.db.steps[id].status;
      assert ViewOf(db', owner) != Replay(LogOf(db', owner));
    }
  }

  /** The three edges outside the table are really taken. */
  lemma OffTableEdgesAreTaken(s: State, run: RunId)
    requires run in s.db.runs
    ensures s.db.runs[run].status == Running ==>
      Exec(s, RecoverRun(run), true).0.db.runs[run].status == PausedRecovery
    ensures s.db.runs[run].status in {Paused, PausedRecovery}
            && TaskManifest.Drift(FsOf(s, run), run) !in {None, Some({})} ==>
      Exec(s, AcceptChanges(run, None), true).0.db.runs[run].status == Paused
  {
  }
}
