/** Whole histories of service calls, of any callers: what the tables and the logs always have in common. */
module WorkbenchHistories {
  import opened Text
  import opened StateMachine
  import opened Workbench
  import opened WorkbenchReplay
  import WorkbenchWorkerProofs
  import TaskManifest

  datatype Call = Call(op: Op, ok: bool)

  function Start(disk: map<Root, TaskManifest.Fs>): State {
    State(Db(map[], map[], map[]), disk)
  }

  function History(disk: map<Root, TaskManifest.Fs>, calls: seq<Call>): State {
    if calls == [] then Start(disk)
    else Exec(History(disk, Front(calls)), Last(calls).op, Last(calls).ok).0
  }

  // Steps finished under another run's name

  predicate Finishes(op: Op) {
    op.CompleteStep? || op.FailStep?
  }

  /** The call finished a step of a run other than the one it named. */
  predicate GoesAstray(s: State, call: Call) {
    && Finishes(call.op) && Exec(s, call.op, call.ok).1.Done?
    && call.op.id in s.db.steps && s.db.steps[call.op.id].run != call.op.run
  }

  predicate Replans(s: State, call: Call, run: RunId) {
    call.op.SetPlan? && call.op.run == run && Exec(s, call.op, call.ok).1.Done?
  }

  /** A step of the run was finished under another run's name, and the run was not planned anew since. */
  predicate Strayed(disk: map<Root, TaskManifest.Fs>, calls: seq<Call>, run: RunId) {
    if calls == [] then false
    else
      var s, call := History(disk, Front(calls)), Last(calls);
      if Replans(s, call, run) then false
      else (GoesAstray(s, call) && s.db.steps[call.op.id].run == run) || Strayed(disk, Front(calls), run)
  }

  /** The steps finished under another run's name, with the status they had before. */
  type Strays = map<StepId, StepStatus>

  function StraysAfter(s: State, strays: Strays, call: Call): Strays {
    if GoesAstray(s, call) then strays[call.op.id := s.db.steps[call.op.id].status]
    else if call.op.SetPlan? && Replans(s, call, call.op.run) then Surviving(s.db, strays, call.op.run)
    else strays
  }

  function Surviving(db: Db, strays: Strays, run: RunId): Strays {
    map id | id in strays && id in db.steps && db.steps[id].run != run :: strays[id]
  }

  function StraysOf(disk: map<Root, TaskManifest.Fs>, calls: seq<Call>): Strays {
    if calls == [] then map[]
    else StraysAfter(History(disk, Front(calls)), StraysOf(disk, Front(calls)), Last(calls))
  }

  /** The tables as they would be had the stray calls only written their events. */
  function Unfinished(db: Db, strays: Strays): (r: Db)
    ensures r.runs == db.runs && r.logs == db.logs && r.steps.Keys == db.steps.Keys
  {
    db.(steps := map id | id in db.steps ::
          if id in strays then db.steps[id].(status := strays[id]) else db.steps[id])
  }

  /** A stray step is finished in the tables and was not finished before. */
  predicate StraysFit(db: Db, strays: Strays) {
    forall id :: id in strays ==>
      && id in db.steps && db.steps[id].status in {StepCompleted, StepFailed}
      && strays[id] !in {StepCompleted, StepFailed}
  }

  ghost predicate InOrder(db: Db, strays: Strays) {
    StraysFit(db, strays) && WorkbenchReplay.Inv(Unfinished(db, strays))
  }

  // What the calls do to the unfinished tables

  predicate StepOrPlan(op: Op) {
    op.SetPlan? || op.ActivateStep? || Finishes(op)
  }

  lemma AppendUnfinished(db: Db, strays: Strays, run: RunId, step: Option<StepId>, kind: EventKind)
    ensures Unfinished(AppendEvent(db, run, step, kind), strays) == AppendEvent(Unfinished(db, strays), run, step, kind)
  {
    assert LogOf(Unfinished(db, strays), run) == LogOf(db, run);
  }

  lemma TransitionUnfinished(db: Db, strays: Strays, run: RunId, status: RunStatus, kind: EventKind)
    requires run in db.runs
    ensures TransitionRun(db, run, status, kind).steps == db.steps
    ensures Unfinished(TransitionRun(db, run, status, kind), strays)
         == TransitionRun(Unfinished(db, strays), run, status, kind)
  {
    hide AppendEvent;
    var moved := db.(runs := db.runs[run := db.runs[run].(status := status)]);
    AppendUnfinished(moved, strays, run, None, kind);
    AppendSteps(moved, run, None, kind);
    assert Unfinished(moved, strays) == Unfinished(db, strays).(runs := moved.runs);
  }

  lemma AppendSteps(db: Db, run: RunId, step: Option<StepId>, kind: EventKind)
    ensures AppendEvent(db, run, step, kind).steps == db.steps && AppendEvent(db, run, step, kind).runs == db.runs
  {
  }

  /** What a call makes of the tables leaves the steps alone and does the same to the unfinished tables. */
  ghost predicate SameEffect(db: Db, strays: Strays, after: Db, other: Db) {
    after.steps == db.steps && Unfinished(after, strays) == other
  }

  lemma EdgeUnfinished(s: State, strays: Strays, run: RunId, target: RunStatus, kind: EventKind, ok: bool)
    ensures var u := s.(db := Unfinished(s.db, strays));
      SameEffect(s.db, strays, TakeEdge(s, run, target, kind, ok).0.db, TakeEdge(u, run, target, kind, ok).0.db)
  {
    hide TransitionRun, Unfinished, RunTransitions;
    if run in s.db.runs {
      TransitionUnfinished(s.db, strays, run, target, kind);
    }
  }

  lemma ResumeUnfinished(s: State, strays: Strays, run: RunId, ok: bool)
    ensures var u := s.(db := Unfinished(s.db, strays));
      SameEffect(s.db, strays, DoResumeRun(s, run, ok).0.db, DoResumeRun(u, run, ok).0.db)
  {
    hide TransitionRun, Unfinished, RunTransitions, TaskManifest.Drift;
    if run in s.db.runs {
      TransitionUnfinished(s.db, strays, run, MigrationReviewRequired, BaselineMissing);
      TransitionUnfinished(s.db, strays, run, WorkspaceReviewRequired, ChangesDetected);
      TransitionUnfinished(s.db, strays, run, Running, RunResumed);
    }
  }

  lemma AcceptUnfinished(s: State, strays: Strays, run: RunId, expected: Option<set<TaskManifest.Path>>, ok: bool)
    ensures var u := s.(db := Unfinished(s.db, strays));
      SameEffect(s.db, strays, DoAcceptChanges(s, run, expected, ok).0.db, DoAcceptChanges(u, run, expected, ok).0.db)
  {
    hide TransitionRun, Unfinished, TaskManifest.Drift, TaskManifest.Materialize;
    if run in s.db.runs {
      TransitionUnfinished(s.db, strays, run, Paused, ChangesAccepted);
    }
  }

  lemma BaselineUnfinished(s: State, strays: Strays, run: RunId, ok: bool)
    ensures var u := s.(db := Unfinished(s.db, strays));
      && SameEffect(s.db, strays, DoAcceptBaseline(s, run, ok).0.db, DoAcceptBaseline(u, run, ok).0.db)
      && SameEffect(s.db, strays, DoRecoverRun(s, run, ok).0.db, DoRecoverRun(u, run, ok).0.db)
  {
    hide TransitionRun, Unfinished, TaskManifest.Materialize;
    if run in s.db.runs {
      TransitionUnfinished(s.db, strays, run, Paused, BaselineAccepted);
      TransitionUnfinished(s.db, strays, run, PausedRecovery, RunRecovered);
    }
  }

  lemma StartUnfinished(s: State, strays: Strays, run: RunId, ok: bool)
    ensures var u := s.(db := Unfinished(s.db, strays));
      SameEffect(s.db, strays, DoStartRun(s, run, ok).0.db, DoStartRun(u, run, ok).0.db)
  {
    SameStepIds(s.db, strays, run);
    hide Unfinished, TakeEdge, StepIds;
    EdgeUnfinished(s, strays, run, Running, RunStarted, ok);
  }

  lemma CreateCallUnfinished(s: State, strays: Strays, run: RunId, root: Root, maxSteps: int, ok: bool)
    ensures var u := s.(db := Unfinished(s.db, strays));
      SameEffect(s.db, strays, DoCreateRun(s, run, root, maxSteps, ok).0.db,
                 DoCreateRun(u, run, root, maxSteps, ok).0.db)
  {
    hide AppendEvent, Unfinished;
    CreateUnfinished(s.db, strays, run, RunRow(Created, maxSteps, root, None));
  }

  lemma NoteUnfinished(s: State, strays: Strays, run: RunId, step: Option<StepId>, kind: EventKind, ok: bool)
    ensures var u := s.(db := Unfinished(s.db, strays));
      SameEffect(s.db, strays, DoAppend(s, run, step, kind, ok).0.db, DoAppend(u, run, step, kind, ok).0.db)
  {
    hide AppendEvent, Unfinished;
    AppendUnfinished(s.db, strays, run, step, kind);
    AppendSteps(s.db, run, step, kind);
  }

  lemma OtherCalls(s: State, strays: Strays, op: Op, ok: bool)
    requires !StepOrPlan(op)
    ensures var u := s.(db := Unfinished(s.db, strays));
      SameEffect(s.db, strays, Exec(s, op, ok).0.db, Exec(u, op, ok).0.db)
  {
    hide Unfinished, TakeEdge, DoResumeRun, DoAcceptChanges, DoAcceptBaseline, DoRecoverRun, DoStartRun, DoCreateRun;
    hide DoAppend, TaskManifest.Materialize;
    match op {
      case CreateRun(run, root, maxSteps) => CreateCallUnfinished(s, strays, run, root, maxSteps, ok);
      case StartRun(run) => StartUnfinished(s, strays, run, ok);
      case PauseRun(run) => EdgeUnfinished(s, strays, run, Paused, RunPaused, ok);
      case ResumeRun(run) => ResumeUnfinished(s, strays, run, ok);
      case AcceptChanges(run, expected) => AcceptUnfinished(s, strays, run, expected, ok);
      case AcceptBaseline(run) => BaselineUnfinished(s, strays, run, ok);
      case CancelRun(run) => EdgeUnfinished(s, strays, run, Cancelled, RunCancelled, ok);
      case CompleteRun(run) => EdgeUnfinished(s, strays, run, Completed, RunCompleted, ok);
      case FailRun(run) => EdgeUnfinished(s, strays, run, Failed, RunFailed, ok);
      case RecoverRun(run) => BaselineUnfinished(s, strays, run, ok);
      case Append(run, step, kind) => NoteUnfinished(s, strays, run, step, kind, ok);
      case _ =>
    }
  }

  lemma SameStepIds(db: Db, strays: Strays, run: RunId)
    ensures StepIds(Unfinished(db, strays), run) == StepIds(db, run)
  {
  }

  lemma CreateUnfinished(db: Db, strays: Strays, run: RunId, row: RunRow)
    ensures var created := db.(runs := db.runs[run := row]);
      && AppendEvent(created, run, None, RunCreated).steps == db.steps
      && Unfinished(AppendEvent(created, run, None, RunCreated), strays)
         == AppendEvent(Unfinished(db, strays).(runs := db.runs[run := row]), run, None, RunCreated)
  {
    hide AppendEvent;
    var created := db.(runs := db.runs[run := row]);
    AppendUnfinished(created, strays, run, None, RunCreated);
    AppendSteps(created, run, None, RunCreated);
    assert Unfinished(created, strays) == Unfinished(db, strays).(runs := created.runs);
  }

  // Planning

  lemma RowUnfinished(db: Db, strays: Strays, run: RunId, id: StepId, row: StepRow, kind: EventKind)
    requires id !in strays
    ensures Unfinished(TransitionStep(db, run, id, row, kind), strays)
         == TransitionStep(Unfinished(db, strays), run, id, row, kind)
  {
    hide AppendEvent;
    var moved := db.(steps := db.steps[id := row]);
    AppendUnfinished(moved, strays, run, Some(id), kind);
    assert Unfinished(moved, strays) == Unfinished(db, strays).(steps := Unfinished(db, strays).steps[id := row]);
  }

  lemma {:induction false} InsertUnfinished(db: Db, strays: Strays, run: RunId, ids: seq<StepId>, ordinal: nat)
    requires forall k :: 0 <= k < |ids| ==> ids[k] !in strays
    ensures Unfinished(InsertSteps(db, run, ids, ordinal), strays)
         == InsertSteps(Unfinished(db, strays), run, ids, ordinal)
    decreases |ids|
  {
    hide TransitionStep, Unfinished;
    if ids != [] {
      var row := StepRow(run, ordinal, Pending, 0);
      RowUnfinished(db, strays, run, ids[0], row, StepWasCreated(ordinal));
      var next := TransitionStep(db, run, ids[0], row, StepWasCreated(ordinal));
      InsertUnfinished(next, strays, run, ids[1..], ordinal + 1);
    }
  }

  lemma DeleteUnfinished(db: Db, strays: Strays, run: RunId)
    ensures Unfinished(DeleteSteps(db, run), Surviving(db, strays, run)) == DeleteSteps(Unfinished(db, strays), run)
  {
  }

  lemma PlanUnfinished(db: Db, strays: Strays, run: RunId, ids: seq<StepId>)
    requires run in db.runs && IdsInsertable(db, run, ids)
    ensures Unfinished(PlannedDb(db, run, ids), Surviving(db, strays, run))
         == PlannedDb(Unfinished(db, strays), run, ids)
    ensures IdsInsertable(Unfinished(db, strays), run, ids)
  {
    hide Unfinished, Surviving, InsertSteps, DeleteSteps, TransitionRun, IdsInsertable;
    var left := Surviving(db, strays, run);
    DeleteUnfinished(db, strays, run);
    InsertableUnfinished(db, strays, run, ids);
    var planning := TransitionRun(DeleteSteps(db, run), run, Planning, PlanningStarted);
    TransitionUnfinished(DeleteSteps(db, run), left, run, Planning, PlanningStarted);
    StillThere(DeleteSteps(db, run), run, Planning, PlanningStarted);
    InsertUnfinished(planning, left, run, ids, 1);
    TransitionUnfinished(InsertSteps(planning, run, ids, 1), left, run, Ready, PlanReady);
  }

  lemma InsertableUnfinished(db: Db, strays: Strays, run: RunId, ids: seq<StepId>)
    requires IdsInsertable(db, run, ids)
    ensures IdsInsertable(Unfinished(db, strays), run, ids)
    ensures forall k :: 0 <= k < |ids| ==> ids[k] !in Surviving(db, strays, run)
  {
  }

  lemma StillThere(db: Db, run: RunId, status: RunStatus, kind: EventKind)
    requires run in db.runs
    ensures run in TransitionRun(db, run, status, kind).runs
  {
  }

  // Steps

  /** A step's row after a call has moved it. */
  function Moved(row: StepRow, op: Op): StepRow {
    if op.ActivateStep? then row.(status := Active, attempts := row.attempts + 1)
    else row.(status := if op.CompleteStep? then StepCompleted else StepFailed)
  }

  function KindOf(op: Op): EventKind {
    if op.ActivateStep? then StepStarted else if op.CompleteStep? then StepDone else StepWasFailed
  }

  /** What a step call that is done does to the tables. */
  lemma StepCallEffect(s: State, op: Op, ok: bool)
    requires (op.ActivateStep? || Finishes(op)) && Exec(s, op, ok).1.Done?
    ensures op.id in s.db.steps && (op.ActivateStep? ==> op.run in s.db.runs && s.db.steps[op.id].run == op.run)
    ensures var row := Moved(s.db.steps[op.id], op);
            var db' := TransitionStep(s.db, op.run, op.id, row, KindOf(op));
      && row.status in StepTransitions(s.db.steps[op.id].status)
      && Exec(s, op, ok).0.db
         == if op.ActivateStep? then db'.(runs := db'.runs[op.run := db'.runs[op.run].(currentStep := Some(op.id))])
            else db'
  {
    hide AppendEvent, SomeActive, LogOf;
  }

  /** An event for a step of another run changes nothing that its own run's replay looks at. */
  lemma StrayEventGood(db: Db, run: RunId, id: StepId, kind: EventKind)
    requires WorkbenchReplay.Inv(db) && id in db.steps && db.steps[id].run != run
    requires kind in {StepDone, StepWasFailed}
    ensures var db' := AppendEvent(db, run, Some(id), kind);
      WorkbenchReplay.Inv(db') && Extends(db, db', run)
  {
    hide Replay, Legal, MaxSequence;
    assert Good(db, run);
    assert id !in ViewOf(db, run).steps;
    AppendGood(db, db, run, Some(id), kind);
    forall other | other != run
      ensures Good(AppendEvent(db, run, Some(id), kind), other)
    {
      assert Good(db, other);
      assert SameRun(db, AppendEvent(db, run, Some(id), kind), other);
    }
  }

  lemma StrayUnfinished(db: Db, strays: Strays, run: RunId, id: StepId, row: StepRow, kind: EventKind)
    requires id in db.steps && id !in strays && row == db.steps[id].(status := row.status)
    ensures Unfinished(TransitionStep(db, run, id, row, kind), strays[id := db.steps[id].status])
         == AppendEvent(Unfinished(db, strays), run, Some(id), kind)
  {
    hide AppendEvent;
    var moved := db.(steps := db.steps[id := row]);
    AppendUnfinished(moved, strays[id := db.steps[id].status], run, Some(id), kind);
    assert Unfinished(moved, strays[id := db.steps[id].status]) == Unfinished(db, strays);
  }

  // Every call keeps the order

  lemma SameLogs(a: Db, x: Strays, b: Db, y: Strays)
    requires LogsGrow(Unfinished(a, x), Unfinished(b, y))
    ensures LogsGrow(a, b)
  {
    forall run
      ensures LogOf(a, run) <= LogOf(b, run)
    {
      assert LogOf(Unfinished(a, x), run) <= LogOf(Unfinished(b, y), run);
    }
  }

  lemma FitStays(db: Db, after: Db, strays: Strays)
    requires StraysFit(db, strays) && after.steps == db.steps
    ensures StraysFit(after, strays)
  {
  }

  lemma OtherKeeps(s: State, strays: Strays, op: Op, ok: bool)
    requires InOrder(s.db, strays) && !StepOrPlan(op)
    ensures InOrder(Exec(s, op, ok).0.db, strays) && LogsGrow(s.db, Exec(s, op, ok).0.db)
  {
    hide Exec, Unfinished, WorkbenchReplay.Inv, StraysFit, LogsGrow;
    var u := s.(db := Unfinished(s.db, strays));
    OtherCalls(s, strays, op, ok);
    ExecKeeps(u, op, ok);
    FitStays(s.db, Exec(s, op, ok).0.db, strays);
    SameLogs(s.db, strays, Exec(s, op, ok).0.db, strays);
  }

  lemma PlanFits(db: Db, strays: Strays, run: RunId, ids: seq<StepId>)
    requires StraysFit(db, strays) && run in db.runs && IdsInsertable(db, run, ids)
    ensures StraysFit(PlannedDb(db, run, ids), Surviving(db, strays, run))
  {
    hide PlannedDb;
    WorkbenchWorkerProofs.PlanRows(db, run, ids);
  }

  lemma PlanKeepsOrder(s: State, strays: Strays, call: Call)
    requires InOrder(s.db, strays) && call.op.SetPlan?
    ensures var after := Exec(s, call.op, call.ok).0.db;
      InOrder(after, StraysAfter(s, strays, call)) && LogsGrow(s.db, after)
  {
    hide Unfinished, WorkbenchReplay.Inv, StraysFit, LogsGrow, PlannedDb, IdsInsertable, Surviving;
    var run, ids := call.op.run, call.op.ids;
    if Exec(s, call.op, call.ok).1.Done? {
      var u := Unfinished(s.db, strays);
      PlanUnfinished(s.db, strays, run, ids);
      PlannedGood(u, run, ids);
      ExtendsGrow(u, PlannedDb(u, run, ids), run);
      PlanFits(s.db, strays, run, ids);
      SameLogs(s.db, strays, PlannedDb(s.db, run, ids), Surviving(s.db, strays, run));
    } else {
      LogsStay(s.db);
    }
  }

  lemma LogsStay(db: Db)
    ensures LogsGrow(db, db)
  {
  }

  /** A stray step is finished, so no call moves it before the next plan. */
  lemma StrayIsStuck(db: Db, strays: Strays, id: StepId, op: Op)
    requires StraysFit(db, strays) && id in db.steps
    requires Moved(db.steps[id], op).status in StepTransitions(db.steps[id].status)
    ensures id !in strays && Unfinished(db, strays).steps[id] == db.steps[id]
  {
  }

  lemma FitMoves(db: Db, strays: Strays, after: Db, id: StepId)
    requires StraysFit(db, strays) && id !in strays
    requires id in after.steps && after.steps == db.steps[id := after.steps[id]]
    ensures StraysFit(after, strays)
  {
  }

  lemma ActivateKeepsOrder(s: State, strays: Strays, op: Op, ok: bool)
    requires InOrder(s.db, strays) && op.ActivateStep? && Exec(s, op, ok).1.Done?
    ensures InOrder(Exec(s, op, ok).0.db, strays) && LogsGrow(s.db, Exec(s, op, ok).0.db)
  {
    hide Exec, Unfinished, WorkbenchReplay.Inv, StraysFit, LogsGrow, TransitionStep;
    var run, id, u := op.run, op.id, Unfinished(s.db, strays);
    StepCallEffect(s, op, ok);
    StrayIsStuck(s.db, strays, id, op);
    var row := Moved(s.db.steps[id], op);
    var moved := TransitionStep(s.db, run, id, row, StepStarted);
    RowUnfinished(s.db, strays, run, id, row, StepStarted);
    TransitionStepRows(s.db, run, id, row, StepStarted);
    TransitionStepRows(u, run, id, row, StepStarted);
    ActivateGood(u, run, id);
    ExtendsGrow(u, CurrentStep(TransitionStep(u, run, id, row, StepStarted), run, id), run);
    CurrentUnfinished(moved, strays, run, id);
    FitMoves(s.db, strays, Exec(s, op, ok).0.db, id);
    SameLogs(s.db, strays, Exec(s, op, ok).0.db, strays);
  }

  function CurrentStep(db: Db, run: RunId, id: StepId): Db
    requires run in db.runs
  {
    db.(runs := db.runs[run := db.runs[run].(currentStep := Some(id))])
  }

  lemma CurrentUnfinished(db: Db, strays: Strays, run: RunId, id: StepId)
    requires run in db.runs
    ensures Unfinished(CurrentStep(db, run, id), strays) == CurrentStep(Unfinished(db, strays), run, id)
  {
  }

  lemma FinishKeepsOrder(s: State, strays: Strays, call: Call)
    requires InOrder(s.db, strays) && Finishes(call.op) && Exec(s, call.op, call.ok).1.Done?
    ensures var after := Exec(s, call.op, call.ok).0.db;
      InOrder(after, StraysAfter(s, strays, call)) && LogsGrow(s.db, after)
  {
    hide Exec, Unfinished, WorkbenchReplay.Inv, StraysFit, LogsGrow, TransitionStep, AppendEvent;
    var op := call.op;
    var run, id, u := op.run, op.id, Unfinished(s.db, strays);
    StepCallEffect(s, op, call.ok);
    StrayIsStuck(s.db, strays, id, op);
    var row, kind := Moved(s.db.steps[id], op), KindOf(op);
    TransitionStepRows(s.db, run, id, row, kind);
    var after := TransitionStep(s.db, run, id, row, kind);
    if s.db.steps[id].run == run {
      RowUnfinished(s.db, strays, run, id, row, kind);
      FinishGood(u, id, row.status, kind);
      ExtendsGrow(u, TransitionStep(u, run, id, row, kind), run);
      FitMoves(s.db, strays, after, id);
      SameLogs(s.db, strays, after, strays);
    } else {
      var more := strays[id := s.db.steps[id].status];
      StrayUnfinished(s.db, strays, run, id, row, kind);
      StrayEventGood(u, run, id, kind);
      ExtendsGrow(u, AppendEvent(u, run, Some(id), kind), run);
      FitStray(s.db, strays, after, id);
      SameLogs(s.db, strays, after, more);
    }
  }

  lemma FitStray(db: Db, strays: Strays, after: Db, id: StepId)
    requires StraysFit(db, strays) && id !in strays && id in db.steps && id in after.steps
    requires after.steps == db.steps[id := after.steps[id]] && after.steps[id].status in {StepCompleted, StepFailed}
    requires after.steps[id].status in StepTransitions(db.steps[id].status)
    ensures StraysFit(after, strays[id := db.steps[id].status])
  {
  }

  lemma CallKeepsOrder(s: State, strays: Strays, call: Call)
    requires InOrder(s.db, strays)
    ensures var after := Exec(s, call.op, call.ok).0.db;
      InOrder(after, StraysAfter(s, strays, call)) && LogsGrow(s.db, after)
  {
    hide InOrder, LogsGrow;
    var op := call.op;
    if op.SetPlan? {
      PlanKeepsOrder(s, strays, call);
    } else if !StepOrPlan(op) {
      hide Exec;
      OtherKeeps(s, strays, op, call.ok);
    } else if Exec(s, op, call.ok).1.Raised? {
      FailureChangesNothing(s, op, call.ok);
      LogsStay(s.db);
    } else if op.ActivateStep? {
      ActivateKeepsOrder(s, strays, op, call.ok);
    } else {
      FinishKeepsOrder(s, strays, call);
    }
  }

  lemma {:induction false} HistoryInOrder(disk: map<Root, TaskManifest.Fs>, calls: seq<Call>)
    ensures InOrder(History(disk, calls).db, StraysOf(disk, calls))
    decreases |calls|
  {
    hide Exec, StraysAfter;
    if calls == [] {
      StartInOrder(disk);
    } else {
      hide InOrder, LogsGrow;
      HistoryInOrder(disk, Front(calls));
      CallKeepsOrder(History(disk, Front(calls)), StraysOf(disk, Front(calls)), Last(calls));
    }
  }

  lemma StartInOrder(disk: map<Root, TaskManifest.Fs>)
    ensures InOrder(Start(disk).db, map[])
  {
    var db := Unfinished(Start(disk).db, map[]);
    forall run
      ensures Good(db, run)
    {
      assert ViewOf(db, run).steps == map[];
    }
  }

  // Who owns the stray steps

  predicate OwnsStray(db: Db, strays: Strays, run: RunId) {
    exists id :: id in strays && id in db.steps && db.steps[id].run == run
  }

  lemma OwnersStay(db: Db, after: Db, strays: Strays, run: RunId)
    requires forall id :: id in strays ==>
      id in db.steps && id in after.steps && after.steps[id].run == db.steps[id].run
    ensures OwnsStray(after, strays, run) == OwnsStray(db, strays, run)
  {
  }

  lemma PlanOwners(db: Db, strays: Strays, planned: RunId, ids: seq<StepId>, run: RunId)
    requires planned in db.runs && IdsInsertable(db, planned, ids) && StraysFit(db, strays)
    ensures OwnsStray(PlannedDb(db, planned, ids), Surviving(db, strays, planned), run)
         == (run != planned && OwnsStray(db, strays, run))
  {
    hide PlannedDb;
    WorkbenchWorkerProofs.PlanRows(db, planned, ids);
    var after, left := PlannedDb(db, planned, ids), Surviving(db, strays, planned);
    if run != planned && OwnsStray(db, strays, run) {
      var id :| id in strays && id in db.steps && db.steps[id].run == run;
      assert id in left && id in after.steps && after.steps[id].run == run;
    }
  }

  lemma StepCallOwners(s: State, strays: Strays, call: Call, run: RunId)
    requires StraysFit(s.db, strays) && (call.op.ActivateStep? || Finishes(call.op))
    ensures OwnsStray(Exec(s, call.op, call.ok).0.db, StraysAfter(s, strays, call), run)
         == ((GoesAstray(s, call) && s.db.steps[call.op.id].run == run) || OwnsStray(s.db, strays, run))
  {
    hide Exec, TransitionStep;
    var op, after := call.op, Exec(s, call.op, call.ok).0.db;
    if Exec(s, op, call.ok).1.Raised? {
      FailureChangesNothing(s, op, call.ok);
    } else {
      StepCallEffect(s, op, call.ok);
      var row := Moved(s.db.steps[op.id], op);
      TransitionStepRows(s.db, op.run, op.id, row, KindOf(op));
      assert after.steps == s.db.steps[op.id := row];
      OwnersStay(s.db, after, strays, run);
      if GoesAstray(s, call) {
        OneMoreStray(after, strays, op.id, s.db.steps[op.id].status, run);
      }
    }
  }

  lemma OneMoreStray(db: Db, strays: Strays, id: StepId, status: StepStatus, run: RunId)
    requires id in db.steps
    ensures OwnsStray(db, strays[id := status], run) == (db.steps[id].run == run || OwnsStray(db, strays, run))
  {
    var more := strays[id := status];
    if OwnsStray(db, strays, run) {
      var other :| other in strays && other in db.steps && db.steps[other].run == run;
      assert other in more;
    }
    if db.steps[id].run == run {
      assert id in more;
    }
  }

  lemma PlanCallOwners(s: State, strays: Strays, call: Call, run: RunId)
    requires StraysFit(s.db, strays) && call.op.SetPlan?
    ensures OwnsStray(Exec(s, call.op, call.ok).0.db, StraysAfter(s, strays, call), run)
         == if Replans(s, call, run) then false
            else (GoesAstray(s, call) && s.db.steps[call.op.id].run == run) || OwnsStray(s.db, strays, run)
  {
    hide OwnsStray, StraysFit, PlannedDb, IdsInsertable, Surviving;
    var op := call.op;
    if Exec(s, op, call.ok).1.Done? {
      PlanOwners(s.db, strays, op.run, op.ids, run);
    }
  }

  lemma CallOwners(s: State, strays: Strays, call: Call, run: RunId)
    requires StraysFit(s.db, strays)
    ensures OwnsStray(Exec(s, call.op, call.ok).0.db, StraysAfter(s, strays, call), run)
         == if Replans(s, call, run) then false
            else (GoesAstray(s, call) && s.db.steps[call.op.id].run == run) || OwnsStray(s.db, strays, run)
  {
    hide OwnsStray, StraysFit;
    var op := call.op;
    if op.SetPlan? {
      PlanCallOwners(s, strays, call, run);
      hide Exec, StraysAfter, Replans, GoesAstray;
    } else if StepOrPlan(op) {
      StepCallOwners(s, strays, call, run);
      hide Exec;
    } else {
      hide Exec;
      OtherCalls(s, strays, op, call.ok);
      SameSteps(s.db, Exec(s, op, call.ok).0.db, strays, run);
    }
  }

  lemma SameSteps(db: Db, after: Db, strays: Strays, run: RunId)
    requires after.steps == db.steps
    ensures OwnsStray(after, strays, run) == OwnsStray(db, strays, run)
  {
  }

  lemma {:induction false} StrayedMeans(disk: map<Root, TaskManifest.Fs>, calls: seq<Call>, run: RunId)
    ensures Strayed(disk, calls, run) == OwnsStray(History(disk, calls).db, StraysOf(disk, calls), run)
    decreases |calls|
  {
    hide Exec, OwnsStray, StraysAfter, Replans, GoesAstray;
    if calls == [] {
      NoStrays(History(disk, calls).db, run);
    } else {
      StrayedMeans(disk, Front(calls), run);
      HistoryInOrder(disk, Front(calls));
      CallOwners(History(disk, Front(calls)), StraysOf(disk, Front(calls)), Last(calls), run);
    }
  }

  lemma NoStrays(db: Db, run: RunId)
    ensures !OwnsStray(db, map[], run)
  {
  }

  // The theorems

  /** In every reachable state, whoever called, each run's status is the replay of its log, the log is numbered
      1, 2, ... and every status change in it is an edge of the table or one of the three others. */
  lemma StatusEqualsReplay(disk: map<Root, TaskManifest.Fs>, calls: seq<Call>, run: RunId)
    ensures var db := History(disk, calls).db;
      && (if run in db.runs then Some(db.runs[run].status) else None) == Replay(LogOf(db, run)).status
      && Numbered(LogOf(db, run)) && Legal(LogOf(db, run))
  {
    hide Exec, Replay, Legal, Numbered;
    HistoryInOrder(disk, calls);
    var u := Unfinished(History(disk, calls).db, StraysOf(disk, calls));
    assert Good(u, run);
    assert LogOf(u, run) == LogOf(History(disk, calls).db, run);
  }

  /** In every reachable state a run's status and steps are the replay of its log if and only if none of its
      steps was finished under another run's name since the run was last planned. */
  lemma TablesEqualReplayExactly(disk: map<Root, TaskManifest.Fs>, calls: seq<Call>, run: RunId)
    ensures var db := History(disk, calls).db;
      ViewOf(db, run) == Replay(LogOf(db, run)) <==> !Strayed(disk, calls, run)
  {
    hide Exec, Replay, Legal, Numbered, Strayed;
    HistoryInOrder(disk, calls);
    StrayedMeans(disk, calls, run);
    var db, strays := History(disk, calls).db, StraysOf(disk, calls);
    assert Good(Unfinished(db, strays), run);
    assert LogOf(Unfinished(db, strays), run) == LogOf(db, run);
    SameView(db, strays, run);
  }

  lemma SameView(db: Db, strays: Strays, run: RunId)
    requires StraysFit(db, strays)
    ensures ViewOf(db, run) == ViewOf(Unfinished(db, strays), run) <==> !OwnsStray(db, strays, run)
  {
    var view, other := ViewOf(db, run), ViewOf(Unfinished(db, strays), run);
    assert view.steps.Keys == other.steps.Keys;
    if OwnsStray(db, strays, run) {
      var id :| id in strays && id in db.steps && db.steps[id].run == run;
      assert view.steps[id].status != other.steps[id].status;
    } else {
      assert view.steps == other.steps;
    }
  }

  /** Once a log has reached completed or cancelled, no continuation leaves it. */
  lemma {:induction false} TerminalForGood(log: seq<Event>, n: nat)
    requires Legal(log) && n <= |log|
    requires Replay(log[..n]).status.Some? && RunTerminal(Replay(log[..n]).status.value)
    ensures Replay(log).status == Replay(log[..n]).status
    decreases |log|
  {
    if n < |log| {
      assert Front(log)[..n] == log[..n];
      TerminalForGood(Front(log), n);
    } else {
      assert log[..n] == log;
    }
  }

  lemma {:induction false} HistoryGrows(disk: map<Root, TaskManifest.Fs>, calls: seq<Call>, n: nat)
    requires n <= |calls|
    ensures LogsGrow(History(disk, calls[..n]).db, History(disk, calls).db)
    decreases |calls|
  {
    hide Exec, StraysAfter;
    if n < |calls| {
      HistoryGrows(disk, Front(calls), n);
      assert Front(calls)[..n] == calls[..n];
      HistoryInOrder(disk, Front(calls));
      CallKeepsOrder(History(disk, Front(calls)), StraysOf(disk, Front(calls)), Last(calls));
      GrowThen(History(disk, calls[..n]).db, History(disk, Front(calls)).db, History(disk, calls).db);
    } else {
      assert calls[..n] == calls;
      LogsStay(History(disk, calls).db);
    }
  }

  lemma GrowThen(a: Db, b: Db, c: Db)
    requires LogsGrow(a, b) && LogsGrow(b, c)
    ensures LogsGrow(a, c)
  {
  }

  /** Along any history of any calls a completed or cancelled run stays what it is. */
  lemma TerminalIsNeverLeft(disk: map<Root, TaskManifest.Fs>, calls: seq<Call>, n: nat, run: RunId)
    requires n <= |calls|
    requires var db := History(disk, calls[..n]).db; run in db.runs && RunTerminal(db.runs[run].status)
    ensures var db, after := History(disk, calls[..n]).db, History(disk, calls).db;
      run in after.runs && after.runs[run].status == db.runs[run].status
  {
    hide Exec, Replay, Legal, Numbered;
    var db, after := History(disk, calls[..n]).db, History(disk, calls).db;
    HistoryGrows(disk, calls, n);
    StatusEqualsReplay(disk, calls[..n], run);
    StatusEqualsReplay(disk, calls, run);
    var log, longer := LogOf(db, run), LogOf(after, run);
    assert log <= longer && longer[..|log|] == log;
    TerminalForGood(longer, |log|);
  }
}
