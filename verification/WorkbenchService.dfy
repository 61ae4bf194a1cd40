/** The service object: its methods rewrite the tables in place, inside a transaction that either
    commits or restores what it saved. `ok` is the fate of the commit. */
module WorkbenchService {
  import opened Text
  import opened StateMachine
  import opened Workbench
  import TaskManifest

  class AgentWorkbenchService {
    var runs: map<RunId, RunRow>
    var steps: map<StepId, StepRow>
    var logs: map<RunId, seq<Event>>
    var disk: map<Root, TaskManifest.Fs>

    function Tables(): Db
      reads this
    {
      Db(runs, steps, logs)
    }

    function Now(): State
      reads this
    {
      State(Tables(), disk)
    }

    constructor (disk: map<Root, TaskManifest.Fs>)
      ensures Now() == State(Db(map[], map[], map[]), disk)
    {
      runs, steps, logs := map[], map[], map[];
      this.disk := disk;
    }

    /** `next_event_sequence`: one more than the largest number of the run. */
    method NextEventSequence(run: RunId) returns (sequence: nat)
      ensures sequence == MaxSequence(LogOf(Tables(), run)) + 1
    {
      var log, max := LogOf(Tables(), run), 0;
      for k := 0 to |log|
        invariant max == MaxSequence(log[..k])
      {
        assert Front(log[..k + 1]) == log[..k];
        if log[k].sequence > max {
          max := log[k].sequence;
        }
      }
      assert log[..|log|] == log;
      return max + 1;
    }

    method AppendWithSequence(run: RunId, step: Option<StepId>, kind: EventKind)
      modifies this`logs
      ensures Tables() == AppendEvent(old(Tables()), run, step, kind)
    {
      var sequence := NextEventSequence(run);
      logs := logs[run := LogOf(Tables(), run) + [Event(sequence, step, kind)]];
    }

    method TransitionRunWithEvent(run: RunId, status: RunStatus, kind: EventKind)
      requires run in runs
      modifies this`runs, this`logs
      ensures Tables() == TransitionRun(old(Tables()), run, status, kind)
    {
      runs := runs[run := runs[run].(status := status)];
      AppendWithSequence(run, None, kind);
    }

    method TransitionStepWithEvent(run: RunId, id: StepId, row: StepRow, kind: EventKind)
      modifies this`steps, this`logs
      ensures Tables() == TransitionStep(old(Tables()), run, id, row, kind)
    {
      steps := steps[id := row];
      AppendWithSequence(run, Some(id), kind);
    }

    /** The end of a transaction: keep the new tables, or put the saved ones back. */
    method CommitOrRollback(saved: Db, ok: bool) returns (outcome: Outcome)
      modifies this`runs, this`steps, this`logs
      ensures Tables() == if ok then old(Tables()) else saved
      ensures outcome == if ok then Done else Raised(CommitFailed)
    {
      if ok {
        return Done;
      }
      runs, steps, logs := saved.runs, saved.steps, saved.logs;
      return Raised(CommitFailed);
    }

    method WriteManifest(run: RunId)
      requires run in runs
      modifies this`disk
      ensures Now() == Materialized(old(Now()), run)
    {
      disk := disk[runs[run].root := TaskManifest.Materialize(FsOf(Now(), run), run)];
    }

    method CreateRun(run: RunId, root: Root, maxSteps: int, ok: bool) returns (outcome: Outcome)
      modifies this
      ensures (Now(), outcome) == Exec(old(Now()), Op.CreateRun(run, root, maxSteps), ok)
    {
      if root !in disk {
        return Raised(WorkspaceMissing);
      }
      if run in runs || !ok {
        disk := disk[root := disk[root] - {TaskManifest.TaskPath(run)}];
        return Raised(CommitFailed);
      }
      runs := runs[run := RunRow(Created, maxSteps, root, None)];
      AppendWithSequence(run, None, RunCreated);
      WriteManifest(run);
      return Done;
    }

    /** The insert loop; false as soon as the primary key of the step table refuses an id. */
    method InsertPlan(run: RunId, ids: seq<StepId>) returns (inserted: bool)
      modifies this`steps, this`logs
      ensures inserted <==> NewIds(old(steps), ids)
      ensures inserted ==> Tables() == InsertSteps(old(Tables()), run, ids, 1)
    {
      hide TransitionStep, InsertSteps, NewIds;
      ghost var start := Tables();
      assert ids[0..] == ids;
      for k := 0 to |ids|
        invariant runs == start.runs
        invariant InsertSteps(Tables(), run, ids[k..], k + 1) == InsertSteps(start, run, ids, 1)
        invariant NewIds(steps, ids[k..]) == NewIds(start.steps, ids)
      {
        assert ids[k..][0] == ids[k] && ids[k..][1..] == ids[k + 1..];
        InsertFirst(Tables(), run, ids[k..], k + 1);
        if ids[k] in steps {
          return false;
        }
        TransitionStepWithEvent(run, ids[k], StepRow(run, k + 1, Pending, 0), StepWasCreated(k + 1));
      }
      InsertNothing(Tables(), run, ids[|ids|..], |ids| + 1);
      return true;
    }

    /** Planning: the old steps go, the new ones are inserted one by one, each with its event. */
    method SetPlan(run: RunId, ids: seq<StepId>, ok: bool) returns (outcome: Outcome)
      modifies this
      ensures (Now(), outcome) == Exec(old(Now()), Op.SetPlan(run, ids), ok)
    {
      if run !in runs {
        return Raised(NotFound);
      }
      var status := runs[run].status;
      if status !in PLANNABLE || Planning !in RunTransitions(status) {
        return Raised(InvalidTransition);
      }
      hide InsertSteps, TransitionRun;
      var saved := Tables();
      steps := DeleteSteps(saved, run).steps;
      TransitionRunWithEvent(run, Planning, PlanningStarted);
      PlanningTables(saved, run);
      InsertableMeans(saved, run, ids);
      var inserted := InsertPlan(run, ids);
      if !inserted {
        outcome := CommitOrRollback(saved, false);
        return;
      }
      TransitionRunWithEvent(run, Ready, PlanReady);
      outcome := CommitOrRollback(saved, ok);
      if ok {
        ReadyTables(saved, run, ids);
        WriteManifest(run);
      }
    }

    method TakeEdge(run: RunId, target: RunStatus, kind: EventKind, ok: bool) returns (outcome: Outcome)
      modifies this`runs, this`steps, this`logs
      ensures (Now(), outcome) == Workbench.TakeEdge(old(Now()), run, target, kind, ok)
    {
      if run !in runs {
        return Raised(NotFound);
      }
      if target !in RunTransitions(runs[run].status) {
        return Raised(InvalidTransition);
      }
      var saved := Tables();
      TransitionRunWithEvent(run, target, kind);
      outcome := CommitOrRollback(saved, ok);
    }

    method StartRun(run: RunId, ok: bool) returns (outcome: Outcome)
      modifies this
      ensures (Now(), outcome) == Exec(old(Now()), Op.StartRun(run), ok)
    {
      if run !in runs {
        return Raised(NotFound);
      }
      if StepIds(Tables(), run) == {} {
        return Raised(NoPlan);
      }
      outcome := TakeEdge(run, Running, RunStarted, ok);
    }

    /** Resuming: a missing manifest or a drifted workspace is recorded instead of going on. */
    method ResumeRun(run: RunId, ok: bool) returns (outcome: Outcome)
      modifies this
      ensures (Now(), outcome) == Exec(old(Now()), Op.ResumeRun(run), ok)
    {
      if run !in runs {
        return Raised(NotFound);
      }
      var status, fs := runs[run].status, FsOf(Now(), run);
      if TaskManifest.TaskPath(run) !in fs {
        if status !in {Paused, PausedRecovery, MigrationReviewRequired, WorkspaceReviewRequired} {
          return Raised(BaselineIsMissing);
        }
        if status == WorkspaceReviewRequired {
          return Raised(WorkspaceChanged);
        }
        if status != MigrationReviewRequired {
          var saved := Tables();
          TransitionRunWithEvent(run, MigrationReviewRequired, BaselineMissing);
          outcome := CommitOrRollback(saved, ok);
          if outcome.Raised? {
            return;
          }
        }
        return Raised(BaselineIsMissing);
      }
      var changed := TaskManifest.Validate(fs, run);
      if changed.None? {
        return Raised(ManifestUnreadable);
      }
      EmptyDrift(fs, run, changed.value);
      if changed.value != [] {
        if status in {Paused, PausedRecovery} {
          var saved := Tables();
          TransitionRunWithEvent(run, WorkspaceReviewRequired, ChangesDetected);
          outcome := CommitOrRollback(saved, ok);
          if outcome.Raised? {
            return;
          }
        }
        return Raised(WorkspaceChanged);
      }
      if status == WorkspaceReviewRequired {
        return Raised(WorkspaceChanged);
      }
      if status != PausedRecovery && Running !in RunTransitions(status) {
        return Raised(InvalidTransition);
      }
      var saved := Tables();
      TransitionRunWithEvent(run, Running, RunResumed);
      outcome := CommitOrRollback(saved, ok);
    }

    method AcceptWorkspaceChanges(run: RunId, expected: Option<set<TaskManifest.Path>>, ok: bool)
      returns (outcome: Outcome)
      modifies this
      ensures (Now(), outcome) == Exec(old(Now()), AcceptChanges(run, expected), ok)
    {
      if run !in runs {
        return Raised(NotFound);
      }
      var status, fs := runs[run].status, FsOf(Now(), run);
      if status !in {Paused, PausedRecovery, WorkspaceReviewRequired} {
        return Raised(NotRequired);
      }
      var changed := TaskManifest.Validate(fs, run);
      if changed.None? {
        return Raised(ManifestUnreadable);
      }
      EmptyDrift(fs, run, changed.value);
      var saved := Tables();
      if changed.value == [] {
        if status != WorkspaceReviewRequired {
          return Raised(NotRequired);
        }
        WriteManifest(run);
        TransitionRunWithEvent(run, Paused, ChangesAccepted);
        outcome := CommitOrRollback(saved, ok);
        return;
      }
      if expected.Some? && expected.value != (set path | path in changed.value) {
        return Raised(Mismatch);
      }
      var backup := disk;
      WriteManifest(run);
      TransitionRunWithEvent(run, Paused, ChangesAccepted);
      outcome := CommitOrRollback(saved, ok);
      if !ok {
        disk := backup;
      }
    }

    method AcceptResumeBaseline(run: RunId, ok: bool) returns (outcome: Outcome)
      modifies this
      ensures (Now(), outcome) == Exec(old(Now()), AcceptBaseline(run), ok)
    {
      if run !in runs {
        return Raised(NotFound);
      }
      if runs[run].status != MigrationReviewRequired {
        return Raised(NotRequired);
      }
      hide TransitionRun, TaskManifest.Materialize, TaskManifest.TaskPath;
      var saved := Tables();
      WriteManifest(run);
      TransitionRunWithEvent(run, Paused, BaselineAccepted);
      outcome := CommitOrRollback(saved, ok);
      if !ok {
        var root := runs[run].root;
        MaterializedThenRemoved(old(Now()), run);
        disk := disk[root := disk[root] - {TaskManifest.TaskPath(run)}];
      }
    }

    method ActivateStep(run: RunId, id: StepId, ok: bool) returns (outcome: Outcome)
      modifies this
      ensures (Now(), outcome) == Exec(old(Now()), Op.ActivateStep(run, id), ok)
    {
      if run !in runs || id !in steps || steps[id].run != run {
        return Raised(NotFound);
      }
      var row := steps[id];
      if SomeActive(Tables(), run) && row.status != Active {
        return Raised(StepActive);
      }
      if Active !in StepTransitions(row.status) {
        return Raised(InvalidTransition);
      }
      var saved := Tables();
      TransitionStepWithEvent(run, id, row.(status := Active, attempts := row.attempts + 1), StepStarted);
      runs := runs[run := runs[run].(currentStep := Some(id))];
      outcome := CommitOrRollback(saved, ok);
    }

    method FinishStep(run: RunId, id: StepId, status: StepStatus, kind: EventKind, ok: bool) returns (outcome: Outcome)
      modifies this`runs, this`steps, this`logs
      ensures (Now(), outcome) == DoFinishStep(old(Now()), run, id, status, kind, ok)
    {
      if id !in steps {
        return Raised(NotFound);
      }
      if status !in StepTransitions(steps[id].status) {
        return Raised(InvalidTransition);
      }
      var saved := Tables();
      TransitionStepWithEvent(run, id, steps[id].(status := status), kind);
      outcome := CommitOrRollback(saved, ok);
    }

    /** An event on its own, in its own transaction. */
    method AppendStandalone(run: RunId, step: Option<StepId>, kind: EventKind, ok: bool) returns (outcome: Outcome)
      modifies this
      ensures (Now(), outcome) == Exec(old(Now()), Append(run, step, kind), ok)
    {
      hide AppendEvent, MaxSequence, LogOf, StandaloneEvent;
      if run !in runs {
        return Raised(NotFound);
      }
      if !StandaloneEvent(step, kind) {
        return Raised(InvalidTransition);
      }
      var saved := Tables();
      AppendWithSequence(run, step, kind);
      outcome := CommitOrRollback(saved, ok);
    }

    /** The recovery transaction of one run. */
    method RecoverOneRun(run: RunId, ok: bool) returns (outcome: Outcome)
      requires run in runs
      modifies this`runs, this`steps, this`logs
      ensures Tables() == if ok then TransitionRun(old(Tables()), run, PausedRecovery, RunRecovered) else old(Tables())
      ensures outcome.Done? <==> ok
    {
      hide TransitionRun;
      var saved := Tables();
      TransitionRunWithEvent(run, PausedRecovery, RunRecovered);
      outcome := CommitOrRollback(saved, ok);
    }

    /** After a restart every run that was running waits for recovery; each run has its own
        transaction, and `fails` says which of them do not commit. */
    method RecoverOnStartup(fails: set<RunId>) returns (count: nat)
      modifies this`runs, this`steps, this`logs
      ensures Recovered(old(Tables()), Tables(), RunningRuns(old(Tables())) - fails)
      ensures count == |RunningRuns(old(Tables())) - fails|
    {
      hide TransitionRun, Recovered, RunningRuns;
      ghost var before := Tables();
      var todo := RunningRuns(Tables());
      ghost var done: set<RunId> := {};
      count := 0;
      NothingRecovered(before);
      while todo != {}
        invariant todo <= RunningRuns(before) && done == RunningRuns(before) - todo - fails
        invariant Recovered(before, Tables(), done)
        invariant count == |done|
        decreases todo
      {
        var run :| run in todo;
        RecoverOne(before, Tables(), done, run);
        var outcome := RecoverOneRun(run, run !in fails);
        if outcome.Done? {
          count := count + 1;
          done := done + {run};
        }
        todo := todo - {run};
      }
      assert done == RunningRuns(before) - fails;
    }
  }

  lemma NothingRecovered(db: Db)
    ensures Recovered(db, db, {})
  {
  }

  function RunningRuns(db: Db): set<RunId> {
    set run | run in db.runs && db.runs[run].status == Running
  }

  /** Exactly the runs in `done` have moved from running to recovery, each with one event. */
  ghost predicate Recovered(before: Db, now: Db, done: set<RunId>) {
    && now.runs.Keys == before.runs.Keys && now.steps == before.steps
    && (forall run :: run in before.runs ==>
          now.runs[run] == if run in done then before.runs[run].(status := PausedRecovery) else before.runs[run])
    && (forall run :: LogOf(now, run) == if run in done then RecoveredLog(LogOf(before, run)) else LogOf(before, run))
  }

  function RecoveredLog(log: seq<Event>): seq<Event> {
    log + [Event(MaxSequence(log) + 1, None, RunRecovered)]
  }

  lemma RecoveryShape(db: Db, run: RunId)
    requires run in db.runs
    ensures var next := TransitionRun(db, run, PausedRecovery, RunRecovered);
      && next.runs == db.runs[run := db.runs[run].(status := PausedRecovery)] && next.steps == db.steps
      && (forall other :: LogOf(next, other) == if other == run then RecoveredLog(LogOf(db, run)) else LogOf(db, other))
  {
    hide MaxSequence;
  }

  lemma RecoverOne(before: Db, now: Db, done: set<RunId>, run: RunId)
    requires Recovered(before, now, done) && run in RunningRuns(before) && run !in done
    ensures run in now.runs
    ensures Recovered(before, TransitionRun(now, run, PausedRecovery, RunRecovered), done + {run})
  {
    hide TransitionRun, LogOf, RecoveredLog;
    assert run in now.runs;
    RecoveryShape(now, run);
  }

  /** Ids that are distinct and not in the table yet. */
  predicate NewIds(steps: map<StepId, StepRow>, ids: seq<StepId>) {
    && (forall i, j :: 0 <= i < j < |ids| ==> ids[i] != ids[j])
    && (forall i :: 0 <= i < |ids| ==> ids[i] !in steps)
  }

  lemma InsertableMeans(db: Db, run: RunId, ids: seq<StepId>)
    ensures IdsInsertable(db, run, ids) <==> NewIds(DeleteSteps(db, run).steps, ids)
  {
  }

  lemma InsertFirst(db: Db, run: RunId, ids: seq<StepId>, ordinal: nat)
    requires ids != []
    ensures var next := TransitionStep(db, run, ids[0], StepRow(run, ordinal, Pending, 0), StepWasCreated(ordinal));
      && InsertSteps(db, run, ids, ordinal) == InsertSteps(next, run, ids[1..], ordinal + 1)
      && next.runs == db.runs
      && (NewIds(db.steps, ids) <==> (ids[0] !in db.steps && NewIds(next.steps, ids[1..])))
  {
    hide AppendEvent;
    var next := TransitionStep(db, run, ids[0], StepRow(run, ordinal, Pending, 0), StepWasCreated(ordinal));
    AppendKeepsRows(db.(steps := db.steps[ids[0] := StepRow(run, ordinal, Pending, 0)]), run, Some(ids[0]),
      StepWasCreated(ordinal));
    NewIdsFirst(db.steps, next.steps, ids);
  }

  lemma AppendKeepsRows(db: Db, run: RunId, step: Option<StepId>, kind: EventKind)
    ensures AppendEvent(db, run, step, kind).runs == db.runs && AppendEvent(db, run, step, kind).steps == db.steps
  {
  }

  lemma NewIdsFirst(steps: map<StepId, StepRow>, next: map<StepId, StepRow>, ids: seq<StepId>)
    requires ids != [] && next.Keys == steps.Keys + {ids[0]}
    ensures NewIds(steps, ids) <==> (ids[0] !in steps && NewIds(next, ids[1..]))
  {
    if ids[0] !in steps && NewIds(next, ids[1..]) {
      forall i | 0 <= i < |ids|
        ensures ids[i] !in steps && forall j :: i < j < |ids| ==> ids[i] != ids[j]
      {
        forall j | i < j < |ids|
          ensures ids[i] != ids[j]
        {
          assert ids[j] == ids[1..][j - 1];
        }
        if i > 0 {
          assert ids[i] == ids[1..][i - 1];
        }
      }
    }
  }

  lemma InsertNothing(db: Db, run: RunId, ids: seq<StepId>, ordinal: nat)
    requires ids == []
    ensures InsertSteps(db, run, ids, ordinal) == db && NewIds(db.steps, ids)
  {
  }

  /** Removing the manifest just written leaves what removing the old one would have left. */
  lemma MaterializedThenRemoved(s: State, run: RunId)
    requires run in s.db.runs
    ensures var root := s.db.runs[run].root;
      var disk := Materialized(s, run).disk;
      && root in disk
      && disk[root := disk[root] - {TaskManifest.TaskPath(run)}]
         == WithFs(s, run, FsOf(s, run) - {TaskManifest.TaskPath(run)}).disk
  {
    var root, path := s.db.runs[run].root, TaskManifest.TaskPath(run);
    var disk := Materialized(s, run).disk;
    assert disk[root] - {path} == FsOf(s, run) - {path};
  }

  lemma PlanningTables(db: Db, run: RunId)
    requires run in db.runs
    ensures var planning := TransitionRun(DeleteSteps(db, run), run, Planning, PlanningStarted);
      run in planning.runs && planning.steps == DeleteSteps(db, run).steps
  {
  }

  lemma ReadyTables(db: Db, run: RunId, ids: seq<StepId>)
    requires run in db.runs
    ensures run in PlannedDb(db, run, ids).runs
  {
  }

  /** The returned list is empty exactly when nothing drifted, and lists the drift as a set. */
  lemma EmptyDrift(fs: TaskManifest.Fs, run: RunId, changed: seq<TaskManifest.Path>)
    requires TaskManifest.Drift(fs, run).Some?
    requires forall path :: path in changed <==> path in TaskManifest.Drift(fs, run).value
    ensures changed == [] <==> TaskManifest.Drift(fs, run).value == {}
    ensures (set path | path in changed) == TaskManifest.Drift(fs, run).value
  {
    if changed != [] {
      assert changed[0] in changed;
    }
  }
}
