/** Invariants of the interleaved worker, for every enabled trace. */
module WorkbenchWorkerProofs {
  import opened Text
  import opened StateMachine
  import opened Workbench
  import opened WorkbenchWorker
  import TaskManifest

  // How the calls change the step table

  /** All calls from outside except planning leave the steps and the step limits alone. */
  lemma ApiFrame(s: State, op: Op, ok: bool)
    requires !WorkerOnly(op) && !op.SetPlan?
    ensures var db := Exec(s, op, ok).0.db;
      && db.steps == s.db.steps
      && (forall run :: run in s.db.runs ==> run in db.runs && db.runs[run].maxSteps == s.db.runs[run].maxSteps)
  {
    forall run, status, kind | run in s.db.runs
      ensures SameButStatus(s.db, TransitionRun(s.db, run, status, kind))
    {
    }
    hide TransitionRun, TaskManifest.Drift, TaskManifest.Materialize, RunTransitions, StepIds;
  }

  ghost predicate SameButStatus(db: Db, db': Db) {
    && db'.steps == db.steps
    && (forall run :: run in db.runs ==> run in db'.runs && db'.runs[run].maxSteps == db.runs[run].maxSteps)
  }

  lemma {:induction false} InsertRows(db: Db, run: RunId, ids: seq<StepId>, ordinal: nat)
    requires forall i, j :: 0 <= i < j < |ids| ==> ids[i] != ids[j]
    ensures var steps := InsertSteps(db, run, ids, ordinal).steps;
      && (forall id :: id in steps <==> id in db.steps || id in ids)
      && (forall id :: id in db.steps && id !in ids ==> steps[id] == db.steps[id])
      && (forall k :: 0 <= k < |ids| ==> steps[ids[k]] == StepRow(run, ordinal + k, Pending, 0))
    decreases |ids|
  {
    hide AppendEvent;
    if ids != [] {
      var next := TransitionStep(db, run, ids[0], StepRow(run, ordinal, Pending, 0), StepWasCreated(ordinal));
      NextRows(db, run, ids[0], ordinal);
      assert next.steps == db.steps[ids[0] := StepRow(run, ordinal, Pending, 0)];
      InsertRows(next, run, ids[1..], ordinal + 1);
      forall k | 0 <= k < |ids|
        ensures InsertSteps(next, run, ids[1..], ordinal + 1).steps[ids[k]] == StepRow(run, ordinal + k, Pending, 0)
      {
        if k > 0 {
          assert ids[k] == ids[1..][k - 1];
        }
      }
      assert ids == [ids[0]] + ids[1..];
    }
  }

  lemma NextRows(db: Db, run: RunId, id: StepId, ordinal: nat)
    ensures TransitionStep(db, run, id, StepRow(run, ordinal, Pending, 0), StepWasCreated(ordinal)).steps
         == db.steps[id := StepRow(run, ordinal, Pending, 0)]
  {
  }

  lemma {:induction false} DistinctSize<T>(ids: seq<T>, all: set<T>)
    requires forall i, j :: 0 <= i < j < |ids| ==> ids[i] != ids[j]
    requires forall id :: id in all <==> id in ids
    ensures |all| == |ids|
    decreases |ids|
  {
    if ids == [] {
      assert all == {};
    } else {
      var last := Last(ids);
      assert ids == Front(ids) + [last];
      DistinctSize(Front(ids), all - {last});
    }
  }

  /** The rows of a plan that has just been inserted. */
  ghost predicate FreshPlan(steps: map<StepId, StepRow>, ids: seq<StepId>) {
    && (forall i, j :: 0 <= i < j < |ids| ==> ids[i] != ids[j])
    && (forall id :: id in steps <==> id in ids)
    && (forall k :: 0 <= k < |ids| ==> steps[ids[k]].ordinal == k + 1 && steps[ids[k]].status == Pending)
  }

  lemma FreshPlanShape(steps: map<StepId, StepRow>, ids: seq<StepId>)
    requires FreshPlan(steps, ids)
    ensures AllPending(steps) && NumberedFromOne(steps)
    ensures steps.Keys == set k | 0 <= k < |ids| :: ids[k]
  {
    DistinctSize(ids, steps.Keys);
    assert |steps| == |steps.Keys|;
    forall id | id in steps ensures id in ids { }
  }

  /** What a committed plan looks like, and that it touches no other run. */
  lemma PlanRows(db: Db, run: RunId, ids: seq<StepId>)
    requires run in db.runs && IdsInsertable(db, run, ids)
    ensures var db' := PlannedDb(db, run, ids);
      && db'.runs.Keys == db.runs.Keys
      && (forall r :: r in db.runs ==> db'.runs[r].maxSteps == db.runs[r].maxSteps)
      && (forall id :: id in db'.steps <==> id in ids || (id in db.steps && db.steps[id].run != run))
      && (forall id :: id in db'.steps && id !in ids ==> db'.steps[id] == db.steps[id])
      && (forall k :: 0 <= k < |ids| ==> db'.steps[ids[k]] == StepRow(run, k + 1, Pending, 0))
  {
    hide AppendEvent, InsertSteps, TransitionRun;
    var planning := TransitionRun(DeleteSteps(db, run), run, Planning, PlanningStarted);
    PlanningRows(db, run);
    InsertRows(planning, run, ids, 1);
    FinalRows(InsertSteps(planning, run, ids, 1), run);
  }

  lemma PlanSteps(db: Db, run: RunId, ids: seq<StepId>)
    requires run in db.runs && IdsInsertable(db, run, ids)
    ensures FreshPlan(StepsOf(PlannedDb(db, run, ids), run), ids)
    ensures forall r :: r != run ==> StepsOf(PlannedDb(db, run, ids), r) == StepsOf(db, r)
  {
    hide PlannedDb;
    PlanRows(db, run, ids);
    var db' := PlannedDb(db, run, ids);
    forall id ensures id in StepsOf(db', run) <==> id in ids { }
    forall r | r != run ensures StepsOf(db', r) == StepsOf(db, r) {
      forall id | id in db.steps && db.steps[id].run == r ensures id !in ids {
      }
    }
  }

  lemma PlanningRows(db: Db, run: RunId)
    requires run in db.runs
    ensures var planning := TransitionRun(DeleteSteps(db, run), run, Planning, PlanningStarted);
      && planning.steps == DeleteSteps(db, run).steps
      && planning.runs == db.runs[run := db.runs[run].(status := Planning)]
  {
  }

  lemma FinalRows(db: Db, run: RunId)
    requires run in db.runs
    ensures TransitionRun(db, run, Ready, PlanReady).steps == db.steps
    ensures TransitionRun(db, run, Ready, PlanReady).runs == db.runs[run := db.runs[run].(status := Ready)]
  {
  }

  /** A step call rewrites one row. */
  lemma StepCallRows(s: State, op: Op, ok: bool)
    requires op.ActivateStep? || op.CompleteStep? || op.FailStep?
    requires Exec(s, op, ok).1.Done?
    ensures var db := Exec(s, op, ok).0.db;
            var status := if op.ActivateStep? then Active else if op.CompleteStep? then StepCompleted else StepFailed;
      && op.id in s.db.steps && status in StepTransitions(s.db.steps[op.id].status)
      && op.id in db.steps && db.steps == s.db.steps[op.id := db.steps[op.id]]
      && db.steps[op.id].run == s.db.steps[op.id].run && db.steps[op.id].ordinal == s.db.steps[op.id].ordinal
      && db.steps[op.id].status == status
      && db.runs.Keys == s.db.runs.Keys
      && (forall r :: r in db.runs ==> db.runs[r].maxSteps == s.db.runs[r].maxSteps)
      && (op.ActivateStep? ==> s.db.steps[op.id].run == op.run && !SomeActive(s.db, op.run))
  {
  }

  lemma StepCallFailed(s: State, op: Op, ok: bool)
    requires op.ActivateStep? || op.CompleteStep? || op.FailStep? || op.CompleteRun? || op.FailRun?
    ensures Exec(s, op, ok).1.Raised? ==> Exec(s, op, ok).0 == s
    ensures op.CompleteRun? || op.FailRun? ==> ApiLike(s, Exec(s, op, ok).0)
  {
  }

  predicate ApiLike(s: State, s': State) {
    && s'.db.steps == s.db.steps
    && (forall run :: run in s.db.runs ==> run in s'.db.runs && s'.db.runs[run].maxSteps == s.db.runs[run].maxSteps)
    && s'.db.runs.Keys == s.db.runs.Keys
  }

  // Shapes

  lemma FreshShape(steps: map<StepId, StepRow>, maxSteps: int)
    requires NumberedFromOne(steps) && AllPending(steps)
    ensures Shape(steps, maxSteps)
  {
    assert CompletedIds(steps) == {};
  }

  predicate OthersBeforeStarted(steps: map<StepId, StepRow>, id: StepId)
    requires id in steps
  {
    forall a :: a in steps && steps[a].ordinal < steps[id].ordinal ==> steps[a].status != Pending
  }

  /** Activating the first pending step keeps the shape. */
  lemma ActivateShape(steps: map<StepId, StepRow>, id: StepId, row: StepRow, maxSteps: int)
    requires Shape(steps, maxSteps) && id in steps && OthersBeforeStarted(steps, id)
    requires row.ordinal == steps[id].ordinal && row.status == Active
    requires Active in StepTransitions(steps[id].status)
    requires forall a :: a in steps ==> steps[a].status != Active
    ensures Shape(steps[id := row], maxSteps)
    ensures CompletedIds(steps[id := row]) == CompletedIds(steps)
  {
    var steps' := steps[id := row];
    NumbersStay(steps, id, row);
    assert CompletedIds(steps') == CompletedIds(steps);
    assert PendingLast(steps') by {
      hide NumberedFromOne, OneActive;
    }
    hide NumberedFromOne, PendingLast;
  }

  /** A rewritten row with the same ordinal keeps the numbering. */
  lemma NumbersStay(steps: map<StepId, StepRow>, id: StepId, row: StepRow)
    requires NumberedFromOne(steps) && id in steps && row.ordinal == steps[id].ordinal
    ensures NumberedFromOne(steps[id := row])
  {
    var steps' := steps[id := row];
    assert steps'.Keys == steps.Keys;
    assert |steps'| == |steps'.Keys| && |steps| == |steps.Keys|;
  }

  /** Rewriting a started step to another started status keeps numbers and order. */
  lemma StartedShape(steps: map<StepId, StepRow>, id: StepId, row: StepRow)
    requires NumberedFromOne(steps) && OneActive(steps) && PendingLast(steps)
    requires id in steps && row.ordinal == steps[id].ordinal && row.status !in {Pending, Active}
    requires steps[id].status != Pending
    ensures var steps' := steps[id := row]; NumberedFromOne(steps') && OneActive(steps') && PendingLast(steps')
  {
    NumbersStay(steps, id, row);
    hide NumberedFromOne;
    assert OneActive(steps[id := row]) by {
      hide PendingLast;
    }
    hide OneActive;
  }

  /** Finishing a step keeps the shape when the limit has room for one more completed step. */
  lemma FinishShape(steps: map<StepId, StepRow>, id: StepId, row: StepRow, maxSteps: int)
    requires Shape(steps, maxSteps) && id in steps
    requires row.ordinal == steps[id].ordinal && row.status in {StepCompleted, StepFailed}
    requires row.status in StepTransitions(steps[id].status) && steps[id].status != Pending
    requires row.status == StepCompleted ==> |CompletedIds(steps)| < maxSteps
    ensures Shape(steps[id := row], maxSteps)
    ensures |CompletedIds(steps[id := row])| == |CompletedIds(steps)| + if row.status == StepCompleted then 1 else 0
  {
    hide NumberedFromOne, OneActive, PendingLast;
    StartedShape(steps, id, row);
    assert id !in CompletedIds(steps);
    assert CompletedIds(steps[id := row]) == CompletedIds(steps) + (if row.status == StepCompleted then {id} else {});
  }

  lemma StepsOfUpdate(db: Db, db': Db, id: StepId)
    requires id in db.steps && id in db'.steps && db'.steps == db.steps[id := db'.steps[id]]
    requires db'.steps[id].run == db.steps[id].run
    ensures StepsOf(db', db.steps[id].run) == StepsOf(db, db.steps[id].run)[id := db'.steps[id]]
    ensures forall r :: r != db.steps[id].run ==> StepsOf(db', r) == StepsOf(db, r)
  {
    forall r | r != db.steps[id].run ensures StepsOf(db', r) == StepsOf(db, r) {
    }
  }
}
