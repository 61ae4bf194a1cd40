/** A history in which a step is finished under another run's name, from the empty tables on. */
module WorkbenchStray {
  import opened Text
  import opened StateMachine
  import opened Workbench
  import opened WorkbenchWorker
  import opened WorkbenchHistories
  import opened WorkbenchRace
  import TaskManifest

  /** Two runs are created; one is planned and started and has its step activated. */
  function ActiveCalls(run: RunId, other: RunId, root: Root, max: int, id: StepId): seq<Call> {
    [Call(CreateRun(run, root, max), true)] + [Call(CreateRun(other, root, max), true)]
    + [Call(SetPlan(run, [id]), true)] + [Call(StartRun(run), true)] + [Call(ActivateStep(run, id), true)]
  }

  /** The call that completes the step names the other run. */
  function StrayCalls(run: RunId, other: RunId, root: Root, max: int, id: StepId): seq<Call> {
    ActiveCalls(run, other, root, max, id) + [Call(CompleteStep(other, id), true)]
  }

  lemma HistorySnoc(disk: Disk, calls: seq<Call>, call: Call)
    ensures History(disk, calls + [call]) == Exec(History(disk, calls), call.op, call.ok).0
  {
    hide Exec;
    assert Front(calls + [call]) == calls;
  }

  lemma BothCreated(disk: Disk, run: RunId, other: RunId, root: Root, max: int)
    requires root in disk && run != other
    ensures var s := Exec(Exec(Start(disk), CreateRun(run, root, max), true).0, CreateRun(other, root, max), true).0;
      Is(s.db, run, max, Created, map[]) && other in s.db.runs && s.db.steps == map[]
  {
    hide TaskManifest.Materialize, MaxSequence;
    var s := Exec(Exec(Start(disk), CreateRun(run, root, max), true).0, CreateRun(other, root, max), true).0;
    assert StepsOf(s.db, run) == map[];
  }

  lemma IsActive(disk: Disk, run: RunId, other: RunId, root: Root, max: int, id: StepId)
    requires root in disk && run != other
    ensures Is(History(disk, ActiveCalls(run, other, root, max, id)).db, run, max, Running, Started(run, id))
  {
    hide Exec, Is, History;
    var create := [Call(CreateRun(run, root, max), true)];
    var created := create + [Call(CreateRun(other, root, max), true)];
    var planned := created + [Call(SetPlan(run, [id]), true)];
    var started := planned + [Call(StartRun(run), true)];
    FirstCall(disk, create[0]);
    HistorySnoc(disk, create, Call(CreateRun(other, root, max), true));
    BothCreated(disk, run, other, root, max);
    HistorySnoc(disk, created, Call(SetPlan(run, [id]), true));
    PlanTaken(History(disk, created), run, id, max, Created, map[]);
    HistorySnoc(disk, planned, Call(StartRun(run), true));
    assert id in Planned(run, id);
    EdgeTaken(History(disk, planned), StartRun(run), max, Ready, Planned(run, id));
    HistorySnoc(disk, started, Call(ActivateStep(run, id), true));
    StepStarts(History(disk, started), run, id, max);
  }

  lemma FirstCall(disk: Disk, call: Call)
    ensures History(disk, [call]) == Exec(Start(disk), call.op, call.ok).0
  {
    hide Exec;
    assert Front([call]) == [];
  }

  lemma {:induction false} NothingFinishedNothingStray(disk: Disk, calls: seq<Call>, run: RunId)
    requires forall k :: 0 <= k < |calls| ==> !Finishes(calls[k].op)
    ensures !Strayed(disk, calls, run)
    decreases |calls|
  {
    hide Exec;
    if calls != [] {
      NothingFinishedNothingStray(disk, Front(calls), run);
    }
  }

  lemma OnlyTheStep(s: State, run: RunId, other: RunId, id: StepId)
    requires id in s.db.steps && s.db.steps[id].run == run && s.db.steps[id].status == Active && run != other
    ensures var after := Exec(s, CompleteStep(other, id), true).0.db;
      && GoesAstray(s, Call(CompleteStep(other, id), true))
      && LogOf(after, run) == LogOf(s.db, run)
      && id in after.steps && after.steps[id] == s.db.steps[id].(status := StepCompleted)
  {
    hide MaxSequence;
  }

  /** After these calls the step is completed in the tables, while the run's own log still has it active. */
  lemma StrayHappens(disk: Disk, run: RunId, other: RunId, root: Root, max: int, id: StepId)
    requires root in disk && run != other
    ensures var calls := StrayCalls(run, other, root, max, id);
            var db := History(disk, calls).db;
      && Strayed(disk, calls, run)
      && id in db.steps && db.steps[id].run == run && db.steps[id].status == StepCompleted
      && id in Replay(LogOf(db, run)).steps && Replay(LogOf(db, run)).steps[id].status == Active
  {
    hide Exec, Replay, ActiveCalls;
    var calls, last := ActiveCalls(run, other, root, max, id), Call(CompleteStep(other, id), true);
    var s := History(disk, calls);
    IsActive(disk, run, other, root, max, id);
    assert id in StepsOf(s.db, run) && s.db.steps[id] == StepRow(run, 1, Active, 1);
    NothingFinished(run, other, root, max, id);
    NothingFinishedNothingStray(disk, calls, run);
    TablesEqualReplayExactly(disk, calls, run);
    OnlyTheStep(s, run, other, id);
    HistorySnoc(disk, calls, last);
    assert Front(calls + [last]) == calls;
  }

  lemma NothingFinished(run: RunId, other: RunId, root: Root, max: int, id: StepId)
    ensures var calls := ActiveCalls(run, other, root, max, id);
      forall k :: 0 <= k < |calls| ==> !Finishes(calls[k].op)
  {
  }
}
