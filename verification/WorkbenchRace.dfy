/** The race between the worker and a new plan, from the first call to the wrong completion. */
module WorkbenchRace {
  import opened Text
  import opened StateMachine
  import opened Workbench
  import opened WorkbenchWorker
  import opened WorkbenchWorkerProofs
  import opened WorkbenchTraces
  import TaskManifest

  type Disk = map<Root, TaskManifest.Fs>

  lemma RunSnoc(disk: Disk, trace: seq<Action>, action: Action)
    ensures Run(disk, trace + [action]) == Next(Run(disk, trace), action)
    ensures Possible(disk, trace) && Enabled(Run(disk, trace), action) ==> Possible(disk, trace + [action])
  {
    assert Front(trace + [action]) == trace;
  }

  /** What the race looks at: the run's status and limit, and its steps. */
  predicate Is(db: Db, run: RunId, max: int, status: RunStatus, steps: map<StepId, StepRow>) {
    run in db.runs && db.runs[run].maxSteps == max && db.runs[run].status == status && StepsOf(db, run) == steps
  }

  function Planned(run: RunId, id: StepId): map<StepId, StepRow> {
    map[id := StepRow(run, 1, Pending, 0)]
  }

  // The calls

  /** The edges of the table that are taken here. */
  predicate EdgeCall(op: Op) {
    op.PauseRun? || op.StartRun? || op.CompleteRun?
  }

  function TargetOf(op: Op): RunStatus
    requires EdgeCall(op)
  {
    if op.PauseRun? then Paused else if op.StartRun? then Running else Completed
  }

  lemma EdgeTaken(s: State, op: Op, max: int, status: RunStatus, steps: map<StepId, StepRow>)
    requires EdgeCall(op) && Is(s.db, op.run, max, status, steps) && TargetOf(op) in RunTransitions(status)
    requires op.StartRun? ==> steps != map[]
    ensures Exec(s, op, true).1.Done?
    ensures Is(Exec(s, op, true).0.db, op.run, max, TargetOf(op), steps)
    ensures Exec(s, op, true).0.db.steps == s.db.steps
  {
    if op.StartRun? {
      var id :| id in steps;
      assert id in StepIds(s.db, op.run);
    }
    hide RunTransitions, LogOf;
    var after := Exec(s, op, true).0.db;
    assert after.steps == s.db.steps;
    hide Exec;
    assert StepsOf(after, op.run) == StepsOf(s.db, op.run);
  }

  lemma PlanTaken(s: State, run: RunId, id: StepId, max: int, status: RunStatus, steps: map<StepId, StepRow>)
    requires Is(s.db, run, max, status, steps) && status in {Created, Paused} && id !in s.db.steps
    ensures Exec(s, SetPlan(run, [id]), true).1.Done?
    ensures Is(Exec(s, SetPlan(run, [id]), true).0.db, run, max, Ready, Planned(run, id))
  {
    var ids := [id];
    hide PlannedDb, StepsOf;
    assert IdsInsertable(s.db, run, ids);
    PlanRows(s.db, run, ids);
    OneStep(PlannedDb(s.db, run, ids), run, id);
    PlannedReady(s.db, run, ids);
  }

  lemma OneStep(db: Db, run: RunId, id: StepId)
    requires id in db.steps && db.steps[id] == StepRow(run, 1, Pending, 0)
    requires forall other :: other in db.steps && other != id ==> db.steps[other].run != run
    ensures StepsOf(db, run) == Planned(run, id)
  {
  }

  lemma PlannedReady(db: Db, run: RunId, ids: seq<StepId>)
    requires run in db.runs
    ensures var after := PlannedDb(db, run, ids);
      run in after.runs && after.runs[run].status == Ready && after.runs[run].maxSteps == db.runs[run].maxSteps
  {
  }

  lemma ApiStep(disk: Disk, trace: seq<Action>, op: Op)
    requires Possible(disk, trace) && Enabled(Run(disk, trace), Api(op, true))
    ensures var after := trace + [Api(op, true)];
      && Possible(disk, after)
      && Run(disk, after).s == Exec(Run(disk, trace).s, op, true).0 && Run(disk, after).w == Run(disk, trace).w
      && Run(disk, after).used
         == Run(disk, trace).used + if op.SetPlan? then (set k | 0 <= k < |op.ids| :: op.ids[k]) else {}
  {
    hide Exec, Possible, Enabled;
    RunSnoc(disk, trace, Api(op, true));
  }

  lemma WorkStep(disk: Disk, trace: seq<Action>, rows: seq<Listed>)
    requires Possible(disk, trace) && Enabled(Run(disk, trace), Work(true, rows, Succeeded))
    ensures var after := trace + [Work(true, rows, Succeeded)];
      && Possible(disk, after) && Run(disk, after).used == Run(disk, trace).used
      && (Run(disk, after).s, Run(disk, after).w)
         == DoWork(Run(disk, trace).s, Run(disk, trace).w, true, rows, Succeeded)
  {
    hide Exec, DoWork, Possible, Enabled;
    RunSnoc(disk, trace, Work(true, rows, Succeeded));
  }

  // From a worker about to complete its run to the wrong completion

  function Race(run: RunId, id: StepId): seq<Action> {
    [Api(PauseRun(run), true), Api(SetPlan(run, [id]), true), Api(StartRun(run), true), Work(true, [], Succeeded)]
  }

  /** Between the worker's last look and its call the run is paused, planned anew and started again. The worker then
      completes it with the new step pending, and that is wrong unless the run may take no step at all. */
  lemma ReplanRace(disk: Disk, trace: seq<Action>, run: RunId, id: StepId, max: int, steps: map<StepId, StepRow>)
    requires Possible(disk, trace) && id !in Run(disk, trace).used
    requires Run(disk, trace).w.pc == CompleteRunNow && Run(disk, trace).w.run == run
    requires Is(Run(disk, trace).s.db, run, max, Running, steps)
    ensures var race := trace + Race(run, id);
      && Possible(disk, race)
      && Is(Run(disk, race).s.db, run, max, Completed, Planned(run, id))
      && (DoneOrAtLimit(Run(disk, race).s.db, run) <==> max <= 0)
  {
    NotYetThere(disk, trace, id);
    hide Possible, Run, Is, Race;
    Replanned(disk, trace, run, id, max, steps);
    var replanned := trace + [Api(PauseRun(run), true)] + [Api(SetPlan(run, [id]), true)];
    CompletedWrongly(disk, replanned, run, id, max);
    RaceIs(trace, run, id);
    WrongUnlessNoSteps(Run(disk, trace + Race(run, id)).s.db, run, id, max);
  }

  lemma NotYetThere(disk: Disk, trace: seq<Action>, id: StepId)
    requires Possible(disk, trace) && id !in Run(disk, trace).used
    ensures id !in Run(disk, trace).s.db.steps
  {
    TraceKeeps(disk, trace);
    hide Possible, Run;
  }

  lemma RaceIs(trace: seq<Action>, run: RunId, id: StepId)
    ensures trace + Race(run, id)
         == trace + [Api(PauseRun(run), true)] + [Api(SetPlan(run, [id]), true)] + [Api(StartRun(run), true)]
            + [Work(true, [], Succeeded)]
  {
  }

  lemma WrongUnlessNoSteps(db: Db, run: RunId, id: StepId, max: int)
    requires Is(db, run, max, Completed, Planned(run, id))
    ensures DoneOrAtLimit(db, run) <==> max <= 0
  {
    assert CompletedIds(Planned(run, id)) == {};
    assert Planned(run, id)[id].status == Pending;
    hide StepsOf, Planned;
  }

  lemma Replanned(disk: Disk, trace: seq<Action>, run: RunId, id: StepId, max: int, steps: map<StepId, StepRow>)
    requires Possible(disk, trace) && id !in Run(disk, trace).used && id !in Run(disk, trace).s.db.steps
    requires Is(Run(disk, trace).s.db, run, max, Running, steps)
    ensures var after := trace + [Api(PauseRun(run), true)] + [Api(SetPlan(run, [id]), true)];
      && Possible(disk, after) && Run(disk, after).w == Run(disk, trace).w
      && Is(Run(disk, after).s.db, run, max, Ready, Planned(run, id))
  {
    hide Exec, Possible, Run, Is;
    var s := Run(disk, trace).s;
    EdgeTaken(s, PauseRun(run), max, Running, steps);
    ApiStep(disk, trace, PauseRun(run));
    PlanTaken(Exec(s, PauseRun(run), true).0, run, id, max, Paused, steps);
    ApiStep(disk, trace + [Api(PauseRun(run), true)], SetPlan(run, [id]));
  }

  lemma CompletedWrongly(disk: Disk, trace: seq<Action>, run: RunId, id: StepId, max: int)
    requires Possible(disk, trace)
    requires Run(disk, trace).w.pc == CompleteRunNow && Run(disk, trace).w.run == run
    requires Is(Run(disk, trace).s.db, run, max, Ready, Planned(run, id))
    ensures var after := trace + [Api(StartRun(run), true)] + [Work(true, [], Succeeded)];
      Possible(disk, after) && Is(Run(disk, after).s.db, run, max, Completed, Planned(run, id))
  {
    hide Exec, Possible, Run, Is;
    var s := Run(disk, trace).s;
    assert id in Planned(run, id);
    EdgeTaken(s, StartRun(run), max, Ready, Planned(run, id));
    ApiStep(disk, trace, StartRun(run));
    EdgeTaken(Exec(s, StartRun(run), true).0, CompleteRun(run), max, Running, Planned(run, id));
    WorkStep(disk, trace + [Api(StartRun(run), true)], []);
  }

  // How the worker gets there

  /** A run with one step is created, planned and started. */
  function Begun(run: RunId, root: Root, max: int, id: StepId): seq<Action> {
    [Api(CreateRun(run, root, max), true), Api(SetPlan(run, [id]), true), Api(StartRun(run), true)]
  }

  /** The worker takes the run, does its step and looks at the steps again. */
  function Worked(run: RunId, id: StepId): seq<Action> {
    [Pick(run), Look([]), Look([Listed(id, Pending)]), Look([]), Look([]), Look([]), Look([]), Look([]), Look([]),
     Look([]), Look([Listed(id, StepCompleted)])]
  }

  function Look(rows: seq<Listed>): Action {
    Work(true, rows, Succeeded)
  }

  lemma RunBegins(disk: Disk, run: RunId, root: Root, max: int, id: StepId)
    requires root in disk
    ensures var trace := Begun(run, root, max, id);
      && Possible(disk, trace) && Run(disk, trace).used == {id} && Run(disk, trace).w == Initial(disk).w
      && Is(Run(disk, trace).s.db, run, max, Running, Planned(run, id))
  {
    hide Exec, Possible, Run, Is, Initial;
    CreateFirst(disk, run, root, max);
    var created := [Api(CreateRun(run, root, max), true)];
    PlanTaken(Run(disk, created).s, run, id, max, Created, map[]);
    ApiStep(disk, created, SetPlan(run, [id]));
    assert (set k | 0 <= k < |[id]| :: [id][k]) == {id} by {
      assert [id][0] == id;
    }
    var planned := created + [Api(SetPlan(run, [id]), true)];
    assert id in Planned(run, id);
    EdgeTaken(Run(disk, planned).s, StartRun(run), max, Ready, Planned(run, id));
    ApiStep(disk, planned, StartRun(run));
    BegunIs(run, root, max, id);
  }

  lemma BegunIs(run: RunId, root: Root, max: int, id: StepId)
    ensures Begun(run, root, max, id)
         == [Api(CreateRun(run, root, max), true)] + [Api(SetPlan(run, [id]), true)] + [Api(StartRun(run), true)]
  {
  }

  lemma CreateFirst(disk: Disk, run: RunId, root: Root, max: int)
    requires root in disk
    ensures var created := [Api(CreateRun(run, root, max), true)];
      && Possible(disk, created) && Run(disk, created).used == {} && Run(disk, created).w == Initial(disk).w
      && Is(Run(disk, created).s.db, run, max, Created, map[]) && Run(disk, created).s.db.steps == map[]
  {
    var start: seq<Action> := [];
    assert Possible(disk, start) && Run(disk, start) == Initial(disk);
    RunCreated(disk, run, root, max);
    hide Exec, Possible, Run, Is, Initial;
    ApiStep(disk, start, CreateRun(run, root, max));
    assert start + [Api(CreateRun(run, root, max), true)] == [Api(CreateRun(run, root, max), true)];
  }

  lemma RunCreated(disk: Disk, run: RunId, root: Root, max: int)
    requires root in disk
    ensures var s := Exec(Initial(disk).s, CreateRun(run, root, max), true).0;
      Is(s.db, run, max, Created, map[]) && s.db.steps == map[] && Initial(disk).used == {}
  {
    hide TaskManifest.Materialize;
    assert StepsOf(Exec(Initial(disk).s, CreateRun(run, root, max), true).0.db, run) == map[];
  }

  /** The worker before each of its calls, for a plan of one step. */
  function At(pc: Pc, run: RunId, max: int, rows: seq<Listed>, index: nat, completed: int): Worker {
    Worker(pc, run, max, rows, index, completed)
  }

  lemma Looks(disk: Disk, trace: seq<Action>, rows: seq<Listed>, next: Worker)
    requires Possible(disk, trace) && Enabled(Run(disk, trace), Look(rows))
    requires DoWork(Run(disk, trace).s, Run(disk, trace).w, true, rows, Succeeded) == (Run(disk, trace).s, next)
    ensures var after := trace + [Look(rows)];
      && Possible(disk, after) && Run(disk, after) == Sys(Run(disk, trace).s, Run(disk, trace).used, next)
  {
    hide DoWork, Possible, Enabled, Run;
    WorkStep(disk, trace, rows);
  }

  /** The steps of the worker up to the start of the step. */
  lemma FindingSteps(s: State, run: RunId, id: StepId, max: int)
    requires Is(s.db, run, max, Running, Planned(run, id)) && max >= 2 && !SomeActive(s.db, run)
    ensures var rows := [Listed(id, Pending)];
      && DoWork(s, At(Begin, run, 0, [], 0, 0), true, [], Succeeded) == (s, At(Listing, run, max, [], 0, 0))
      && (CountCompleted(rows) == 0 ==>
            DoWork(s, At(Listing, run, max, [], 0, 0), true, rows, Succeeded) == (s, At(Head, run, max, rows, 0, 0)))
      && DoWork(s, At(Head, run, max, rows, 0, 0), true, [], Succeeded) == (s, At(Counting, run, max, rows, 0, 0))
      && DoWork(s, At(Counting, run, max, rows, 0, 0), true, [], Succeeded) == (s, At(Activating, run, max, rows, 0, 0))
  {
    hide Exec, StepsOf, SomeActive, CountCompleted, Planned;
  }

  lemma PickStep(disk: Disk, trace: seq<Action>, run: RunId)
    requires Possible(disk, trace) && Run(disk, trace).w == Initial(disk).w
    requires run in Run(disk, trace).s.db.runs && Run(disk, trace).s.db.runs[run].status == Running
    ensures var after := trace + [Pick(run)];
      && Possible(disk, after)
      && Run(disk, after) == Sys(Run(disk, trace).s, Run(disk, trace).used, At(Begin, run, 0, [], 0, 0))
  {
    hide Possible, Exec, DoWork;
    RunSnoc(disk, trace, Pick(run));
  }

  /** Up to the listing of the steps. */
  lemma WorkerListsSteps(disk: Disk, trace: seq<Action>, run: RunId, id: StepId, max: int)
    requires Possible(disk, trace) && Run(disk, trace).w == Initial(disk).w && max >= 2
    requires Is(Run(disk, trace).s.db, run, max, Running, Planned(run, id))
    ensures var rows := [Listed(id, Pending)];
            var after := trace + [Pick(run)] + [Look([])] + [Look(rows)];
      && Possible(disk, after)
      && Run(disk, after) == Sys(Run(disk, trace).s, Run(disk, trace).used, At(Head, run, max, rows, 0, 0))
  {
    var s, rows := Run(disk, trace).s, [Listed(id, Pending)];
    ListingOfOne(s.db, run, id, max, Pending);
    NoneActive(s.db, run, id, max);
    FindingSteps(s, run, id, max);
    PickStep(disk, trace, run);
    hide Possible, Run, IsListing, StepsOf, SomeActive, CountCompleted, DoWork, Initial, Planned, Is;
    var picked := trace + [Pick(run)];
    Looks(disk, picked, [], At(Listing, run, max, [], 0, 0));
    Looks(disk, picked + [Look([])], rows, At(Head, run, max, rows, 0, 0));
  }

  /** From there to the start of the step. */
  lemma WorkerFindsStep(disk: Disk, trace: seq<Action>, run: RunId, id: StepId, max: int)
    requires Possible(disk, trace) && Run(disk, trace).w == At(Head, run, max, [Listed(id, Pending)], 0, 0) && max >= 2
    requires Is(Run(disk, trace).s.db, run, max, Running, Planned(run, id))
    ensures var after := trace + [Look([])] + [Look([])];
      && Possible(disk, after)
      && Run(disk, after)
         == Sys(Run(disk, trace).s, Run(disk, trace).used, At(Activating, run, max, [Listed(id, Pending)], 0, 0))
  {
    var s, rows := Run(disk, trace).s, [Listed(id, Pending)];
    NoneActive(s.db, run, id, max);
    FindingSteps(s, run, id, max);
    hide Possible, Run, IsListing, StepsOf, SomeActive, CountCompleted, DoWork, Initial, Planned, Is;
    Looks(disk, trace, [], At(Counting, run, max, rows, 0, 0));
    Looks(disk, trace + [Look([])], [], At(Activating, run, max, rows, 0, 0));
  }

  lemma ListingOfOne(db: Db, run: RunId, id: StepId, max: int, status: StepStatus)
    requires StepsOf(db, run).Keys == {id} && StepsOf(db, run)[id].status == status
    ensures IsListing(StepsOf(db, run), [Listed(id, status)])
    ensures CountCompleted([Listed(id, status)]) == if status == StepCompleted then 1 else 0
  {
    var rows := [Listed(id, status)];
    assert Front(rows) == [] && rows[0].id == id;
    assert Ids(rows) == {id};
  }

  lemma NoneActive(db: Db, run: RunId, id: StepId, max: int)
    requires Is(db, run, max, Running, Planned(run, id))
    ensures !SomeActive(db, run)
  {
    forall other | other in db.steps && db.steps[other].run == run
      ensures db.steps[other].status != Active
    {
      assert other in StepsOf(db, run);
    }
  }

  function Started(run: RunId, id: StepId): map<StepId, StepRow> {
    map[id := StepRow(run, 1, Active, 1)]
  }

  function Finished(run: RunId, id: StepId): map<StepId, StepRow> {
    map[id := StepRow(run, 1, StepCompleted, 1)]
  }

  lemma StepStarts(s: State, run: RunId, id: StepId, max: int)
    requires Is(s.db, run, max, Running, Planned(run, id))
    ensures Exec(s, ActivateStep(run, id), true).1.Done?
    ensures Is(Exec(s, ActivateStep(run, id), true).0.db, run, max, Running, Started(run, id))
  {
    assert id in StepsOf(s.db, run) && StepsOf(s.db, run)[id] == StepRow(run, 1, Pending, 0);
    NoneActive(s.db, run, id, max);
    hide LogOf, MaxSequence, SomeActive, StepsOf;
    StepsMove(s.db, Exec(s, ActivateStep(run, id), true).0.db, run, id);
  }

  lemma StepEnds(s: State, run: RunId, id: StepId, max: int)
    requires Is(s.db, run, max, Running, Started(run, id))
    ensures Exec(s, CompleteStep(run, id), true).1.Done?
    ensures Is(Exec(s, CompleteStep(run, id), true).0.db, run, max, Running, Finished(run, id))
  {
    assert id in StepsOf(s.db, run) && StepsOf(s.db, run)[id] == StepRow(run, 1, Active, 1);
    hide LogOf, MaxSequence, StepsOf;
    StepsMove(s.db, Exec(s, CompleteStep(run, id), true).0.db, run, id);
  }

  lemma StepsMove(db: Db, after: Db, run: RunId, id: StepId)
    requires id in db.steps && id in after.steps && after.steps == db.steps[id := after.steps[id]]
    requires db.steps[id].run == run && after.steps[id].run == run
    ensures StepsOf(after, run) == StepsOf(db, run)[id := after.steps[id]]
  {
  }

  lemma WorkerDoesStep(disk: Disk, trace: seq<Action>, run: RunId, id: StepId, max: int)
    requires var rows := [Listed(id, Pending)];
      Possible(disk, trace) && Run(disk, trace).w == At(Activating, run, max, rows, 0, 0) && max >= 2
    requires Is(Run(disk, trace).s.db, run, max, Running, Planned(run, id))
    ensures var rows := [Listed(id, Pending)];
            var after := trace + [Look([])] + [Look([])] + [Look([])];
      && Possible(disk, after) && Run(disk, after).used == Run(disk, trace).used
      && Run(disk, after).w == At(Checking, run, max, rows, 0, 1)
      && Is(Run(disk, after).s.db, run, max, Running, Finished(run, id))
  {
    hide Possible, Run, Exec, Is;
    var s := Run(disk, trace).s;
    StepStarts(s, run, id, max);
    WorkStep(disk, trace, []);
    var active := trace + [Look([])];
    WorkStep(disk, active, []);
    StepEnds(Run(disk, active + [Look([])]).s, run, id, max);
    WorkStep(disk, active + [Look([])], []);
  }

  /** The steps of the worker after its step. */
  lemma LookingSteps(s: State, run: RunId, id: StepId, max: int)
    requires Is(s.db, run, max, Running, Finished(run, id)) && max >= 2
    ensures var before, rows := [Listed(id, Pending)], [Listed(id, StepCompleted)];
      && DoWork(s, At(Checking, run, max, before, 0, 1), true, [], Succeeded)
         == (s, At(FinalStatus, run, max, before, 1, 1))
      && DoWork(s, At(FinalStatus, run, max, before, 1, 1), true, [], Succeeded)
         == (s, At(FinalListing, run, max, before, 1, 1))
      && DoWork(s, At(FinalListing, run, max, before, 1, 1), true, rows, Succeeded)
         == (s, At(CompleteRunNow, run, max, rows, 1, 1))
  {
    hide Exec, StepsOf, Finished;
    var rows := [Listed(id, StepCompleted)];
    assert forall k :: 0 <= k < |rows| ==> rows[k].status == StepCompleted;
  }

  lemma WorkerLeavesLoop(disk: Disk, trace: seq<Action>, run: RunId, id: StepId, max: int)
    requires Possible(disk, trace) && max >= 2
    requires Run(disk, trace).w == At(Checking, run, max, [Listed(id, Pending)], 0, 1)
    requires Is(Run(disk, trace).s.db, run, max, Running, Finished(run, id))
    ensures var after := trace + [Look([])] + [Look([])];
      && Possible(disk, after)
      && Run(disk, after)
         == Sys(Run(disk, trace).s, Run(disk, trace).used, At(FinalListing, run, max, [Listed(id, Pending)], 1, 1))
  {
    var s, before := Run(disk, trace).s, [Listed(id, Pending)];
    LookingSteps(s, run, id, max);
    hide Possible, Run, IsListing, StepsOf, DoWork, Finished, Is, CountCompleted;
    Looks(disk, trace, [], At(FinalStatus, run, max, before, 1, 1));
    Looks(disk, trace + [Look([])], [], At(FinalListing, run, max, before, 1, 1));
  }

  lemma WorkerLooksAgain(disk: Disk, trace: seq<Action>, run: RunId, id: StepId, max: int)
    requires Possible(disk, trace) && max >= 2
    requires Run(disk, trace).w == At(FinalListing, run, max, [Listed(id, Pending)], 1, 1)
    requires Is(Run(disk, trace).s.db, run, max, Running, Finished(run, id))
    ensures var rows := [Listed(id, StepCompleted)];
            var after := trace + [Look(rows)];
      && Possible(disk, after)
      && Run(disk, after) == Sys(Run(disk, trace).s, Run(disk, trace).used, At(CompleteRunNow, run, max, rows, 1, 1))
  {
    var s, rows := Run(disk, trace).s, [Listed(id, StepCompleted)];
    ListingOfOne(s.db, run, id, max, StepCompleted);
    LookingSteps(s, run, id, max);
    hide Possible, Run, IsListing, StepsOf, DoWork, Finished, Is, CountCompleted;
    Looks(disk, trace, rows, At(CompleteRunNow, run, max, rows, 1, 1));
  }

  lemma WorkedIs(trace: seq<Action>, run: RunId, id: StepId)
    ensures trace + Worked(run, id)
         == trace + [Pick(run)] + [Look([])] + [Look([Listed(id, Pending)])] + [Look([])] + [Look([])]
            + [Look([])] + [Look([])] + [Look([])]
            + [Look([])] + [Look([])] + [Look([Listed(id, StepCompleted)])]
  {
  }

  /** From the empty tables a run may be completed by the worker although its one step is pending and its limit allows
      more: create, plan and start it, let the worker do the step, and plan anew just before it completes the run. */
  lemma RaceHappens(disk: Disk, run: RunId, root: Root, max: int, first: StepId, second: StepId)
    requires root in disk && max >= 2 && first != second
    ensures var trace := Begun(run, root, max, first) + Worked(run, first) + Race(run, second);
            var db := Run(disk, trace).s.db;
      && Possible(disk, trace)
      && Is(db, run, max, Completed, Planned(run, second))
      && !DoneOrAtLimit(db, run)
  {
    hide Possible, Run, Is, Begun, Worked, Race;
    var begun := Begun(run, root, max, first);
    RunBegins(disk, run, root, max, first);
    WorkerListsSteps(disk, begun, run, first, max);
    var listed := begun + [Pick(run)] + [Look([])] + [Look([Listed(first, Pending)])];
    WorkerFindsStep(disk, listed, run, first, max);
    var found := listed + [Look([])] + [Look([])];
    WorkerDoesStep(disk, found, run, first, max);
    var done := found + [Look([])] + [Look([])] + [Look([])];
    WorkerLeavesLoop(disk, done, run, first, max);
    WorkerLooksAgain(disk, done + [Look([])] + [Look([])], run, first, max);
    WorkedIs(begun, run, first);
    ReplanRace(disk, begun + Worked(run, first), run, second, max, Finished(run, first));
  }
}
