/** Every enabled trace of the worker and the calls around it keeps the plan invariants. */
module WorkbenchTraces {
  import opened Text
  import opened StateMachine
  import opened Workbench
  import opened WorkbenchWorker
  import opened WorkbenchWorkerProofs
  import TaskManifest
  import WorkbenchReplay

  // Calls from outside

  lemma FrameKeeps(db: Db, db': Db, used: set<StepId>, w: Worker)
    requires TablesOk(db, used) && WorkerOk(db, used, w)
    requires db'.steps == db.steps
    requires forall run :: run in db.runs ==> run in db'.runs && db'.runs[run].maxSteps == db.runs[run].maxSteps
    ensures TablesOk(db', used) && WorkerOk(db', used, w)
  {
    hide Shape, Unchanged;
    forall run ensures StepsOf(db', run) == StepsOf(db, run) {
    }
    forall run | run in db'.runs ensures Shape(StepsOf(db', run), db'.runs[run].maxSteps) {
      if run !in db.runs {
        assert StepsOf(db', run) == map[];
        EmptyShape(db'.runs[run].maxSteps);
      }
    }
  }

  lemma EmptyShape(maxSteps: int)
    ensures Shape(map[], maxSteps)
  {
    FreshShape(map[], maxSteps);
  }

  lemma PlanKeepsTables(db: Db, used: set<StepId>, run: RunId, ids: seq<StepId>)
    requires TablesOk(db, used) && run in db.runs && IdsInsertable(db, run, ids)
    ensures TablesOk(PlannedDb(db, run, ids), used + (set k | 0 <= k < |ids| :: ids[k]))
  {
    hide Shape, PlannedDb, StepsOf;
    PlanRows(db, run, ids);
    PlanSteps(db, run, ids);
    var db' := PlannedDb(db, run, ids);
    FreshPlanShape(StepsOf(db', run), ids);
    FreshShape(StepsOf(db', run), db'.runs[run].maxSteps);
    forall id | id in db'.steps
      ensures id in used + (set k | 0 <= k < |ids| :: ids[k]) && db'.steps[id].run in db'.runs
    {
      if id in ids {
        var k :| 0 <= k < |ids| && ids[k] == id;
      }
    }
  }

  /** A new plan for the worker's run leaves nothing of the listed one. */
  lemma PlanKeepsWorker(db: Db, used: set<StepId>, w: Worker, run: RunId, ids: seq<StepId>)
    requires TablesOk(db, used) && WorkerOk(db, used, w) && run in db.runs && IdsInsertable(db, run, ids)
    requires forall k :: 0 <= k < |ids| ==> ids[k] !in used
    ensures WorkerOk(PlannedDb(db, run, ids), used + (set k | 0 <= k < |ids| :: ids[k]), w)
  {
    hide Shape, PlannedDb, TablesOk;
    PlanRows(db, run, ids);
    PlanSteps(db, run, ids);
    var db' := PlannedDb(db, run, ids);
    if HasListing(w.pc) {
      forall k | 0 <= k < |w.listing|
        ensures w.listing[k].id in used && w.listing[k].id !in ids
      {
        assert w.listing[k].id in Ids(w.listing);
      }
      if run == w.run {
        FreshPlanShape(StepsOf(db', run), ids);
        forall k | 0 <= k < |w.listing| ensures w.listing[k].id !in db'.steps {
          assert w.listing[k].id in Ids(w.listing);
          assert Ids(w.listing) == StepsOf(db, run).Keys || w.listing[k].id !in db.steps;
        }
        assert Replaced(db', w);
      } else {
        assert StepsOf(db', w.run) == StepsOf(db, w.run);
      }
    }
  }

  lemma ApiKeeps(sys: Sys, op: Op, ok: bool)
    requires Inv(sys) && Enabled(sys, Api(op, ok))
    ensures Inv(Next(sys, Api(op, ok)))
  {
    hide TablesOk, WorkerOk, PlannedDb, IdsInsertable;
    var db := sys.s.db;
    if op.SetPlan? {
      var used := sys.used + set k | 0 <= k < |op.ids| :: op.ids[k];
      if Exec(sys.s, op, ok).1.Done? {
        PlanKeepsTables(db, sys.used, op.run, op.ids);
        PlanKeepsWorker(db, sys.used, sys.w, op.run, op.ids);
      } else {
        MoreUsed(db, sys.used, used, sys.w);
      }
    } else {
      hide Exec;
      ApiFrame(sys.s, op, ok);
      FrameKeeps(db, Exec(sys.s, op, ok).0.db, sys.used, sys.w);
    }
  }

  lemma MoreUsed(db: Db, used: set<StepId>, used': set<StepId>, w: Worker)
    requires TablesOk(db, used) && WorkerOk(db, used, w) && used <= used'
    ensures TablesOk(db, used') && WorkerOk(db, used', w)
  {
    hide Shape, Unchanged;
  }

  // The worker's own steps

  function DoneIds(listing: seq<Listed>): set<StepId> {
    set k | 0 <= k < |listing| && listing[k].status == StepCompleted :: listing[k].id
  }

  lemma {:induction false} CountIsSize(listing: seq<Listed>)
    requires forall j, k :: 0 <= j < k < |listing| ==> listing[j].id != listing[k].id
    ensures CountCompleted(listing) == |DoneIds(listing)|
    decreases |listing|
  {
    if listing == [] {
      assert DoneIds(listing) == {};
    } else {
      var last := Last(listing);
      CountIsSize(Front(listing));
      assert last.id !in DoneIds(Front(listing));
      DoneIdsStep(Front(listing), last);
      assert listing == Front(listing) + [last];
      hide DoneIds;
    }
  }

  lemma DoneIdsStep(listing: seq<Listed>, last: Listed)
    ensures DoneIds(listing + [last]) == DoneIds(listing) + if last.status == StepCompleted then {last.id} else {}
  {
    var all := listing + [last];
    assert all[|listing|] == last && forall k :: 0 <= k < |listing| ==> all[k] == listing[k];
    forall id
      ensures id in DoneIds(all) <==> id in DoneIds(listing) || (last.status == StepCompleted && id == last.id)
    {
      if id in DoneIds(listing) {
        var k :| 0 <= k < |listing| && listing[k].id == id && listing[k].status == StepCompleted;
        assert all[k].id == id;
      }
    }
  }

  lemma ListingFacts(steps: map<StepId, StepRow>, rows: seq<Listed>)
    requires IsListing(steps, rows)
    ensures InOrder(steps, rows) && CountCompleted(rows) == |CompletedIds(steps)|
    ensures (forall k :: 0 <= k < |rows| ==> rows[k].status != Pending) ==> NonePending(steps)
  {
    CountIsSize(rows);
    forall id
      ensures id in steps ==> exists k :: 0 <= k < |rows| && rows[k].id == id
    {
      assert id in steps ==> id in Ids(rows);
    }
    forall k | 0 <= k < |rows| ensures rows[k].id in steps {
      assert rows[k].id in Ids(rows);
    }
    assert DoneIds(rows) == CompletedIds(steps);
  }

  lemma AdvanceUnchanged(steps: map<StepId, StepRow>, w: Worker)
    requires InOrder(steps, w.listing) && StartedBefore(steps, w.listing, w.index + 1)
    requires w.completed == |CompletedIds(steps)| < w.maxSteps
    ensures Unchanged(steps, Advance(w, w.index + 1))
  {
    hide InOrder, StartedBefore;
  }

  /** The head of the loop passes over a step that was not pending in the listing. */
  lemma HeadKeeps(db: Db, used: set<StepId>, w: Worker)
    requires WorkerOk(db, used, w) && w.pc == Head
    requires w.index < |w.listing| ==> w.listing[w.index].status != Pending
    ensures WorkerOk(db, used, Advance(w, w.index + 1))
  {
    var steps := StepsOf(db, w.run);
    if Unchanged(steps, w) {
      assert w.listing[w.index].id in Ids(w.listing);
      assert StartedBefore(steps, w.listing, w.index + 1);
      AdvanceUnchanged(steps, w);
    }
  }

  lemma CheckingKeeps(db: Db, used: set<StepId>, w: Worker)
    requires WorkerOk(db, used, w) && w.pc == Checking && w.completed < w.maxSteps
    ensures WorkerOk(db, used, Advance(w, w.index + 1))
  {
    var steps := StepsOf(db, w.run);
    if Unchanged(steps, w) {
      AdvanceUnchanged(steps, w);
    }
  }

  /** Moving to a place that asks for nothing more than the present one. */
  lemma MoveKeeps(db: Db, used: set<StepId>, w: Worker, pc: Pc)
    requires WorkerOk(db, used, w) && HasListing(w.pc)
    requires pc in {Idle, FinalStatus, FinalListing}
          || (w.pc == Head && pc == Counting) || (w.pc == Counting && pc == Activating)
          || (w.pc == Working && pc in {Completing, FailThenRun, FailThenPause})
    ensures WorkerOk(db, used, w.(pc := pc))
  {
    hide InOrder, StartedBefore, AllPending;
  }

  /** Steps of the worker that read only. */
  lemma ReadKeeps(s: State, used: set<StepId>, w: Worker, ok: bool, rows: seq<Listed>, body: Body)
    requires WorkerOk(s.db, used, w)
    requires w.pc in {Begin, Head, Counting, Working, Checking, FinalStatus}
    ensures DoWork(s, w, ok, rows, body).0 == s && WorkerOk(s.db, used, DoWork(s, w, ok, rows, body).1)
  {
    if w.pc == Begin {
      hide Unchanged;
    } else {
      hide WorkerOk, SomeActive, Advance;
      var w' := DoWork(s, w, ok, rows, body).1;
      if w.pc == Head && w' == Advance(w, w.index + 1) {
        if w.index < |w.listing| && w.listing[w.index].status == Pending {
          MoveKeeps(s.db, used, w, w'.pc);
        } else {
          HeadKeeps(s.db, used, w);
        }
      } else if w.pc == Checking && w' == Advance(w, w.index + 1) {
        if w.completed < w.maxSteps {
          CheckingKeeps(s.db, used, w);
        } else {
          MoveKeeps(s.db, used, w, w'.pc);
        }
      } else {
        MoveKeeps(s.db, used, w, w'.pc);
      }
    }
  }

  lemma ListingKeeps(s: State, used: set<StepId>, w: Worker, ok: bool, rows: seq<Listed>, body: Body)
    requires TablesOk(s.db, used) && WorkerOk(s.db, used, w)
    requires w.pc in {Listing, FinalListing} && IsListing(StepsOf(s.db, w.run), rows)
    ensures DoWork(s, w, ok, rows, body).0 == s && WorkerOk(s.db, used, DoWork(s, w, ok, rows, body).1)
  {
    hide Shape, Exec, IsListing, CountCompleted, InOrder, NonePending, TablesOk, Ids, Replaced, CompletedIds;
    ListingFacts(StepsOf(s.db, w.run), rows);
    IdsUsed(s.db, used, w.run, rows);
    hide StepsOf;
    if w.pc == FinalListing {
      FinalListingKeeps(s, used, w, ok, rows, body);
    }
  }

  lemma FinalListingKeeps(s: State, used: set<StepId>, w: Worker, ok: bool, rows: seq<Listed>, body: Body)
    requires WorkerOk(s.db, used, w) && w.pc == FinalListing && Ids(rows) <= used
    requires var steps := StepsOf(s.db, w.run);
      InOrder(steps, rows) && ((forall k :: 0 <= k < |rows| ==> rows[k].status != Pending) ==> NonePending(steps))
    ensures DoWork(s, w, ok, rows, body).0 == s && WorkerOk(s.db, used, DoWork(s, w, ok, rows, body).1)
  {
    hide Exec, InOrder, NonePending, Ids, Replaced, StepsOf, CompletedIds;
  }

  lemma IdsUsed(db: Db, used: set<StepId>, run: RunId, rows: seq<Listed>)
    requires TablesOk(db, used) && IsListing(StepsOf(db, run), rows)
    ensures Ids(rows) <= used
  {
    hide Shape;
    IdsAreKeys(StepsOf(db, run), rows);
  }

  lemma IdsAreKeys(steps: map<StepId, StepRow>, rows: seq<Listed>)
    requires IsListing(steps, rows)
    ensures Ids(rows) == steps.Keys
  {
  }

  // The worker's calls

  /** A rewritten row of the worker's run: tables and limits of every run stay in shape. */
  lemma RowKeepsTables(db: Db, db': Db, used: set<StepId>, id: StepId)
    requires TablesOk(db, used) && id in db.steps && id in db'.steps
    requires db'.steps == db.steps[id := db'.steps[id]] && db'.steps[id].run == db.steps[id].run
    requires db'.runs.Keys == db.runs.Keys
    requires forall r :: r in db.runs ==> db'.runs[r].maxSteps == db.runs[r].maxSteps
    requires Shape(StepsOf(db', db.steps[id].run), db.runs[db.steps[id].run].maxSteps)
    ensures TablesOk(db', used)
  {
    hide Shape;
    StepsOfUpdate(db, db', id);
  }

  /** The step the worker is about to start has only started steps before it. */
  lemma EarlierStarted(steps: map<StepId, StepRow>, w: Worker)
    requires Unchanged(steps, w) && w.pc in {Activating, Completing, FailThenRun, FailThenPause}
    ensures w.index < |w.listing| && w.listing[w.index].id in steps
    ensures OthersBeforeStarted(steps, w.listing[w.index].id)
  {
    var id := w.listing[w.index].id;
    assert id in Ids(w.listing);
    forall a | a in steps && steps[a].ordinal < steps[id].ordinal
      ensures steps[a].status != Pending
    {
      assert a in Ids(w.listing);
      var k :| 0 <= k < |w.listing| && w.listing[k].id == a;
      assert k < w.index;
    }
  }

  lemma RowKeepsOrder(steps: map<StepId, StepRow>, listing: seq<Listed>, k: nat, row: StepRow)
    requires InOrder(steps, listing) && k < |listing| && listing[k].id in steps
    requires StartedBefore(steps, listing, k) && row.status != Pending && row.ordinal == steps[listing[k].id].ordinal
    ensures var steps' := steps[listing[k].id := row];
      InOrder(steps', listing) && StartedBefore(steps', listing, k + 1)
  {
    forall j | 0 <= j < |listing| ensures listing[j].id in steps {
      assert listing[j].id in Ids(listing);
    }
    assert steps[listing[k].id := row].Keys == steps.Keys;
  }

  /** The worker's three step calls, where the listed plan is still the plan. */
  lemma StepCallKeeps(s: State, used: set<StepId>, w: Worker, op: Op, ok: bool, next: Worker)
    requires TablesOk(s.db, used) && WorkerOk(s.db, used, w) && Unchanged(StepsOf(s.db, w.run), w)
    requires w.pc in {Activating, Completing, FailThenRun, FailThenPause} && w.index < |w.listing|
    requires op == (if w.pc == Activating then ActivateStep(w.run, w.listing[w.index].id)
                    else if w.pc == Completing then CompleteStep(w.run, w.listing[w.index].id)
                    else FailStep(w.run, w.listing[w.index].id))
    requires Exec(s, op, ok).1.Done?
    requires next == (if w.pc == Activating then w.(pc := Working)
                      else if w.pc == Completing then w.(pc := Checking, completed := w.completed + 1)
                      else if w.pc == FailThenRun then w.(pc := FailRunNow) else w.(pc := PauseNow))
    ensures TablesOk(Exec(s, op, ok).0.db, used) && WorkerOk(Exec(s, op, ok).0.db, used, next)
  {
    hide Exec, NumberedFromOne, OneActive, PendingLast, InOrder, StartedBefore, OthersBeforeStarted;
    var db, id, k := s.db, op.id, w.index;
    var db' := Exec(s, op, ok).0.db;
    var steps := StepsOf(db, w.run);
    StepCallRows(s, op, ok);
    EarlierStarted(steps, w);
    StepsOfUpdate(db, db', id);
    var row := db'.steps[id];
    if w.pc == Activating {
      forall a | a in steps ensures steps[a].status != Active {
        assert steps[a].status == Active ==> SomeActive(db, w.run);
      }
      ActivateShape(steps, id, row, w.maxSteps);
    } else {
      FinishShape(steps, id, row, w.maxSteps);
    }
    RowKeepsTables(db, db', used, id);
    RowKeepsOrder(steps, w.listing, k, row);
    AfterCall(steps[id := row], w, next);
  }

  lemma AfterCall(steps: map<StepId, StepRow>, w: Worker, next: Worker)
    requires InOrder(steps, w.listing) && w.index < |w.listing| && StartedBefore(steps, w.listing, w.index + 1)
    requires next.listing == w.listing && next.index == w.index
    requires next.pc in {Working, Checking, FailRunNow, PauseNow}
    requires next.pc in {Working, Checking} ==> next.completed == |CompletedIds(steps)|
    requires next.pc == Working ==> next.completed < next.maxSteps && steps[w.listing[w.index].id].status == Active
    ensures Unchanged(steps, next)
  {
  }

  /** The worker's calls on its run. */
  lemma RunCallKeeps(s: State, used: set<StepId>, w: Worker, ok: bool, rows: seq<Listed>, body: Body)
    requires TablesOk(s.db, used) && WorkerOk(s.db, used, w) && w.pc in {FailRunNow, PauseNow, CompleteRunNow}
    ensures var (s', w') := DoWork(s, w, ok, rows, body); TablesOk(s'.db, used) && WorkerOk(s'.db, used, w')
  {
    hide Exec, TablesOk, Unchanged, CountCompleted, SomeActive, Advance;
    if w.pc == PauseNow {
      ApiFrame(s, PauseRun(w.run), ok);
      FrameKeeps(s.db, Exec(s, PauseRun(w.run), ok).0.db, used, w);
    } else {
      var op := if w.pc == FailRunNow then FailRun(w.run) else CompleteRun(w.run);
      StepCallFailed(s, op, ok);
      FrameKeeps(s.db, Exec(s, op, ok).0.db, used, w);
    }
  }

  /** The worker's calls on a step. */
  lemma CallKeeps(s: State, used: set<StepId>, w: Worker, ok: bool, rows: seq<Listed>, body: Body)
    requires TablesOk(s.db, used) && WorkerOk(s.db, used, w)
    requires w.pc in {Activating, Completing, FailThenRun, FailThenPause}
    ensures var (s', w') := DoWork(s, w, ok, rows, body); TablesOk(s'.db, used) && WorkerOk(s'.db, used, w')
  {
    hide Exec, TablesOk, Unchanged, CountCompleted, SomeActive, Advance;
    if w.index < |w.listing| {
      var id := w.listing[w.index].id;
      var op := if w.pc == Activating then ActivateStep(w.run, id)
                else if w.pc == Completing then CompleteStep(w.run, id) else FailStep(w.run, id);
      StepCallFailed(s, op, ok);
      if Exec(s, op, ok).1.Done? {
        StepCallRows(s, op, ok);
        StepCallKeeps(s, used, w, op, ok, DoWork(s, w, ok, rows, body).1);
      }
    }
  }

  lemma WorkKeeps(sys: Sys, ok: bool, rows: seq<Listed>, body: Body)
    requires Inv(sys) && Enabled(sys, Work(ok, rows, body))
    ensures Inv(Next(sys, Work(ok, rows, body)))
  {
    hide TablesOk, WorkerOk, DoWork, IsListing;
    var pc := sys.w.pc;
    if pc in {Listing, FinalListing} {
      ListingKeeps(sys.s, sys.used, sys.w, ok, rows, body);
    } else if pc in {Begin, Head, Counting, Working, Checking, FinalStatus} {
      ReadKeeps(sys.s, sys.used, sys.w, ok, rows, body);
    } else if pc in {FailRunNow, PauseNow, CompleteRunNow} {
      RunCallKeeps(sys.s, sys.used, sys.w, ok, rows, body);
    } else {
      CallKeeps(sys.s, sys.used, sys.w, ok, rows, body);
    }
  }

  lemma NextKeeps(sys: Sys, action: Action)
    requires Inv(sys) && Enabled(sys, action)
    ensures Inv(Next(sys, action))
  {
    hide TablesOk, Unchanged, DoWork;
    match action {
      case Api(op, ok) => ApiKeeps(sys, op, ok);
      case Work(ok, rows, body) => WorkKeeps(sys, ok, rows, body);
      case Restart =>
      case Pick(run) =>
    }
  }

  // Traces

  function Initial(disk: map<Root, TaskManifest.Fs>): Sys {
    Sys(State(Db(map[], map[], map[]), disk), {}, Worker(Idle, "", 0, [], 0, 0))
  }

  function Run(disk: map<Root, TaskManifest.Fs>, trace: seq<Action>): Sys {
    if trace == [] then Initial(disk) else Next(Run(disk, Front(trace)), Last(trace))
  }

  predicate Possible(disk: map<Root, TaskManifest.Fs>, trace: seq<Action>) {
    trace == [] || (Possible(disk, Front(trace)) && Enabled(Run(disk, Front(trace)), Last(trace)))
  }

  lemma {:induction false} TraceKeeps(disk: map<Root, TaskManifest.Fs>, trace: seq<Action>)
    requires Possible(disk, trace)
    ensures Inv(Run(disk, trace))
    decreases |trace|
  {
    hide Next, Enabled;
    if trace != [] {
      TraceKeeps(disk, Front(trace));
      NextKeeps(Run(disk, Front(trace)), Last(trace));
    }
  }

  /** In every state of every interleaving: ordinals are 1..n, at most one step is active, pending
      steps come last, and no more steps are completed than the run's limit allows. */
  lemma PlanShapeAlways(disk: map<Root, TaskManifest.Fs>, trace: seq<Action>, run: RunId)
    requires Possible(disk, trace) && run in Run(disk, trace).s.db.runs
    ensures var db := Run(disk, trace).s.db;
      Shape(StepsOf(db, run), db.runs[run].maxSteps)
  {
    TraceKeeps(disk, trace);
  }

  /** The worker names the owner of every step it finishes. */
  lemma WorkerNamesOwner(db: Db, used: set<StepId>, w: Worker)
    requires WorkerOk(db, used, w) && HasListing(w.pc) && w.index < |w.listing|
    ensures w.listing[w.index].id in db.steps ==> db.steps[w.listing[w.index].id].run == w.run
  {
    assert w.listing[w.index].id in Ids(w.listing);
  }

  lemma WorkReplays(s: State, used: set<StepId>, w: Worker, ok: bool, rows: seq<Listed>, body: Body)
    requires WorkerOk(s.db, used, w) && WorkbenchReplay.Inv(s.db)
    ensures WorkbenchReplay.Inv(DoWork(s, w, ok, rows, body).0.db)
  {
    hide Exec, WorkbenchReplay.Inv, WorkerOk, SomeActive, Advance, CountCompleted, WorkbenchReplay.LogsGrow;
    if w.pc in {Completing, FailThenRun, FailThenPause, Activating} && w.index < |w.listing| {
      var id := w.listing[w.index].id;
      WorkerNamesOwner(s.db, used, w);
      var op := if w.pc == Activating then ActivateStep(w.run, id)
                else if w.pc == Completing then CompleteStep(w.run, id) else FailStep(w.run, id);
      WorkbenchReplay.ExecKeeps(s, op, ok);
    } else if w.pc == FailRunNow {
      WorkbenchReplay.ExecKeeps(s, FailRun(w.run), ok);
    } else if w.pc == PauseNow {
      WorkbenchReplay.ExecKeeps(s, PauseRun(w.run), ok);
    } else if w.pc == CompleteRunNow {
      WorkbenchReplay.ExecKeeps(s, CompleteRun(w.run), ok);
    }
  }

  /** In every state of every interleaving of the worker with calls from outside, each run's status and
      steps are the replay of its log, without further condition. */
  lemma {:induction false} TracesReplay(disk: map<Root, TaskManifest.Fs>, trace: seq<Action>)
    requires Possible(disk, trace)
    ensures WorkbenchReplay.Inv(Run(disk, trace).s.db)
    decreases |trace|
  {
    hide Exec, DoWork, WorkbenchReplay.Good, WorkbenchReplay.LogsGrow, TablesOk, WorkerOk;
    if trace == [] {
      EmptyReplays(disk);
    } else {
      TracesReplay(disk, Front(trace));
      TraceKeeps(disk, Front(trace));
      var sys := Run(disk, Front(trace));
      hide WorkbenchReplay.Inv;
      match Last(trace) {
        case Api(op, ok) => WorkbenchReplay.ExecKeeps(sys.s, op, ok);
        case Work(ok, rows, body) => WorkReplays(sys.s, sys.used, sys.w, ok, rows, body);
        case Restart =>
        case Pick(run) =>
      }
    }
  }

  lemma EmptyReplays(disk: map<Root, TaskManifest.Fs>)
    ensures WorkbenchReplay.Inv(Initial(disk).s.db)
  {
    forall run
      ensures WorkbenchReplay.Good(Initial(disk).s.db, run)
    {
      assert ViewOf(Initial(disk).s.db, run).steps == map[];
    }
  }

  /** The same for one run, written out. */
  lemma TraceTablesEqualReplay(disk: map<Root, TaskManifest.Fs>, trace: seq<Action>, run: RunId)
    requires Possible(disk, trace)
    ensures var db := Run(disk, trace).s.db;
      ViewOf(db, run) == Replay(LogOf(db, run)) && Numbered(LogOf(db, run)) && WorkbenchReplay.Legal(LogOf(db, run))
  {
    TracesReplay(disk, trace);
    assert WorkbenchReplay.Good(Run(disk, trace).s.db, run);
  }

  predicate DoneOrAtLimit(db: Db, run: RunId)
    requires run in db.runs
  {
    NonePending(StepsOf(db, run)) || |CompletedIds(StepsOf(db, run))| >= db.runs[run].maxSteps
  }

  /** When the worker is about to complete a run, exactly when that is right: when the plan it last
      listed is still the plan, or the new plan is empty, or the limit allows no step at all. */
  lemma WorkerCompletesRightlyExactly(disk: map<Root, TaskManifest.Fs>, trace: seq<Action>)
    requires Possible(disk, trace) && Run(disk, trace).w.pc == CompleteRunNow
    ensures var (db, w) := (Run(disk, trace).s.db, Run(disk, trace).w);
      w.run in db.runs
      && (DoneOrAtLimit(db, w.run) <==>
            Ids(w.listing) == StepsOf(db, w.run).Keys || StepsOf(db, w.run) == map[] || db.runs[w.run].maxSteps <= 0)
  {
    TraceKeeps(disk, trace);
    var (db, w) := (Run(disk, trace).s.db, Run(disk, trace).w);
    var steps := StepsOf(db, w.run);
    if Replaced(db, w) && steps != map[] {
      var id :| id in steps;
      assert CompletedIds(steps) == {};
      assert id !in Ids(w.listing);
    }
  }
}
