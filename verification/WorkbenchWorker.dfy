/** The single worker thread interleaved with calls from outside. Between any two service calls of
    the worker, any number of other calls may run. */
module WorkbenchWorker {
  import opened Text
  import opened StateMachine
  import opened Workbench

  // The shape of a run's plan

  function StepsOf(db: Db, run: RunId): map<StepId, StepRow> {
    map id | id in db.steps && db.steps[id].run == run :: db.steps[id]
  }

  predicate NumberedFromOne(steps: map<StepId, StepRow>) {
    && (forall id :: id in steps ==> 1 <= steps[id].ordinal <= |steps|)
    && (forall a, b :: a in steps && b in steps && a != b ==> steps[a].ordinal != steps[b].ordinal)
  }

  predicate OneActive(steps: map<StepId, StepRow>) {
    forall a, b :: a in steps && b in steps && steps[a].status == Active && steps[b].status == Active ==> a == b
  }

  /** A pending step has only pending steps after it. */
  predicate PendingLast(steps: map<StepId, StepRow>) {
    forall a, b :: a in steps && b in steps && steps[a].ordinal < steps[b].ordinal && steps[a].status == Pending ==>
      steps[b].status == Pending
  }

  function CompletedIds(steps: map<StepId, StepRow>): set<StepId> {
    set id | id in steps && steps[id].status == StepCompleted
  }

  predicate Shape(steps: map<StepId, StepRow>, maxSteps: int) {
    && NumberedFromOne(steps) && OneActive(steps) && PendingLast(steps)
    && |CompletedIds(steps)| <= (if maxSteps >= 0 then maxSteps else 0)
  }

  predicate AllPending(steps: map<StepId, StepRow>) {
    forall id :: id in steps ==> steps[id].status == Pending
  }

  predicate NonePending(steps: map<StepId, StepRow>) {
    forall id :: id in steps ==> steps[id].status != Pending
  }

  // The worker

  /** One row of `list_steps`. */
  datatype Listed = Listed(id: StepId, status: StepStatus)

  function Ids(listing: seq<Listed>): set<StepId> {
    set k | 0 <= k < |listing| :: listing[k].id
  }

  /** `SELECT ... WHERE run_id = ? ORDER BY ordinal`. */
  predicate IsListing(steps: map<StepId, StepRow>, listing: seq<Listed>) {
    && Ids(listing) == steps.Keys
    && (forall k :: 0 <= k < |listing| ==> listing[k].status == steps[listing[k].id].status)
    && (forall j, k :: 0 <= j < k < |listing| ==>
          listing[j].id != listing[k].id && steps[listing[j].id].ordinal <= steps[listing[k].id].ordinal)
  }

  function CountCompleted(listing: seq<Listed>): nat {
    if listing == [] then 0
    else CountCompleted(Front(listing)) + if Last(listing).status == StepCompleted then 1 else 0
  }

  /** Where the worker stands: the next service call it will make. */
  datatype Pc =
    | Idle | Begin | Listing | Head | Counting | Activating | Working | FailThenRun | FailRunNow | FailThenPause
    | PauseNow | Completing | Checking | FinalStatus | FinalListing | CompleteRunNow

  datatype Worker = Worker(pc: Pc, run: RunId, maxSteps: int, listing: seq<Listed>, index: nat, completed: int)

  datatype Body = Succeeded | TimedOut | Erred

  datatype Action =
    | Api(op: Op, ok: bool)
    | Restart
    | Pick(run: RunId)
    | Work(ok: bool, rows: seq<Listed>, body: Body)

  /** `used` holds every step id ever minted; `uuid4` does not repeat one. */
  datatype Sys = Sys(s: State, used: set<StepId>, w: Worker)

  /** The calls that only the worker makes. */
  predicate WorkerOnly(op: Op) {
    op.ActivateStep? || op.CompleteStep? || op.FailStep? || op.CompleteRun? || op.FailRun?
  }

  predicate Enabled(sys: Sys, action: Action) {
    match action
    case Api(op, ok) =>
      && !WorkerOnly(op)
      && (op.SetPlan? ==> forall k :: 0 <= k < |op.ids| ==> op.ids[k] !in sys.used)
    case Restart => true
    case Pick(run) => sys.w.pc == Idle && run in sys.s.db.runs && sys.s.db.runs[run].status == Running
    case Work(ok, rows, body) =>
      sys.w.pc != Idle && (sys.w.pc in {Listing, FinalListing} ==> IsListing(StepsOf(sys.s.db, sys.w.run), rows))
  }

  function StatusOf(db: Db, run: RunId): Option<RunStatus> {
    if run in db.runs then Some(db.runs[run].status) else None
  }

  /** On to the next step of the listing, or out of the loop. */
  function Advance(w: Worker, index: nat): Worker {
    if index < |w.listing| then w.(pc := Head, index := index) else w.(pc := FinalStatus, index := index)
  }

  /** A service call of the worker: on success it goes on as `next`, an exception ends the execution. */
  function CallThen(s: State, w: Worker, op: Op, ok: bool, next: Worker): (State, Worker) {
    var (s', outcome) := Exec(s, op, ok);
    (s', if outcome.Done? then next else w.(pc := Idle))
  }

  function DoWork(s: State, w: Worker, ok: bool, rows: seq<Listed>, body: Body): (State, Worker) {
    match w.pc
    case Idle => (s, w)
    case Begin =>
      if w.run in s.db.runs then (s, w.(pc := Listing, maxSteps := s.db.runs[w.run].maxSteps))
      else (s, w.(pc := Idle))
    case Listing =>
      var w' := w.(listing := rows, completed := CountCompleted(rows));
      (s, if w'.completed >= w.maxSteps then w'.(pc := CompleteRunNow) else Advance(w', 0))
    case Head =>
      var status := StatusOf(s.db, w.run);
      (s, if status in {None, Some(Paused), Some(Cancelled), Some(Failed), Some(Completed), Some(PausedRecovery)}
          then w.(pc := Idle)
          else if w.index < |w.listing| && w.listing[w.index].status == Pending then w.(pc := Counting)
          else Advance(w, w.index + 1))
    case Counting => (s, w.(pc := if SomeActive(s.db, w.run) then Idle else Activating))
    case Activating =>
      if w.index >= |w.listing| then (s, w.(pc := Idle))
      else CallThen(s, w, ActivateStep(w.run, w.listing[w.index].id), ok, w.(pc := Working))
    case Working =>
      (s, w.(pc := match body case Succeeded => Completing case TimedOut => FailThenPause case Erred => FailThenRun))
    case FailThenRun =>
      if w.index >= |w.listing| then (s, w.(pc := Idle))
      else CallThen(s, w, FailStep(w.run, w.listing[w.index].id), ok, w.(pc := FailRunNow))
    case FailRunNow => CallThen(s, w, FailRun(w.run), ok, w.(pc := Idle))
    case FailThenPause =>
      if w.index >= |w.listing| then (s, w.(pc := Idle))
      else CallThen(s, w, FailStep(w.run, w.listing[w.index].id), ok, w.(pc := PauseNow))
    case PauseNow => CallThen(s, w, PauseRun(w.run), ok, w.(pc := Idle))
    case Completing =>
      if w.index >= |w.listing| then (s, w.(pc := Idle))
      else
        CallThen(s, w, CompleteStep(w.run, w.listing[w.index].id), ok,
          w.(pc := Checking, completed := w.completed + 1))
    case Checking =>
      (s, if StatusOf(s.db, w.run) == Some(Paused) then w.(pc := Idle)
          else if w.completed >= w.maxSteps then w.(pc := FinalStatus)
          else Advance(w, w.index + 1))
    case FinalStatus => (s, w.(pc := if StatusOf(s.db, w.run) == Some(Running) then FinalListing else Idle))
    case FinalListing =>
      var pending := exists k :: 0 <= k < |rows| && rows[k].status == Pending;
      (s, w.(listing := rows, pc := if pending then Idle else CompleteRunNow))
    case CompleteRunNow => CallThen(s, w, CompleteRun(w.run), ok, w.(pc := Idle))
  }

  function Next(sys: Sys, action: Action): Sys {
    match action
    case Api(op, ok) =>
      var used := if op.SetPlan? then sys.used + (set k | 0 <= k < |op.ids| :: op.ids[k]) else sys.used;
      Sys(Exec(sys.s, op, ok).0, used, sys.w)
    case Restart => sys.(w := sys.w.(pc := Idle))
    case Pick(run) => sys.(w := sys.w.(pc := Begin, run := run))
    case Work(ok, rows, body) =>
      var (s', w') := DoWork(sys.s, sys.w, ok, rows, body);
      Sys(s', sys.used, w')
  }

  // The invariant

  predicate HasListing(pc: Pc) {
    pc !in {Idle, Begin, Listing}
  }

  /** The plan was replaced since the worker listed it: nothing of the old plan is left and the new
      one has not been touched. */
  predicate Replaced(db: Db, w: Worker) {
    (forall k :: 0 <= k < |w.listing| ==> w.listing[k].id !in db.steps) && AllPending(StepsOf(db, w.run))
  }

  predicate InOrder(steps: map<StepId, StepRow>, listing: seq<Listed>) {
    && Ids(listing) == steps.Keys
    && (forall j, k :: 0 <= j < k < |listing| ==>
          listing[j].id != listing[k].id && steps[listing[j].id].ordinal <= steps[listing[k].id].ordinal)
    && (forall k :: 0 <= k < |listing| && listing[k].status != Pending ==> steps[listing[k].id].status != Pending)
  }

  predicate StartedBefore(steps: map<StepId, StepRow>, listing: seq<Listed>, n: nat) {
    forall k :: 0 <= k < n && k < |listing| ==> listing[k].id in steps && steps[listing[k].id].status != Pending
  }

  /** What the worker may rely on while the plan it listed is still the plan. */
  predicate Unchanged(steps: map<StepId, StepRow>, w: Worker) {
    && InOrder(steps, w.listing)
    && (w.pc in {Head, Counting, Activating, Working, Completing, FailThenRun, FailThenPause} ==>
          && w.index < |w.listing|
          && StartedBefore(steps, w.listing, w.index)
          && w.completed == |CompletedIds(steps)| < w.maxSteps)
    && (w.pc in {Working, Completing, FailThenRun, FailThenPause} ==> steps[w.listing[w.index].id].status == Active)
    && (w.pc == Checking ==>
          && StartedBefore(steps, w.listing, w.index + 1)
          && w.completed == |CompletedIds(steps)|)
    && (w.pc == CompleteRunNow ==> NonePending(steps) || |CompletedIds(steps)| >= w.maxSteps)
  }

  predicate WorkerOk(db: Db, used: set<StepId>, w: Worker) {
    && (w.pc != Idle ==> w.run in db.runs)
    && (w.pc !in {Idle, Begin} ==> w.maxSteps == db.runs[w.run].maxSteps)
    && (HasListing(w.pc) ==>
          && Ids(w.listing) <= used
          && (Unchanged(StepsOf(db, w.run), w) || Replaced(db, w)))
  }

  predicate TablesOk(db: Db, used: set<StepId>) {
    && (forall id :: id in db.steps ==> id in used && db.steps[id].run in db.runs)
    && (forall run :: run in db.runs ==> Shape(StepsOf(db, run), db.runs[run].maxSteps))
  }

  predicate Inv(sys: Sys) {
    TablesOk(sys.s.db, sys.used) && WorkerOk(sys.s.db, sys.used, sys.w)
  }
}
