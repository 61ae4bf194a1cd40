/** The tables of the workbench, the effect of each service call on them, and the replay of the
    event log from which the tables can be rebuilt. Each call is one atomic step. */
module Workbench {
  import opened Text
  import opened StateMachine
  import TaskManifest

  type RunId = string
  type StepId = string
  type Root = string

  datatype EventKind =
    | RunCreated | PlanningStarted | PlanReady | RunStarted | RunPaused | RunResumed | RunCancelled | RunFailed
    | RunCompleted | RunRecovered | BaselineMissing | BaselineAccepted | ChangesDetected | ChangesAccepted
    | StepWasCreated(ordinal: nat) | StepStarted | StepDone | StepWasFailed
    | Note

  datatype Event = Event(sequence: nat, step: Option<StepId>, kind: EventKind)

  datatype RunRow = RunRow(status: RunStatus, maxSteps: int, root: Root, currentStep: Option<StepId>)
  datatype StepRow = StepRow(run: RunId, ordinal: nat, status: StepStatus, attempts: nat)

  datatype Db = Db(runs: map<RunId, RunRow>, steps: map<StepId, StepRow>, logs: map<RunId, seq<Event>>)

  function LogOf(db: Db, run: RunId): seq<Event> {
    if run in db.logs then db.logs[run] else []
  }

  /** Sequence numbers are 1, 2, ... in order. */
  predicate Numbered(log: seq<Event>) {
    forall k :: 0 <= k < |log| ==> log[k].sequence == k + 1
  }

  // Replay

  datatype StepView = StepView(ordinal: nat, status: StepStatus, attempts: nat)
  datatype RunView = RunView(status: Option<RunStatus>, steps: map<StepId, StepView>)

  /** The status a run-level event stands for. */
  function StatusAfter(kind: EventKind): Option<RunStatus> {
    match kind
    case RunCreated => Some(Created)
    case PlanningStarted => Some(Planning)
    case PlanReady => Some(Ready)
    case RunStarted => Some(Running)
    case RunPaused => Some(Paused)
    case RunResumed => Some(Running)
    case RunCancelled => Some(Cancelled)
    case RunFailed => Some(Failed)
    case RunCompleted => Some(Completed)
    case RunRecovered => Some(PausedRecovery)
    case BaselineMissing => Some(MigrationReviewRequired)
    case BaselineAccepted => Some(Paused)
    case ChangesDetected => Some(WorkspaceReviewRequired)
    case ChangesAccepted => Some(Paused)
    case _ => None
  }

  function ReplayOne(view: RunView, event: Event): RunView {
    match event.step
    case None =>
      (match StatusAfter(event.kind)
       case None => view
       case Some(status) => RunView(Some(status), if event.kind.PlanningStarted? then map[] else view.steps))
    case Some(id) =>
      (match event.kind
       case StepWasCreated(ordinal) => view.(steps := view.steps[id := StepView(ordinal, Pending, 0)])
       case StepStarted =>
         if id !in view.steps then view
         else
           var step := view.steps[id];
           view.(steps := view.steps[id := step.(status := Active, attempts := step.attempts + 1)])
       case StepDone =>
         if id !in view.steps then view
         else view.(steps := view.steps[id := view.steps[id].(status := StepCompleted)])
       case StepWasFailed =>
         if id !in view.steps then view
         else view.(steps := view.steps[id := view.steps[id].(status := StepFailed)])
       case _ => view)
  }

  function Replay(log: seq<Event>): RunView {
    if log == [] then RunView(None, map[]) else ReplayOne(Replay(Front(log)), Last(log))
  }

  /** What the tables say about one run. */
  function ViewOf(db: Db, run: RunId): RunView {
    RunView(
      if run in db.runs then Some(db.runs[run].status) else None,
      map id | id in db.steps && db.steps[id].run == run ::
        StepView(db.steps[id].ordinal, db.steps[id].status, db.steps[id].attempts))
  }

  /** The tables agree with the replay of every log. */
  ghost predicate Consistent(db: Db) {
    forall run :: ViewOf(db, run) == Replay(LogOf(db, run))
  }

  // Building blocks of the transactions

  function MaxSequence(log: seq<Event>): nat {
    if log == [] then 0
    else if Last(log).sequence > MaxSequence(Front(log)) then Last(log).sequence
    else MaxSequence(Front(log))
  }

  function AppendEvent(db: Db, run: RunId, step: Option<StepId>, kind: EventKind): Db {
    var log := LogOf(db, run);
    db.(logs := db.logs[run := log + [Event(MaxSequence(log) + 1, step, kind)]])
  }

  function TransitionRun(db: Db, run: RunId, status: RunStatus, kind: EventKind): Db
    requires run in db.runs
  {
    AppendEvent(db.(runs := db.runs[run := db.runs[run].(status := status)]), run, None, kind)
  }

  /** `run` is the run the caller names; the step row is found by its own id alone. */
  function TransitionStep(db: Db, run: RunId, id: StepId, row: StepRow, kind: EventKind): Db {
    AppendEvent(db.(steps := db.steps[id := row]), run, Some(id), kind)
  }

  function DeleteSteps(db: Db, run: RunId): (r: Db)
    ensures r.runs == db.runs
  {
    db.(steps := map id | id in db.steps && db.steps[id].run != run :: db.steps[id])
  }

  /** Inserting the planned steps with ordinals counting from `ordinal`. */
  function InsertSteps(db: Db, run: RunId, ids: seq<StepId>, ordinal: nat): (r: Db)
    ensures r.runs == db.runs
    decreases |ids|
  {
    if ids == [] then db
    else
      InsertSteps(
        TransitionStep(db, run, ids[0], StepRow(run, ordinal, Pending, 0), StepWasCreated(ordinal)),
        run, ids[1..], ordinal + 1)
  }

  function StepIds(db: Db, run: RunId): set<StepId> {
    set id | id in db.steps && db.steps[id].run == run
  }

  // The service

  datatype State = State(db: Db, disk: map<Root, TaskManifest.Fs>)

  datatype Error =
    | NotFound | WorkspaceMissing | InvalidTransition | NoPlan | ManifestUnreadable | NotRequired | Mismatch
    | BaselineIsMissing | WorkspaceChanged | StepActive | CommitFailed

  datatype Outcome = Done | Raised(error: Error)

  datatype Op =
    | CreateRun(run: RunId, root: Root, maxSteps: int)
    | SetPlan(run: RunId, ids: seq<StepId>)
    | StartRun(run: RunId)
    | PauseRun(run: RunId)
    | ResumeRun(run: RunId)
    | AcceptChanges(run: RunId, expected: Option<set<TaskManifest.Path>>)
    | AcceptBaseline(run: RunId)
    | CancelRun(run: RunId)
    | CompleteRun(run: RunId)
    | FailRun(run: RunId)
    | RecoverRun(run: RunId)
    | ActivateStep(run: RunId, id: StepId)
    | CompleteStep(run: RunId, id: StepId)
    | FailStep(run: RunId, id: StepId)
    | Append(run: RunId, step: Option<StepId>, kind: EventKind)
    | Rematerialize(run: RunId)
    | EditWorkspace(root: Root, edit: TaskManifest.Edit)

  function FsOf(s: State, run: RunId): TaskManifest.Fs
    requires run in s.db.runs
  {
    if s.db.runs[run].root in s.disk then s.disk[s.db.runs[run].root] else map[]
  }

  function WithFs(s: State, run: RunId, fs: TaskManifest.Fs): State
    requires run in s.db.runs
  {
    s.(disk := s.disk[s.db.runs[run].root := fs])
  }

  function Materialized(s: State, run: RunId): State
    requires run in s.db.runs
  {
    WithFs(s, run, TaskManifest.Materialize(FsOf(s, run), run))
  }

  /** A transaction that commits or, failing, leaves the tables as they were. */
  function Commit(before: State, db: Db, ok: bool): (State, Outcome) {
    if ok then (before.(db := db), Done) else (before, Raised(CommitFailed))
  }

  /** The calls that check one edge of the table and take it. */
  function TakeEdge(s: State, run: RunId, target: RunStatus, kind: EventKind, ok: bool): (State, Outcome) {
    if run !in s.db.runs then (s, Raised(NotFound))
    else if target !in RunTransitions(s.db.runs[run].status) then (s, Raised(InvalidTransition))
    else Commit(s, TransitionRun(s.db, run, target, kind), ok)
  }

  function DoCreateRun(s: State, run: RunId, root: Root, maxSteps: int, ok: bool): (State, Outcome) {
    if root !in s.disk then (s, Raised(WorkspaceMissing))
    else if run in s.db.runs || !ok then
      (s.(disk := s.disk[root := s.disk[root] - {TaskManifest.TaskPath(run)}]), Raised(CommitFailed))
    else
      var db := s.db.(runs := s.db.runs[run := RunRow(Created, maxSteps, root, None)]);
      (Materialized(s.(db := AppendEvent(db, run, None, RunCreated)), run), Done)
  }

  const PLANNABLE := {Created, Planning, WaitingPlanReview, Ready, Paused, PausedRecovery}

  function PlannedDb(db: Db, run: RunId, ids: seq<StepId>): Db
    requires run in db.runs
  {
    var planning := TransitionRun(DeleteSteps(db, run), run, Planning, PlanningStarted);
    TransitionRun(InsertSteps(planning, run, ids, 1), run, Ready, PlanReady)
  }

  /** The primary key of the step table accepts the new ids. */
  predicate IdsInsertable(db: Db, run: RunId, ids: seq<StepId>) {
    && (forall i, j :: 0 <= i < j < |ids| ==> ids[i] != ids[j])
    && (forall i :: 0 <= i < |ids| ==> ids[i] in db.steps ==> db.steps[ids[i]].run == run)
  }

  function DoSetPlan(s: State, run: RunId, ids: seq<StepId>, ok: bool): (State, Outcome) {
    if run !in s.db.runs then (s, Raised(NotFound))
    else if s.db.runs[run].status !in PLANNABLE || Planning !in RunTransitions(s.db.runs[run].status) then
      (s, Raised(InvalidTransition))
    else if !IdsInsertable(s.db, run, ids) || !ok then (s, Raised(CommitFailed))
    else (Materialized(s.(db := PlannedDb(s.db, run, ids)), run), Done)
  }

  function DoStartRun(s: State, run: RunId, ok: bool): (State, Outcome) {
    if run !in s.db.runs then (s, Raised(NotFound))
    else if StepIds(s.db, run) == {} then (s, Raised(NoPlan))
    else TakeEdge(s, run, Running, RunStarted, ok)
  }

  function DoResumeRun(s: State, run: RunId, ok: bool): (State, Outcome) {
    if run !in s.db.runs then (s, Raised(NotFound))
    else
      var status := s.db.runs[run].status;
      if TaskManifest.TaskPath(run) !in FsOf(s, run) then
        if status !in {Paused, PausedRecovery, MigrationReviewRequired, WorkspaceReviewRequired} then
          (s, Raised(BaselineIsMissing))
        else if status == WorkspaceReviewRequired then (s, Raised(WorkspaceChanged))
        else if status == MigrationReviewRequired || !ok then
          (s, Raised(if status == MigrationReviewRequired then BaselineIsMissing else CommitFailed))
        else
          (s.(db := TransitionRun(s.db, run, MigrationReviewRequired, BaselineMissing)), Raised(BaselineIsMissing))
      else
        match TaskManifest.Drift(FsOf(s, run), run)
        case None => (s, Raised(ManifestUnreadable))
        case Some(changed) =>
          if changed != {} then
            if status !in {Paused, PausedRecovery} then (s, Raised(WorkspaceChanged))
            else if !ok then (s, Raised(CommitFailed))
            else
              (s.(db := TransitionRun(s.db, run, WorkspaceReviewRequired, ChangesDetected)), Raised(WorkspaceChanged))
          else if status == WorkspaceReviewRequired then (s, Raised(WorkspaceChanged))
          else if status != PausedRecovery && Running !in RunTransitions(status) then (s, Raised(InvalidTransition))
          else Commit(s, TransitionRun(s.db, run, Running, RunResumed), ok)
  }

  function DoAcceptChanges(s: State, run: RunId, expected: Option<set<TaskManifest.Path>>, ok: bool): (State, Outcome) {
    if run !in s.db.runs then (s, Raised(NotFound))
    else
      var status := s.db.runs[run].status;
      if status !in {Paused, PausedRecovery, WorkspaceReviewRequired} then (s, Raised(NotRequired))
      else
        match TaskManifest.Drift(FsOf(s, run), run)
        case None => (s, Raised(ManifestUnreadable))
        case Some(changed) =>
          if changed == {} then
            if status != WorkspaceReviewRequired then (s, Raised(NotRequired))
            else Commit(Materialized(s, run), TransitionRun(s.db, run, Paused, ChangesAccepted), ok)
          else if expected.Some? && expected.value != changed then (s, Raised(Mismatch))
          else if !ok then (s, Raised(CommitFailed))
          else (Materialized(s.(db := TransitionRun(s.db, run, Paused, ChangesAccepted)), run), Done)
  }

  function DoAcceptBaseline(s: State, run: RunId, ok: bool): (State, Outcome) {
    if run !in s.db.runs then (s, Raised(NotFound))
    else if s.db.runs[run].status != MigrationReviewRequired then (s, Raised(NotRequired))
    else if !ok then (WithFs(s, run, FsOf(s, run) - {TaskManifest.TaskPath(run)}), Raised(CommitFailed))
    else (Materialized(s.(db := TransitionRun(s.db, run, Paused, BaselineAccepted)), run), Done)
  }

  function DoRecoverRun(s: State, run: RunId, ok: bool): (State, Outcome) {
    if run !in s.db.runs || s.db.runs[run].status != Running then (s, Done)
    else Commit(s, TransitionRun(s.db, run, PausedRecovery, RunRecovered), ok)
  }

  predicate SomeActive(db: Db, run: RunId) {
    exists id :: id in db.steps && db.steps[id].run == run && db.steps[id].status == Active
  }

  function DoActivateStep(s: State, run: RunId, id: StepId, ok: bool): (State, Outcome) {
    if run !in s.db.runs then (s, Raised(NotFound))
    else if id !in s.db.steps || s.db.steps[id].run != run then (s, Raised(NotFound))
    else if SomeActive(s.db, run) && s.db.steps[id].status != Active then (s, Raised(StepActive))
    else
      var row := s.db.steps[id];
      if Active !in StepTransitions(row.status) then (s, Raised(InvalidTransition))
      else
        var db := TransitionStep(s.db, run, id, row.(status := Active, attempts := row.attempts + 1), StepStarted);
        Commit(s, db.(runs := db.runs[run := db.runs[run].(currentStep := Some(id))]), ok)
  }

  /** Completing and failing a step do not compare the step's run with the run named by the caller. */
  function DoFinishStep(s: State, run: RunId, id: StepId, status: StepStatus, kind: EventKind, ok: bool)
    : (State, Outcome)
  {
    if id !in s.db.steps then (s, Raised(NotFound))
    else if status !in StepTransitions(s.db.steps[id].status) then (s, Raised(InvalidTransition))
    else Commit(s, TransitionStep(s.db, run, id, s.db.steps[id].(status := status), kind), ok)
  }

  /** The events appended on their own: notes, and the worker's `run.failed` that carries a step id. */
  predicate StandaloneEvent(step: Option<StepId>, kind: EventKind) {
    kind == Note || (kind == RunFailed && step.Some?)
  }

  function DoAppend(s: State, run: RunId, step: Option<StepId>, kind: EventKind, ok: bool): (State, Outcome) {
    if run !in s.db.runs then (s, Raised(NotFound))
    else if !StandaloneEvent(step, kind) then (s, Raised(InvalidTransition))
    else Commit(s, AppendEvent(s.db, run, step, kind), ok)
  }

  function DoEdit(s: State, root: Root, edit: TaskManifest.Edit): (State, Outcome) {
    if root !in s.disk then (s, Raised(WorkspaceMissing))
    else (s.(disk := s.disk[root := TaskManifest.ApplyEdit(s.disk[root], edit)]), Done)
  }

  /** One call, with the fate of its transaction. */
  function Exec(s: State, op: Op, ok: bool): (State, Outcome) {
    match op
    case CreateRun(run, root, maxSteps) => DoCreateRun(s, run, root, maxSteps, ok)
    case SetPlan(run, ids) => DoSetPlan(s, run, ids, ok)
    case StartRun(run) => DoStartRun(s, run, ok)
    case PauseRun(run) => TakeEdge(s, run, Paused, RunPaused, ok)
    case ResumeRun(run) => DoResumeRun(s, run, ok)
    case AcceptChanges(run, expected) => DoAcceptChanges(s, run, expected, ok)
    case AcceptBaseline(run) => DoAcceptBaseline(s, run, ok)
    case CancelRun(run) => TakeEdge(s, run, Cancelled, RunCancelled, ok)
    case CompleteRun(run) => TakeEdge(s, run, Completed, RunCompleted, ok)
    case FailRun(run) => TakeEdge(s, run, Failed, RunFailed, ok)
    case RecoverRun(run) => DoRecoverRun(s, run, ok)
    case ActivateStep(run, id) => DoActivateStep(s, run, id, ok)
    case CompleteStep(run, id) => DoFinishStep(s, run, id, StepCompleted, StepDone, ok)
    case FailStep(run, id) => DoFinishStep(s, run, id, StepFailed, StepWasFailed, ok)
    case Append(run, step, kind) => DoAppend(s, run, step, kind, ok)
    case Rematerialize(run) => if run !in s.db.runs then (s, Raised(NotFound)) else (Materialized(s, run), Done)
    case EditWorkspace(root, edit) => DoEdit(s, root, edit)
  }

  /** A call that completes or fails a step names the run the step belongs to. */
  predicate WellAddressed(db: Db, op: Op) {
    match op
    case CompleteStep(run, id) => id in db.steps ==> db.steps[id].run == run
    case FailStep(run, id) => id in db.steps ==> db.steps[id].run == run
    case _ => true
  }
}
