/** The status tables of runs and steps. */
module StateMachine {

  datatype RunStatus =
    | Created | Planning | WaitingPlanReview | Ready | Running | WaitingReview | Paused | PausedRecovery
    | MigrationReviewRequired | WorkspaceReviewRequired | Completed | Cancelled | Failed | Retrying

  datatype StepStatus =
    | Pending | Active | StepWaitingReview | StepCompleted | StepFailed | StepRetrying | Skipped | Rejected

  function RunTransitions(current: RunStatus): set<RunStatus> {
    match current
    case Created => {Planning, Cancelled}
    case Planning => {WaitingPlanReview, Ready, Failed, Cancelled, Paused}
    case WaitingPlanReview => {Ready, Planning, Cancelled, Paused}
    case Ready => {Running, Cancelled, Paused, Planning}
    case Running => {WaitingReview, Completed, Paused, Cancelled, Failed}
    case WaitingReview => {Running, Completed, Cancelled, Failed, Paused}
    case Paused => {Running, Cancelled, Failed, Planning, MigrationReviewRequired, WorkspaceReviewRequired}
    case PausedRecovery => {Running, Cancelled, Failed, Planning, MigrationReviewRequired, WorkspaceReviewRequired}
    case MigrationReviewRequired => {Paused, Cancelled, Failed}
    case WorkspaceReviewRequired => {Running, Paused, Cancelled, Failed}
    case Failed => {Retrying, Cancelled}
    case Retrying => {Running, Failed, Cancelled}
    case Completed => {}
    case Cancelled => {}
  }

  function StepTransitions(current: StepStatus): set<StepStatus> {
    match current
    case Pending => {Active, Skipped}
    case Active => {StepWaitingReview, StepCompleted, StepFailed}
    case StepWaitingReview => {Active, Rejected, StepCompleted}
    case StepFailed => {StepRetrying}
    case StepRetrying => {Active, StepFailed}
    case StepCompleted => {}
    case Skipped => {}
    case Rejected => {}
  }

  predicate RunTerminal(status: RunStatus) {
    status in {Completed, Cancelled}
  }

  /** The edges that recovery and drift acceptance take although the table does not have them. */
  predicate OffTable(current: RunStatus, target: RunStatus) {
    (current, target) in {(Running, PausedRecovery), (Paused, Paused), (PausedRecovery, Paused)}
  }

  predicate AllowedEdge(current: RunStatus, target: RunStatus) {
    target in RunTransitions(current) || OffTable(current, target)
  }

  /** A status is final exactly when nothing leads on from it. */
  lemma TerminalExactly(status: RunStatus)
    ensures RunTerminal(status) <==> RunTransitions(status) == {}
  {
    if RunTransitions(status) != {} {
      assert Cancelled in RunTransitions(status);
    }
  }
}
