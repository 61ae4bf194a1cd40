/** Resuming and drift. Resuming takes a run on only from the workspace it was last accepted with; starting it does not
    look at the workspace. */
module WorkbenchDrift {
  import opened Text
  import opened StateMachine
  import opened Workbench
  import opened WorkbenchCalls
  import TaskManifest

  /** Exactly when resuming succeeds; then the run is running and nothing had drifted. */
  lemma ResumeExactly(s: State, run: RunId, ok: bool)
    ensures var (s', outcome) := Exec(s, ResumeRun(run), ok);
      && (outcome.Done? <==>
          && run in s.db.runs && ok
          && TaskManifest.TaskPath(run) in FsOf(s, run)
          && TaskManifest.Drift(FsOf(s, run), run) == Some({})
          && s.db.runs[run].status != WorkspaceReviewRequired
          && Running in RunTransitions(s.db.runs[run].status))
      && (outcome.Done? ==> s'.db.runs[run].status == Running)
      && (outcome.Raised? && run in s.db.runs && s.db.runs[run].status != Running ==>
          s'.db.runs[run].status != Running)
  {
  }

  /** Why a run that is paused is put under review when it is resumed. */
  function ReviewOf(s: State, run: RunId): Option<(RunStatus, EventKind, Error)>
    requires run in s.db.runs
  {
    var drift := TaskManifest.Drift(FsOf(s, run), run);
    if TaskManifest.TaskPath(run) !in FsOf(s, run) then
      Some((MigrationReviewRequired, BaselineMissing, BaselineIsMissing))
    else if drift.Some? && drift.value != {} then Some((WorkspaceReviewRequired, ChangesDetected, WorkspaceChanged))
    else None
  }

  lemma ReviewedWhenPaused(s: State, run: RunId, ok: bool)
    requires run in s.db.runs && s.db.runs[run].status in {Paused, PausedRecovery} && ok && ReviewOf(s, run).Some?
    ensures var (status, kind, error) := ReviewOf(s, run).value;
      Exec(s, ResumeRun(run), ok) == (s.(db := TransitionRun(s.db, run, status, kind)), Raised(error))
  {
    hide TransitionRun, TaskManifest.Drift, TaskManifest.TaskPath, RunTransitions, FsOf;
  }

  lemma OtherwiseResumedOrNothing(s: State, run: RunId, ok: bool)
    requires run in s.db.runs
    requires !(s.db.runs[run].status in {Paused, PausedRecovery} && ok && ReviewOf(s, run).Some?)
    ensures var (s', outcome) := Exec(s, ResumeRun(run), ok);
      s' == if outcome.Done? then s.(db := TransitionRun(s.db, run, Running, RunResumed)) else s
  {
    hide TransitionRun, TaskManifest.Drift, TaskManifest.TaskPath, RunTransitions, FsOf;
  }

  /** What resuming writes: the run goes on; or, for a paused run, a missing manifest puts it under migration review and
      drift under workspace review; or nothing. */
  lemma ResumeRecords(s: State, run: RunId, ok: bool)
    requires run in s.db.runs
    ensures var (s', outcome) := Exec(s, ResumeRun(run), ok);
            var reviewed := s.db.runs[run].status in {Paused, PausedRecovery} && ok && ReviewOf(s, run).Some?;
      && s'.disk == s.disk
      && (reviewed ==>
          outcome == Raised(ReviewOf(s, run).value.2)
          && RunMoved(s.db, s'.db, run, ReviewOf(s, run).value.0, ReviewOf(s, run).value.1))
      && (!reviewed && outcome.Done? ==> RunMoved(s.db, s'.db, run, Running, RunResumed))
      && (!reviewed && outcome.Raised? ==> s' == s)
  {
    hide Exec, TransitionRun, ReviewOf, RunMoved;
    if s.db.runs[run].status in {Paused, PausedRecovery} && ok && ReviewOf(s, run).Some? {
      var (status, kind, error) := ReviewOf(s, run).value;
      ReviewedWhenPaused(s, run, ok);
      TransitionMoves(s.db, run, status, kind);
    } else {
      OtherwiseResumedOrNothing(s, run, ok);
      TransitionMoves(s.db, run, Running, RunResumed);
    }
  }

  lemma MaterializedHasNoDrift(s: State, run: RunId)
    requires run in s.db.runs
    ensures var fs := FsOf(Materialized(s, run), run);
      TaskManifest.TaskPath(run) in fs && TaskManifest.Drift(fs, run) == Some({})
  {
    TaskManifest.NoDriftAfterMaterialize(FsOf(s, run), run);
  }

  predicate IsRunning(db: Db, run: RunId) {
    run in db.runs && db.runs[run].status == Running
  }

  /** Accepting drift and then resuming always succeeds when nothing is edited in between. */
  lemma AcceptThenResume(s: State, run: RunId, expected: Option<set<TaskManifest.Path>>)
    requires Exec(s, AcceptChanges(run, expected), true).1.Done?
    ensures var accepted := Exec(s, AcceptChanges(run, expected), true).0;
            var (resumed, outcome) := Exec(accepted, ResumeRun(run), true);
      outcome.Done? && IsRunning(resumed.db, run)
  {
    hide TaskManifest.Drift, TaskManifest.Materialize;
    var accepted := Exec(s, AcceptChanges(run, expected), true).0;
    var moved := s.(db := TransitionRun(s.db, run, Paused, ChangesAccepted));
    assert accepted == Materialized(moved, run);
    MaterializedHasNoDrift(moved, run);
    ResumeExactly(accepted, run, true);
  }

  lemma BaselineThenResume(s: State, run: RunId)
    requires Exec(s, AcceptBaseline(run), true).1.Done?
    ensures var accepted := Exec(s, AcceptBaseline(run), true).0;
            var (resumed, outcome) := Exec(accepted, ResumeRun(run), true);
      outcome.Done? && IsRunning(resumed.db, run)
  {
    hide TaskManifest.Drift, TaskManifest.Materialize;
    var moved := s.(db := TransitionRun(s.db, run, Paused, BaselineAccepted));
    MaterializedHasNoDrift(moved, run);
    ResumeExactly(Exec(s, AcceptBaseline(run), true).0, run, true);
  }

  /** The manifest written before or after the run has moved is the same, and shows no drift. */
  lemma MovedHasNoDrift(s: State, run: RunId, kind: EventKind)
    requires run in s.db.runs
    ensures var db := TransitionRun(s.db, run, Paused, kind);
      && RunMoved(s.db, db, run, Paused, kind)
      && Materialized(s.(db := db), run) == Materialized(s, run).(db := db)
      && var after := Materialized(s, run).(db := db);
         && TaskManifest.TaskPath(run) in FsOf(after, run) && TaskManifest.Drift(FsOf(after, run), run) == Some({})
  {
    TransitionMoves(s.db, run, Paused, kind);
    hide TransitionRun, TaskManifest.Drift, TaskManifest.Materialize, TaskManifest.TaskPath;
    MaterializedHasNoDrift(s.(db := TransitionRun(s.db, run, Paused, kind)), run);
  }

  /** Exactly when accepting drift succeeds: in one of the three statuses, with a manifest that can be read, when there
      is drift and, where the caller names what drifted, that is just it, or when no drift is left under review. Then
      the run is paused and nothing has drifted any more. A list is refused exactly when it is not the drift. */
  lemma AcceptExactly(s: State, run: RunId, expected: Option<set<TaskManifest.Path>>, ok: bool)
    ensures var (s', outcome) := Exec(s, AcceptChanges(run, expected), ok);
      && (outcome.Done? <==>
          && run in s.db.runs && ok
          && s.db.runs[run].status in {Paused, PausedRecovery, WorkspaceReviewRequired}
          && var drift := TaskManifest.Drift(FsOf(s, run), run);
             drift.Some? && if drift.value == {} then s.db.runs[run].status == WorkspaceReviewRequired
                            else expected in {None, drift})
      && (outcome.Done? ==>
          && RunMoved(s.db, s'.db, run, Paused, ChangesAccepted)
          && TaskManifest.TaskPath(run) in FsOf(s', run) && TaskManifest.Drift(FsOf(s', run), run) == Some({}))
      && (outcome == Raised(Mismatch) <==>
          && run in s.db.runs && s.db.runs[run].status in {Paused, PausedRecovery, WorkspaceReviewRequired}
          && expected.Some? && TaskManifest.Drift(FsOf(s, run), run) !in {None, Some({}), expected})
      && (outcome.Raised? ==> s'.db == s.db)
  {
    hide TransitionRun, TaskManifest.Drift, TaskManifest.Materialize, TaskManifest.TaskPath, RunMoved;
    if run in s.db.runs {
      MovedHasNoDrift(s, run, ChangesAccepted);
      hide Materialized;
    }
  }

  /** The same for a first manifest: exactly for a run whose migration is under review. */
  lemma BaselineExactly(s: State, run: RunId, ok: bool)
    ensures var (s', outcome) := Exec(s, AcceptBaseline(run), ok);
      && (outcome.Done? <==> run in s.db.runs && s.db.runs[run].status == MigrationReviewRequired && ok)
      && (outcome.Done? ==>
          && RunMoved(s.db, s'.db, run, Paused, BaselineAccepted)
          && TaskManifest.TaskPath(run) in FsOf(s', run) && TaskManifest.Drift(FsOf(s', run), run) == Some({}))
      && (outcome.Raised? ==> s'.db == s.db)
  {
    hide TransitionRun, TaskManifest.Drift, TaskManifest.Materialize, TaskManifest.TaskPath, RunMoved;
    if run in s.db.runs {
      MovedHasNoDrift(s, run, BaselineAccepted);
      hide Materialized;
    }
  }

  /** A missing manifest counts as drift under a name of its own: a paused run without one can be accepted by naming it,
      and has a manifest then. */
  lemma MissingManifestAccepted(s: State, run: RunId)
    requires run in s.db.runs && s.db.runs[run].status in {Paused, PausedRecovery}
    requires TaskManifest.TaskPath(run) !in FsOf(s, run)
    ensures var (s', outcome) := Exec(s, AcceptChanges(run, Some({"task_manifest_missing"})), true);
      outcome.Done? && TaskManifest.TaskPath(run) in FsOf(s', run)
  {
    AcceptExactly(s, run, Some({"task_manifest_missing"}), true);
    assert TaskManifest.Drift(FsOf(s, run), run) == Some({"task_manifest_missing"});
    hide Exec, TaskManifest.Drift, TaskManifest.TaskPath;
  }

  /** What the user has approved by naming it is what had drifted, and a wrong list is refused. */
  lemma AcceptsOnlyTheNamedDrift(s: State, run: RunId, expected: set<TaskManifest.Path>, ok: bool)
    requires run in s.db.runs && Exec(s, AcceptChanges(run, Some(expected)), ok).1.Done?
    ensures TaskManifest.Drift(FsOf(s, run), run) in {Some(expected), Some({})}
  {
  }

  // Which calls set a run going

  /** Resuming may take this run on: its manifest is there, nothing drifted, and no review is due. */
  predicate Resumable(s: State, run: RunId) {
    && run in s.db.runs && s.db.runs[run].status != WorkspaceReviewRequired
    && TaskManifest.TaskPath(run) in FsOf(s, run)
    && TaskManifest.Drift(FsOf(s, run), run) == Some({})
  }

  /** For every call: a run that is not running becomes running if and only if the call commits, the table has the edge
      and the call either starts the run and there is a plan, whatever the workspace looks like, or resumes it and
      nothing drifted. */
  lemma RunningExactly(s: State, op: Op, ok: bool, run: RunId)
    requires run in s.db.runs && !IsRunning(s.db, run)
    ensures IsRunning(Exec(s, op, ok).0.db, run) <==>
      && ok && Running in RunTransitions(s.db.runs[run].status)
      && ((op == StartRun(run) && StepIds(s.db, run) != {}) || (op == ResumeRun(run) && Resumable(s, run)))
  {
    hide TaskManifest.Drift, TaskManifest.Materialize, TaskManifest.TaskPath, StepIds, MaxSequence, InsertSteps;
  }

  /** So drift keeps a run from going on only until somebody starts it instead of resuming it: from a paused run with
      a plan and a drifted workspace, resuming is refused and leads to the review, and starting then succeeds. */
  lemma StartPassesReview(s: State, run: RunId)
    requires run in s.db.runs && s.db.runs[run].status in {Paused, PausedRecovery} && StepIds(s.db, run) != {}
    requires TaskManifest.TaskPath(run) in FsOf(s, run) && TaskManifest.Drift(FsOf(s, run), run) !in {None, Some({})}
    ensures var (reviewed, refused) := Exec(s, ResumeRun(run), true);
            var (started, outcome) := Exec(reviewed, StartRun(run), true);
      && refused == Raised(WorkspaceChanged) && reviewed.db.runs[run].status == WorkspaceReviewRequired
      && outcome.Done? && IsRunning(started.db, run)
      && TaskManifest.Drift(FsOf(started, run), run) == TaskManifest.Drift(FsOf(s, run), run)
  {
    hide TaskManifest.Drift, TaskManifest.Materialize, TaskManifest.TaskPath, MaxSequence;
    var reviewed := Exec(s, ResumeRun(run), true).0;
    assert StepIds(reviewed.db, run) == StepIds(s.db, run);
  }
}
