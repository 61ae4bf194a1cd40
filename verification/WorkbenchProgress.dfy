/** What the worker makes of a run: how a step that succeeds, fails or takes too long ends, and that a run on which
    nobody else acts is worked off to its end. */
module WorkbenchProgress {
  import opened Text
  import opened StateMachine
  import opened Workbench
  import opened WorkbenchWorker
  import opened WorkbenchWorkerProofs
  import opened WorkbenchTraces
  import opened WorkbenchCalls
  import TaskManifest

  // Playing actions one after the other

  function Plays(sys: Sys, actions: seq<Action>): Sys {
    if actions == [] then sys else Next(Plays(sys, Front(actions)), Last(actions))
  }

  predicate CanPlay(sys: Sys, actions: seq<Action>) {
    actions == [] || (CanPlay(sys, Front(actions)) && Enabled(Plays(sys, Front(actions)), Last(actions)))
  }

  lemma PlayOne(sys: Sys, actions: seq<Action>, action: Action)
    ensures Plays(sys, actions + [action]) == Next(Plays(sys, actions), action)
    ensures CanPlay(sys, actions + [action]) <==> CanPlay(sys, actions) && Enabled(Plays(sys, actions), action)
  {
    hide Next, Enabled;
    assert Front(actions + [action]) == actions;
  }

  lemma {:induction false} PlayBoth(sys: Sys, a: seq<Action>, b: seq<Action>)
    requires CanPlay(sys, a) && CanPlay(Plays(sys, a), b)
    ensures CanPlay(sys, a + b) && Plays(sys, a + b) == Plays(Plays(sys, a), b)
    decreases |b|
  {
    hide Next, Enabled;
    if b == [] {
      assert a + b == a;
    } else {
      PlayBoth(sys, a, Front(b));
      PlayOne(sys, a + Front(b), Last(b));
      assert a + b == a + Front(b) + [Last(b)];
    }
  }

  /** Playing goes on from any trace. */
  lemma {:induction false} TraceGoesOn(disk: map<Root, TaskManifest.Fs>, trace: seq<Action>, actions: seq<Action>)
    requires Possible(disk, trace) && CanPlay(Run(disk, trace), actions)
    ensures Possible(disk, trace + actions) && Run(disk, trace + actions) == Plays(Run(disk, trace), actions)
    decreases |actions|
  {
    hide Next, Enabled;
    if actions == [] {
      assert trace + actions == trace;
    } else {
      TraceGoesOn(disk, trace, Front(actions));
      assert trace + actions == trace + Front(actions) + [Last(actions)];
      assert Front(trace + actions) == trace + Front(actions);
    }
  }

  lemma {:induction false} PlayKeeps(sys: Sys, actions: seq<Action>)
    requires Inv(sys) && CanPlay(sys, actions)
    ensures Inv(Plays(sys, actions))
  {
    hide Next, Enabled, Inv;
    if actions != [] {
      PlayKeeps(sys, Front(actions));
      NextKeeps(Plays(sys, Front(actions)), Last(actions));
    }
  }

  // How a step ends

  /** A step of the worker with a commit that works. */
  predicate Works(action: Action) {
    action.Work? && action.ok
  }

  lemma WorkPlays(sys: Sys, action: Action, s: State, w: Worker)
    requires Works(action) && sys.w.pc !in {Idle, Listing, FinalListing}
    requires DoWork(sys.s, sys.w, true, action.rows, action.body) == (s, w)
    ensures Enabled(sys, action) && Next(sys, action) == Sys(s, sys.used, w)
  {
    hide DoWork, IsListing;
  }

  /** The step the worker is at, as the tables have it, while the plan it listed is the plan. */
  lemma AtStep(sys: Sys)
    requires Inv(sys) && sys.w.pc == Working && sys.w.index < |sys.w.listing|
    requires sys.w.listing[sys.w.index].id in sys.s.db.steps
    ensures sys.w.run in sys.s.db.runs
    ensures var row := sys.s.db.steps[sys.w.listing[sys.w.index].id]; row.run == sys.w.run && row.status == Active
  {
    var w := sys.w;
    assert w.listing[w.index].id in Ids(w.listing);
  }

  /** From a step at work, with nothing else happening and every commit working, the worker's next calls end it: a step
      that succeeds is completed; one that raises is failed and its run failed; one that takes too long is failed and
      its run paused. Nothing else in the tables changes. */
  lemma StepEnds(disk: map<Root, TaskManifest.Fs>, trace: seq<Action>, body: Body, a: Action, b: Action)
    requires Possible(disk, trace) && Works(a) && Works(b)
    requires var (db, w) := (Run(disk, trace).s.db, Run(disk, trace).w);
      && w.pc == Working && w.index < |w.listing| && w.listing[w.index].id in db.steps
      && w.run in db.runs && db.runs[w.run].status == Running
    ensures var (db, w) := (Run(disk, trace).s.db, Run(disk, trace).w);
            var id := w.listing[w.index].id;
            var more := if body.Succeeded? then [Work(true, [], body), a] else [Work(true, [], body), a, b];
            var after := Run(disk, trace + more).s.db;
      && Possible(disk, trace + more)
      && after.steps == db.steps[id := db.steps[id].(status := if body.Succeeded? then StepCompleted else StepFailed)]
      && after.runs == db.runs[w.run := db.runs[w.run].(status :=
           match body case Succeeded => Running case Erred => Failed case TimedOut => Paused)]
  {
    TraceKeeps(disk, trace);
    hide Possible, Run, Inv;
    var sys := Run(disk, trace);
    AtStep(sys);
    var first := Work(true, [], body);
    FirstPlays(sys, body);
    var began: seq<Action> := [first];
    PlayOne(sys, [], first);
    assert [] + [first] == began;
    SecondPlays(sys, body, a);
    PlayOne(sys, began, a);
    var more := began + [a];
    assert more == [first, a];
    if !body.Succeeded? {
      ThirdPlays(sys, body, a, b);
      PlayOne(sys, more, b);
      more := more + [b];
      assert more == [first, a, b];
    }
    TraceGoesOn(disk, trace, more);
  }

  /** Where the worker goes from a step that ended so. */
  function Ended(sys: Sys, body: Body): Sys {
    Next(sys, Work(true, [], body))
  }

  lemma FirstPlays(sys: Sys, body: Body)
    requires sys.w.pc == Working
    ensures Enabled(sys, Work(true, [], body)) && Ended(sys, body).s == sys.s && Ended(sys, body).w.pc != Idle
    ensures Ended(sys, body).w.pc !in {Listing, FinalListing}
    ensures Ended(sys, body).w == sys.w.(pc := Ended(sys, body).w.pc)
  {
  }

  lemma SecondPlays(sys: Sys, body: Body, a: Action)
    requires sys.w.pc == Working && sys.w.index < |sys.w.listing| && Works(a)
    requires var id := sys.w.listing[sys.w.index].id; id in sys.s.db.steps && sys.s.db.steps[id].status == Active
    ensures Enabled(Ended(sys, body), a)
    ensures var (db, after) := (sys.s.db, Next(Ended(sys, body), a));
            var id := sys.w.listing[sys.w.index].id;
      && after.s.db.steps
         == db.steps[id := db.steps[id].(status := if body.Succeeded? then StepCompleted else StepFailed)]
      && after.s.db.runs == db.runs
      && (!body.Succeeded? ==> after.w.pc !in {Idle, Listing, FinalListing})
      && after.w.run == sys.w.run
  {
    hide Exec, StepMoved, IsListing, Advance;
    var id := sys.w.listing[sys.w.index].id;
    FinishExactly(sys.s, sys.w.run, id, true);
    FinishedRow(sys.s, sys.w.run, id);
  }

  lemma FinishedRow(s: State, run: RunId, id: StepId)
    requires id in s.db.steps && s.db.steps[id].status == Active
    ensures Exec(s, CompleteStep(run, id), true).0.db.steps
         == s.db.steps[id := s.db.steps[id].(status := StepCompleted)]
    ensures Exec(s, FailStep(run, id), true).0.db.steps == s.db.steps[id := s.db.steps[id].(status := StepFailed)]
  {
    hide Exec, OneMore;
    FinishExactly(s, run, id, true);
  }

  lemma ThirdPlays(sys: Sys, body: Body, a: Action, b: Action)
    requires sys.w.pc == Working && sys.w.index < |sys.w.listing| && !body.Succeeded? && Works(a) && Works(b)
    requires var id := sys.w.listing[sys.w.index].id; id in sys.s.db.steps && sys.s.db.steps[id].status == Active
    requires sys.w.run in sys.s.db.runs && sys.s.db.runs[sys.w.run].status == Running
    ensures var second := Next(Ended(sys, body), a);
      && Enabled(second, b)
      && Next(second, b).s.db.steps == second.s.db.steps
      && Next(second, b).s.db.runs
         == second.s.db.runs[sys.w.run :=
              second.s.db.runs[sys.w.run].(status := if body.Erred? then Failed else Paused)]
  {
    hide Exec, StepMoved, IsListing, OneMore, Pausable, Failable;
    var id := sys.w.listing[sys.w.index].id;
    FinishExactly(sys.s, sys.w.run, id, true);
    var second := Next(Ended(sys, body), a);
    EndsExactly(second.s, sys.w.run, true);
    MayEnd();
  }

  lemma MayEnd()
    ensures Running in Pausable() && Running in Failable()
  {
  }

  // A run on which nobody else acts

  /** The worker takes up the run, or goes on with a commit that works and a step that succeeds. */
  predicate Undisturbed(action: Action, run: RunId) {
    action == Pick(run) || (Works(action) && action.body.Succeeded?)
  }

  ghost predicate Leads(sys: Sys, run: RunId, later: Sys) {
    exists actions :: AllUndisturbed(actions, run) && CanPlay(sys, actions) && Plays(sys, actions) == later
  }

  ghost predicate AllUndisturbed(actions: seq<Action>, run: RunId) {
    forall k :: 0 <= k < |actions| ==> Undisturbed(actions[k], run)
  }

  lemma LeadsSame(sys: Sys, run: RunId)
    ensures Leads(sys, run, sys)
  {
    var none: seq<Action> := [];
    assert AllUndisturbed(none, run) && CanPlay(sys, none) && Plays(sys, none) == sys;
  }

  lemma LeadsNext(sys: Sys, run: RunId, later: Sys, action: Action)
    requires Leads(sys, run, later) && Undisturbed(action, run) && Enabled(later, action)
    ensures Leads(sys, run, Next(later, action))
  {
    hide Next, Enabled, Plays, CanPlay, Undisturbed;
    var actions :| AllUndisturbed(actions, run) && CanPlay(sys, actions) && Plays(sys, actions) == later;
    PlayOne(sys, actions, action);
    var more := actions + [action];
    assert AllUndisturbed(more, run);
  }

  lemma LeadsThen(a: Sys, run: RunId, b: Sys, c: Sys)
    requires Leads(a, run, b) && Leads(b, run, c)
    ensures Leads(a, run, c)
  {
    hide Undisturbed, Plays, CanPlay;
    var first :| AllUndisturbed(first, run) && CanPlay(a, first) && Plays(a, first) == b;
    var second :| AllUndisturbed(second, run) && CanPlay(b, second) && Plays(b, second) == c;
    PlayBoth(a, first, second);
    assert AllUndisturbed(first + second, run);
  }

  lemma LeadsKeeps(sys: Sys, run: RunId, later: Sys)
    requires Leads(sys, run, later) && Inv(sys)
    ensures Inv(later)
  {
    hide Undisturbed, Plays, CanPlay, Inv;
    var actions :| AllUndisturbed(actions, run) && CanPlay(sys, actions) && Plays(sys, actions) == later;
    PlayKeeps(sys, actions);
  }

  /** One call of the worker, for which it needs no listing. */
  lemma Calls(sys: Sys, run: RunId, later: Sys, s: State, w: Worker)
    requires Leads(sys, run, later) && later.w.pc !in {Idle, Listing, FinalListing}
    requires DoWork(later.s, later.w, true, [], Succeeded) == (s, w)
    ensures Leads(sys, run, Sys(s, later.used, w))
  {
    hide DoWork, Leads, Next, Enabled;
    WorkPlays(later, Work(true, [], Succeeded), s, w);
    LeadsNext(sys, run, later, Work(true, [], Succeeded));
  }

  /** One call that lists the steps. */
  lemma Lists(sys: Sys, run: RunId, later: Sys, rows: seq<Listed>, s: State, w: Worker)
    requires Leads(sys, run, later) && later.w.pc in {Listing, FinalListing}
    requires IsListing(StepsOf(later.s.db, later.w.run), rows)
    requires DoWork(later.s, later.w, true, rows, Succeeded) == (s, w)
    ensures Leads(sys, run, Sys(s, later.used, w))
  {
    hide DoWork, Leads, IsListing;
    LeadsNext(sys, run, later, Work(true, rows, Succeeded));
  }

  // Listings exist

  lemma LastStep(steps: map<StepId, StepRow>) returns (last: StepId)
    requires steps != map[]
    ensures last in steps && forall id :: id in steps ==> steps[id].ordinal <= steps[last].ordinal
  {
    var left := steps.Keys;
    last :| last in steps;
    left := left - {last};
    while left != {}
      invariant last in steps && left <= steps.Keys
      invariant forall id :: id in steps && id !in left ==> steps[id].ordinal <= steps[last].ordinal
      decreases left
    {
      var id :| id in left;
      left := left - {id};
      if steps[id].ordinal > steps[last].ordinal {
        last := id;
      }
    }
  }

  lemma {:induction false} ListingThere(steps: map<StepId, StepRow>) returns (rows: seq<Listed>)
    ensures IsListing(steps, rows)
    decreases |steps|
  {
    if steps == map[] {
      return [];
    }
    var last := LastStep(steps);
    var rest := steps - {last};
    assert rest.Keys == steps.Keys - {last};
    var front := ListingThere(rest);
    rows := front + [Listed(last, steps[last].status)];
    OneMoreListed(rest, steps, front, last);
  }

  lemma OneMoreListed(rest: map<StepId, StepRow>, steps: map<StepId, StepRow>, front: seq<Listed>, last: StepId)
    requires last in steps && rest == steps - {last} && IsListing(rest, front)
    requires forall id :: id in steps ==> steps[id].ordinal <= steps[last].ordinal
    ensures IsListing(steps, front + [Listed(last, steps[last].status)])
  {
    var rows := front + [Listed(last, steps[last].status)];
    assert rows[|front|].id == last;
    forall k | 0 <= k < |front|
      ensures rows[k] == front[k] && rows[k].id in rest && rows[k].id != last
    {
      assert front[k].id in Ids(front);
    }
    forall id
      ensures id in Ids(rows) <==> id in steps
    {
      if id in rest {
        assert id in Ids(front);
        var k :| 0 <= k < |front| && front[k].id == id;
        assert rows[k].id == id;
      }
    }
  }

  // The loop over the steps

  predicate IsRunning(db: Db, run: RunId) {
    run in db.runs && db.runs[run].status == Running
  }

  /** From this place in its listing on the steps are as listed, and no pending step stands before it. */
  predicate AsListed(db: Db, w: Worker, from: nat) {
    && (forall k :: from <= k < |w.listing| ==>
          && w.listing[k].id in db.steps && db.steps[w.listing[k].id].run == w.run
          && db.steps[w.listing[k].id].status == w.listing[k].status)
    && (forall j, k :: 0 <= j < k < |w.listing| ==> w.listing[j].id != w.listing[k].id)
    && (forall id :: id in db.steps && db.steps[id].run == w.run && db.steps[id].status == Pending ==>
          exists k :: from <= k < |w.listing| && w.listing[k].id == id)
  }

  function CompletedCount(db: Db, run: RunId): nat {
    |CompletedIds(StepsOf(db, run))|
  }

  /** The run goes on, no step is active, and the worker knows the limit and how many steps are completed. */
  predicate InStep(sys: Sys, run: RunId) {
    && sys.w.run == run && IsRunning(sys.s.db, run) && !SomeActive(sys.s.db, run)
    && sys.w.maxSteps == sys.s.db.runs[run].maxSteps && sys.w.completed == CompletedCount(sys.s.db, run)
  }

  /** The worker is at the head of its loop. */
  predicate AtHead(sys: Sys, run: RunId) {
    && sys.w.pc == Head && sys.w.index < |sys.w.listing| && InStep(sys, run) && sys.w.completed < sys.w.maxSteps
    && AsListed(sys.s.db, sys.w, sys.w.index)
  }

  /** It is out of the loop, for want of pending steps or because the limit is reached. */
  predicate OutOfLoop(sys: Sys, run: RunId) {
    sys.w.pc == FinalStatus && InStep(sys, run) && DoneOrAtLimit(sys.s.db, run)
  }

  /** After a step of the loop: on to the next one, or out of the loop. */
  predicate Onward(sys: Sys, run: RunId, index: nat) {
    OutOfLoop(sys, run) || (AtHead(sys, run) && sys.w.index == index)
  }

  /** No step has been lost: a pending one is pending still, or completed; the others are as before. */
  predicate WorkedOff(before: Db, after: Db, run: RunId) {
    && after.steps.Keys == before.steps.Keys
    && (forall id :: id in before.steps ==>
          after.steps[id] == before.steps[id]
          || (before.steps[id].run == run && before.steps[id].status == Pending && after.steps[id].run == run
              && after.steps[id].status == StepCompleted))
    && run in before.runs && run in after.runs && after.runs[run].maxSteps == before.runs[run].maxSteps
  }

  lemma NobodyAhead(db: Db, w: Worker, run: RunId)
    requires AsListed(db, w, |w.listing|) && w.run == run && run in db.runs
    ensures DoneOrAtLimit(db, run)
  {
  }

  lemma AdvancedOnward(s: State, used: set<StepId>, w: Worker, run: RunId, index: nat)
    requires w.run == run && IsRunning(s.db, run) && !SomeActive(s.db, run) && w.maxSteps == s.db.runs[run].maxSteps
    requires w.completed == CompletedCount(s.db, run) < w.maxSteps
    requires AsListed(s.db, w, index) && index <= |w.listing|
    ensures Onward(Sys(s, used, Advance(w, index)), run, index)
  {
    hide SomeActive, CompletedCount, DoneOrAtLimit;
    if index == |w.listing| {
      NobodyAhead(s.db, w, run);
    }
  }

  lemma PassedOver(sys: Sys, run: RunId)
    requires AtHead(sys, run) && sys.w.listing[sys.w.index].status != Pending
    ensures var later := Sys(sys.s, sys.used, Advance(sys.w, sys.w.index + 1));
      Leads(sys, run, later) && Onward(later, run, sys.w.index + 1)
  {
    LeadsSame(sys, run);
    FromLater(sys.s.db, sys.w, sys.w.index);
    AdvancedOnward(sys.s, sys.used, sys.w, run, sys.w.index + 1);
    hide Leads, SomeActive, AsListed, Onward, CompletedCount;
    Calls(sys, run, sys, sys.s, Advance(sys.w, sys.w.index + 1));
  }

  lemma FromLater(db: Db, w: Worker, from: nat)
    requires AsListed(db, w, from) && from < |w.listing| && w.listing[from].status != Pending
    ensures AsListed(db, w, from + 1)
  {
  }

  /** The tables after a step has been started and completed. */
  function StartedAndDone(s: State, run: RunId, id: StepId): State {
    Exec(Exec(s, ActivateStep(run, id), true).0, CompleteStep(run, id), true).0
  }

  lemma StepIsDone(s: State, run: RunId, id: StepId)
    requires run in s.db.runs && id in s.db.steps && s.db.steps[id].run == run && s.db.steps[id].status == Pending
    requires !SomeActive(s.db, run)
    ensures Exec(s, ActivateStep(run, id), true).1.Done?
    ensures Exec(Exec(s, ActivateStep(run, id), true).0, CompleteStep(run, id), true).1.Done?
    ensures Exec(s, ActivateStep(run, id), true).0.db.runs == StartedAndDone(s, run, id).db.runs
    ensures var after := StartedAndDone(s, run, id);
      && after.db.runs == s.db.runs[run := s.db.runs[run].(currentStep := Some(id))]
      && id in after.db.steps && after.db.steps[id].run == run && after.db.steps[id].status == StepCompleted
      && after.db.steps == s.db.steps[id := after.db.steps[id]]
  {
    hide Exec, SomeActive, OneMore;
    ActivateExactly(s, run, id, true);
    FinishExactly(Exec(s, ActivateStep(run, id), true).0, run, id, true);
  }

  lemma OneMoreDone(before: Db, after: Db, run: RunId, id: StepId)
    requires !SomeActive(before, run) && id in before.steps && before.steps[id].run == run
    requires before.steps[id].status == Pending && id in after.steps && after.steps[id].run == run
    requires after.steps[id].status == StepCompleted && after.steps == before.steps[id := after.steps[id]]
    ensures !SomeActive(after, run) && CompletedCount(after, run) == CompletedCount(before, run) + 1
  {
    NoneActiveThen(before, after, run, id);
    StepsOfUpdate(before, after, id);
    DoneAmong(StepsOf(before, run), id, after.steps[id]);
    hide SomeActive, StepsOf, CompletedIds;
  }

  lemma DoneAmong(steps: map<StepId, StepRow>, id: StepId, row: StepRow)
    requires id in steps && steps[id].status == Pending && row.status == StepCompleted
    ensures |CompletedIds(steps[id := row])| == |CompletedIds(steps)| + 1
  {
    var done, more := CompletedIds(steps), CompletedIds(steps[id := row]);
    assert more == done + {id} && id !in done;
  }

  lemma NoneActiveThen(before: Db, after: Db, run: RunId, id: StepId)
    requires !SomeActive(before, run) && id in after.steps && after.steps[id].status == StepCompleted
    requires after.steps == before.steps[id := after.steps[id]]
    ensures !SomeActive(after, run)
  {
    forall other | other in after.steps && after.steps[other].run == run
      ensures after.steps[other].status != Active
    {
      assert other != id ==> before.steps[other] == after.steps[other];
    }
  }

  function WithDone(w: Worker): Worker {
    w.(pc := Checking, completed := w.completed + 1)
  }

  function AfterStep(w: Worker): Worker {
    if w.completed + 1 >= w.maxSteps then WithDone(w).(pc := FinalStatus) else Advance(WithDone(w), w.index + 1)
  }

  /** The worker's calls up to the start of a step. */
  lemma StartCalls(s: State, w: Worker, run: RunId, id: StepId)
    requires w.pc == Head && w.run == run && w.index < |w.listing| && w.listing[w.index] == Listed(id, Pending)
    requires IsRunning(s.db, run) && !SomeActive(s.db, run) && Exec(s, ActivateStep(run, id), true).1.Done?
    ensures DoWork(s, w, true, [], Succeeded) == (s, w.(pc := Counting))
    ensures DoWork(s, w.(pc := Counting), true, [], Succeeded) == (s, w.(pc := Activating))
    ensures DoWork(s, w.(pc := Activating), true, [], Succeeded)
         == (Exec(s, ActivateStep(run, id), true).0, w.(pc := Working))
  {
    hide SomeActive, Exec, Advance;
  }

  /** And up to its end. */
  lemma FinishCalls(active: State, w: Worker, run: RunId, id: StepId)
    requires w.run == run && w.index < |w.listing| && w.listing[w.index] == Listed(id, Pending)
    requires Exec(active, CompleteStep(run, id), true).1.Done?
    requires IsRunning(Exec(active, CompleteStep(run, id), true).0.db, run)
    ensures var done := Exec(active, CompleteStep(run, id), true).0;
      && DoWork(active, w.(pc := Working), true, [], Succeeded) == (active, w.(pc := Completing))
      && DoWork(active, w.(pc := Completing), true, [], Succeeded) == (done, WithDone(w))
      && DoWork(done, WithDone(w), true, [], Succeeded) == (done, AfterStep(w))
  {
    hide Exec, Advance;
  }

  lemma DoesStep(sys: Sys, run: RunId)
    requires AtHead(sys, run) && sys.w.listing[sys.w.index].status == Pending
    ensures var id := sys.w.listing[sys.w.index].id;
      Leads(sys, run, Sys(StartedAndDone(sys.s, run, id), sys.used, AfterStep(sys.w)))
  {
    var s, w, id := sys.s, sys.w, sys.w.listing[sys.w.index].id;
    StepIsDone(s, run, id);
    StartCalls(s, w, run, id);
    FinishCalls(Exec(s, ActivateStep(run, id), true).0, w, run, id);
    LeadsSame(sys, run);
    assert StartedAndDone(s, run, id) == Exec(Exec(s, ActivateStep(run, id), true).0, CompleteStep(run, id), true).0;
    hide Leads, AtHead, Exec, DoWork, AfterStep, StartedAndDone;
    var active, done := Exec(s, ActivateStep(run, id), true).0, StartedAndDone(s, run, id);
    Calls(sys, run, sys, s, w.(pc := Counting));
    Calls(sys, run, Sys(s, sys.used, w.(pc := Counting)), s, w.(pc := Activating));
    Calls(sys, run, Sys(s, sys.used, w.(pc := Activating)), active, w.(pc := Working));
    Calls(sys, run, Sys(active, sys.used, w.(pc := Working)), active, w.(pc := Completing));
    Calls(sys, run, Sys(active, sys.used, w.(pc := Completing)), done, WithDone(w));
    Calls(sys, run, Sys(done, sys.used, WithDone(w)), done, AfterStep(w));
  }

  /** A run with one more step completed: on to the next step, or the limit is reached. */
  lemma OneMoreOnward(before: Db, after: State, used: set<StepId>, w: Worker, run: RunId)
    requires w.run == run && w.index < |w.listing| && AsListed(before, w, w.index)
    requires var id := w.listing[w.index].id;
      && id in after.db.steps && after.db.steps[id].status == StepCompleted
      && after.db.steps == before.steps[id := after.db.steps[id]]
    requires IsRunning(after.db, run) && !SomeActive(after.db, run) && w.maxSteps == after.db.runs[run].maxSteps
    requires CompletedCount(after.db, run) == w.completed + 1
    ensures Onward(Sys(after, used, AfterStep(w)), run, w.index + 1)
  {
    NextAsListed(before, after.db, w);
    hide AsListed, SomeActive, CompletedCount, Onward;
    if w.completed + 1 < w.maxSteps {
      AdvancedOnward(after, used, WithDone(w), run, w.index + 1);
    } else {
      OutAtLimit(after, used, AfterStep(w), run);
      OutIsOnward(Sys(after, used, AfterStep(w)), run, w.index + 1);
    }
  }

  lemma OutIsOnward(sys: Sys, run: RunId, index: nat)
    requires OutOfLoop(sys, run)
    ensures Onward(sys, run, index)
  {
  }

  lemma DoneIsOnward(sys: Sys, run: RunId)
    requires AtHead(sys, run) && sys.w.listing[sys.w.index].status == Pending
    ensures var id := sys.w.listing[sys.w.index].id;
            var later := Sys(StartedAndDone(sys.s, run, id), sys.used, AfterStep(sys.w));
      Onward(later, run, sys.w.index + 1) && WorkedOff(sys.s.db, later.s.db, run)
  {
    var s, w, id := sys.s, sys.w, sys.w.listing[sys.w.index].id;
    assert id in s.db.steps && s.db.steps[id].run == run && s.db.steps[id].status == Pending;
    hide Exec, AsListed, SomeActive, CompletedCount, StartedAndDone, WorkedOff, Onward, AfterStep;
    StepIsDone(s, run, id);
    var after := StartedAndDone(s, run, id);
    DoneIsWorkedOff(s.db, after.db, run, id);
    OneMoreDone(s.db, after.db, run, id);
    OneMoreOnward(s.db, after, sys.used, w, run);
  }

  lemma DoneIsWorkedOff(before: Db, after: Db, run: RunId, id: StepId)
    requires run in before.runs && after.runs == before.runs[run := before.runs[run].(currentStep := Some(id))]
    requires id in before.steps && before.steps[id].run == run && before.steps[id].status == Pending
    requires id in after.steps && after.steps[id].run == run && after.steps[id].status == StepCompleted
    requires after.steps == before.steps[id := after.steps[id]]
    ensures WorkedOff(before, after, run)
  {
  }

  lemma OutAtLimit(s: State, used: set<StepId>, w: Worker, run: RunId)
    requires w.pc == FinalStatus && w.run == run && IsRunning(s.db, run) && !SomeActive(s.db, run)
    requires w.maxSteps == s.db.runs[run].maxSteps && w.completed == CompletedCount(s.db, run) >= w.maxSteps
    ensures OutOfLoop(Sys(s, used, w), run)
  {
    hide SomeActive, StepsOf, CompletedIds;
  }

  lemma NextAsListed(before: Db, after: Db, w: Worker)
    requires w.index < |w.listing| && AsListed(before, w, w.index)
    requires var id := w.listing[w.index].id;
      id in after.steps && after.steps == before.steps[id := after.steps[id]] && after.steps[id].status == StepCompleted
    ensures AsListed(after, WithDone(w), w.index + 1)
  {
  }

  lemma WorkedOffThen(a: Db, b: Db, c: Db, run: RunId)
    requires WorkedOff(a, b, run) && WorkedOff(b, c, run)
    ensures WorkedOff(a, c, run)
  {
  }

  /** From the head of the loop the worker gets out of it, step by step. */
  lemma {:induction false} LeavesLoop(sys: Sys, run: RunId) returns (later: Sys)
    requires AtHead(sys, run)
    ensures Leads(sys, run, later) && OutOfLoop(later, run) && WorkedOff(sys.s.db, later.s.db, run)
    decreases |sys.w.listing| - sys.w.index
  {
    var next: Sys;
    if sys.w.listing[sys.w.index].status == Pending {
      next := Sys(StartedAndDone(sys.s, run, sys.w.listing[sys.w.index].id), sys.used, AfterStep(sys.w));
      DoesStep(sys, run);
      DoneIsOnward(sys, run);
    } else {
      next := Sys(sys.s, sys.used, Advance(sys.w, sys.w.index + 1));
      PassedOver(sys, run);
      assert WorkedOff(sys.s.db, next.s.db, run);
    }
    assert next.w.listing == sys.w.listing;
    hide Leads, StartedAndDone, WorkedOff, InStep, AsListed, DoneOrAtLimit;
    if OutOfLoop(next, run) {
      later := next;
    } else {
      later := LeavesLoop(next, run);
      LeadsThen(sys, run, next, later);
      WorkedOffThen(sys.s.db, next.s.db, later.s.db, run);
    }
  }

  // Before and after the loop

  lemma RunCompleted(s: State, run: RunId)
    requires IsRunning(s.db, run)
    ensures var (after, outcome) := Exec(s, CompleteRun(run), true);
      && outcome.Done? && after.db.steps == s.db.steps
      && after.db.runs == s.db.runs[run := s.db.runs[run].(status := Completed)]
  {
    hide Exec, OneMore, Pausable, Failable;
    EndsExactly(s, run, true);
  }

  lemma SameSteps(before: Db, after: Db, run: RunId)
    requires after.steps == before.steps && run in before.runs && run in after.runs
    requires after.runs[run].maxSteps == before.runs[run].maxSteps
    ensures WorkedOff(before, after, run) && StepsOf(after, run) == StepsOf(before, run)
    ensures DoneOrAtLimit(after, run) == DoneOrAtLimit(before, run)
  {
  }

  /** The run has come to its end, and so has the worker. */
  predicate Over(before: Db, sys: Sys, run: RunId) {
    && sys.w.pc == Idle && WorkedOff(before, sys.s.db, run)
    && sys.s.db.runs[run].status == Completed && DoneOrAtLimit(sys.s.db, run)
  }

  lemma Completes(sys: Sys, run: RunId) returns (later: Sys)
    requires sys.w.pc == CompleteRunNow && sys.w.run == run && IsRunning(sys.s.db, run)
    requires DoneOrAtLimit(sys.s.db, run)
    ensures Leads(sys, run, later) && Over(sys.s.db, later, run)
  {
    RunCompleted(sys.s, run);
    hide Exec;
    var done := Exec(sys.s, CompleteRun(run), true).0;
    later := Sys(done, sys.used, sys.w.(pc := Idle));
    SameSteps(sys.s.db, done.db, run);
    LeadsSame(sys, run);
    hide Leads, DoneOrAtLimit, WorkedOff;
    Calls(sys, run, sys, done, sys.w.(pc := Idle));
  }

  lemma NoneListedPending(db: Db, run: RunId, rows: seq<Listed>)
    requires IsListing(StepsOf(db, run), rows)
    ensures (exists k :: 0 <= k < |rows| && rows[k].status == Pending) <==> !NonePending(StepsOf(db, run))
    ensures CountCompleted(rows) == CompletedCount(db, run)
  {
    var steps := StepsOf(db, run);
    ListingFacts(steps, rows);
    if !NonePending(steps) {
      var id :| id in steps && steps[id].status == Pending;
      assert id in Ids(rows);
    }
    if k :| 0 <= k < |rows| && rows[k].status == Pending {
      assert rows[k].id in Ids(rows);
    }
  }

  /** Left to the next time: the limit is reached. */
  predicate Left(sys: Sys, run: RunId) {
    && sys.w.pc == Idle && IsRunning(sys.s.db, run) && !SomeActive(sys.s.db, run)
    && CompletedCount(sys.s.db, run) >= sys.s.db.runs[run].maxSteps
  }

  /** The two looks after the loop. */
  lemma FinalCalls(s: State, w: Worker, run: RunId, rows: seq<Listed>)
    requires w.pc == FinalStatus && w.run == run && IsRunning(s.db, run) && IsListing(StepsOf(s.db, run), rows)
    ensures DoWork(s, w, true, [], Succeeded) == (s, w.(pc := FinalListing))
    ensures DoWork(s, w.(pc := FinalListing), true, rows, Succeeded)
         == (s, w.(listing := rows, pc := if NonePending(StepsOf(s.db, run)) then CompleteRunNow else Idle))
  {
    NoneListedPending(s.db, run, rows);
    hide Exec, IsListing, StepsOf, NonePending, CountCompleted, CompletedCount;
  }

  /** Out of the loop it completes the run, or leaves it to the next time because pending steps are left. */
  lemma AfterLoop(sys: Sys, run: RunId) returns (later: Sys)
    requires OutOfLoop(sys, run)
    ensures Leads(sys, run, later)
    ensures Over(sys.s.db, later, run) || (Left(later, run) && later.s == sys.s)
  {
    var s, w := sys.s, sys.w;
    var rows := ListingThere(StepsOf(s.db, run));
    FinalCalls(s, w, run, rows);
    LeadsSame(sys, run);
    hide DoWork, Leads, IsListing, StepsOf, CompletedCount, SomeActive, Over, DoneOrAtLimit, NonePending;
    Calls(sys, run, sys, s, w.(pc := FinalListing));
    var listing := Sys(s, sys.used, w.(pc := FinalListing));
    if NonePending(StepsOf(s.db, run)) {
      var next := Sys(s, sys.used, w.(listing := rows, pc := CompleteRunNow));
      Lists(sys, run, listing, rows, s, next.w);
      later := Completes(next, run);
      LeadsThen(sys, run, next, later);
    } else {
      later := Sys(s, sys.used, w.(listing := rows, pc := Idle));
      Lists(sys, run, listing, rows, s, later.w);
      LimitReached(s.db, run);
    }
  }

  lemma LimitReached(db: Db, run: RunId)
    requires run in db.runs && DoneOrAtLimit(db, run) && !NonePending(StepsOf(db, run))
    ensures CompletedCount(db, run) >= db.runs[run].maxSteps
  {
  }

  /** Taking up the run: the limit is reached already, or the worker gets to the head of the loop or past it. */
  lemma TakesUp(sys: Sys, run: RunId) returns (later: Sys)
    requires sys.w.pc == Idle && IsRunning(sys.s.db, run) && !SomeActive(sys.s.db, run)
    ensures Leads(sys, run, later) && later.s == sys.s && later.w.run == run
    ensures if CompletedCount(sys.s.db, run) >= sys.s.db.runs[run].maxSteps then later.w.pc == CompleteRunNow
            else Onward(later, run, 0)
  {
    var db := sys.s.db;
    var steps, max := StepsOf(db, run), db.runs[run].maxSteps;
    var rows := ListingThere(steps);
    NoneListedPending(db, run, rows);
    var picked := sys.(w := sys.w.(pc := Begin, run := run));
    LeadsSame(sys, run);
    PickLeads(sys, run);
    var begun := picked.(w := picked.w.(pc := Listing, maxSteps := max));
    var listed := begun.w.(listing := rows, completed := CountCompleted(rows));
    if listed.completed < max {
      ListedAsIs(db, listed, rows);
      hide SomeActive, AsListed;
      AdvancedOnward(sys.s, sys.used, listed, run, 0);
    }
    hide Leads, IsListing, StepsOf, CompletedCount, CountCompleted, SomeActive, Onward;
    Calls(sys, run, picked, sys.s, begun.w);
    later := begun.(w := if listed.completed >= max then listed.(pc := CompleteRunNow) else Advance(listed, 0));
    Lists(sys, run, begun, rows, sys.s, later.w);
  }

  lemma PickLeads(sys: Sys, run: RunId)
    requires sys.w.pc == Idle && IsRunning(sys.s.db, run)
    ensures Leads(sys, run, sys.(w := sys.w.(pc := Begin, run := run)))
  {
    LeadsSame(sys, run);
    hide Leads;
    LeadsNext(sys, run, sys, Pick(run));
  }

  lemma ListedAsIs(db: Db, w: Worker, rows: seq<Listed>)
    requires w.listing == rows && IsListing(StepsOf(db, w.run), rows)
    ensures AsListed(db, w, 0)
  {
    forall k | 0 <= k < |rows|
      ensures rows[k].id in StepsOf(db, w.run)
    {
      assert rows[k].id in Ids(rows);
    }
    forall id | id in db.steps && db.steps[id].run == w.run
      ensures exists k :: 0 <= k < |rows| && rows[k].id == id
    {
      assert id in Ids(rows);
    }
  }

  /** One execution: it ends the run, or the limit is reached with pending steps left. */
  lemma Executes(sys: Sys, run: RunId) returns (later: Sys)
    requires sys.w.pc == Idle && IsRunning(sys.s.db, run) && !SomeActive(sys.s.db, run)
    ensures Leads(sys, run, later)
    ensures Over(sys.s.db, later, run) || (Left(later, run) && WorkedOff(sys.s.db, later.s.db, run))
    ensures CompletedCount(sys.s.db, run) >= sys.s.db.runs[run].maxSteps ==> Over(sys.s.db, later, run)
  {
    var begun := TakesUp(sys, run);
    hide Leads, Over, Onward, StepsOf;
    if CompletedCount(sys.s.db, run) >= sys.s.db.runs[run].maxSteps {
      hide SomeActive;
      later := Completes(begun, run);
      LeadsThen(sys, run, begun, later);
    } else {
      hide SomeActive, CompletedCount;
      later := WorksOff(begun, run);
      LeadsThen(sys, run, begun, later);
    }
  }

  /** From the head of the loop, or past it, to the end of the execution. */
  lemma WorksOff(begun: Sys, run: RunId) returns (later: Sys)
    requires Onward(begun, run, 0)
    ensures Leads(begun, run, later)
    ensures Over(begun.s.db, later, run) || (Left(later, run) && WorkedOff(begun.s.db, later.s.db, run))
  {
    LeadsSame(begun, run);
    hide Leads, InStep, AsListed, Over, Left, DoneOrAtLimit;
    var out := begun;
    if !OutOfLoop(begun, run) {
      out := LeavesLoop(begun, run);
    } else {
      StartsSame(begun, run);
    }
    later := AfterLoop(out, run);
    LeadsThen(begun, run, out, later);
    hide WorkedOff, OutOfLoop, AtHead;
    OverFrom(begun.s.db, out.s.db, later, run);
  }

  lemma StartsSame(sys: Sys, run: RunId)
    requires OutOfLoop(sys, run)
    ensures WorkedOff(sys.s.db, sys.s.db, run)
  {
  }

  lemma OverFrom(before: Db, middle: Db, later: Sys, run: RunId)
    requires WorkedOff(before, middle, run)
    ensures Over(middle, later, run) ==> Over(before, later, run)
  {
    hide DoneOrAtLimit;
    if WorkedOff(middle, later.s.db, run) {
      WorkedOffThen(before, middle, later.s.db, run);
    }
  }

  /** A running run without an active step, on which nobody but the worker acts, with commits that work and steps that
      succeed, is completed: every pending step is completed, or as many as the limit allows, and no other is
      touched. */
  lemma WorkerFinishes(disk: map<Root, TaskManifest.Fs>, trace: seq<Action>, run: RunId) returns (more: seq<Action>)
    requires Possible(disk, trace) && Run(disk, trace).w.pc == Idle
    requires IsRunning(Run(disk, trace).s.db, run) && !SomeActive(Run(disk, trace).s.db, run)
    ensures AllUndisturbed(more, run) && Possible(disk, trace + more)
    ensures Over(Run(disk, trace).s.db, Run(disk, trace + more), run)
  {
    var sys := Run(disk, trace);
    var later := Executes(sys, run);
    hide SomeActive, CompletedCount;
    if !Over(sys.s.db, later, run) {
      var last := Executes(later, run);
      LeadsThen(sys, run, later, last);
      OverFrom(sys.s.db, later.s.db, last, run);
      later := last;
    }
    hide Undisturbed, CanPlay, Plays, Over;
    more :| AllUndisturbed(more, run) && CanPlay(sys, more) && Plays(sys, more) == later;
    TraceGoesOn(disk, trace, more);
  }

  // A run that is halted

  predicate Halted(db: Db, run: RunId) {
    run in db.runs && db.runs[run].status in {Paused, PausedRecovery, Cancelled, Failed, Completed}
  }

  /** The worker has this step in hand. */
  predicate InHand(w: Worker, id: StepId) {
    && w.index < |w.listing| && w.listing[w.index].id == id
    && w.pc in {Counting, Activating, Working, Completing, FailThenRun, FailThenPause}
  }

  /** Nothing but this step has changed since, and the worker has it in hand or is on its way out. */
  predicate Halting(before: Db, sys: Sys, run: RunId, id: StepId) {
    && sys.w.run == run && Halted(sys.s.db, run)
    && sys.s.db.steps.Keys == before.steps.Keys
    && (forall other :: other in before.steps && other != id ==> sys.s.db.steps[other] == before.steps[other])
    && (sys.w.index < |sys.w.listing| && InHand(sys.w, sys.w.listing[sys.w.index].id) ==> InHand(sys.w, id))
  }

  lemma LooksHalt(before: Db, sys: Sys, run: RunId, id: StepId, action: Action)
    requires Halting(before, sys, run, id) && action.Work?
    requires sys.w.pc in {Begin, Listing, Head, Counting, Working, Checking, FinalStatus, FinalListing}
    ensures Halting(before, Next(sys, action), run, id)
  {
    hide SomeActive, CountCompleted, Exec;
  }

  /** The worker's calls on the run leave the steps alone and a halted run halted. */
  lemma RunCallHalts(s: State, run: RunId, op: Op, ok: bool)
    requires op in {FailRun(run), PauseRun(run), CompleteRun(run)} && Halted(s.db, run)
    ensures Exec(s, op, ok).0.db.steps == s.db.steps && Halted(Exec(s, op, ok).0.db, run)
  {
    EndsExactly(s, run, ok);
    hide Exec, OneMore, Pausable, Failable;
  }

  lemma RunCallsHalt(before: Db, sys: Sys, run: RunId, id: StepId, action: Action)
    requires Halting(before, sys, run, id) && action.Work? && sys.w.pc in {FailRunNow, PauseNow, CompleteRunNow}
    ensures Halting(before, Next(sys, action), run, id)
  {
    var op := if sys.w.pc == FailRunNow then FailRun(run) else if sys.w.pc == PauseNow then PauseRun(run)
              else CompleteRun(run);
    RunCallHalts(sys.s, run, op, action.ok);
    hide SomeActive, CountCompleted, Exec, Halted, Advance;
    assert Next(sys, action).s == Exec(sys.s, op, action.ok).0 && Next(sys, action).w == sys.w.(pc := Idle);
    hide Next;
  }

  /** Its calls on a step leave the others and the status of the run alone. */
  lemma StepCallHalts(s: State, run: RunId, id: StepId, op: Op, ok: bool)
    requires op in {ActivateStep(run, id), CompleteStep(run, id), FailStep(run, id)} && Halted(s.db, run)
    ensures var after := Exec(s, op, ok).0.db;
      && after.steps.Keys == s.db.steps.Keys && Halted(after, run)
      && forall other :: other in s.db.steps && other != id ==> after.steps[other] == s.db.steps[other]
  {
    ActivateExactly(s, run, id, ok);
    FinishExactly(s, run, id, ok);
    hide SomeActive, Exec, OneMore;
  }

  lemma StepCallsHalt(before: Db, sys: Sys, run: RunId, id: StepId, action: Action)
    requires Halting(before, sys, run, id) && action.Work?
    requires sys.w.pc in {Activating, Completing, FailThenRun, FailThenPause}
    ensures Halting(before, Next(sys, action), run, id)
  {
    StepCallHalts(sys.s, run, id, ActivateStep(run, id), action.ok);
    StepCallHalts(sys.s, run, id, CompleteStep(run, id), action.ok);
    StepCallHalts(sys.s, run, id, FailStep(run, id), action.ok);
    hide SomeActive, CountCompleted, Exec, Advance, Halted;
  }

  lemma {:induction false} KeepsHalting(before: Db, sys: Sys, run: RunId, id: StepId, actions: seq<Action>)
    requires Halting(before, sys, run, id) && CanPlay(sys, actions)
    requires forall k :: 0 <= k < |actions| ==> actions[k].Work?
    ensures Halting(before, Plays(sys, actions), run, id)
    decreases |actions|
  {
    if actions != [] {
      var front, last := Front(actions), Last(actions);
      assert actions[|actions| - 1].Work? && forall k :: 0 <= k < |front| ==> front[k] == actions[k];
      KeepsHalting(before, sys, run, id, front);
      var now := Plays(sys, front);
      assert Enabled(now, last);
      hide Halting, Next, Plays, CanPlay;
      if now.w.pc in {Begin, Listing, Head, Counting, Working, Checking, FinalStatus, FinalListing} {
        LooksHalt(before, now, run, id, last);
      } else if now.w.pc in {FailRunNow, PauseNow, CompleteRunNow} {
        RunCallsHalt(before, now, run, id, last);
      } else {
        StepCallsHalt(before, now, run, id, last);
      }
    }
  }

  /** Once a run is paused, recovered, cancelled, failed or completed, the worker that is at it touches no step any more
      but the one it has in hand, however long it goes on, and sets the run going no more. */
  lemma WorkerHalts(disk: map<Root, TaskManifest.Fs>, trace: seq<Action>, more: seq<Action>)
    requires Possible(disk, trace) && CanPlay(Run(disk, trace), more)
    requires forall k :: 0 <= k < |more| ==> more[k].Work?
    requires Halted(Run(disk, trace).s.db, Run(disk, trace).w.run)
    ensures var (db, w) := (Run(disk, trace).s.db, Run(disk, trace).w);
            var after := Run(disk, trace + more).s.db;
      && Possible(disk, trace + more) && Halted(after, w.run) && after.steps.Keys == db.steps.Keys
      && forall id :: id in db.steps && after.steps[id] != db.steps[id] ==> InHand(w, id)
  {
    var sys := Run(disk, trace);
    TraceGoesOn(disk, trace, more);
    hide Possible, Run, CanPlay, Plays;
    StaysInHand(sys, more);
  }

  lemma StaysInHand(sys: Sys, more: seq<Action>)
    requires Halted(sys.s.db, sys.w.run) && CanPlay(sys, more)
    requires forall k :: 0 <= k < |more| ==> more[k].Work?
    ensures var (db, after) := (sys.s.db, Plays(sys, more).s.db);
      && Halted(after, sys.w.run) && after.steps.Keys == db.steps.Keys
      && forall id :: id in db.steps && after.steps[id] != db.steps[id] ==> InHand(sys.w, id)
  {
    hide Plays, CanPlay;
    var w, db := sys.w, sys.s.db;
    var held := if w.index < |w.listing| then w.listing[w.index].id else "";
    KeepsHalting(db, sys, w.run, held, more);
    forall id | id in db.steps && !InHand(w, id)
      ensures Plays(sys, more).s.db.steps[id] == db.steps[id]
    {
      if id == held {
        OtherThan(id);
        KeepsHalting(db, sys, w.run, id + "x", more);
      }
    }
  }

  lemma OtherThan(id: StepId)
    ensures id + "x" != id
  {
    assert |id + "x"| == |id| + 1;
  }
}
