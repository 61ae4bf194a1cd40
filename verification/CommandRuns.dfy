/** The life of command runs: a process, a timer and a cancel button race to end each of them, while
    its output is kept in a bounded tail. */
module CommandRuns {
  import opened Text

  type RunId = string
  type Pid = nat
  type Time = nat

  const MAX_LOG_CHARS := 1_000_000

  datatype RunState = Running | Completed | Failed | Cancelled

  datatype Status = Status(state: RunState, exitCode: Option<int>, finishedAt: Option<Time>, timedOut: bool,
                           cancelled: bool)

  /** A child process; one that could not be started has no pid. */
  datatype Child = Child(pid: Option<Pid>)

  /** `awaited` tells the call that returns a promise for the final status from the one that returns at
      once; `settled` lists the values the promise was resolved with, `killed` the processes killed. */
  datatype Entry = Entry(status: Status, stdout: string, stderr: string, process: Option<Child>, timer: bool,
                         awaited: bool, settled: seq<Status>, killed: seq<Pid>)

  datatype Event =
    | Stdout(chunk: string)
    | Stderr(chunk: string)
    | SpawnError(note: string, now: Time)
    | Exit(code: Option<int>, now: Time)
    | Timeout(now: Time)
    | Cancel(now: Time)

  const STARTING := Status(Running, None, None, false, false)

  /** The last `MAX_LOG_CHARS` characters, or all where there are no more. */
  function Tail(s: string): (r: string)
    ensures |r| <= MAX_LOG_CHARS
  {
    if |s| <= MAX_LOG_CHARS then s else s[|s| - MAX_LOG_CHARS..]
  }

  /** `finishRun` with its updater applied: nothing happens to a run that is not running. */
  function Finish(e: Entry, status: Status, settles: bool): Entry {
    if !e.status.state.Running? then e
    else e.(status := status, timer := false, process := None,
            settled := if settles && e.awaited then e.settled + [status] else e.settled)
  }

  function Kill(e: Entry): Entry {
    e.(killed := e.killed + PidOf(e.process))
  }

  function PidOf(process: Option<Child>): seq<Pid> {
    if process.Some? && process.value.pid.Some? then [process.value.pid.value] else []
  }

  const TIMEOUT_NOTE := "[TIMEOUT] Command timeout reached.\n"

  function Handle(e: Entry, event: Event): Entry {
    match event
    case Stdout(chunk) => e.(stdout := Tail(e.stdout + chunk))
    case Stderr(chunk) => e.(stderr := Tail(e.stderr + chunk))
    case SpawnError(note, now) =>
      Finish(e.(stderr := e.stderr + note),
             e.status.(state := Failed, exitCode := Some(1), finishedAt := Some(now)), true)
    case Exit(code, now) =>
      var exitCode := if code.Some? then code.value else 1;
      var state :=
        if e.status.cancelled then Cancelled
        else if e.status.timedOut then Failed
        else if exitCode == 0 then Completed else Failed;
      Finish(e, e.status.(state := state, exitCode := Some(exitCode), finishedAt := Some(now)), true)
    case Timeout(now) =>
      if !e.status.state.Running? then e
      else
        Finish(Kill(e.(stderr := e.stderr + TIMEOUT_NOTE)),
               e.status.(state := Failed, timedOut := true, finishedAt := Some(now)), true)
    case Cancel(now) =>
      if !e.status.state.Running? then e
      else Finish(Kill(e), e.status.(state := Cancelled, cancelled := true, finishedAt := Some(now)), false)
  }

  function Run(e: Entry, events: seq<Event>): Entry
    decreases |events|
  {
    if events == [] then e else Run(Handle(e, events[0]), events[1..])
  }

  /** A run right after its process was spawned and its timer set. */
  function Spawned(child: Child, awaited: bool): Entry {
    Entry(STARTING, "", "", Some(child), true, awaited, [], [])
  }

  // How a run ends

  predicate Ends(event: Event) {
    event.SpawnError? || event.Exit? || event.Timeout? || event.Cancel?
  }

  /** The event that ends the run: the first that can. */
  function FirstEnd(events: seq<Event>): Option<Event> {
    if events == [] then None else if Ends(events[0]) then Some(events[0]) else FirstEnd(events[1..])
  }

  /** The status a run must show once `end` has ended it. */
  function Verdict(end: Event): Status
    requires Ends(end)
  {
    match end
    case SpawnError(_, now) => Status(Failed, Some(1), Some(now), false, false)
    case Exit(code, now) => Status(if code == Some(0) then Completed else Failed,
                                   Some(if code.Some? then code.value else 1), Some(now), false, false)
    case Timeout(now) => Status(Failed, None, Some(now), true, false)
    case Cancel(now) => Status(Cancelled, None, Some(now), false, true)
  }

  /** Once left, `running` is left for good: no later event changes the status, the promise, the
      process, the timer or the list of kills. */
  lemma {:induction false} EndedStays(e: Entry, events: seq<Event>)
    requires !e.status.state.Running?
    ensures var after := Run(e, events);
      && after.status == e.status && after.settled == e.settled && after.killed == e.killed
      && after.awaited == e.awaited
      && (e.process == None && !e.timer ==> after.process == None && !after.timer)
    decreases |events|
  {
    hide Tail;
    if events != [] {
      EndedStays(Handle(e, events[0]), events[1..]);
    }
  }

  /** The race is decided by the first ending event alone: it fixes every field of the status, the promise
      is resolved once, with that status, unless the run was cancelled, and a cancelled run's promise is
      never resolved; an ended run holds neither process nor timer; and the process is killed exactly by
      a timeout or a cancel that ended the run. */
  lemma {:induction false} FirstEndDecides(e: Entry, events: seq<Event>)
    requires e.status == STARTING && e.settled == [] && e.killed == [] && e.process.Some? && e.timer
    ensures var after := Run(e, events);
      match FirstEnd(events)
      case None => after.status == STARTING && after.settled == [] && after.killed == []
                   && after.process == e.process && after.timer
      case Some(end) =>
        && Ends(end)
        && after.status == Verdict(end)
        && after.settled == (if e.awaited && !end.Cancel? then [Verdict(end)] else [])
        && after.killed == (if end.Timeout? || end.Cancel? then PidOf(e.process) else [])
        && after.process == None && !after.timer
    decreases |events|
  {
    hide Tail;
    if events != [] {
      var next := Handle(e, events[0]);
      if Ends(events[0]) {
        EndedStays(next, events[1..]);
      } else {
        FirstEndDecides(next, events[1..]);
      }
    }
  }

  // What the logs hold

  function StdoutOf(events: seq<Event>): string {
    if events == [] then ""
    else (if events[0].Stdout? then events[0].chunk else "") + StdoutOf(events[1..])
  }

  lemma TailAbsorbs(a: string, b: string)
    ensures Tail(Tail(a) + b) == Tail(a + b)
  {
  }

  /** The kept output is the tail of everything the process printed, however it was chunked. */
  lemma {:induction false} StdoutIsTheTail(e: Entry, events: seq<Event>, before: string)
    requires e.stdout == Tail(before)
    ensures Run(e, events).stdout == Tail(before + StdoutOf(events))
    decreases |events|
  {
    hide Tail;
    if events == [] {
      assert before + "" == before;
    } else {
      var chunk := if events[0].Stdout? then events[0].chunk else "";
      TailAbsorbs(before, chunk);
      assert before + "" == before;
      StdoutIsTheTail(Handle(e, events[0]), events[1..], before + chunk);
      assert before + chunk + StdoutOf(events[1..]) == before + (chunk + StdoutOf(events[1..]));
    }
  }

  /** Everything written to the error log: chunks, spawn errors, and the note of the timeout that ended the run. */
  function StderrOf(events: seq<Event>, running: bool): string {
    if events == [] then ""
    else Written(events[0], running) + StderrOf(events[1..], running && !Ends(events[0]))
  }

  function Written(event: Event, running: bool): string {
    match event
    case Stderr(chunk) => chunk
    case SpawnError(note, _) => note
    case Timeout(_) => if running then TIMEOUT_NOTE else ""
    case _ => ""
  }

  predicate EndsWith(whole: string, part: string) {
    |part| <= |whole| && whole[|whole| - |part|..] == part
  }

  /** The notes are appended without cutting, so the error log may exceed the bound; it is always a
      suffix of what was written that contains the tail. */
  ghost predicate HoldsTail(kept: string, whole: string) {
    EndsWith(whole, kept) && Tail(kept) == Tail(whole)
  }

  lemma HoldsTailOf(kept: string, whole: string, more: string)
    requires HoldsTail(kept, whole)
    ensures HoldsTail(kept + more, whole + more) && HoldsTail(Tail(kept + more), whole + more)
  {
    var n := |whole| - |kept|;
    assert whole == whole[..n] + kept;
    assert whole + more == whole[..n] + (kept + more);
    TailAbsorbs(kept, more);
    TailAbsorbs(whole, more);
    TailExactly(whole + more);
    TailOfTail(whole + more);
  }

  /** The tail is the last million characters, or all where there are fewer. */
  lemma TailExactly(s: string)
    ensures |Tail(s)| == Min(|s|, 1_000_000) && EndsWith(s, Tail(s))
  {
  }

  lemma TailOfTail(s: string)
    ensures Tail(Tail(s)) == Tail(s)
  {
  }

  lemma StderrNext(e: Entry, event: Event, before: string)
    requires HoldsTail(e.stderr, before)
    ensures var running := e.status.state.Running?;
      && HoldsTail(Handle(e, event).stderr, before + Written(event, running))
      && Handle(e, event).status.state.Running? == (running && !Ends(event))
  {
    hide Tail, HoldsTail;
    HoldsTailOf(e.stderr, before, Written(event, e.status.state.Running?));
    assert e.stderr + "" == e.stderr && before + "" == before;
  }

  lemma {:induction false} StderrHoldsTheTail(e: Entry, events: seq<Event>, before: string)
    requires HoldsTail(e.stderr, before)
    ensures HoldsTail(Run(e, events).stderr, before + StderrOf(events, e.status.state.Running?))
    decreases |events|
  {
    hide Tail, HoldsTail, Handle, Written, Ends;
    if events == [] {
      assert before + "" == before;
    } else {
      var running := e.status.state.Running?;
      var written, rest := Written(events[0], running), StderrOf(events[1..], running && !Ends(events[0]));
      StderrNext(e, events[0], before);
      StderrHoldsTheTail(Handle(e, events[0]), events[1..], before + written);
      Assoc(before, written, rest);
    }
  }

  // The service

  /** One event for one run; events for runs that are not known are dropped. */
  function Dispatch(runs: map<RunId, Entry>, id: RunId, event: Event): map<RunId, Entry> {
    if id in runs then runs[id := Handle(runs[id], event)] else runs
  }

  function DispatchAll(runs: map<RunId, Entry>, events: seq<(RunId, Event)>): map<RunId, Entry>
    decreases |events|
  {
    if events == [] then runs else DispatchAll(Dispatch(runs, events[0].0, events[0].1), events[1..])
  }

  function EventsOf(events: seq<(RunId, Event)>, id: RunId): seq<Event> {
    if events == [] then []
    else (if events[0].0 == id then [events[0].1] else []) + EventsOf(events[1..], id)
  }

  /** However the events of several runs interleave, each run sees only its own. */
  lemma {:induction false} RunsAreIndependent(runs: map<RunId, Entry>, events: seq<(RunId, Event)>, id: RunId)
    requires id in runs
    ensures id in DispatchAll(runs, events)
    ensures DispatchAll(runs, events)[id] == Run(runs[id], EventsOf(events, id))
    decreases |events|
  {
    hide Handle;
    if events != [] {
      RunsAreIndependent(Dispatch(runs, events[0].0, events[0].1), events[1..], id);
      if events[0].0 == id {
        assert EventsOf(events, id)[1..] == EventsOf(events[1..], id);
      } else {
        assert EventsOf(events, id) == EventsOf(events[1..], id);
      }
    }
  }

  class CommandExecutionService {
    var runs: map<RunId, Entry>

    constructor ()
      ensures runs == map[]
    {
      runs := map[];
    }

    /** Starting a run: `child` is absent where spawning throws `note`. */
    method Start(id: RunId, child: Option<Child>, note: string, now: Time, awaited: bool)
      modifies this
      ensures runs == old(runs)[id :=
        if child.Some? then Spawned(child.value, awaited)
        else Entry(Status(Failed, Some(1), Some(now), false, false), "", note, None, false, awaited,
                   if awaited then [Status(Failed, Some(1), Some(now), false, false)] else [], [])]
    {
      var entry := Entry(STARTING, "", "", None, false, awaited, [], []);
      runs := runs[id := entry];
      if child.None? {
        assert entry.stderr + note == note;
        runs := runs[id := entry.(stderr := entry.stderr + note)];
        var failed := STARTING.(state := Failed, exitCode := Some(1), finishedAt := Some(now));
        FinishRun(id, failed, true);
        assert [] + [failed] == [failed];
        assert runs == old(runs)[id := runs[id]];
        return;
      }
      runs := runs[id := entry.(process := child, timer := true)];
    }

    method FinishRun(id: RunId, status: Status, settles: bool)
      modifies this
      ensures runs == if id in old(runs) then old(runs)[id := Finish(old(runs)[id], status, settles)] else old(runs)
    {
      if id !in runs || !runs[id].status.state.Running? {
        assert id in runs ==> runs == runs[id := runs[id]];
        return;
      }
      var entry := runs[id];
      if settles && entry.awaited {
        entry := entry.(settled := entry.settled + [status]);
      }
      runs := runs[id := entry.(status := status, timer := false, process := None)];
    }

    method OnData(id: RunId, event: Event)
      requires event.Stdout? || event.Stderr?
      modifies this
      ensures runs == Dispatch(old(runs), id, event)
    {
      if id !in runs {
        return;
      }
      var entry := runs[id];
      if event.Stdout? {
        runs := runs[id := entry.(stdout := Tail(entry.stdout + event.chunk))];
      } else {
        runs := runs[id := entry.(stderr := Tail(entry.stderr + event.chunk))];
      }
    }

    method OnError(id: RunId, note: string, now: Time)
      modifies this
      ensures runs == Dispatch(old(runs), id, SpawnError(note, now))
    {
      if id !in runs {
        return;
      }
      var status := runs[id].status;
      runs := runs[id := runs[id].(stderr := runs[id].stderr + note)];
      FinishRun(id, status.(state := Failed, exitCode := Some(1), finishedAt := Some(now)), true);
    }

    method OnExit(id: RunId, code: Option<int>, now: Time)
      modifies this
      ensures runs == Dispatch(old(runs), id, Exit(code, now))
    {
      if id !in runs {
        return;
      }
      var status, exitCode := runs[id].status, if code.Some? then code.value else 1;
      var state := Failed;
      if status.cancelled {
        state := Cancelled;
      } else if !status.timedOut && exitCode == 0 {
        state := Completed;
      }
      FinishRun(id, status.(state := state, exitCode := Some(exitCode), finishedAt := Some(now)), true);
    }

    method OnTimeout(id: RunId, now: Time)
      modifies this
      ensures runs == Dispatch(old(runs), id, Timeout(now))
    {
      if id !in runs || !runs[id].status.state.Running? {
        assert id in runs ==> runs == runs[id := runs[id]];
        return;
      }
      var entry := runs[id];
      runs := runs[id := Kill(entry.(stderr := entry.stderr + TIMEOUT_NOTE))];
      FinishRun(id, entry.status.(state := Failed, timedOut := true, finishedAt := Some(now)), true);
    }

    method CancelCommand(id: RunId, now: Time) returns (cancelled: bool)
      modifies this
      ensures runs == Dispatch(old(runs), id, Cancel(now))
      ensures cancelled <==> id in old(runs) && old(runs)[id].status.state.Running?
    {
      if id !in runs || !runs[id].status.state.Running? {
        assert id in runs ==> runs == runs[id := runs[id]];
        return false;
      }
      var status := runs[id].status;
      runs := runs[id := Kill(runs[id])];
      FinishRun(id, status.(state := Cancelled, cancelled := true, finishedAt := Some(now)), false);
      return true;
    }
  }
}
