/** Snapshots of files: taken at the first preview, used by every later diff, and restored by undo. */
module FileChanges {
  import opened Text
  import opened WorkspaceDisk

  /** The time in milliseconds and the file. */
  datatype SnapshotId = SnapshotId(time: Time, path: Path)

  datatype Snapshot = Snapshot(id: SnapshotId, path: Path, content: Option<string>)

  datatype Snapshots = Snapshots(byId: map<SnapshotId, Snapshot>, latest: map<Path, SnapshotId>)

  const NO_SNAPSHOTS := Snapshots(map[], map[])

  function SnapshotOf(s: Snapshots, path: Path): Option<Snapshot> {
    if path in s.latest && s.latest[path] in s.byId then Some(s.byId[s.latest[path]]) else None
  }

  /** The snapshot's text; a file that did not exist counts as empty. */
  function TextOf(snapshot: Snapshot): string {
    if snapshot.content.Some? then snapshot.content.value else ""
  }

  function Take(s: Snapshots, files: Fs, path: Path, now: Time): Snapshots {
    var id := SnapshotId(now, path);
    Snapshots(s.byId[id := Snapshot(id, path, Lookup(files, path))], s.latest[path := id])
  }

  /** A preview takes a snapshot only where none is held. */
  function Preview(s: Snapshots, files: Fs, path: Path, now: Time): Snapshots {
    if SnapshotOf(s, path).Some? then s else Take(s, files, path, now)
  }

  function Forget(s: Snapshots, path: Path): Snapshots {
    match SnapshotOf(s, path)
    case None => s
    case Some(snapshot) => Snapshots(s.byId - {snapshot.id}, s.latest - {path})
  }

  /** Each snapshot is stored under its id, and the latest one of a file is of that file. */
  ghost predicate Coherent(s: Snapshots) {
    && (forall id :: id in s.byId ==> s.byId[id].id == id && s.byId[id].path == id.path)
    && (forall path :: path in s.latest ==> s.latest[path].path == path)
  }

  lemma CoherentAlways(s: Snapshots, files: Fs, path: Path, now: Time)
    requires Coherent(s)
    ensures Coherent(Take(s, files, path, now)) && Coherent(Preview(s, files, path, now)) && Coherent(Forget(s, path))
  {
  }

  // Runs

  /** What happens to files and snapshots: previews, applies that leave the file in some state (the new
      text unless the write failed), edits made elsewhere, explicit snapshots, and undos. */
  datatype Op =
    | Previewed(path: Path, now: Time)
    | Applied(path: Path, left: Option<string>, now: Time)
    | Edited(path: Path, left: Option<string>)
    | Snapped(path: Path, now: Time)
    | Undone(path: Path)

  datatype World = World(files: Fs, snapshots: Snapshots)

  function Step(w: World, op: Op): World {
    match op
    case Previewed(path, now) => w.(snapshots := Preview(w.snapshots, w.files, path, now))
    case Applied(path, left, now) =>
      World(Put(w.files, path, left), Preview(w.snapshots, w.files, path, now))
    case Edited(path, left) => w.(files := Put(w.files, path, left))
    case Snapped(path, now) => w.(snapshots := Take(w.snapshots, w.files, path, now))
    case Undone(path) =>
      World(
        (match SnapshotOf(w.snapshots, path)
         case None => w.files
         case Some(snapshot) => Put(w.files, path, snapshot.content)),
        Forget(w.snapshots, path))
  }

  function Run(w: World, ops: seq<Op>): World {
    if ops == [] then w else Step(Run(w, Front(ops)), Last(ops))
  }

  /** What one operation makes of the state an undo of `path` must bring back: an explicit snapshot sets it,
      a preview or apply sets it where there is none, an undo uses it up. */
  function HeldAfter(held: Option<Option<string>>, current: Option<string>, op: Op, path: Path)
    : Option<Option<string>>
  {
    if op.path != path || op.Edited? then held
    else if op.Snapped? then Some(current)
    else if op.Undone? then None
    else if held.Some? then held
    else Some(current)
  }

  /** The state of the file that an undo must bring back after `ops`: the one at the last explicit snapshot
      since the last undo, or, where there was none, at the first preview or apply since then. */
  function Baseline(w: World, ops: seq<Op>, path: Path): Option<Option<string>> {
    if ops == [] then None
    else HeldAfter(Baseline(w, Front(ops), path), Lookup(Run(w, Front(ops)).files, path), Last(ops), path)
  }

  function ContentHeld(s: Snapshots, path: Path): Option<Option<string>> {
    match SnapshotOf(s, path)
    case None => None
    case Some(snapshot) => Some(snapshot.content)
  }

  lemma TakeHolds(s: Snapshots, files: Fs, taken: Path, now: Time, path: Path)
    requires Coherent(s)
    ensures ContentHeld(Take(s, files, taken, now), path)
         == if taken == path then Some(Lookup(files, path)) else ContentHeld(s, path)
  {
  }

  lemma ForgetHolds(s: Snapshots, forgotten: Path, path: Path)
    requires Coherent(s)
    ensures ContentHeld(Forget(s, forgotten), path) == if forgotten == path then None else ContentHeld(s, path)
  {
  }

  lemma StepHolds(w: World, op: Op, path: Path)
    requires Coherent(w.snapshots)
    ensures Coherent(Step(w, op).snapshots)
    ensures ContentHeld(Step(w, op).snapshots, path)
         == HeldAfter(ContentHeld(w.snapshots, path), Lookup(w.files, path), op, path)
  {
    hide Take, Forget, Coherent;
    match op
    case Undone(other) =>
      CoherentAlways(w.snapshots, w.files, other, 0);
      ForgetHolds(w.snapshots, other, path);
    case Edited(_, _) =>
    case Previewed(other, now) =>
      CoherentAlways(w.snapshots, w.files, other, now);
      TakeHolds(w.snapshots, w.files, other, now, path);
    case Applied(other, _, now) =>
      CoherentAlways(w.snapshots, w.files, other, now);
      TakeHolds(w.snapshots, w.files, other, now, path);
    case Snapped(other, now) =>
      CoherentAlways(w.snapshots, w.files, other, now);
      TakeHolds(w.snapshots, w.files, other, now, path);
  }

  /** After any run the snapshot held for a file is its baseline. */
  lemma {:induction false} HeldIsBaseline(w: World, ops: seq<Op>, path: Path)
    requires w.snapshots == NO_SNAPSHOTS
    ensures Coherent(Run(w, ops).snapshots)
    ensures ContentHeld(Run(w, ops).snapshots, path) == Baseline(w, ops, path)
  {
    hide Step;
    if ops != [] {
      hide ContentHeld, Coherent;
      HeldIsBaseline(w, Front(ops), path);
      StepHolds(Run(w, Front(ops)), Last(ops), path);
    }
  }

  /** After any run an undo brings exactly the baseline back, whatever the other files saw. */
  lemma UndoRestoresBaseline(w: World, ops: seq<Op>, path: Path)
    requires w.snapshots == NO_SNAPSHOTS
    ensures var now := Run(w, ops).files;
      Step(Run(w, ops), Undone(path)).files
        == (match Baseline(w, ops, path) case None => now case Some(content) => Put(now, path, content))
  {
    hide Run, Baseline;
    HeldIsBaseline(w, ops, path);
  }

  /** Previewing, applying and editing, as often as one likes, never moves the baseline set by the first
      preview: undo goes back to the file as it was then. */
  lemma {:induction false} UndoReturnsToFirstPreview(w: World, before: seq<Op>, path: Path, now: Time, later: seq<Op>)
    requires w.snapshots == NO_SNAPSHOTS && Baseline(w, before, path).None?
    requires forall k :: 0 <= k < |later| && later[k].path == path ==> !later[k].Snapped? && !later[k].Undone?
    ensures var ops := before + [Previewed(path, now)] + later;
      Lookup(Step(Run(w, ops), Undone(path)).files, path) == Lookup(Run(w, before).files, path)
  {
    BaselineStays(w, before, path, now, later);
    UndoRestoresBaseline(w, before + [Previewed(path, now)] + later, path);
  }

  lemma FrontOfSum(a: seq<Op>, b: seq<Op>)
    requires b != []
    ensures Front(a + b) == a + Front(b) && Last(a + b) == Last(b)
  {
  }

  lemma {:induction false} BaselineStays(w: World, before: seq<Op>, path: Path, now: Time, later: seq<Op>)
    requires Baseline(w, before, path).None?
    requires forall k :: 0 <= k < |later| && later[k].path == path ==> !later[k].Snapped? && !later[k].Undone?
    ensures Baseline(w, before + [Previewed(path, now)] + later, path) == Some(Lookup(Run(w, before).files, path))
  {
    var first := before + [Previewed(path, now)];
    if later == [] {
      assert first + later == first && Front(first) == before;
    } else {
      BaselineStays(w, before, path, now, Front(later));
      hide Run;
      FrontOfSum(first, later);
    }
  }

  // Which snapshot is held

  /** When the snapshot of the file was taken. */
  function HeldTime(s: Snapshots, path: Path): Option<Time> {
    match SnapshotOf(s, path)
    case None => None
    case Some(snapshot) => Some(snapshot.id.time)
  }

  lemma HeldId(s: Snapshots, path: Path)
    requires Coherent(s) && SnapshotOf(s, path).Some?
    ensures SnapshotOf(s, path).value.id == SnapshotId(HeldTime(s, path).value, path)
  {
  }

  /** The same told from the operations alone: an explicit snapshot takes a new one, a preview or apply only where
      there is none, and an undo uses it up. */
  function TakenAt(ops: seq<Op>, path: Path, start: Option<Time>): Option<Time> {
    if ops == [] then start
    else
      var before, op := TakenAt(Front(ops), path, start), Last(ops);
      if op.path != path || op.Edited? then before
      else if op.Undone? then None
      else if op.Snapped? || before.None? then Some(op.now)
      else before
  }

  lemma StepTime(w: World, op: Op, path: Path)
    requires Coherent(w.snapshots)
    ensures Coherent(Step(w, op).snapshots)
    ensures HeldTime(Step(w, op).snapshots, path) == TakenAt([op], path, HeldTime(w.snapshots, path))
  {
    assert Front([op]) == [];
    StepHolds(w, op, path);
  }

  lemma {:induction false} HeldSince(w: World, ops: seq<Op>, path: Path)
    requires Coherent(w.snapshots)
    ensures Coherent(Run(w, ops).snapshots)
    ensures HeldTime(Run(w, ops).snapshots, path) == TakenAt(ops, path, HeldTime(w.snapshots, path))
  {
    if ops != [] {
      hide Step, Coherent, HeldTime;
      HeldSince(w, Front(ops), path);
      StepTime(Run(w, Front(ops)), Last(ops), path);
      assert Front([Last(ops)]) == [];
    }
  }

  /** The operation replaces or uses up the snapshot of the file. */
  predicate Retakes(op: Op, path: Path) {
    op.path == path && (op.Snapped? || op.Undone?)
  }

  predicate TakenAtOther(op: Op, time: Time) {
    op.Edited? || op.Undone? || op.now != time
  }

  /** Previews, applies and edits keep the snapshot. */
  lemma {:induction false} SnapshotStays(ops: seq<Op>, path: Path, time: Time)
    requires forall k :: 0 <= k < |ops| ==> !Retakes(ops[k], path)
    ensures TakenAt(ops, path, Some(time)) == Some(time)
  {
    if ops != [] {
      assert forall k :: 0 <= k < |ops| - 1 ==> Front(ops)[k] == ops[k];
      SnapshotStays(Front(ops), path, time);
      assert !Retakes(ops[|ops| - 1], path);
    }
  }

  /** Once it was replaced or used up it does not come back, unless the clock shows the same millisecond again. */
  lemma {:induction false} SnapshotStaysExactly(ops: seq<Op>, path: Path, time: Time)
    requires forall k :: 0 <= k < |ops| ==> TakenAtOther(ops[k], time)
    ensures TakenAt(ops, path, Some(time)) == Some(time) <==> forall k :: 0 <= k < |ops| ==> !Retakes(ops[k], path)
  {
    if ops != [] {
      assert forall k :: 0 <= k < |ops| - 1 ==> Front(ops)[k] == ops[k];
      SnapshotStaysExactly(Front(ops), path, time);
      assert TakenAtOther(ops[|ops| - 1], time);
      if forall k :: 0 <= k < |ops| ==> !Retakes(ops[k], path) {
        assert !Retakes(ops[|ops| - 1], path);
      }
    }
  }
}
