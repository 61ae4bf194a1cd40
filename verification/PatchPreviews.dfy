/** Previews of patches: what they show, the snapshots they take, and the version an approval names. */
module PatchPreviews {
  import opened Text
  import opened WorkspaceDisk
  import opened PatchProposals
  import FileChanges
  import TextDiff

  datatype FilePreview = FilePreview(changeId: string, filePath: string, snapshotId: FileChanges.SnapshotId,
                                     beforeContent: string, afterContent: string, diff: string)

  /** What an approval names: the proposal, its time and the snapshots, but not the proposed texts. */
  datatype Version = Version(proposalId: string, createdAt: string, snapshotIds: seq<FileChanges.SnapshotId>)

  function VersionOf(proposal: Proposal, previews: seq<FilePreview>): Version {
    Version(proposal.id, proposal.createdAt, seq(|previews|, k requires 0 <= k < |previews| => previews[k].snapshotId))
  }

  // What a preview shows

  /** What a preview shows of a change, and what it found on disk. */
  ghost predicate ShownOne(change: Change, preview: FilePreview, held: FileChanges.Snapshots, files: Fs) {
    var snapshot := FileChanges.SnapshotOf(held, Target(change));
    && preview.changeId == change.id && preview.filePath == change.filePath
    && snapshot.Some? && preview.snapshotId == snapshot.value.id
    && preview.beforeContent == FileChanges.TextOf(snapshot.value)
    && preview.afterContent == (if change.changeType.Delete? then "" else TextOf(change))
    && preview.diff == TextDiff.Diff(preview.beforeContent, preview.afterContent)
    && (!change.changeType.Create? ==> Target(change) in files)
    && (Target(change) in files ==> '\0' !in files[Target(change)])
  }

  ghost predicate Shown(changes: seq<Change>, previews: seq<FilePreview>, held: FileChanges.Snapshots, files: Fs) {
    && |previews| == |changes|
    && forall k :: 0 <= k < |changes| ==> ShownOne(changes[k], previews[k], held, files)
  }

  lemma PreviewKeepsOthers(held: FileChanges.Snapshots, files: Fs, path: Path, now: Time, other: Path)
    requires FileChanges.Coherent(held) && FileChanges.SnapshotOf(held, other).Some?
    ensures FileChanges.SnapshotOf(FileChanges.Preview(held, files, path, now), other)
         == FileChanges.SnapshotOf(held, other)
  {
  }

  lemma ShownNext(changes: seq<Change>, previews: seq<FilePreview>, held: FileChanges.Snapshots,
                  next: FileChanges.Snapshots, files: Fs, change: Change, preview: FilePreview, now: Time)
    requires FileChanges.Coherent(held) && Shown(changes, previews, held, files)
    requires ShownOne(change, preview, next, files)
    requires next == FileChanges.Preview(held, files, Target(change), now)
    ensures Shown(changes + [change], previews + [preview], next, files)
  {
    hide FileChanges.Preview, FileChanges.SnapshotOf, Target, FileChanges.Coherent;
    forall k | 0 <= k < |changes|
      ensures ShownOne(changes[k], previews[k], next, files)
    {
      assert ShownOne(changes[k], previews[k], held, files);
      PreviewKeepsOthers(held, files, Target(change), now, Target(changes[k]));
    }
  }

  // Versions

  function HeldIdOf(held: FileChanges.Snapshots, path: Path): FileChanges.SnapshotId {
    var snapshot := FileChanges.SnapshotOf(held, path);
    if snapshot.Some? then snapshot.value.id else FileChanges.SnapshotId(0, path)
  }

  /** The version of a preview is the proposal's id and time, and the snapshots held for its targets. */
  function HeldVersion(proposal: Proposal, held: FileChanges.Snapshots): Version {
    Version(proposal.id, proposal.createdAt,
            seq(|proposal.changes|, k requires 0 <= k < |proposal.changes| =>
              HeldIdOf(held, Target(proposal.changes[k]))))
  }

  lemma VersionIsHeld(proposal: Proposal, previews: seq<FilePreview>, held: FileChanges.Snapshots, files: Fs)
    requires Shown(proposal.changes, previews, held, files)
    ensures VersionOf(proposal, previews) == HeldVersion(proposal, held)
  {
    hide Target, FileChanges.SnapshotOf;
    var a, b := VersionOf(proposal, previews).snapshotIds, HeldVersion(proposal, held).snapshotIds;
    forall k | 0 <= k < |previews|
      ensures a[k] == b[k]
    {
      assert ShownOne(proposal.changes[k], previews[k], held, files);
    }
    assert a == b;
  }

  /** The snapshots after previewing the changes one by one, at the given times. */
  function PreviewAll(held: FileChanges.Snapshots, files: Fs, changes: seq<Change>, times: seq<Time>)
    : FileChanges.Snapshots
    decreases |changes|
  {
    if changes == [] || times == [] then held
    else
      FileChanges.Preview(PreviewAll(held, files, Front(changes), Front(times)), files,
                          Target(Last(changes)), Last(times))
  }

  lemma PreviewAllNext(held: FileChanges.Snapshots, files: Fs, changes: seq<Change>, times: seq<Time>, change: Change,
                       now: Time)
    requires |times| == |changes|
    ensures PreviewAll(held, files, changes + [change], times + [now])
         == FileChanges.Preview(PreviewAll(held, files, changes, times), files, Target(change), now)
  {
    hide FileChanges.Preview, Target;
    assert Front(changes + [change]) == changes && Front(times + [now]) == times;
  }

  lemma NothingPreviewed(held: FileChanges.Snapshots, files: Fs, none: seq<Change>)
    requires none == []
    ensures PreviewAll(held, files, none, []) == held && Shown(none, [], held, files)
  {
  }

  predicate SameTargets(a: seq<Change>, b: seq<Change>) {
    |a| == |b| && forall k :: 0 <= k < |a| ==> Target(a[k]) == Target(b[k])
  }

  ghost predicate AllHeld(changes: seq<Change>, held: FileChanges.Snapshots) {
    forall k :: 0 <= k < |changes| ==> FileChanges.SnapshotOf(held, Target(changes[k])).Some?
  }

  lemma ShownHeld(changes: seq<Change>, previews: seq<FilePreview>, held: FileChanges.Snapshots, files: Fs)
    requires Shown(changes, previews, held, files)
    ensures AllHeld(changes, held)
  {
    hide Target, FileChanges.SnapshotOf;
    forall k | 0 <= k < |changes|
      ensures FileChanges.SnapshotOf(held, Target(changes[k])).Some?
    {
      assert ShownOne(changes[k], previews[k], held, files);
    }
  }

  /** The operations of a preview as the snapshots see them. */
  function PreviewOps(changes: seq<Change>, times: seq<Time>): (ops: seq<FileChanges.Op>)
    requires |times| == |changes|
    ensures |ops| == |changes|
  {
    seq(|changes|, k requires 0 <= k < |changes| => FileChanges.Previewed(Target(changes[k]), times[k]))
  }

  lemma {:induction false} PreviewAllRuns(w: FileChanges.World, changes: seq<Change>, times: seq<Time>)
    requires |times| == |changes|
    ensures FileChanges.Run(w, PreviewOps(changes, times))
         == FileChanges.World(w.files, PreviewAll(w.snapshots, w.files, changes, times))
    decreases |changes|
  {
    hide FileChanges.Preview, Target;
    if changes != [] {
      PreviewAllRuns(w, Front(changes), Front(times));
      assert Front(PreviewOps(changes, times)) == PreviewOps(Front(changes), Front(times));
    }
  }

  lemma {:induction false} RunThen(w: FileChanges.World, a: seq<FileChanges.Op>, b: seq<FileChanges.Op>)
    ensures FileChanges.Run(w, a + b) == FileChanges.Run(FileChanges.Run(w, a), b)
    decreases |b|
  {
    hide FileChanges.Step;
    if b == [] {
      assert a + b == a;
    } else {
      RunThen(w, a, Front(b));
      FileChanges.FrontOfSum(a, b);
    }
  }

  lemma SameIdExactly(before: FileChanges.Snapshots, after: FileChanges.Snapshots, path: Path)
    requires FileChanges.Coherent(before) && FileChanges.Coherent(after)
    requires FileChanges.SnapshotOf(before, path).Some? && FileChanges.SnapshotOf(after, path).Some?
    ensures HeldIdOf(before, path) == HeldIdOf(after, path) <==>
      FileChanges.HeldTime(after, path) == FileChanges.HeldTime(before, path)
  {
    FileChanges.HeldId(before, path);
    FileChanges.HeldId(after, path);
  }

  lemma {:induction false} PreviewHolds(held: FileChanges.Snapshots, files: Fs, changes: seq<Change>, times: seq<Time>)
    requires FileChanges.Coherent(held) && |times| == |changes|
    ensures FileChanges.Coherent(PreviewAll(held, files, changes, times))
    ensures AllHeld(changes, PreviewAll(held, files, changes, times))
    decreases |changes|
  {
    if changes != [] {
      var before := PreviewAll(held, files, Front(changes), Front(times));
      PreviewHolds(held, files, Front(changes), Front(times));
      FileChanges.CoherentAlways(before, files, Target(Last(changes)), Last(times));
      hide Target, FileChanges.Coherent, FileChanges.Preview, AllHeld;
      HeldNext(before, files, changes, Last(times));
    }
  }

  lemma HeldNext(before: FileChanges.Snapshots, files: Fs, changes: seq<Change>, now: Time)
    requires changes != [] && FileChanges.Coherent(before) && AllHeld(Front(changes), before)
    ensures AllHeld(changes, FileChanges.Preview(before, files, Target(Last(changes)), now))
  {
    hide Target, FileChanges.Coherent, FileChanges.Preview, FileChanges.SnapshotOf;
    var last := Target(Last(changes));
    forall k | 0 <= k < |changes|
      ensures FileChanges.SnapshotOf(FileChanges.Preview(before, files, last, now), Target(changes[k])).Some?
    {
      if k < |changes| - 1 {
        assert Front(changes)[k] == changes[k];
        PreviewKeepsOthers(before, files, last, now, Target(changes[k]));
      } else {
        PreviewTakes(before, files, last, now);
      }
    }
  }

  lemma PreviewTakes(held: FileChanges.Snapshots, files: Fs, path: Path, now: Time)
    ensures FileChanges.SnapshotOf(FileChanges.Preview(held, files, path, now), path).Some?
  {
  }

  /** When the version of an earlier preview is still the current one, whatever happened in between and whatever texts
      the later preview has: exactly when id and time of the proposal and the targets are the same, and each target's
      snapshot, told from the operations in between and the later preview, is still the one taken before. */
  lemma SameVersionExactly(first: Proposal, second: Proposal, w: FileChanges.World, between: seq<FileChanges.Op>,
                           times: seq<Time>)
    requires FileChanges.Coherent(w.snapshots) && AllHeld(first.changes, w.snapshots) && |times| == |second.changes|
    requires SameTargets(first.changes, second.changes)
    ensures var later := FileChanges.Run(w, between);
            var held := PreviewAll(later.snapshots, later.files, second.changes, times);
            var ops := between + PreviewOps(second.changes, times);
      HeldVersion(second, held) == HeldVersion(first, w.snapshots) <==>
        && second.id == first.id && second.createdAt == first.createdAt
        && forall k :: 0 <= k < |first.changes| ==> Unmoved(ops, Target(first.changes[k]), w.snapshots)
  {
    hide Target, FileChanges.Coherent, FileChanges.SnapshotOf, FileChanges.HeldTime, FileChanges.TakenAt, HeldIdOf;
    var later := FileChanges.Run(w, between);
    var held := PreviewAll(later.snapshots, later.files, second.changes, times);
    var ops := between + PreviewOps(second.changes, times);
    PreviewAllRuns(later, second.changes, times);
    RunThen(w, between, PreviewOps(second.changes, times));
    LaterCoherent(w, between);
    PreviewHolds(later.snapshots, later.files, second.changes, times);
    forall k | 0 <= k < |first.changes|
      ensures HeldIdOf(held, Target(first.changes[k])) == HeldIdOf(w.snapshots, Target(first.changes[k]))
         <==> Unmoved(ops, Target(first.changes[k]), w.snapshots)
    {
      var path := Target(first.changes[k]);
      assert path == Target(second.changes[k]);
      FileChanges.HeldSince(w, ops, path);
      SameIdExactly(w.snapshots, held, path);
    }
    VersionsBySnapshots(first, second, w.snapshots, held);
  }

  /** The snapshot of the file is still the one held at the start. */
  predicate Unmoved(ops: seq<FileChanges.Op>, path: Path, held: FileChanges.Snapshots) {
    FileChanges.TakenAt(ops, path, FileChanges.HeldTime(held, path)) == FileChanges.HeldTime(held, path)
  }

  lemma LaterCoherent(w: FileChanges.World, ops: seq<FileChanges.Op>)
    requires FileChanges.Coherent(w.snapshots)
    ensures FileChanges.Coherent(FileChanges.Run(w, ops).snapshots)
  {
    FileChanges.HeldSince(w, ops, "");
  }

  lemma VersionsBySnapshots(first: Proposal, second: Proposal, before: FileChanges.Snapshots,
                            after: FileChanges.Snapshots)
    requires SameTargets(first.changes, second.changes)
    ensures HeldVersion(second, after) == HeldVersion(first, before) <==>
      && second.id == first.id && second.createdAt == first.createdAt
      && forall k :: 0 <= k < |first.changes| ==>
           HeldIdOf(after, Target(first.changes[k])) == HeldIdOf(before, Target(first.changes[k]))
  {
    hide Target, HeldIdOf;
    var a, b := HeldVersion(first, before).snapshotIds, HeldVersion(second, after).snapshotIds;
    assert forall k :: 0 <= k < |a| ==> a[k] == HeldIdOf(before, Target(first.changes[k]));
    assert forall k :: 0 <= k < |b| ==> b[k] == HeldIdOf(after, Target(second.changes[k]));
    if forall k :: 0 <= k < |first.changes| ==>
         HeldIdOf(after, Target(first.changes[k])) == HeldIdOf(before, Target(first.changes[k])) {
      assert a == b;
    }
  }

  /** With no explicit snapshot and no undo of a target in between the versions are the same, so that an approval of
      the earlier preview passes for the later one. */
  lemma StaleVersionPasses(first: Proposal, second: Proposal, w: FileChanges.World, between: seq<FileChanges.Op>,
                           times: seq<Time>)
    requires FileChanges.Coherent(w.snapshots) && AllHeld(first.changes, w.snapshots) && |times| == |second.changes|
    requires SameTargets(first.changes, second.changes) && second.id == first.id && second.createdAt == first.createdAt
    requires forall j, k :: 0 <= j < |between| && 0 <= k < |first.changes| ==>
      !FileChanges.Retakes(between[j], Target(first.changes[k]))
    ensures var later := FileChanges.Run(w, between);
      HeldVersion(second, PreviewAll(later.snapshots, later.files, second.changes, times))
        == HeldVersion(first, w.snapshots)
  {
    var ops := between + PreviewOps(second.changes, times);
    SameVersionExactly(first, second, w, between, times);
    hide Target, PreviewAll, PreviewOps, FileChanges.Coherent, FileChanges.Run, HeldVersion, Unmoved, SameTargets;
    forall k | 0 <= k < |first.changes|
      ensures Unmoved(ops, Target(first.changes[k]), w.snapshots)
    {
      StaysUnmoved(between, second.changes, times, Target(first.changes[k]), w.snapshots);
    }
  }

  lemma StaysUnmoved(between: seq<FileChanges.Op>, changes: seq<Change>, times: seq<Time>, path: Path,
                     held: FileChanges.Snapshots)
    requires |times| == |changes| && FileChanges.SnapshotOf(held, path).Some?
    requires forall j :: 0 <= j < |between| ==> !FileChanges.Retakes(between[j], path)
    ensures Unmoved(between + PreviewOps(changes, times), path, held)
  {
    hide Target;
    var ops := between + PreviewOps(changes, times);
    forall j | 0 <= j < |ops|
      ensures !FileChanges.Retakes(ops[j], path)
    {
      if j < |between| {
        assert ops[j] == between[j];
      } else {
        assert ops[j] == PreviewOps(changes, times)[j - |between|];
      }
    }
    FileChanges.SnapshotStays(ops, path, FileChanges.HeldTime(held, path).value);
  }

  /** And when the clock never shows the time of an old snapshot again, that is the only way. */
  lemma StaleVersionExactly(first: Proposal, second: Proposal, w: FileChanges.World, between: seq<FileChanges.Op>,
                            times: seq<Time>)
    requires FileChanges.Coherent(w.snapshots) && AllHeld(first.changes, w.snapshots) && |times| == |second.changes|
    requires SameTargets(first.changes, second.changes) && second.id == first.id && second.createdAt == first.createdAt
    requires forall j, k :: 0 <= j < |between| && 0 <= k < |first.changes| ==>
      FileChanges.TakenAtOther(between[j], HeldIdOf(w.snapshots, Target(first.changes[k])).time)
    requires forall j, k :: 0 <= j < |times| && 0 <= k < |first.changes| ==>
      times[j] != HeldIdOf(w.snapshots, Target(first.changes[k])).time
    ensures var later := FileChanges.Run(w, between);
      HeldVersion(second, PreviewAll(later.snapshots, later.files, second.changes, times))
        == HeldVersion(first, w.snapshots) <==>
      forall j, k :: 0 <= j < |between| && 0 <= k < |first.changes| ==>
        !FileChanges.Retakes(between[j], Target(first.changes[k]))
  {
    var ops := between + PreviewOps(second.changes, times);
    SameVersionExactly(first, second, w, between, times);
    hide Target, PreviewAll, FileChanges.Coherent, FileChanges.Run, HeldVersion;
    forall k | 0 <= k < |first.changes|
      ensures Unmoved(ops, Target(first.changes[k]), w.snapshots) <==>
        forall j :: 0 <= j < |between| ==> !FileChanges.Retakes(between[j], Target(first.changes[k]))
    {
      UnmovedExactly(between, second.changes, times, Target(first.changes[k]), w.snapshots);
    }
  }

  lemma UnmovedExactly(between: seq<FileChanges.Op>, changes: seq<Change>, times: seq<Time>, path: Path,
                       held: FileChanges.Snapshots)
    requires |times| == |changes| && FileChanges.SnapshotOf(held, path).Some?
    requires forall j :: 0 <= j < |between| ==> FileChanges.TakenAtOther(between[j], HeldIdOf(held, path).time)
    requires forall j :: 0 <= j < |times| ==> times[j] != HeldIdOf(held, path).time
    ensures Unmoved(between + PreviewOps(changes, times), path, held) <==>
      forall j :: 0 <= j < |between| ==> !FileChanges.Retakes(between[j], path)
  {
    hide Target;
    var previews := PreviewOps(changes, times);
    var ops := between + previews;
    assert forall j :: 0 <= j < |between| ==> ops[j] == between[j];
    assert forall j :: |between| <= j < |ops| ==> ops[j] == previews[j - |between|];
    FileChanges.SnapshotStaysExactly(ops, path, HeldIdOf(held, path).time);
    if forall j :: 0 <= j < |between| ==> !FileChanges.Retakes(between[j], path) {
      forall j | 0 <= j < |ops|
        ensures !FileChanges.Retakes(ops[j], path)
      {
      }
    } else {
      var j :| 0 <= j < |between| && FileChanges.Retakes(between[j], path);
      assert FileChanges.Retakes(ops[j], path);
    }
  }

  /** Two proposals under one id and time for the same files. */
  predicate SameButTexts(first: Proposal, second: Proposal) {
    && second.id == first.id && second.createdAt == first.createdAt
    && SameTargets(NormalChanges(first.changes), NormalChanges(second.changes))
  }

  lemma AcceptedAlike(first: Proposal, second: Proposal, a: Proposal, b: Proposal, limits: Limits)
    requires SameButTexts(first, second)
    requires Validated(first, limits.maxFilesChanged, limits.maxPatchSize) == Accepted(a)
    requires Validated(second, limits.maxFilesChanged, limits.maxPatchSize) == Accepted(b)
    ensures a.id == first.id == b.id == second.id && b.createdAt == a.createdAt && SameTargets(a.changes, b.changes)
  {
    hide SameTargets, FirstError, TotalSize;
  }

  lemma VersionStays(first: Proposal, second: Proposal, held: FileChanges.Snapshots, files: Fs, times: seq<Time>)
    requires FileChanges.Coherent(held) && AllHeld(first.changes, held) && |times| == |second.changes|
    requires SameTargets(first.changes, second.changes) && second.id == first.id && second.createdAt == first.createdAt
    ensures HeldVersion(second, PreviewAll(held, files, second.changes, times)) == HeldVersion(first, held)
  {
    var w := FileChanges.World(files, held);
    assert FileChanges.Run(w, []) == w;
    StaleVersionPasses(first, second, w, [], times);
  }
}
