/** The file change service and the pipeline on top of it: a change is applied with a restore point of
    its own and counts only when the text reads back. */
module FileChangeService {
  import opened Text
  import Calls
  import opened WorkspaceDisk
  import opened RestorePoints
  import opened RestoreTrace
  import opened FileChanges
  import RestorePointService
  import TextDiff

  datatype DiffView = DiffView(snapshotId: SnapshotId, beforeContent: string, afterContent: string, diff: string)

  datatype Undo = Undo(file: Option<string>)

  class FileChangeService {
    const disk: Disk
    const restorePoints: RestorePointService.RestorePointService
    var snapshotsById: map<SnapshotId, Snapshot>
    var latestByFile: map<Path, SnapshotId>

    function Held(): Snapshots
      reads this
    {
      Snapshots(snapshotsById, latestByFile)
    }

    ghost predicate Valid()
      reads this, disk
    {
      disk.Valid() && restorePoints.disk == disk && Coherent(Held())
    }

    constructor (restorePoints: RestorePointService.RestorePointService)
      requires restorePoints.disk.Valid()
      ensures Valid() && this.restorePoints == restorePoints && Held() == NO_SNAPSHOTS
    {
      disk := restorePoints.disk;
      this.restorePoints := restorePoints;
      snapshotsById, latestByFile := map[], map[];
    }

    method CreateSnapshot(path: Path) returns (r: Option<SnapshotId>)
      requires Valid()
      modifies this, disk`log
      ensures Valid() && OnlyQuiet(old(disk.log), disk.log)
      ensures r.Some? <==> disk.AllWork(|old(disk.log)|)
      ensures if r.None? then Held() == old(Held())
              else r.value.path == path && Held() == Take(old(Held()), disk.files, path, r.value.time)
    {
      hide FreshFrom;
      ghost var from := |disk.log|;
      var now := disk.Now();
      var read := disk.ReadFile(path);
      assert disk.log[from] == Reads(path);
      if read.ReadFails? {
        return None;
      }
      var id := SnapshotId(now, path);
      CoherentAlways(Held(), disk.files, path, now);
      snapshotsById := snapshotsById[id := Snapshot(id, path, if read.Content? then Some(read.text) else None)];
      latestByFile := latestByFile[path := id];
      return Some(id);
    }

    /** A preview: the diff is taken against the snapshot, not against what the file holds now. */
    method CreateDiff(path: Path, proposed: string) returns (r: Option<DiffView>)
      requires Valid()
      modifies this, disk`log
      ensures Valid() && OnlyQuiet(old(disk.log), disk.log)
      ensures r.Some? <==> disk.AllWork(|old(disk.log)|)
      ensures if r.None? then Held() == old(Held())
              else
                && Held() == Preview(old(Held()), disk.files, path, r.value.snapshotId.time)
                && SnapshotOf(Held(), path).Some?
                && var snapshot := SnapshotOf(Held(), path).value;
                && r.value.snapshotId == snapshot.id
                && r.value.beforeContent == (if snapshot.content.Some? then snapshot.content.value else "")
                && r.value.beforeContent == TextOf(snapshot) && r.value.afterContent == proposed
                && r.value.diff == TextDiff.Diff(TextOf(snapshot), proposed)
    {
      hide FreshFrom;
      if SnapshotOf(Held(), path).None? {
        var id := CreateSnapshot(path);
        if id.None? {
          return None;
        }
      }
      var snapshot := SnapshotOf(Held(), path).value;
      var diff := TextDiff.CreateTextDiff(TextOf(snapshot), proposed);
      return Some(DiffView(snapshot.id, TextOf(snapshot), proposed, diff));
    }

    /** There is a snapshot of the file: the one named, or its latest. */
    predicate Matches(snapshotId: Option<SnapshotId>, path: Path)
      reads this
    {
      if snapshotId.Some? then snapshotId.value in snapshotsById && snapshotId.value.path == path
      else SnapshotOf(Held(), path).Some?
    }

    /** Applies a change to the file of a snapshot. On success the file holds the text, nothing else changed,
        and a point of the file as it was is first in the store; on any failure at most this file and the
        store have changed, the file by no more than one write of the text. */
    method ApplyChange(path: Path, proposed: string, snapshotId: Option<SnapshotId>) returns (r: Option<Point>)
      requires Valid()
      modifies disk
      ensures Valid() && disk.minted >= old(disk.minted) && old(disk.log) <= disk.log
      ensures disk.AllWork(|old(disk.log)|) && Matches(snapshotId, path) && Trim(path) != "" ==> r.Some?
      ensures AgreeOutside(disk.files, old(disk.files), {path})
      ensures RestorePointService.Moves(old(disk.Shelf()), disk.Shelf(), old(disk.minted), 1, restorePoints.max)
      ensures r.Some? ==>
        && disk.files == Put(old(disk.files), path, Some(proposed))
        && r.value.files == Capture(old(disk.files), Resolved(Unique([path])))
        && disk.Shelf() == Created(old(disk.Shelf()), r.value, restorePoints.max)
      ensures !Matches(snapshotId, path) ==> r.None? && disk.files == old(disk.files)
      ensures OnlyOn(old(disk.log), disk.log, {path})
      ensures AtMostOnce(old(disk.log), disk.log, Writes(path, proposed))
    {
      UniqueOne(path);
      hide FreshFrom, RestorePointService.Moves, RestorePointService.Safe, Created, Unique, OnlyQuiet, Calls.AllWork;
      hide OnlyOn, AtMostOnce, Unaltered, Capture, Resolved, Resolve, Trim;
      ghost var shelf, bound, start, call := disk.Shelf(), disk.minted, disk.log, Writes(path, proposed);
      OnStart(start, {path});
      QuietStart(disk.fates, start);
      OnceQuiet(start, start, call);
      Untouched(shelf, bound, restorePoints.max);
      var snapshot :=
        if snapshotId.None? then SnapshotOf(Held(), path)
        else if snapshotId.value in snapshotsById then Some(snapshotsById[snapshotId.value])
        else None;
      if snapshot.None? || snapshot.value.path != path {
        return None;
      }
      var point := restorePoints.CreateRestorePoint([path]);
      ghost var pointed := disk.log;
      QuietMore(start, pointed);
      QuietIsOn(start, pointed, {path});
      OnceQuiet(start, pointed, call);
      if point.None? {
        return None;
      }
      PutAgrees(disk.files, path, LeftBy(disk.fates(|pointed|, Writes(path, proposed)), proposed));
      var ok := disk.WriteFile(path, proposed);
      QuietStep(disk.fates, start, pointed, call);
      OnStep(start, pointed, call, {path});
      OnceStep(start, pointed, call);
      if !ok {
        return None;
      }
      ghost var written := disk.log;
      var back := disk.ReadFile(path);
      QuietStep(disk.fates, start, written, Reads(path));
      OnStep(start, written, Reads(path), {path});
      QuietStart(disk.fates, written);
      QuietStep(disk.fates, written, written, Reads(path));
      OnceThen(start, written, disk.log, call);
      if !back.Content? || back.text != proposed {
        return None;
      }
      return point;
    }

    /** Writes a snapshot back, or removes the file where there was none, and reports the text that it read back. The
        file holds what the write or removal left in it, also when the reading fails. */
    method RestoreSnapshot(snapshot: Snapshot) returns (r: Option<Undo>)
      requires disk.Traced()
      modifies disk`files, disk`log
      ensures disk.Traced() && old(disk.log) <= disk.log
      ensures disk.AllWork(|old(disk.log)|) ==> r.Some?
      ensures AgreeOutside(disk.files, old(disk.files), {snapshot.path})
      ensures r.Some? ==>
        && r.value.file == Lookup(disk.files, snapshot.path)
        && (r.value.file == snapshot.content
            || FailedBetween(disk.fates, disk.log, |old(disk.log)|, snapshot.path))
        && (r.value.file == snapshot.content ==> disk.files == Put(old(disk.files), snapshot.path, snapshot.content))
        && (snapshot.content.None? ==> r.value.file == None)
      ensures var file := Saved(snapshot.path, snapshot.content);
        && disk.log == old(disk.log) + FileCalls(disk.fates, |old(disk.log)|, file)
        && Lookup(disk.files, snapshot.path)
           == ContentLeft(disk.fates, |old(disk.log)|, file, Lookup(old(disk.files), snapshot.path))
    {
      ghost var from := |disk.log|;
      var path := snapshot.path;
      if snapshot.content.None? {
        PutAgrees(disk.files, path, None);
        var ok := disk.RemoveFile(path);
        assert disk.log[from] == Removes(path);
        return if ok then Some(Undo(None)) else None;
      }
      var text := snapshot.content.value;
      PutAgrees(disk.files, path, LeftBy(disk.fates(from, Writes(path, text)), text));
      var ok := disk.WriteFile(path, text);
      assert disk.log[from] == Writes(path, text);
      if !ok {
        return None;
      }
      var back := disk.ReadFile(path);
      assert disk.log[from] == Writes(path, text) && disk.log[from + 1] == Reads(path);
      return if back.Content? then Some(Undo(Some(back.text))) else None;
    }

    /** Undo. It does not compare what it read back with the snapshot; when no call on the file fails, the file is
        restored. */
    method UndoPatch(path: Path) returns (r: Option<Undo>)
      requires Valid()
      modifies this, disk`files, disk`log
      ensures Valid() && old(disk.log) <= disk.log
      ensures disk.AllWork(|old(disk.log)|) ==> r.Some?
      ensures AgreeOutside(disk.files, old(disk.files), {path})
      ensures Held() == if r.Some? then Forget(old(Held()), path) else old(Held())
      ensures r.Some? && SnapshotOf(old(Held()), path).None? ==> disk.files == old(disk.files) && r.value.file == None
      ensures r.Some? && SnapshotOf(old(Held()), path).Some? ==>
        var content := SnapshotOf(old(Held()), path).value.content;
        && r.value.file == Lookup(disk.files, path)
        && (r.value.file == content || FailedBetween(disk.fates, disk.log, |old(disk.log)|, path))
        && (r.value.file == content ==> disk.files == Put(old(disk.files), path, content))
        && (content.None? ==> r.value.file == None)
      ensures SnapshotOf(old(Held()), path).Some? ==>
        var file := Saved(path, SnapshotOf(old(Held()), path).value.content);
        && disk.log == old(disk.log) + FileCalls(disk.fates, |old(disk.log)|, file)
        && Lookup(disk.files, path)
           == ContentLeft(disk.fates, |old(disk.log)|, file, Lookup(old(disk.files), path))
      ensures SnapshotOf(old(Held()), path).None? ==> r.Some? && disk.log == old(disk.log)
    {
      hide FreshFrom, FailedBetween;
      var snapshot := SnapshotOf(Held(), path);
      if snapshot.None? {
        return Some(Undo(None));
      }
      CoherentAlways(Held(), disk.files, path, 0);
      r := RestoreSnapshot(snapshot.value);
      if r.Some? {
        snapshotsById := snapshotsById - {snapshot.value.id};
        latestByFile := latestByFile - {path};
      }
    }
  }

  lemma Untouched(store: Store, bound: Id, max: nat)
    ensures RestorePointService.Moves(store, store, bound, 1, max)
  {
    RestorePointService.NewPointMoves(store, store, bound, bound, max);
    RestorePointService.MovesFurther(store, store, bound, 0, 1, max);
  }

  lemma UniqueOne(path: Path)
    ensures Trim(path) != "" ==> Unique([path]) != []
  {
    assert Front([path]) == [];
    UniqueExactly([path]);
    if Trim(path) != "" {
      assert Trim([path][0]) == Trim(path);
      assert Names([path], Trim(path));
    }
  }
}
