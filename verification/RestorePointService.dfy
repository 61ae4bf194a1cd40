/** The restore point service: its calls rewrite point files and the index one by one, and any of them
    may fail. */
module RestorePointService {
  import opened Text
  import Calls
  import opened WorkspaceDisk
  import opened RestorePoints
  import opened RestoreTrace
  import NewestFirst

  // What survives a call that may fail halfway

  /** The point is on disk and, where it is listed, has at most `n` entries before it. */
  ghost predicate Safe(store: Store, id: Id, file: PointFile, n: nat) {
    && id in store.points && store.points[id] == file
    && forall k :: 0 <= k < |Listed(store.index)| && Listed(store.index)[k].id == id ==> k <= n
  }

  /** Points minted before `bound` move down the index by at most `down`, are lost only at the limit, and are
      never rewritten. */
  ghost predicate Moves(before: Store, after: Store, bound: Id, down: nat, max: nat) {
    && NoneRewritten(before, after, bound)
    && forall id: Id, file, n: nat :: id < bound && n + down < max && Safe(before, id, file, n) ==>
         Safe(after, id, file, n + down)
  }

  ghost predicate NoneRewritten(before: Store, after: Store, bound: Id) {
    forall id :: id in after.points && id < bound ==> id in before.points && after.points[id] == before.points[id]
  }

  lemma SafeLonger(store: Store, id: Id, file: PointFile, n: nat, m: nat)
    requires Safe(store, id, file, n) && n <= m
    ensures Safe(store, id, file, m)
  {
  }

  lemma MovesFurther(before: Store, after: Store, bound: Id, down: nat, further: nat, max: nat)
    requires Moves(before, after, bound, down, max) && down <= further
    ensures Moves(before, after, bound, further, max)
  {
    forall id: Id, file, n: nat | id < bound && n + further < max && Safe(before, id, file, n)
      ensures Safe(after, id, file, n + further)
    {
      SafeLonger(after, id, file, n + down, n + further);
    }
  }

  lemma MovesThen(a: Store, b: Store, c: Store, bound: Id, down: nat, more: nat, max: nat)
    requires Moves(a, b, bound, down, max) && Moves(b, c, bound, more, max)
    ensures Moves(a, c, bound, down + more, max)
  {
    hide Safe;
    forall id: Id, file, n: nat | id < bound && n + (down + more) < max && Safe(a, id, file, n)
      ensures Safe(c, id, file, n + (down + more))
    {
      assert Safe(b, id, file, n + down);
      assert Safe(c, id, file, n + down + more);
    }
  }

  /** Writing a point file that is new, and an index that reads as before or as empty. */
  lemma NewPointMoves(before: Store, after: Store, bound: Id, id: Id, max: nat)
    requires after.points - {id} == before.points - {id} && bound <= id
    requires Listed(after.index) == Listed(before.index) || Listed(after.index) == []
    ensures Moves(before, after, bound, 0, max)
  {
    forall other | other in after.points && other < bound
      ensures other in before.points && after.points[other] == before.points[other]
    {
      assert other in after.points - {id};
      assert (after.points - {id})[other] == (before.points - {id})[other];
    }
    forall other: Id, file, n: nat | other < bound && n + 0 < max && Safe(before, other, file, n)
      ensures Safe(after, other, file, n + 0)
    {
      assert other in (before.points - {id});
      assert (after.points - {id})[other] == (before.points - {id})[other];
    }
  }

  lemma NewEntryMoves(before: Store, after: Store, bound: Id, entry: Entry, max: nat)
    requires after.points == before.points && bound <= entry.id
    requires after.index == Entries([entry] + Listed(before.index))
    ensures Moves(before, after, bound, 1, max)
  {
    var listed := Listed(after.index);
    assert forall k :: 1 <= k < |listed| ==> listed[k] == Listed(before.index)[k - 1];
  }

  /** Removing the files of `k` dropped entries, and then perhaps the entries. */
  lemma DroppedMoves(before: Store, after: Store, bound: Id, k: nat, max: nat)
    requires max < |Listed(before.index)| && k <= |Listed(before.index)| - max
    requires after.points == before.points - Ids(Listed(before.index)[max..max + k])
    requires Listed(after.index) == Listed(before.index) || Listed(after.index) == []
      || Listed(after.index) == Listed(before.index)[..max]
    ensures Moves(before, after, bound, 0, max)
  {
    var listed := Listed(before.index);
    var dropped := listed[max..max + k];
    assert forall j :: 0 <= j < k ==> dropped[j] == listed[max + j];
    forall id: Id, file, n: nat | id < bound && n + 0 < max && Safe(before, id, file, n)
      ensures Safe(after, id, file, n + 0)
    {
      assert id !in Ids(dropped);
    }
  }

  // The service

  datatype RestoreResult =
    RestoreResult(success: bool, restoredFiles: seq<Path>, deletedFiles: seq<Path>, errors: seq<Path>)

  datatype RestoreOutcome = Finished(result: RestoreResult) | NotFound | Unreadable

  datatype RebuildResult = RebuildResult(recovered: nat, corrupted: seq<Id>)

  /** The files of a point as the restore reads them from its file. */
  function FilesOf(file: PointFile): Option<seq<Saved>> {
    match file
    case Whole(point) => Some(point.files)
    case Incomplete(files) => files
    case _ => None
  }

  class RestorePointService {
    const disk: Disk
    const max: nat

    constructor (disk: Disk, maxPoints: Option<int>)
      ensures this.disk == disk && max == MaxPoints(maxPoints)
    {
      this.disk := disk;
      this.max := MaxPoints(maxPoints);
    }

    /** Prunes to the limit; `None` exactly where a call throws. */
    method CleanupOldRestorePoints() returns (removed: Option<seq<Id>>)
      requires disk.Traced()
      modifies disk`points, disk`index, disk`log
      ensures disk.Traced() && OnlyQuiet(old(disk.log), disk.log)
      ensures removed.Some? <==> disk.AllWork(|old(disk.log)|)
      ensures Moves(old(disk.Shelf()), disk.Shelf(), disk.minted, 0, max)
      ensures old(disk.Valid()) ==> disk.Valid()
      ensures removed.Some? && !old(disk.index).Missing? ==> disk.Shelf() == Pruned(old(disk.Shelf()), max)
      ensures removed.Some? ==>
        removed.value == if |Listed(old(disk.index))| <= max then [] else IdList(Listed(old(disk.index))[max..])
    {
      hide Moves, Safe, NoneRewritten, Ids, OnlyQuiet, OnlyStore, IdList, Calls.AllWork, StopsAt;
      ghost var before, log := disk.Shelf(), disk.log;
      var ok := disk.EnsureStorage();
      StoreIsQuiet(log, disk.log);
      NewPointMoves(before, disk.Shelf(), disk.minted, disk.minted, max);
      if !ok {
        return None;
      }
      ghost var middle := disk.log;
      var index := disk.ReadIndex();
      QuietStep(disk.fates, log, middle, ReadsIndex);
      if index.None? {
        return None;
      }
      var listed := index.value;
      if |listed| <= max {
        return Some([]);
      }
      middle := disk.log;
      removed := RemoveDropped(listed);
      QuietMore(middle, disk.log);
      QuietThen(disk.fates, log, middle, disk.log);
    }

    /** The loop of the clean-up, and then the shorter index. */
    method RemoveDropped(listed: seq<Entry>) returns (removed: Option<seq<Id>>)
      requires disk.Traced() && listed == Listed(disk.index) && max < |listed|
      modifies disk`points, disk`index, disk`log
      ensures disk.Traced() && OnlyQuiet(old(disk.log), disk.log)
      ensures removed.Some? <==> disk.AllWork(|old(disk.log)|)
      ensures Moves(old(disk.Shelf()), disk.Shelf(), disk.minted, 0, max)
      ensures old(disk.Valid()) ==> disk.Valid()
      ensures removed.Some? ==> disk.Shelf() == Pruned(old(disk.Shelf()), max) && removed.value == IdList(listed[max..])
    {
      hide Moves, Safe, NoneRewritten, Ids, IdList, Calls.AllWork, OnlyQuiet;
      ghost var before, log := disk.Shelf(), disk.log;
      var ids: seq<Id> := [];
      NoIds(listed[max..max + 0]);
      QuietStart(disk.fates, log);
      for k := 0 to |listed| - max
        invariant disk.Traced() && log <= disk.log && OnlyQuiet(log, disk.log) && disk.AllWork(|log|)
        invariant ids == IdList(listed[max..max + k])
        invariant Listed(disk.index) == listed
        invariant disk.points == before.points - Ids(listed[max..max + k])
      {
        DroppedMoves(before, disk.Shelf(), disk.minted, k, max);
        ghost var middle := disk.log;
        var ok := disk.RemovePoint(listed[max + k].id);
        QuietStep(disk.fates, log, middle, RemovesPoint(listed[max + k].id));
        if !ok {
          return None;
        }
        ids := ids + [listed[max + k].id];
        NextId(listed, max, k);
      }
      DroppedMoves(before, disk.Shelf(), disk.minted, |listed| - max, max);
      assert listed[max..max + (|listed| - max)] == listed[max..];
      ghost var middle := disk.log;
      var ok := disk.WriteIndex(listed[..max]);
      QuietStep(disk.fates, log, middle, WritesIndex);
      DroppedMoves(before, disk.Shelf(), disk.minted, |listed| - max, max);
      return if ok then Some(ids) else None;
    }

    /** Creates a point of the files named by `paths`, lists it first and prunes. It fails exactly where a call throws
        or no file is named; the points minted before are then still kept, unless they fell behind the limit. */
    method CreateRestorePoint(paths: seq<string>) returns (r: Option<Point>)
      requires disk.Valid()
      modifies disk`points, disk`index, disk`minted, disk`log
      ensures disk.Valid() && disk.minted >= old(disk.minted) && OnlyQuiet(old(disk.log), disk.log)
      ensures r.Some? <==> disk.AllWork(|old(disk.log)|) && Unique(paths) != []
      ensures Moves(old(disk.Shelf()), disk.Shelf(), old(disk.minted), 1, max)
      ensures r.Some? ==>
        && r.value.files == Capture(disk.files, Resolved(Unique(paths)))
        && r.value.id == old(disk.minted) < disk.minted
        && disk.Shelf() == Created(old(disk.Shelf()), r.value, max)
    {
      hide Moves, Safe, NoneRewritten, Unique, Created, Capture, Resolved, OnlyQuiet, FreshFrom, Calls.AllWork;
      ghost var start, bound, log := disk.Shelf(), disk.minted, disk.log;
      var files := GatherFiles(paths);
      NewPointMoves(start, disk.Shelf(), bound, bound, max);
      MovesFurther(start, disk.Shelf(), bound, 0, 1, max);
      SameFresh(start, disk.Shelf(), bound);
      if files.None? {
        return None;
      }
      ghost var ready, middle := disk.Shelf(), disk.log;
      QuietMore(log, middle);
      var id := disk.MintId();
      var now := disk.Now();
      var point := Point(id, files.value, now);
      var ok := StorePoint(point);
      QuietMore(middle, disk.log);
      QuietThen(disk.fates, log, middle, disk.log);
      SameListed(start, ready, point, max);
      MovesThen(start, ready, disk.Shelf(), bound, 0, 1, max);
      return if ok then Some(point) else None;
    }

    /** What happens before the point is made. */
    method GatherFiles(paths: seq<string>) returns (files: Option<seq<Saved>>)
      requires disk.Traced()
      modifies disk`index, disk`log
      ensures disk.Traced() && OnlyQuiet(old(disk.log), disk.log)
      ensures Listed(disk.index) == Listed(old(disk.index))
      ensures files.Some? <==> disk.AllWork(|old(disk.log)|) && Unique(paths) != []
      ensures files.Some? ==> files.value == Capture(disk.files, Resolved(Unique(paths)))
    {
      hide Unique, Capture, Resolved, OnlyQuiet, OnlyStore, Calls.AllWork, StopsAt;
      ghost var log := disk.log;
      var ok := disk.EnsureStorage();
      StoreIsQuiet(log, disk.log);
      if !ok {
        return None;
      }
      var names := Unique(paths);
      if names == [] {
        return None;
      }
      ghost var middle := disk.log;
      files := ReadFiles(names);
      QuietMore(middle, disk.log);
      QuietThen(disk.fates, log, middle, disk.log);
      if files.Some? {
        middle := disk.log;
        var works := disk.Make(ReadsGit);
        QuietStep(disk.fates, log, middle, ReadsGit);
        if !works {
          files := None;
        }
      }
    }

    /** Writes the point and its entry, then cleans up. */
    method StorePoint(point: Point) returns (ok: bool)
      requires disk.Valid() && point.id + 1 == disk.minted && FreshFrom(disk.Shelf(), point.id)
      modifies disk`points, disk`index, disk`log
      ensures disk.Valid() && OnlyQuiet(old(disk.log), disk.log)
      ensures ok <==> disk.AllWork(|old(disk.log)|)
      ensures Moves(old(disk.Shelf()), disk.Shelf(), point.id, 1, max)
      ensures ok ==> disk.Shelf() == Created(old(disk.Shelf()), point, max)
    {
      hide Moves, Safe, NoneRewritten, Created, OnlyQuiet, FreshFrom, Calls.AllWork;
      ghost var start, bound, log := disk.Shelf(), point.id, disk.log;
      QuietStart(disk.fates, log);
      ok := disk.WritePoint(point.id, point);
      QuietStep(disk.fates, log, log, WritesPoint(point.id));
      NewPointMoves(start, disk.Shelf(), bound, point.id, max);
      MovesFurther(start, disk.Shelf(), bound, 0, 1, max);
      StillFresh(start, disk.Shelf(), point.id);
      if !ok {
        return;
      }
      ghost var middle := disk.log;
      var index := disk.ReadIndex();
      QuietStep(disk.fates, log, middle, ReadsIndex);
      if index.None? {
        return false;
      }
      ghost var written := disk.Shelf();
      middle := disk.log;
      ok := disk.WriteIndex([EntryOf(point)] + index.value);
      QuietStep(disk.fates, log, middle, WritesIndex);
      if !ok {
        NewPointMoves(start, disk.Shelf(), bound, point.id, max);
        MovesFurther(start, disk.Shelf(), bound, 0, 1, max);
        StillFresh(start, disk.Shelf(), point.id);
        return;
      }
      NewEntryMoves(written, disk.Shelf(), bound, EntryOf(point), max);
      MovesThen(start, written, disk.Shelf(), bound, 0, 1, max);
      FreshEntry(written, disk.Shelf(), EntryOf(point));
      ghost var listed := disk.Shelf();
      middle := disk.log;
      var removed := CleanupOldRestorePoints();
      QuietMore(middle, disk.log);
      QuietThen(disk.fates, log, middle, disk.log);
      BoundLess(listed, disk.Shelf(), bound, disk.minted, 0, max);
      MovesThen(start, listed, disk.Shelf(), bound, 1, 0, max);
      CreatedIs(start, listed, point, max);
      return removed.Some?;
    }

    /** The state of each named file; `None` exactly where reading one throws. */
    method ReadFiles(names: seq<string>) returns (r: Option<seq<Saved>>)
      requires disk.Traced()
      modifies disk`log
      ensures disk.Traced() && OnlyQuiet(old(disk.log), disk.log)
      ensures r.Some? <==> disk.AllWork(|old(disk.log)|)
      ensures r.Some? ==> r.value == Capture(disk.files, Resolved(names))
    {
      hide Capture, Resolved, Resolve, OnlyQuiet, Calls.AllWork;
      var files: seq<Saved> := [];
      ghost var log := disk.log;
      NothingCaptured(disk.files, names[..0]);
      QuietStart(disk.fates, log);
      for k := 0 to |names|
        invariant disk.Traced() && log <= disk.log && OnlyQuiet(log, disk.log) && disk.AllWork(|log|)
        invariant files == Capture(disk.files, Resolved(names[..k]))
      {
        CaptureNext(disk.files, names, k);
        var path := Resolve(names[k]);
        ghost var middle := disk.log;
        var read := disk.ReadFile(path);
        QuietStep(disk.fates, log, middle, Reads(path));
        if read.ReadFails? {
          return None;
        }
        files := files + [Saved(path, if read.Content? then Some(read.text) else None)];
      }
      assert names[..|names|] == names;
      return Some(files);
    }

    /** Restores the files of a point one by one, collecting errors. Every file of the point is written or removed, by
        exactly the calls of `RestoreCalls`, and holds what these leave in it. The errors are exactly the files on which
        a call failed since the point was read, and outside them the workspace is exactly the restored one. It gives up
        before, leaving the files alone, exactly where the store cannot be made ready, the point cannot be read, is not
        there, or holds no list of files. */
    method RestorePoint(id: Id) returns (r: RestoreOutcome)
      requires disk.Traced()
      modifies disk`files, disk`index, disk`log
      ensures disk.Traced() && old(disk.log) <= disk.log
      ensures Listed(disk.index) == Listed(old(disk.index))
      ensures !r.Finished? ==> disk.files == old(disk.files) && Unaltered(old(disk.log), disk.log)
      ensures !r.Finished? ==>
        disk.log == old(disk.log) + ReadingCalls(disk.fates, |old(disk.log)|, old(disk.index), id)
      ensures r.NotFound? <==>
        && PointReadable(disk.fates, |old(disk.log)|, old(disk.index), id)
        && (id !in disk.points || disk.points[id].Empty?)
      ensures r.Finished? <==>
        && PointReadable(disk.fates, |old(disk.log)|, old(disk.index), id)
        && id in disk.points && FilesOf(disk.points[id]).Some?
      ensures !PointReadable(disk.fates, |old(disk.log)|, old(disk.index), id) ==>
        Unread(disk.fates, old(disk.log), disk.log, id)
      ensures r.Finished? ==>
        var saved := FilesOf(disk.points[id]).value;
        && r.result.success == (r.result.errors == [])
        && Elements(r.result.errors) == FailedSince(disk.fates, disk.log, id)
        && RestoredBy(disk.fates, disk.log, PlaceOfReading(|old(disk.log)|, old(disk.index)), id, saved,
                      old(disk.files), disk.files)
        && disk.log[..PlaceOfReading(|old(disk.log)|, old(disk.index))]
           == old(disk.log) + StoreCalls(disk.fates, |old(disk.log)|, old(disk.index))
        && Restoration(old(disk.files), disk.files, saved, r.result.errors)
        && Reported(saved, r.result)
        && AllTouched(disk.log, |old(disk.log)|, saved)
      ensures disk.AllWork(|old(disk.log)|) ==>
        && (r.Finished? ==> r.result.errors == [])
        && (r.Finished? ==> disk.files == Restored(old(disk.files), FilesOf(disk.points[id]).value))
    {
      hide Restored, Restoration, Reported, FailedSince, FailedOn, OnlyQuiet, Elements, Calls.AllWork, Unaltered;
      hide AllTouched, Unread, RestoreCalls, Leaves;
      ghost var start, index, fates := disk.log, disk.index, disk.fates;
      var ok := disk.EnsureStorage();
      ghost var ready := disk.log;
      StoreIsQuiet(start, ready);
      QuietMore(start, ready);
      if !ok {
        UnreadEarly(fates, start, ready, id);
        return Unreadable;
      }
      var read := disk.ReadPoint(id);
      ghost var seen := disk.log;
      FailedSinceMore(fates, ready, ReadsPoint(id), id);
      QuietStep(fates, start, ready, ReadsPoint(id));
      if read.PointFails? {
        UnreadLate(fates, start, ready, id);
        return Unreadable;
      }
      if read.NoPoint? || read.file.Empty? {
        return NotFound;
      }
      if FilesOf(read.file).None? {
        return Unreadable;
      }
      var saved := FilesOf(read.file).value;
      var result := RestoreFiles(id, saved);
      r := Finished(result);
      RestoredNow(fates, ready, disk.log, id, saved, old(disk.files), disk.files);
      TouchedEarlier(disk.log, |start|, |seen|, saved);
      QuietThen(fates, start, seen, disk.log);
      if result.errors == [] {
        AllRestored(old(disk.files), disk.files, saved, result.errors);
      }
    }

    method RestoreFiles(id: Id, saved: seq<Saved>) returns (result: RestoreResult)
      requires disk.Traced() && FailedSince(disk.fates, disk.log, id) == {}
      modifies disk`files, disk`log
      ensures disk.Traced() && old(disk.log) <= disk.log
      ensures disk.AllWork(|old(disk.log)|) ==> result.errors == []
      ensures result.success == (result.errors == [])
      ensures Elements(result.errors) == FailedSince(disk.fates, disk.log, id)
      ensures Restoration(old(disk.files), disk.files, saved, result.errors)
      ensures Reported(saved, result)
      ensures AllTouched(disk.log, |old(disk.log)|, saved)
      ensures disk.log == old(disk.log) + RestoreCalls(disk.fates, |old(disk.log)|, saved)
      ensures Leaves(disk.fates, |old(disk.log)|, saved, old(disk.files), disk.files)
    {
      hide Restored, Restoration, Reported, FailedSince, FailedOn, Elements, Calls.AllWork, AllTouched, Touched;
      hide RestoreCalls, Leaves, FileCalls, ContentLeft;
      result := RestoreResult(true, [], [], []);
      ghost var start := disk.log;
      NothingRestored(disk.files, saved[..0], result);
      NoneTouched(start, |start|, saved[..0]);
      NothingLeft(disk.fates, |start|, saved[..0], disk.files);
      for k := 0 to |saved|
        invariant disk.Traced() && start <= disk.log
        invariant disk.AllWork(|start|) ==> result.errors == []
        invariant result.success == (result.errors == [])
        invariant Elements(result.errors) == FailedSince(disk.fates, disk.log, id)
        invariant Restoration(old(disk.files), disk.files, saved[..k], result.errors)
        invariant Reported(saved[..k], result)
        invariant AllTouched(disk.log, |start|, saved[..k])
        invariant disk.log == start + RestoreCalls(disk.fates, |start|, saved[..k])
        invariant Leaves(disk.fates, |start|, saved[..k], old(disk.files), disk.files)
      {
        var file := saved[k];
        ghost var before, log, was := disk.files, disk.log, result;
        var wrote, fine := RestoreFile(file, id);
        if wrote && file.content.Some? {
          result := result.(restoredFiles := result.restoredFiles + [file.path]);
        } else if wrote {
          result := result.(deletedFiles := result.deletedFiles + [file.path]);
        }
        if !fine {
          result := result.(success := false, errors := result.errors + [file.path]);
        }
        assert saved[..k + 1] == saved[..k] + [file];
        QuietThen(disk.fates, start, log, disk.log);
        RestoredNext(old(disk.files), before, disk.files, saved[..k], file, was.errors, fine);
        ReportedNext(saved[..k], file, was, result, wrote, fine);
        SetMore(was.errors, file.path);
        TouchedNext(start, log, disk.log, saved[..k], file);
        NextLeft(disk.fates, |start|, saved[..k], file, old(disk.files), before, disk.files);
      }
      assert saved[..|saved|] == saved;
    }

    /** Writes or deletes one file, by exactly these calls, and leaves in it what the write or removal does. `wrote`
        where that returned, `fine` only after the text was read back. A file is fine exactly when no call on it
        failed. */
    method RestoreFile(file: Saved, ghost id: Id) returns (wrote: bool, fine: bool)
      requires disk.Traced()
      modifies disk`files, disk`log
      ensures disk.Traced() && old(disk.log) <= disk.log
      ensures disk.AllWork(|old(disk.log)|) ==> fine
      ensures fine ==> wrote
      ensures FailedSince(disk.fates, disk.log, id)
           == FailedSince(disk.fates, old(disk.log), id) + if fine then {} else {file.path}
      ensures Touched(disk.log, |old(disk.log)|, file.path)
      ensures AgreeOutside(disk.files, old(disk.files), {file.path})
      ensures fine ==> disk.files == Put(old(disk.files), file.path, file.content)
      ensures disk.log == old(disk.log) + FileCalls(disk.fates, |old(disk.log)|, file)
      ensures Lookup(disk.files, file.path)
           == ContentLeft(disk.fates, |old(disk.log)|, file, Lookup(old(disk.files), file.path))
    {
      ghost var log := disk.log;
      if file.content.None? {
        wrote := disk.RemoveFile(file.path);
        PutAgrees(old(disk.files), file.path, None);
        FailedSinceMore(disk.fates, log, Removes(file.path), id);
        assert disk.log[|log|] == Removes(file.path);
        return wrote, wrote;
      }
      var text := file.content.value;
      wrote := disk.WriteFile(file.path, text);
      ghost var middle := disk.log;
      PutAgrees(old(disk.files), file.path, LeftBy(disk.fates(|log|, Writes(file.path, text)), text));
      FailedSinceMore(disk.fates, log, Writes(file.path, text), id);
      assert middle[|log|] == Writes(file.path, text);
      if !wrote {
        return false, false;
      }
      var back := disk.ReadFile(file.path);
      FailedSinceMore(disk.fates, middle, Reads(file.path), id);
      assert disk.log[|log|] == Writes(file.path, text) && disk.log[|middle|] == Reads(file.path);
      fine := back.Content? && back.text == text;
    }

    method DeleteRestorePoint(id: Id) returns (deleted: Option<bool>)
      requires disk.Traced()
      modifies disk`points, disk`index, disk`log
      ensures disk.Traced() && OnlyQuiet(old(disk.log), disk.log)
      ensures deleted.Some? <==> disk.AllWork(|old(disk.log)|)
      ensures deleted.Some? ==>
        && disk.points == old(disk.points) - {id}
        && disk.index == Entries(Without(Listed(old(disk.index)), id))
        && deleted.value == (id in Ids(Listed(old(disk.index))))
    {
      hide OnlyQuiet, OnlyStore, Without, Ids, Calls.AllWork, StopsAt;
      ghost var start := disk.log;
      var ok := disk.EnsureStorage();
      ghost var middle := disk.log;
      StoreIsQuiet(start, middle);
      if !ok {
        return None;
      }
      ok := disk.RemovePoint(id);
      QuietStep(disk.fates, start, middle, RemovesPoint(id));
      if !ok {
        return None;
      }
      middle := disk.log;
      var index := disk.ReadIndex();
      QuietStep(disk.fates, start, middle, ReadsIndex);
      if index.None? {
        return None;
      }
      middle := disk.log;
      var kept := Without(index.value, id);
      WithoutExactly(index.value, id);
      ok := disk.WriteIndex(kept);
      QuietStep(disk.fates, start, middle, WritesIndex);
      return if ok then Some(|kept| != |index.value|) else None;
    }

    /** Rebuilds the index from the files on disk, in the order the directory lists them; a directory
        that cannot be listed counts as empty, and the index is then overwritten with nothing. It fails exactly where
        another call throws. */
    method RebuildIndexFromDisk(listing: seq<Id>) returns (r: Option<RebuildResult>)
      requires disk.Traced() && Lists(listing, disk.points)
      modifies disk`index, disk`log
      ensures disk.Traced() && Unaltered(old(disk.log), disk.log)
      ensures r.Some? <==>
        disk.fates(|old(disk.log)|, MakesStore).Works? && disk.AllWork(|old(disk.log)| + 2)
      ensures r.Some? ==>
        var names := if disk.fates(|old(disk.log)| + 1, ListsStore).Works? then listing else [];
        && disk.index == Entries(Rebuilt(disk.points, names))
        && r.value.recovered == |Rebuilt(disk.points, names)|
        && r.value.corrupted == Corrupted(disk.points, names)
    {
      hide OnlyQuiet, Unaltered, Calls.AllWork, Lists;
      ghost var start := disk.log;
      QuietStart(disk.fates, start);
      var works := disk.Make(MakesStore);
      QuietStep(disk.fates, start, start, MakesStore);
      if !works {
        return None;
      }
      ghost var middle := disk.log;
      works := disk.Make(ListsStore);
      QuietStep(disk.fates, start, middle, ListsStore);
      var names := if works then listing else [];
      ghost var listed := disk.log;
      var collected := CollectEntries(names);
      UnalteredMore(listed, disk.log);
      QuietThen(disk.fates, start, listed, disk.log);
      if collected.None? {
        return None;
      }
      middle := disk.log;
      var sorted := NewestFirst.Sort(collected.value.0, Times());
      works := disk.WriteIndex(sorted);
      QuietStep(disk.fates, start, middle, WritesIndex);
      QuietStep(disk.fates, listed, middle, WritesIndex);
      return if works then Some(RebuildResult(|sorted|, collected.value.1)) else None;
    }

    /** The entries of the whole point files, and the corrupted ones. */
    method CollectEntries(names: seq<Id>) returns (r: Option<(seq<Entry>, seq<Id>)>)
      requires disk.Traced()
      modifies disk`log
      ensures disk.Traced() && Unaltered(old(disk.log), disk.log)
      ensures r.Some? <==> disk.AllWork(|old(disk.log)|)
      ensures r.Some? ==> r.value == (Collected(disk.points, names), Corrupted(disk.points, names))
    {
      hide Collected, Corrupted, OnlyQuiet, Unaltered, Calls.AllWork;
      var entries: seq<Entry>, corrupted: seq<Id> := [], [];
      ghost var log := disk.log;
      NothingCollected(disk.points, names[..0]);
      QuietStart(disk.fates, log);
      for k := 0 to |names|
        invariant disk.Traced() && log <= disk.log && Unaltered(log, disk.log) && disk.AllWork(|log|)
        invariant entries == Collected(disk.points, names[..k])
        invariant corrupted == Corrupted(disk.points, names[..k])
      {
        CollectedNext(disk.points, names, k);
        ghost var middle := disk.log;
        var read := disk.ReadPoint(names[k]);
        QuietStep(disk.fates, log, middle, ReadsPoint(names[k]));
        if read.PointFails? {
          return None;
        }
        if read.NoPoint? || read.file.Empty? {
          continue;
        }
        if read.file.Whole? {
          entries := entries + [EntryOf(read.file.point)];
        } else {
          corrupted := corrupted + [names[k]];
        }
      }
      assert names[..|names|] == names;
      return Some((entries, corrupted));
    }
  }

  // Steps of the proofs

  /** Where the restore reads its point, once the store is ready. */
  function PlaceOfReading(n: nat, index: Index): nat {
    n + if index.Missing? then 3 else 2
  }

  /** The store can be made ready from call number `n` on, and the point read then. */
  predicate PointReadable(fates: DiskFates, n: nat, index: Index, id: Id) {
    StoreReady(fates, n, index) && fates(PlaceOfReading(n, index), ReadsPoint(id)).Works?
  }

  /** The calls before the files are touched. */
  function ReadingCalls(fates: DiskFates, n: nat, index: Index, id: Id): seq<Call> {
    StoreCalls(fates, n, index) + if StoreReady(fates, n, index) then [ReadsPoint(id)] else []
  }

  lemma ReadingIsQuiet(fates: DiskFates, before: seq<Call>, index: Index, id: Id)
    ensures OnlyQuiet(before, before + StoreCalls(fates, |before|, index))
    ensures var after := before + ReadingCalls(fates, |before|, index, id);
      && after != [] && OnlyQuiet(before, Front(after))
      && (PointReadable(fates, |before|, index, id) ==> Last(after) == ReadsPoint(id))
  {
  }

  /** The restore gave up at its last call, one of the few before the files: the others had worked. */
  ghost predicate Unread(fates: DiskFates, before: seq<Call>, after: seq<Call>, id: Id) {
    && StopsAt(fates, before, after) && |after| <= |before| + 4
    && forall c :: |before| <= c < |after| ==> after[c] in {MakesStore, ReadsIndex, WritesIndex, ReadsPoint(id)}
  }

  lemma UnreadEarly(fates: DiskFates, start: seq<Call>, ready: seq<Call>, id: Id)
    requires OnlyStore(start, ready) && |ready| <= |start| + 3 && StopsAt(fates, start, ready)
    ensures Unread(fates, start, ready, id)
  {
    hide StopsAt;
  }

  lemma UnreadLate(fates: DiskFates, start: seq<Call>, ready: seq<Call>, id: Id)
    requires OnlyStore(start, ready) && |ready| <= |start| + 3 && Calls.AllWork(fates, ready, |start|)
    requires !fates(|ready|, ReadsPoint(id)).Works?
    ensures Unread(fates, start, ready + [ReadsPoint(id)], id)
  {
    var seen := ready + [ReadsPoint(id)];
    assert Front(seen) == ready && Last(seen) == ReadsPoint(id);
    assert forall c :: 0 <= c < |ready| ==> seen[c] == ready[c];
  }

  lemma RestoredNow(fates: DiskFates, ready: seq<Call>, log: seq<Call>, id: Id, saved: seq<Saved>, before: Fs, now: Fs)
    requires log == ready + [ReadsPoint(id)] + RestoreCalls(fates, |ready| + 1, saved)
    requires fates(|ready|, ReadsPoint(id)).Works? && Leaves(fates, |ready| + 1, saved, before, now)
    ensures RestoredBy(fates, log, |ready|, id, saved, before, now) && log[..|ready|] == ready
  {
    hide RestoreCalls, Leaves;
    assert log[..|ready| + 1] == ready + [ReadsPoint(id)];
  }

  /** Every file of the point was written or removed, or that was tried. */
  ghost predicate AllTouched(log: seq<Call>, from: nat, saved: seq<Saved>) {
    forall k :: 0 <= k < |saved| ==> Touched(log, from, saved[k].path)
  }

  lemma NoneTouched(log: seq<Call>, from: nat, none: seq<Saved>)
    requires none == []
    ensures AllTouched(log, from, none)
  {
  }

  lemma TouchedEarlier(log: seq<Call>, from: nat, later: nat, saved: seq<Saved>)
    requires AllTouched(log, later, saved) && from <= later
    ensures AllTouched(log, from, saved)
  {
  }

  lemma TouchedNext(start: seq<Call>, before: seq<Call>, log: seq<Call>, saved: seq<Saved>, file: Saved)
    requires start <= before <= log && AllTouched(before, |start|, saved) && Touched(log, |before|, file.path)
    ensures AllTouched(log, |start|, saved + [file])
  {
    forall k | 0 <= k < |saved| + 1
      ensures Touched(log, |start|, (saved + [file])[k].path)
    {
      if k < |saved| {
        assert Touched(before, |start|, saved[k].path);
        var c :| |start| <= c < |before| && Alters(before[c]) && before[c].path == saved[k].path;
        assert log[c] == before[c];
      }
    }
  }

  lemma StillFresh(before: Store, after: Store, id: Id)
    requires FreshFrom(before, id) && after.points - {id} == before.points - {id}
    requires Listed(after.index) == Listed(before.index) || Listed(after.index) == []
    ensures FreshFrom(after, id + 1)
  {
    forall other | other in after.points
      ensures other < id + 1
    {
      assert other != id ==> other in after.points - {id};
    }
  }

  lemma IdsOfBoth(a: seq<Entry>, b: seq<Entry>)
    ensures Ids(a + b) == Ids(a) + Ids(b)
  {
    var all := a + b;
    forall id
      ensures id in Ids(all) <==> id in Ids(a) || id in Ids(b)
    {
      if id in Ids(a) {
        var k :| 0 <= k < |a| && a[k].id == id;
        assert all[k].id == id;
      }
      if id in Ids(b) {
        var k :| 0 <= k < |b| && b[k].id == id;
        assert all[|a| + k].id == id;
      }
    }
  }

  lemma NoIds(entries: seq<Entry>)
    requires entries == []
    ensures Ids(entries) == {}
  {
  }

  lemma IdsOfOne(entry: Entry)
    ensures Ids([entry]) == {entry.id}
  {
    assert [entry][0] == entry;
  }

  lemma NothingCaptured(files: Fs, none: seq<string>)
    requires none == []
    ensures Capture(files, Resolved(none)) == []
  {
  }

  lemma CaptureNext(files: Fs, names: seq<string>, k: nat)
    requires k < |names|
    ensures Capture(files, Resolved(names[..k + 1]))
         == Capture(files, Resolved(names[..k])) + [Saved(Resolve(names[k]), Lookup(files, Resolve(names[k])))]
  {
  }

  /** The files that hold JSON no point can be read from, or no JSON at all. */
  function Corrupted(points: map<Id, PointFile>, listing: seq<Id>): seq<Id> {
    if listing == [] then []
    else
      var id := Last(listing);
      Corrupted(points, Front(listing))
      + if id in points && (points[id].Malformed? || points[id].Incomplete?) then [id] else []
  }

  lemma {:induction false} CorruptedExactly(points: map<Id, PointFile>, listing: seq<Id>)
    ensures forall id :: id in Corrupted(points, listing) <==>
      id in listing && id in points && (points[id].Malformed? || points[id].Incomplete?)
  {
    if listing != [] {
      CorruptedExactly(points, Front(listing));
      FrontLast(listing);
    }
  }

  lemma NothingCollected(points: map<Id, PointFile>, none: seq<Id>)
    requires none == []
    ensures Collected(points, none) == [] && Corrupted(points, none) == []
  {
  }

  lemma CollectedNext(points: map<Id, PointFile>, names: seq<Id>, k: nat)
    requires k < |names|
    ensures var id := names[k];
      && Collected(points, names[..k + 1])
         == Collected(points, names[..k])
            + (if id in points && points[id].Whole? then [EntryOf(points[id].point)] else [])
      && Corrupted(points, names[..k + 1])
         == Corrupted(points, names[..k])
            + (if id in points && (points[id].Malformed? || points[id].Incomplete?) then [id] else [])
  {
    assert Front(names[..k + 1]) == names[..k];
  }

  lemma NextId(listed: seq<Entry>, max: nat, k: nat)
    requires max + k < |listed|
    ensures Ids(listed[max..max + (k + 1)]) == Ids(listed[max..max + k]) + {listed[max + k].id}
    ensures IdList(listed[max..max + (k + 1)]) == IdList(listed[max..max + k]) + [listed[max + k].id]
  {
    assert listed[max..max + (k + 1)] == listed[max..max + k] + [listed[max + k]];
    assert Front(listed[max..max + (k + 1)]) == listed[max..max + k];
    IdsOfBoth(listed[max..max + k], [listed[max + k]]);
    IdsOfOne(listed[max + k]);
  }

  lemma BoundLess(before: Store, after: Store, bound: Id, higher: Id, down: nat, max: nat)
    requires Moves(before, after, higher, down, max) && bound <= higher
    ensures Moves(before, after, bound, down, max)
  {
    hide Safe;
  }

  lemma SameFresh(before: Store, after: Store, minted: Id)
    requires FreshFrom(before, minted) && after.points == before.points && Listed(after.index) == Listed(before.index)
    ensures FreshFrom(after, minted) && FreshFrom(after, minted + 1)
  {
  }

  lemma FreshEntry(before: Store, after: Store, entry: Entry)
    requires FreshFrom(before, entry.id + 1) && after.points == before.points
    requires after.index == Entries([entry] + Listed(before.index))
    ensures FreshFrom(after, entry.id + 1)
  {
    var listed := Listed(after.index);
    assert forall k :: 1 <= k < |listed| ==> listed[k] == Listed(before.index)[k - 1];
  }

  lemma SameListed(start: Store, ready: Store, point: Point, max: nat)
    requires ready.points == start.points && Listed(ready.index) == Listed(start.index)
    ensures Created(ready, point, max) == Created(start, point, max)
  {
  }

  lemma CreatedIs(start: Store, listed: Store, point: Point, max: nat)
    requires listed.points == start.points[point.id := Whole(point)]
    requires listed.index == Entries([EntryOf(point)] + Listed(start.index))
    ensures Pruned(listed, max) == Created(start, point, max)
  {
  }

  lemma PutIs(before: Fs, after: Fs, path: Path, text: string)
    requires AgreeOutside(after, before, {path}) && path in after && after[path] == text
    ensures after == Put(before, path, Some(text))
  {
    forall other
      ensures Lookup(after, other) == Lookup(Put(before, path, Some(text)), other)
    {
    }
    SameLookups(after, Put(before, path, Some(text)));
  }

  /** `now` is the restored workspace except for the files that gave errors. */
  ghost predicate Restoration(before: Fs, now: Fs, saved: seq<Saved>, errors: seq<Path>) {
    && AgreeOutside(now, Restored(before, saved), Elements(errors))
    && forall path :: path in errors ==> path in PathsOf(saved)
  }

  lemma NothingRestored(files: Fs, saved: seq<Saved>, result: RestoreResult)
    requires saved == [] && result == RestoreResult(true, [], [], [])
    ensures Restoration(files, files, saved, []) && Reported(saved, result) && Elements(result.errors) == {}
  {
  }

  /** Every file is named where it belongs: among the errors, or as restored or deleted; and no file is named as
      restored or deleted without being saved so. */
  ghost predicate Reported(saved: seq<Saved>, result: RestoreResult) {
    && (forall k :: 0 <= k < |saved| && saved[k].path !in result.errors ==>
          saved[k].path in (if saved[k].content.Some? then result.restoredFiles else result.deletedFiles))
    && (forall path :: path in result.restoredFiles + result.deletedFiles ==> path in PathsOf(saved))
  }

  lemma PathsOfMore(saved: seq<Saved>, file: Saved)
    ensures PathsOf(saved + [file]) == PathsOf(saved) + {file.path}
  {
    var all := saved + [file];
    assert all[|saved|] == file && forall k :: 0 <= k < |saved| ==> all[k] == saved[k];
    forall path
      ensures path in PathsOf(all) <==> path in PathsOf(saved) || path == file.path
    {
      if path in PathsOf(saved) {
        var k :| 0 <= k < |saved| && saved[k].path == path;
        assert all[k].path == path;
      }
    }
  }

  lemma ReportedNext(saved: seq<Saved>, file: Saved, was: RestoreResult, result: RestoreResult, wrote: bool, fine: bool)
    requires Reported(saved, was) && (fine ==> wrote)
    requires result.errors == was.errors + if fine then [] else [file.path]
    requires result.restoredFiles == was.restoredFiles + if wrote && file.content.Some? then [file.path] else []
    requires result.deletedFiles == was.deletedFiles + if wrote && file.content.None? then [file.path] else []
    ensures Reported(saved + [file], result)
  {
    PathsOfMore(saved, file);
    hide PathsOf;
    var all := saved + [file];
    forall k | 0 <= k < |all| && all[k].path !in result.errors
      ensures all[k].path in (if all[k].content.Some? then result.restoredFiles else result.deletedFiles)
    {
      if k < |saved| {
        assert all[k] == saved[k] && saved[k].path !in was.errors;
      } else {
        assert all[k] == file && fine;
      }
    }
  }

  lemma SetMore(paths: seq<Path>, path: Path)
    ensures Elements(paths + [path]) == Elements(paths) + {path}
  {
  }

  lemma AllRestored(before: Fs, now: Fs, saved: seq<Saved>, errors: seq<Path>)
    requires Restoration(before, now, saved, errors) && errors == []
    ensures now == Restored(before, saved)
  {
    hide Restored;
    SameLookups(now, Restored(before, saved));
  }

  lemma RestoredNext(start: Fs, before: Fs, after: Fs, saved: seq<Saved>, file: Saved, errors: seq<Path>, fine: bool)
    requires Restoration(start, before, saved, errors)
    requires AgreeOutside(after, before, {file.path})
    requires fine ==> after == Put(before, file.path, file.content)
    ensures Restoration(start, after, saved + [file], errors + if fine then [] else [file.path])
  {
    var next := Restored(start, saved + [file]);
    assert Front(saved + [file]) == saved;
    PutAgrees(Restored(start, saved), file.path, file.content);
    PutAgrees(before, file.path, file.content);
    PathsOfMore(saved, file);
    var remaining := errors + if fine then [] else [file.path];
    forall path | path !in Elements(remaining)
      ensures Lookup(after, path) == Lookup(next, path)
    {
      assert path !in Elements(errors);
    }
  }

  function IdList(entries: seq<Entry>): (ids: seq<Id>)
    ensures |ids| == |entries| && forall k :: 0 <= k < |ids| ==> ids[k] == entries[k].id
  {
    if entries == [] then [] else IdList(Front(entries)) + [Last(entries).id]
  }

  function Without(entries: seq<Entry>, id: Id): seq<Entry> {
    if entries == [] then []
    else (if entries[0].id == id then [] else [entries[0]]) + Without(entries[1..], id)
  }

  lemma {:induction false} WithoutExactly(entries: seq<Entry>, id: Id)
    ensures |Without(entries, id)| <= |entries|
    ensures |Without(entries, id)| != |entries| <==> id in Ids(entries)
    ensures id !in Ids(Without(entries, id))
    ensures forall entry :: entry in Without(entries, id) <==> entry in entries && entry.id != id
  {
    if entries != [] {
      WithoutExactly(entries[1..], id);
      assert entries == [entries[0]] + entries[1..];
      IdsOfBoth([entries[0]], entries[1..]);
      IdsOfBoth([entries[0]], Without(entries[1..], id));
      IdsOfOne(entries[0]);
    }
  }
}
