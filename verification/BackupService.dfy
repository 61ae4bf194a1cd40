/** The backup service: directories of copies written, pruned and restored through calls that may fail. The fates of
    the calls are an oracle, and a log keeps the calls that were made. */
module BackupService {
  import opened Text
  import Calls
  import opened Backups
  import NewestFirst

  datatype RestoreSummary = RestoreSummary(restoredFiles: seq<Path>, errors: seq<Path>)

  /** What a failing copy leaves in its file, and whether a failing write of a manifest left it whole. */
  datatype Left = Left(content: Option<string>, whole: bool)

  /** The calls: on the directory of the backups, on the sources of a new one, and on the files of a restore. */
  datatype Call =
    | MakesDirectory | LooksAt(path: Path) | Copies(path: Path) | WritesManifest | WritesMarker
    | ReadsDirectory | ReadsManifest(id: Id) | RemovesBackup(id: Id) | Restores(path: Path)

  type BackupFates = Calls.Fates<Call, Left>

  /** The files that a restore failed to write, from call number `from` on. */
  function FailedFiles(fates: BackupFates, log: seq<Call>, from: nat): set<Path> {
    if |log| <= from then {}
    else
      FailedFiles(fates, Front(log), from)
      + if Last(log).Restores? && !fates(|log| - 1, Last(log)).Works? then {Last(log).path} else {}
  }

  /** The calls whose failure ends a new backup, or the pruning. Looking at a source, and reading the directory or a
      manifest for the listing, may fail without ending it. */
  predicate Fatal(call: Call) {
    call in {MakesDirectory, WritesManifest, WritesMarker} || call.Copies? || call.RemovesBackup?
  }

  /** None of these has failed from call number `from` on. */
  ghost predicate NoneFatal(fates: BackupFates, log: seq<Call>, from: nat) {
    forall k :: from <= k < |log| && Fatal(log[k]) ==> fates(k, log[k]).Works?
  }

  /** The log has grown by calls that were not about a file of a restore. */
  ghost predicate NoFiles(before: seq<Call>, after: seq<Call>) {
    before <= after && forall c :: |before| <= c < |after| ==> !after[c].Restores?
  }

  /** A listing of the directory: every backup once, in any order. */
  ghost predicate ListsAll(listing: seq<Id>, backups: Backups) {
    Distinct(listing) && forall id :: id in listing <==> id in backups
  }

  class BackupService {
    const fates: BackupFates
    var files: Fs
    var backups: Backups
    var log: seq<Call>
    const max: nat
    /** What the files held when each backup was made. */
    ghost var taken: map<Id, Fs>
    /** Two backups were begun in the same millisecond and share a directory. */
    ghost var collided: bool

    /** Unless directories collided, every listed backup holds copies of what the files held. */
    ghost predicate Valid()
      reads this
    {
      !collided ==> Faithful(backups, taken)
    }

    /** Every call made from number `from` on has worked. */
    ghost predicate AllWork(from: nat)
      reads this`log
    {
      Calls.AllWork(fates, log, from)
    }

    constructor (files: Fs, maxBackups: Option<int>, fates: BackupFates)
      ensures Valid() && this.files == files && backups == map[] && max == MaxBackups(maxBackups) && !collided
      ensures this.fates == fates && log == []
    {
      this.files, backups, log := files, map[], [];
      this.fates := fates;
      taken, collided := map[], false;
      max := MaxBackups(maxBackups);
    }

    method Make(call: Call) returns (works: bool)
      modifies this`log
      ensures log == old(log) + [call] && works == fates(|old(log)|, call).Works?
    {
      works := fates(|log|, call).Works?;
      log := log + [call];
    }

    method Now() returns (time: Time)
    {
      time := *;
    }

    /** The directory, in any order; `None` where it cannot be read. */
    method ReadDirectory() returns (listing: Option<seq<Id>>)
      modifies this`log
      ensures log == old(log) + [ReadsDirectory]
      ensures listing.Some? <==> fates(|old(log)|, ReadsDirectory).Works?
      ensures listing.Some? ==> ListsAll(listing.value, backups)
    {
      var works := Make(ReadsDirectory);
      if !works {
        return None;
      }
      var left, ids := backups.Keys, [];
      while left != {}
        invariant Distinct(ids) && left <= backups.Keys
        invariant forall id :: id in ids <==> id in backups && id !in left
        decreases left
      {
        var id :| id in left;
        left, ids := left - {id}, ids + [id];
      }
      return Some(ids);
    }

    /** The backups newest first. A backup is left out only when its manifest, or the directory, could not be read.
        `seen` are the directories that were looked into. */
    method ListBackups() returns (ranked: seq<Summary>, ghost seen: seq<Id>)
      modifies this`log
      ensures NoFiles(old(log), log) && old(log) <= log
      ensures Distinct(seen) && (forall id :: id in seen ==> id in backups)
      ensures ranked == Ranked(backups, seen) && Lists(ranked, backups, seen)
      ensures LookedInto(backups, seen, fates, log, |old(log)|)
      ensures AllWork(|old(log)|) ==> ListsAll(seen, backups)
      ensures NoneFatal(fates, log, |old(log)|)
    {
      hide Ranked, Lists, LookedInto, ListsAll, Distinct, NoFiles, Calls.AllWork, NoneFatal;
      ghost var start := log;
      var listing := ReadDirectory();
      NoFilesStart(fates, start);
      NoFilesStep(fates, start, start, ReadsDirectory);
      if listing.None? {
        NothingLookedInto(backups, fates, log, |start|);
        return [], [];
      }
      ghost var middle := log;
      ranked, seen := ReadManifests(listing.value);
      NoFilesThen(fates, start, middle, log);
      LookedEarlier(backups, seen, fates, log, |start|, |middle|);
    }

    /** The loop over the directories. */
    method ReadManifests(listing: seq<Id>) returns (ranked: seq<Summary>, ghost seen: seq<Id>)
      requires ListsAll(listing, backups)
      modifies this`log
      ensures NoFiles(old(log), log) && old(log) <= log
      ensures Distinct(seen) && (forall id :: id in seen ==> id in backups)
      ensures ranked == Ranked(backups, seen) && Lists(ranked, backups, seen)
      ensures LookedInto(backups, seen, fates, log, |old(log)|)
      ensures AllWork(|old(log)|) ==> ListsAll(seen, backups)
      ensures NoneFatal(fates, log, |old(log)|)
    {
      hide Ranked, Lists, NoFiles, Calls.AllWork, Calls.Failed, Summaries, NoneFatal;
      var summaries: seq<Summary> := [];
      ghost var start := log;
      seen := [];
      NoFilesStart(fates, start);
      NoSummaries(backups, seen);
      for k := 0 to |listing|
        invariant NoFiles(start, log) && start <= log
        invariant Distinct(seen) && forall id :: id in seen ==> id in listing[..k]
        invariant forall id :: id in listing[..k] && id !in seen ==>
          Calls.Failed(fates, log, |start|, ReadsManifest(id))
        invariant AllWork(|start|) ==> seen == listing[..k]
        invariant NoneFatal(fates, log, |start|)
        invariant summaries == Summaries(backups, seen)
      {
        var id := listing[k];
        assert listing[..k + 1] == listing[..k] + [id] && id !in listing[..k];
        ghost var before := log;
        var works := Make(ReadsManifest(id));
        NoFilesStep(fates, start, before, ReadsManifest(id));
        FailedStays(fates, before, |start|, ReadsManifest(id));
        if !works {
          continue;
        }
        SummariesNext(backups, seen, id);
        if Listed(backups, id) {
          summaries := summaries + [Summary(id, CreatedAt(backups, id))];
        }
        seen := seen + [id];
      }
      assert listing[..|listing|] == listing;
      RankedIs(backups, seen);
      ranked := NewestFirst.Sort(summaries, Times());
    }

    /** Deletes the backups beyond the limit, oldest last in the listing; `None` exactly where a deletion throws. */
    method PruneOldBackups() returns (removed: Option<seq<Id>>, ghost seen: seq<Id>)
      modifies this`backups, this`log
      ensures NoFiles(old(log), log) && old(log) <= log
      ensures OnlyOldGone(old(backups), backups, max)
      ensures Distinct(seen) && (forall id :: id in seen ==> id in old(backups))
      ensures LookedInto(old(backups), seen, fates, log, |old(log)|)
      ensures removed.Some? ==> backups == Pruned(old(backups), seen, max)
      ensures removed.Some? ==> Gone(old(backups), backups, removed.value)
      ensures removed.Some? <==> NoneFatal(fates, log, |old(log)|)
      ensures AllWork(|old(log)|) ==> removed.Some? && ListsAll(seen, old(backups))
    {
      hide Ranked, Rank, Lists, IdsOf, OnlyOldGone, Pruned, LookedInto, ListsAll, NoFiles, Calls.AllWork, NoneFatal;
      ghost var before, start := backups, log;
      var ranked;
      ranked, seen := ListBackups();
      PrunedTo(before, seen, max);
      if |ranked| <= max {
        return Some([]), seen;
      }
      var ids := [];
      for k := max to |ranked|
        invariant NoFiles(start, log) && start <= log
        invariant backups == before - IdsOf(ranked[max..k])
        invariant Gone(before, backups, ids)
        invariant LookedInto(before, seen, fates, log, |start|)
        invariant AllWork(|start|) ==> ListsAll(seen, before)
        invariant NoneFatal(fates, log, |start|)
      {
        OnlyOldDropped(before, seen, ranked, max, k);
        GoneNext(before, seen, ranked, max, k, ids);
        ghost var earlier := log;
        var works := Make(RemovesBackup(ranked[k].id));
        NoFilesStep(fates, start, earlier, RemovesBackup(ranked[k].id));
        LookedLater(before, seen, fates, earlier, |start|, RemovesBackup(ranked[k].id));
        if !works {
          return None, seen;
        }
        backups := backups - {ranked[k].id};
        ids := ids + [ranked[k].id];
        NextDropped(ranked, max, k);
        assert backups == before - IdsOf(ranked[max..k + 1]);
      }
      OnlyOldDropped(before, seen, ranked, max, |ranked|);
      assert ranked[max..|ranked|] == ranked[max..];
      return Some(ids), seen;
    }

    /** Copies the sources that exist into a new directory, writes the manifest, then prunes. Not `ok` exactly where one
        of the fatal calls throws; a directory left without manifest is never listed. `dir` is what the new directory
        held before pruning, `seen` what the pruning looked into. */
    method CreateBackup(workspaceRoot: Option<Path>, sources: seq<Entry>)
      returns (id: Id, ok: bool, ghost dir: Dir, ghost seen: seq<Id>)
      requires Valid() && OwnPlaces(sources)
      modifies this`backups, this`log, this`taken, this`collided
      ensures Valid() && NoFiles(old(log), log) && old(log) <= log
      ensures collided == (old(collided) || id in old(backups)) && taken == old(taken)[id := files]
      ensures OneMore(old(backups), backups, id, max)
      ensures ok <==> NoneFatal(fates, log, |old(log)|)
      ensures ok ==> Distinct(seen) && backups == Pruned(old(backups)[id := dir], seen, max)
      ensures ok ==>
        && dir.manifest.Some? && dir.manifest.value.workspaceRoot == workspaceRoot
        && CopiedFrom(files, dir.manifest.value.entries, dir.copies)
        && Complete(files, sources, dir.manifest.value.entries, fates, log, |old(log)|)
      ensures AllWork(|old(log)|) ==>
        && ok && ListsAll(seen, old(backups)[id := dir])
        && dir.manifest.value.entries == EntriesOf(files, sources)
        && dir.copies == CopiesOf(files, sources, if id in old(backups) then old(backups)[id].copies else map[])
    {
      hide Rank, Pruned, Faithful, CopiedFrom, OwnPlaces, Distinct, OneMore, OnlyOldGone, Listed, NoFiles, ListsAll;
      hide Complete, EntriesOf, CopiesOf, Calls.AllWork, NoneFatal;
      ghost var before, past, start := backups, taken, log;
      seen := [];
      id := Now();
      dir := Dir(None, map[]);
      collided := collided || id in backups;
      taken := taken[id := files];
      NoDirectory(before, past, id, files);
      NoneGone(backups, max);
      ShiftedKept(before, backups, backups, id, max);
      var made := Make(MakesDirectory);
      NoFilesStart(fates, start);
      NoFilesStep(fates, start, start, MakesDirectory);
      if !made {
        return id, false, dir, seen;
      }
      ghost var middle := log;
      var place := if id in backups then backups[id] else Dir(None, map[]);
      var filled, whole := FillDirectory(place, workspaceRoot, sources);
      NoFilesThen(fates, start, middle, log);
      dir := filled;
      backups := backups[id := filled];
      FaithfulMore(before, past, id, filled, files);
      NoneGone(backups, max);
      ShiftedKept(before, backups, backups, id, max);
      if !whole {
        return id, false, dir, seen;
      }
      CompleteFrom(files, sources, dir.manifest.value.entries, fates, log, |start|, |middle|);
      middle := log;
      ok, seen := FinishBackup(start, before, id, dir, dir.manifest.value.entries, sources);
      WorkThen(fates, start, middle, log);
    }

    /** The copies and the manifest of a new directory. */
    method FillDirectory(start: Dir, workspaceRoot: Option<Path>, sources: seq<Entry>) returns (dir: Dir, ok: bool)
      requires OwnPlaces(sources)
      modifies this`log
      ensures NoFiles(old(log), log) && old(log) <= log
      ensures dir.manifest.Some? ==> CopiedFrom(files, dir.manifest.value.entries, dir.copies) || start.manifest.Some?
      ensures ok ==>
        && dir.manifest.Some? && dir.manifest.value.workspaceRoot == workspaceRoot
        && CopiedFrom(files, dir.manifest.value.entries, dir.copies)
        && Complete(files, sources, dir.manifest.value.entries, fates, log, |old(log)|)
      ensures AllWork(|old(log)|) ==>
        && ok && dir.manifest.value.entries == EntriesOf(files, sources)
        && dir.copies == CopiesOf(files, sources, start.copies)
      ensures ok <==> NoneFatal(fates, log, |old(log)|)
    {
      hide CopiedFrom, OwnPlaces, NoFiles, Complete, EntriesOf, CopiesOf, Calls.AllWork, NoneFatal;
      ghost var before := log;
      var entries;
      dir, entries, ok := CopySources(start, sources);
      if !ok {
        return;
      }
      ghost var middle := log;
      var fate := fates(|log|, WritesManifest);
      var now := Now();
      ok := Make(WritesManifest);
      NoFilesStep(fates, before, middle, WritesManifest);
      CompleteLater(files, sources, entries, fates, middle, |before|, WritesManifest);
      var whole := ok || fate.left.whole;
      dir := dir.(manifest := if whole then Some(Manifest(now, workspaceRoot, entries)) else None);
    }

    /** The marker and the pruning after a backup. */
    method FinishBackup(ghost start: seq<Call>, ghost before: Backups, ghost id: Id, ghost dir: Dir,
                        ghost entries: seq<Entry>, ghost sources: seq<Entry>)
      returns (ok: bool, ghost seen: seq<Id>)
      requires Valid() && NoFiles(start, log) && start <= log && backups == before[id := dir]
      requires Complete(files, sources, entries, fates, log, |start|)
      modifies this`backups, this`log
      ensures Valid() && NoFiles(start, log) && old(log) <= log
      ensures OneMore(before, backups, id, max)
      ensures ok ==> Distinct(seen) && backups == Pruned(before[id := dir], seen, max)
      ensures Complete(files, sources, entries, fates, log, |start|)
      ensures AllWork(|old(log)|) ==> ok && ListsAll(seen, before[id := dir])
      ensures ok <==> NoneFatal(fates, log, |old(log)|)
    {
      hide Rank, Pruned, Faithful, OneMore, OnlyOldGone, Listed, NoFiles, ListsAll, Complete, Gone, Distinct;
      hide LookedInto, Calls.AllWork, NoneFatal;
      ghost var written, begun := backups, log;
      NoneGone(backups, max);
      ShiftedKept(before, written, backups, id, max);
      var marked := Make(WritesMarker);
      NoFilesStep(fates, start, begun, WritesMarker);
      CompleteLater(files, sources, entries, fates, begun, |start|, WritesMarker);
      NoFilesStart(fates, begun);
      NoFilesStep(fates, begun, begun, WritesMarker);
      if !marked {
        return false, [];
      }
      ghost var middle := log;
      var removed;
      removed, seen := PruneOldBackups();
      NoFilesThen(fates, start, middle, log);
      WorkThen(fates, begun, middle, log);
      CompleteMore(files, sources, entries, fates, middle, log, |start|);
      FaithfulLess(written, backups, taken, max);
      ShiftedKept(before, written, backups, id, max);
      ok := removed.Some?;
    }

    /** `copyIfExists` for each source; a source that cannot be seen is skipped, a copy that throws ends it. */
    method CopySources(start: Dir, sources: seq<Entry>) returns (dir: Dir, entries: seq<Entry>, ok: bool)
      requires OwnPlaces(sources)
      modifies this`log
      ensures NoFiles(old(log), log) && old(log) <= log
      ensures dir.manifest == start.manifest
      ensures ok ==> CopiedFrom(files, entries, dir.copies)
      ensures forall k :: 0 <= k < |entries| ==> entries[k] in sources
      ensures ok ==> Complete(files, sources, entries, fates, log, |old(log)|)
      ensures ok <==> NoneFatal(fates, log, |old(log)|)
      ensures AllWork(|old(log)|) ==>
        && ok && entries == EntriesOf(files, sources)
        && dir.copies == CopiesOf(files, sources, start.copies)
    {
      hide EntriesOf, CopiesOf, Complete, NoFiles, Calls.AllWork, NoneFatal;
      entries, dir := [], start;
      ghost var begun := log;
      NothingCopied(files, sources[..0], start.copies, fates, log, |begun|);
      NoFilesStart(fates, begun);
      for k := 0 to |sources|
        invariant NoFiles(begun, log) && begun <= log
        invariant dir.manifest == start.manifest
        invariant CopiedFrom(files, entries, dir.copies)
        invariant forall j :: 0 <= j < |entries| ==> entries[j] in sources[..k]
        invariant Complete(files, sources[..k], entries, fates, log, |begun|)
        invariant AllWork(|begun|) ==>
          entries == EntriesOf(files, sources[..k]) && dir.copies == CopiesOf(files, sources[..k], start.copies)
        invariant NoneFatal(fates, log, |begun|)
      {
        var source := sources[k];
        assert sources[..k + 1] == sources[..k] + [source];
        CopiedNext(files, sources[..k], source, start.copies);
        ghost var before := log;
        var seen := Make(LooksAt(source.originalPath));
        NoFilesStep(fates, begun, before, LooksAt(source.originalPath));
        CompleteNext(files, sources[..k], source, entries, fates, before, |begun|, LooksAt(source.originalPath));
        if !seen || source.originalPath !in files {
          continue;
        }
        before := log;
        var fate := fates(|log|, Copies(source.originalPath));
        var copied := Make(Copies(source.originalPath));
        NoFilesStep(fates, begun, before, Copies(source.originalPath));
        if !copied {
          var place, left := source.backupRelativePath, fate.left.content;
          dir := dir.(copies := if left.Some? then dir.copies[place := left.value] else dir.copies - {place});
          return dir, entries, false;
        }
        CompleteLater(files, sources[..k], entries, fates, before, |begun|, Copies(source.originalPath));
        CompleteAdds(files, sources[..k], source, entries, fates, log, |begun|);
        dir := dir.(copies := dir.copies[source.backupRelativePath := files[source.originalPath]]);
        entries := entries + [source];
      }
      assert sources[..|sources|] == sources;
      return dir, entries, true;
    }

    /** A restore: first a safety backup, whose failure is ignored, then the copies one by one. Where the backup is
        still there after that, every file of its manifest is as it was when the backup was made, except exactly those
        whose copy failed, which are the errors; no other file has changed. A backup whose rank leaves room for the
        safety backup is still there. Where it is gone, nothing is restored and every file is an error. */
    method RestoreFromBackup(id: Id, sources: seq<Entry>)
      returns (r: Option<RestoreSummary>, ghost safety: Id, ghost dir: Dir, ghost seen: seq<Id>)
      requires Valid() && OwnPlaces(sources)
      modifies this
      ensures Valid() && old(log) <= log
      ensures r.None? ==> files == old(files) && backups == old(backups)
      ensures r.Some? <==> fates(|old(log)|, ReadsManifest(id)).Works? && Listed(old(backups), id)
      ensures r.Some? ==> collided == (old(collided) || safety in old(backups))
      ensures r.Some? ==> taken == old(taken)[safety := old(files)] && OneMore(old(backups), backups, safety, max)
      ensures r.Some? && safety !in old(backups) && Rank(old(backups), id) + 1 < max ==> id in backups
      ensures r.Some? && !collided && id in backups ==>
        && id in old(taken)
        && Elements(r.value.errors) == FailedFiles(fates, log, |old(log)|)
        && BroughtBack(old(taken)[id], old(files), files, old(backups)[id].manifest.value.entries,
                       Elements(r.value.errors))
        && AllNamed(old(backups)[id].manifest.value.entries, r.value)
      ensures r.Some? && !collided && id in backups ==>
        var entries := old(backups)[id].manifest.value.entries;
        && |entries| <= |log|
        && CopiedBack(fates, |log| - |entries|, entries, old(backups)[id].copies, old(files), files)
      ensures r.Some? && id !in backups ==>
        && files == old(files) && r.value.restoredFiles == []
        && r.value.errors == Originals(old(backups)[id].manifest.value.entries)
      ensures AllWork(|old(log)|) ==>
        && (r.Some? ==> dir.manifest.Some? && dir.manifest.value.entries == EntriesOf(old(files), sources)
                        && ListsAll(seen, old(backups)[safety := dir])
                        && backups == Pruned(old(backups)[safety := dir], seen, max))
        && (r.Some? && !collided && id in backups ==> r.value.errors == [])
    {
      hide Rank, Faithful, BroughtBack, RestoredFiles, Pruned, CopiedFrom, OwnPlaces, Distinct, NoFiles, ListsAll;
      hide FailedFiles, Complete, EntriesOf, CopiesOf, AllNamed, Elements, Calls.AllWork, Originals, NoneFatal;
      hide CopiedBack;
      safety, dir, seen := 0, Dir(None, map[]), [];
      ghost var start := log;
      NoFilesStart(fates, start);
      var works := Make(ReadsManifest(id));
      NoFilesStep(fates, start, start, ReadsManifest(id));
      if !works || !Listed(backups, id) {
        return None, safety, dir, seen;
      }
      var manifest := backups[id].manifest.value;
      ghost var before, past, began, middle := backups, taken, files, log;
      var newest, ignored;
      newest, ignored, dir, seen := CreateBackup(manifest.workspaceRoot, sources);
      safety := newest;
      NoFilesThen(fates, start, middle, log);
      if !collided && id in backups {
        HoldsAll(before, past, id);
      }
      NoneFailedYet(fates, start, log);
      middle := log;
      var summary := CopyBack(id, manifest.entries, |start|);
      r := Some(summary);
      if !collided && id in backups {
        BackAsTaken(before, past, id, began, files, Elements(summary.errors));
      }
      WorkThen(fates, start, middle, log);
    }

    /** The copies, one by one. */
    method CopyBack(id: Id, entries: seq<Entry>, ghost from: nat) returns (summary: RestoreSummary)
      requires FailedFiles(fates, log, from) == {} && from <= |log|
      modifies this`files, this`log
      ensures old(log) <= log
      ensures id in backups && AllCopied(entries, backups[id].copies) ==>
        && Elements(summary.errors) == FailedFiles(fates, log, from)
        && AgreeOutside(files, RestoredFiles(old(files), entries, backups[id].copies), Elements(summary.errors))
        && AllNamed(entries, summary)
        && (AllWork(|old(log)|) ==> summary.errors == [])
        && |log| == |old(log)| + |entries|
        && CopiedBack(fates, |old(log)|, entries, backups[id].copies, old(files), files)
      ensures id !in backups ==>
        files == old(files) && summary.restoredFiles == [] && summary.errors == Originals(entries)
    {
      hide RestoredFiles, FailedFiles, AllNamed, Elements, AllCopied, Calls.AllWork, CopiedBack;
      ghost var start := log;
      var restored: seq<Path>, errors: seq<Path> := [], [];
      NothingBack(files, entries[..0], if id in backups then backups[id].copies else map[]);
      NothingLeft(fates, |start|, entries[..0], if id in backups then backups[id].copies else map[], files);
      for k := 0 to |entries|
        invariant start <= log && from <= |log|
        invariant id !in backups ==> files == old(files) && restored == [] && errors == Originals(entries[..k])
        invariant id in backups && AllCopied(entries, backups[id].copies) ==>
          && Elements(errors) == FailedFiles(fates, log, from)
          && AgreeOutside(files, RestoredFiles(old(files), entries[..k], backups[id].copies), Elements(errors))
          && AllNamed(entries[..k], RestoreSummary(restored, errors))
          && (AllWork(|start|) ==> errors == [])
          && |log| == |start| + k
          && CopiedBack(fates, |start|, entries[..k], backups[id].copies, old(files), files)
      {
        assert Front(entries[..k + 1]) == entries[..k] && entries[..k + 1] == entries[..k] + [entries[k]];
        var entry := entries[k];
        ghost var before, was, now := log, errors, files;
        if id !in backups {
          errors := errors + [entry.originalPath];
          continue;
        }
        CopyThere(entries, backups[id].copies, k);
        var fate := fates(|log|, Restores(entry.originalPath));
        var works := Make(Restores(entry.originalPath));
        FailedFilesMore(fates, before, from, Restores(entry.originalPath));
        NoFilesStep(fates, start, before, Restores(entry.originalPath));
        var copies := backups[id].copies;
        if entry.backupRelativePath !in copies {
          errors := errors + [entry.originalPath];
          continue;
        }
        if !works {
          var left := fate.left.content;
          files := if left.Some? then files[entry.originalPath := left.value] else files - {entry.originalPath};
          errors := errors + [entry.originalPath];
        } else {
          files := files[entry.originalPath := copies[entry.backupRelativePath]];
          restored := restored + [entry.originalPath];
        }
        if AllCopied(entries, copies) {
          BackNext(old(files), now, files, entries[..k], entry, copies, was, errors, !works);
          NamedNext(entries[..k], entry, RestoreSummary(restored, was), restored, errors, !works);
          LeftNext(fates, |start|, entries[..k], entry, copies, old(files), now, files);
        }
      }
      assert entries[..|entries|] == entries;
      summary := RestoreSummary(restored, errors);
    }
  }

  /** What copying back, one call for each entry from number `n` on, leaves in a file. */
  function ContentBack(fates: BackupFates, n: nat, entries: seq<Entry>, copies: Fs, path: Path, before: Option<string>)
    : Option<string>
  {
    if entries == [] then before
    else if Last(entries).originalPath != path then ContentBack(fates, n, Front(entries), copies, path, before)
    else
      var fate := fates(n + |entries| - 1, Restores(path));
      if fate.Works? then Lookup(copies, Last(entries).backupRelativePath) else fate.left.content
  }

  /** Every file holds what the calls from number `n` on have left in it. */
  ghost predicate CopiedBack(fates: BackupFates, n: nat, entries: seq<Entry>, copies: Fs, before: Fs, now: Fs) {
    forall path :: Lookup(now, path) == ContentBack(fates, n, entries, copies, path, Lookup(before, path))
  }

  predicate Named(entries: seq<Entry>, path: Path) {
    exists k :: 0 <= k < |entries| && entries[k].originalPath == path
  }

  function Originals(entries: seq<Entry>): seq<Path> {
    if entries == [] then [] else Originals(Front(entries)) + [Last(entries).originalPath]
  }

  /** Every file is named, as restored or as an error. */
  predicate AllNamed(entries: seq<Entry>, summary: RestoreSummary) {
    forall k :: 0 <= k < |entries| ==> entries[k].originalPath in summary.restoredFiles + summary.errors
  }

  /** Every entry has its copy. */
  predicate AllCopied(entries: seq<Entry>, copies: Fs) {
    forall k :: 0 <= k < |entries| ==> entries[k].backupRelativePath in copies
  }

  /** A backup was left out only because its manifest, or the directory, could not be read. */
  ghost predicate LookedInto(backups: Backups, seen: seq<Id>, fates: BackupFates, log: seq<Call>, from: nat) {
    forall id :: id in backups && id !in seen ==>
      Calls.Failed(fates, log, from, ReadsManifest(id)) || Calls.Failed(fates, log, from, ReadsDirectory)
  }

  /** Every source that exists has an entry, unless a call on it failed. */
  ghost predicate Complete(files: Fs, sources: seq<Entry>, entries: seq<Entry>, fates: BackupFates, log: seq<Call>,
                           from: nat)
  {
    forall k :: 0 <= k < |sources| && sources[k].originalPath in files ==>
      sources[k] in entries || Calls.Failed(fates, log, from, LooksAt(sources[k].originalPath))
  }

  /** The ids are exactly those of the backups that are gone. */
  ghost predicate Gone(before: Backups, now: Backups, ids: seq<Id>) {
    forall id :: id in ids <==> id in before && id !in now
  }

  /** Except for `faults`, the files named are as `past` had them, and the others have not changed. */
  ghost predicate BroughtBack(past: Fs, before: Fs, now: Fs, entries: seq<Entry>, faults: set<Path>) {
    forall path :: path !in faults ==>
      Lookup(now, path) == if Named(entries, path) then Lookup(past, path) else Lookup(before, path)
  }

  ghost predicate Faithful(backups: Backups, taken: map<Id, Fs>) {
    forall id :: Listed(backups, id) ==>
      id in taken && CopiedFrom(taken[id], backups[id].manifest.value.entries, backups[id].copies)
  }

  // Steps of the proofs

  lemma FaithfulMore(before: Backups, past: map<Id, Fs>, id: Id, dir: Dir, files: Fs)
    requires dir.manifest.Some? ==> CopiedFrom(files, dir.manifest.value.entries, dir.copies) || id in before
    ensures Faithful(before, past) && id !in before ==> Faithful(before[id := dir], past[id := files])
  {
    hide CopiedFrom;
  }

  lemma NoDirectory(before: Backups, past: map<Id, Fs>, id: Id, files: Fs)
    ensures Faithful(before, past) && id !in before ==> Faithful(before, past[id := files])
  {
    hide CopiedFrom;
  }

  lemma FaithfulLess(before: Backups, now: Backups, taken: map<Id, Fs>, max: nat)
    requires OnlyOldGone(before, now, max)
    ensures Faithful(before, taken) ==> Faithful(now, taken)
  {
    hide CopiedFrom, Rank;
  }

  lemma BackAsTaken(backups: Backups, taken: map<Id, Fs>, id: Id, start: Fs, now: Fs, faults: set<Path>)
    requires Faithful(backups, taken) && Listed(backups, id)
    requires AgreeOutside(now, RestoredFiles(start, backups[id].manifest.value.entries, backups[id].copies), faults)
    ensures id in taken
    ensures BroughtBack(taken[id], start, now, backups[id].manifest.value.entries, faults)
  {
    var entries, copies := backups[id].manifest.value.entries, backups[id].copies;
    assert CopiedFrom(taken[id], entries, copies);
    hide Faithful, RestoredFiles;
    forall path | path !in faults
      ensures Lookup(now, path) == if Named(entries, path) then Lookup(taken[id], path) else Lookup(start, path)
    {
      RestoreBringsBack(taken[id], start, entries, copies, path);
    }
  }

  lemma HoldsAll(backups: Backups, taken: map<Id, Fs>, id: Id)
    requires Faithful(backups, taken) && Listed(backups, id)
    ensures AllCopied(backups[id].manifest.value.entries, backups[id].copies)
  {
    var entries, copies := backups[id].manifest.value.entries, backups[id].copies;
    assert CopiedFrom(taken[id], entries, copies);
    forall k | 0 <= k < |entries|
      ensures entries[k].backupRelativePath in copies
    {
      assert Lookup(copies, entries[k].backupRelativePath).Some?;
    }
  }

  lemma CopyThere(entries: seq<Entry>, copies: Fs, k: nat)
    requires k < |entries|
    ensures AllCopied(entries, copies) ==> entries[k].backupRelativePath in copies
  {
  }

  lemma NothingBack(files: Fs, none: seq<Entry>, copies: Fs)
    requires none == []
    ensures AgreeOutside(files, RestoredFiles(files, none, copies), Elements<Path>([]))
    ensures AllNamed(none, RestoreSummary([], [])) && Elements<Path>([]) == {} && Originals(none) == []
  {
  }

  lemma NothingLeft(fates: BackupFates, n: nat, none: seq<Entry>, copies: Fs, files: Fs)
    requires none == []
    ensures CopiedBack(fates, n, none, copies, files, files)
  {
  }

  lemma LeftNext(fates: BackupFates, n: nat, entries: seq<Entry>, entry: Entry, copies: Fs, start: Fs, before: Fs,
                 now: Fs)
    requires CopiedBack(fates, n, entries, copies, start, before) && AgreeOutside(now, before, {entry.originalPath})
    requires var fate := fates(n + |entries|, Restores(entry.originalPath));
      Lookup(now, entry.originalPath)
        == if fate.Works? then Lookup(copies, entry.backupRelativePath) else fate.left.content
    ensures CopiedBack(fates, n, entries + [entry], copies, start, now)
  {
    var all := entries + [entry];
    assert Front(all) == entries;
    forall path
      ensures Lookup(now, path) == ContentBack(fates, n, all, copies, path, Lookup(start, path))
    {
      assert path != entry.originalPath ==> Lookup(now, path) == Lookup(before, path);
    }
  }

  lemma BackNext(start: Fs, before: Fs, now: Fs, entries: seq<Entry>, entry: Entry, copies: Fs, was: seq<Path>,
                 errors: seq<Path>, fails: bool)
    requires entry.backupRelativePath in copies
    requires AgreeOutside(before, RestoredFiles(start, entries, copies), Elements(was))
    requires errors == was + if fails then [entry.originalPath] else []
    requires if fails then AgreeOutside(now, before, {entry.originalPath})
             else now == before[entry.originalPath := copies[entry.backupRelativePath]]
    ensures AgreeOutside(now, RestoredFiles(start, entries + [entry], copies), Elements(errors))
    ensures Elements(errors) == Elements(was) + if fails then {entry.originalPath} else {}
  {
    var restored := RestoredFiles(start, entries, copies);
    assert Front(entries + [entry]) == entries;
    forall path | path !in Elements(errors)
      ensures Lookup(now, path) == Lookup(RestoredFiles(start, entries + [entry], copies), path)
    {
      assert path !in Elements(was);
      assert Lookup(before, path) == Lookup(restored, path);
    }
  }

  lemma NamedNext(entries: seq<Entry>, entry: Entry, was: RestoreSummary, restored: seq<Path>, errors: seq<Path>,
                  fails: bool)
    requires var before := if fails || restored == [] then restored else Front(restored);
      AllNamed(entries, RestoreSummary(before, was.errors))
    requires errors == was.errors + if fails then [entry.originalPath] else []
    requires fails || (restored != [] && Last(restored) == entry.originalPath)
    ensures AllNamed(entries + [entry], RestoreSummary(restored, errors))
  {
    var all := entries + [entry];
    forall k | 0 <= k < |all|
      ensures all[k].originalPath in restored + errors
    {
      if k < |entries| {
        assert all[k] == entries[k];
      }
    }
  }

  lemma FailedFilesMore(fates: BackupFates, log: seq<Call>, from: nat, call: Call)
    requires from <= |log|
    ensures FailedFiles(fates, log + [call], from)
         == FailedFiles(fates, log, from) + if call.Restores? && !fates(|log|, call).Works? then {call.path} else {}
  {
    assert Front(log + [call]) == log;
  }

  lemma {:induction false} NoneFailedYet(fates: BackupFates, start: seq<Call>, log: seq<Call>)
    requires NoFiles(start, log)
    ensures FailedFiles(fates, log, |start|) == {}
    decreases |log|
  {
    if |log| > |start| {
      assert start <= Front(log);
      NoneFailedYet(fates, start, Front(log));
    }
  }

  lemma NoFilesStart(fates: BackupFates, log: seq<Call>)
    ensures NoFiles(log, log) && Calls.AllWork(fates, log, |log|) && NoneFatal(fates, log, |log|)
  {
  }

  /** One more call: about no file if it is, and all have worked if they had and it does. */
  lemma NoFilesStep(fates: BackupFates, start: seq<Call>, log: seq<Call>, call: Call)
    requires start <= log
    ensures start <= log + [call]
    ensures (start == log || NoFiles(start, log)) && !call.Restores? ==> NoFiles(start, log + [call])
    ensures Calls.AllWork(fates, log + [call], |start|) <==>
      Calls.AllWork(fates, log, |start|) && fates(|log|, call).Works?
    ensures NoneFatal(fates, log + [call], |start|) <==>
      NoneFatal(fates, log, |start|) && (Fatal(call) ==> fates(|log|, call).Works?)
  {
    var more := log + [call];
    hide Fatal;
    assert more[|log|] == call && forall k :: 0 <= k < |log| ==> more[k] == log[k];
  }

  lemma WorkThen(fates: BackupFates, a: seq<Call>, b: seq<Call>, c: seq<Call>)
    requires a <= b <= c
    ensures Calls.AllWork(fates, c, |a|) <==> Calls.AllWork(fates, b, |a|) && Calls.AllWork(fates, c, |b|)
    ensures NoneFatal(fates, c, |a|) <==> NoneFatal(fates, b, |a|) && NoneFatal(fates, c, |b|)
  {
    hide Fatal;
    assert forall k :: 0 <= k < |b| ==> c[k] == b[k];
  }

  lemma NoFilesThen(fates: BackupFates, a: seq<Call>, b: seq<Call>, c: seq<Call>)
    requires NoFiles(a, b) && NoFiles(b, c)
    ensures NoFiles(a, c) && a <= b <= c
    ensures Calls.AllWork(fates, c, |a|) <==> Calls.AllWork(fates, b, |a|) && Calls.AllWork(fates, c, |b|)
    ensures NoneFatal(fates, c, |a|) <==> NoneFatal(fates, b, |a|) && NoneFatal(fates, c, |b|)
  {
    WorkThen(fates, a, b, c);
  }

  /** A failed call stays one, and the next one may be another. */
  lemma FailedStays(fates: BackupFates, log: seq<Call>, from: nat, call: Call)
    requires from <= |log|
    ensures forall other :: Calls.Failed(fates, log, from, other) ==> Calls.Failed(fates, log + [call], from, other)
    ensures !fates(|log|, call).Works? ==> Calls.Failed(fates, log + [call], from, call)
  {
    var more := log + [call];
    assert more[|log|] == call;
    forall other | Calls.Failed(fates, log, from, other)
      ensures Calls.Failed(fates, more, from, other)
    {
      var c :| from <= c < |log| && log[c] == other && !fates(c, other).Works?;
      assert more[c] == other;
    }
  }

  lemma NothingLookedInto(backups: Backups, fates: BackupFates, log: seq<Call>, from: nat)
    requires from < |log| && log[from] == ReadsDirectory && !fates(from, ReadsDirectory).Works?
    ensures Ranked(backups, []) == [] && Lists([], backups, []) && Distinct<Id>([])
    ensures LookedInto(backups, [], fates, log, from) && !Calls.AllWork(fates, log, from)
  {
  }

  lemma LookedEarlier(backups: Backups, seen: seq<Id>, fates: BackupFates, log: seq<Call>, from: nat, later: nat)
    requires LookedInto(backups, seen, fates, log, later) && from <= later
    ensures LookedInto(backups, seen, fates, log, from)
  {
  }

  lemma LookedLater(backups: Backups, seen: seq<Id>, fates: BackupFates, log: seq<Call>, from: nat, call: Call)
    requires LookedInto(backups, seen, fates, log, from) && from <= |log|
    ensures LookedInto(backups, seen, fates, log + [call], from)
  {
    hide Calls.Failed;
    FailedStays(fates, log, from, call);
  }

  lemma NoSummaries(backups: Backups, none: seq<Id>)
    requires none == []
    ensures Summaries(backups, none) == []
  {
  }

  lemma SummariesNext(backups: Backups, seen: seq<Id>, id: Id)
    ensures Summaries(backups, seen + [id])
         == Summaries(backups, seen) + if Listed(backups, id) then [Summary(id, CreatedAt(backups, id))] else []
  {
    assert Front(seen + [id]) == seen;
  }

  lemma NothingCopied(files: Fs, none: seq<Entry>, copies: Fs, fates: BackupFates, log: seq<Call>, from: nat)
    requires none == []
    ensures EntriesOf(files, none) == [] && CopiesOf(files, none, copies) == copies
    ensures Complete(files, none, [], fates, log, from)
  {
  }

  lemma CopiedNext(files: Fs, sources: seq<Entry>, source: Entry, start: Fs)
    ensures EntriesOf(files, sources + [source])
         == EntriesOf(files, sources) + if source.originalPath in files then [source] else []
    ensures CopiesOf(files, sources + [source], start)
         == if source.originalPath in files
            then CopiesOf(files, sources, start)[source.backupRelativePath := files[source.originalPath]]
            else CopiesOf(files, sources, start)
  {
    assert Front(sources + [source]) == sources;
  }

  lemma CompleteLater(files: Fs, sources: seq<Entry>, entries: seq<Entry>, fates: BackupFates, log: seq<Call>,
                      from: nat, call: Call)
    requires from <= |log|
    ensures Complete(files, sources, entries, fates, log, from) ==>
      Complete(files, sources, entries, fates, log + [call], from)
  {
    hide Calls.Failed;
    FailedStays(fates, log, from, call);
  }

  /** After looking at one more source in vain. */
  lemma CompleteNext(files: Fs, sources: seq<Entry>, source: Entry, entries: seq<Entry>, fates: BackupFates,
                     log: seq<Call>, from: nat, call: Call)
    requires Complete(files, sources, entries, fates, log, from) && from <= |log|
    requires call == LooksAt(source.originalPath)
    ensures Complete(files, sources, entries, fates, log + [call], from)
    ensures source.originalPath !in files || !fates(|log|, call).Works? ==>
      Complete(files, sources + [source], entries, fates, log + [call], from)
  {
    hide Calls.Failed;
    FailedStays(fates, log, from, call);
    var all := sources + [source];
    assert all[|sources|] == source && forall k :: 0 <= k < |sources| ==> all[k] == sources[k];
  }

  lemma CompleteAdds(files: Fs, sources: seq<Entry>, source: Entry, entries: seq<Entry>, fates: BackupFates,
                     log: seq<Call>, from: nat)
    requires Complete(files, sources, entries, fates, log, from)
    ensures Complete(files, sources + [source], entries + [source], fates, log, from)
  {
    hide Calls.Failed;
    var all := sources + [source];
    assert all[|sources|] == source && forall k :: 0 <= k < |sources| ==> all[k] == sources[k];
  }

  lemma CompleteFrom(files: Fs, sources: seq<Entry>, entries: seq<Entry>, fates: BackupFates, log: seq<Call>, from: nat,
                     later: nat)
    requires from <= later
    ensures Complete(files, sources, entries, fates, log, later) ==> Complete(files, sources, entries, fates, log, from)
  {
    forall call | Calls.Failed(fates, log, later, call)
      ensures Calls.Failed(fates, log, from, call)
    {
    }
    hide Calls.Failed;
  }

  lemma CompleteMore(files: Fs, sources: seq<Entry>, entries: seq<Entry>, fates: BackupFates, log: seq<Call>,
                     longer: seq<Call>, from: nat)
    requires Complete(files, sources, entries, fates, log, from) && log <= longer
    ensures Complete(files, sources, entries, fates, longer, from)
  {
    forall call | Calls.Failed(fates, log, from, call)
      ensures Calls.Failed(fates, longer, from, call)
    {
      var c :| from <= c < |log| && log[c] == call && !fates(c, call).Works?;
      assert longer[c] == call;
    }
    hide Calls.Failed;
  }

  lemma RankedIs(backups: Backups, seen: seq<Id>)
    requires Distinct(seen)
    ensures Ranked(backups, seen) == NewestFirst.Sort(Summaries(backups, seen), Times())
    ensures Lists(Ranked(backups, seen), backups, seen)
  {
    RankedLists(backups, seen);
  }

  lemma GoneNext(before: Backups, seen: seq<Id>, ranked: seq<Summary>, max: nat, k: nat, ids: seq<Id>)
    requires Lists(ranked, before, seen) && max <= k < |ranked|
    requires Gone(before, before - IdsOf(ranked[max..k]), ids)
    ensures Gone(before, before - IdsOf(ranked[max..k]) - {ranked[k].id}, ids + [ranked[k].id])
  {
    hide NewestFirst.Sorted, IdsOf;
    assert InDirectory(before, ranked[k]);
  }

  /** Nothing is gone but listed backups at or beyond the limit, and nothing is changed. */
  ghost predicate OnlyOldGone(before: Backups, now: Backups, max: nat) {
    && (forall id :: id in now ==> id in before && now[id] == before[id])
    && (forall id :: id in before && (Listed(before, id) ==> Rank(before, id) < max) ==> id in now)
  }

  lemma PrunedTo(backups: Backups, seen: seq<Id>, max: nat)
    ensures var ranked := Ranked(backups, seen);
      && (|ranked| <= max ==> Pruned(backups, seen, max) == backups && OnlyOldGone(backups, backups, max))
      && (|ranked| > max ==> Pruned(backups, seen, max) == backups - IdsOf(ranked[max..]))
      && (|ranked| > max ==> backups - IdsOf(ranked[max..max]) == backups)
  {
    var ranked := Ranked(backups, seen);
    if |ranked| > max {
      assert ranked[max..max] == [];
      assert IdsOf([]) == {};
    }
  }

  lemma OnlyOldDropped(backups: Backups, seen: seq<Id>, ranked: seq<Summary>, max: nat, k: nat)
    requires Lists(ranked, backups, seen) && max <= k <= |ranked|
    ensures OnlyOldGone(backups, backups - IdsOf(ranked[max..k]), max)
  {
    hide Rank, NewestFirst.Sorted;
    var dropped := ranked[max..k];
    forall i | 0 <= i < |dropped|
      ensures Listed(backups, dropped[i].id) && Rank(backups, dropped[i].id) >= max
    {
      assert dropped[i] == ranked[max + i];
      PlaceAtMostRank(backups, seen, ranked, max + i);
      assert InDirectory(backups, ranked[max + i]);
    }
  }

  lemma NextDropped(ranked: seq<Summary>, max: nat, k: nat)
    requires max <= k < |ranked|
    ensures IdsOf(ranked[max..k + 1]) == IdsOf(ranked[max..k]) + {ranked[k].id}
  {
    var dropped, more := ranked[max..k], ranked[max..k + 1];
    assert more == dropped + [ranked[k]];
    assert more[k - max] == ranked[k];
    forall id
      ensures id in IdsOf(more) <==> id in IdsOf(dropped) || id == ranked[k].id
    {
      if id in IdsOf(dropped) {
        var i :| 0 <= i < |dropped| && dropped[i].id == id;
        assert more[i].id == id;
      }
    }
  }

  /** `now` may have the directory `id` in addition, and has lost only backups that this one directory may
      have pushed to the limit. */
  ghost predicate OneMore(before: Backups, now: Backups, id: Id, max: nat) {
    && (forall other :: other in now && other != id ==> other in before && now[other] == before[other])
    && (id !in before ==> forall other :: Listed(before, other) && Rank(before, other) + 1 < max ==> other in now)
  }

  lemma NoneGone(backups: Backups, max: nat)
    ensures OnlyOldGone(backups, backups, max)
  {
  }

  /** `written` has one new directory at most, so ranks have grown by one at most, and `now` has lost
      nothing below the limit. */
  lemma ShiftedKept(before: Backups, written: Backups, now: Backups, id: Id, max: nat)
    requires forall other :: other != id ==> Lookup(written, other) == Lookup(before, other)
    requires OnlyOldGone(written, now, max)
    ensures OneMore(before, now, id, max)
  {
    forall other | other != id
      ensures other in written <==> other in before
      ensures other in before ==> written[other] == before[other]
    {
      assert Lookup(written, other) == Lookup(before, other);
    }
    if id !in before {
      RanksGrow(before, written, id);
    }
    hide Rank, Listed;
  }

  lemma RanksGrow(before: Backups, written: Backups, id: Id)
    requires id !in before
    requires forall other :: other != id ==> Lookup(written, other) == Lookup(before, other)
    ensures forall other :: Listed(before, other) ==>
      Listed(written, other) && Rank(written, other) <= Rank(before, other) + 1
  {
    forall other | other != id
      ensures other in written <==> other in before
      ensures other in before ==> written[other] == before[other]
    {
      assert Lookup(written, other) == Lookup(before, other);
    }
    hide Rank;
    forall other | Listed(before, other)
      ensures Listed(written, other) && Rank(written, other) <= Rank(before, other) + 1
    {
      if id in written {
        assert written == before[id := written[id]];
        SafetyBackupMovesRank(before, id, written[id], other);
      } else {
        assert written == before;
      }
    }
  }
}
