/** What restoring a list of files leaves in each of them, told from the fates of its calls alone. */
module RestoreTrace {
  import opened Text
  import opened WorkspaceDisk
  import opened RestorePoints

  /** The calls on one file, from number `n` on: a removal, or a write that is read back unless it threw. */
  function FileCalls(fates: DiskFates, n: nat, file: Saved): seq<Call> {
    match file.content
    case None => [Removes(file.path)]
    case Some(text) =>
      if fates(n, Writes(file.path, text)).Throws? then [Writes(file.path, text)]
      else [Writes(file.path, text), Reads(file.path)]
  }

  /** The calls on all files, in order. */
  function RestoreCalls(fates: DiskFates, n: nat, saved: seq<Saved>): seq<Call> {
    if saved == [] then []
    else
      var earlier := RestoreCalls(fates, n, Front(saved));
      earlier + FileCalls(fates, n + |earlier|, Last(saved))
  }

  /** The number of the first call on the file after these. */
  function CallAfter(fates: DiskFates, n: nat, saved: seq<Saved>): nat {
    n + |RestoreCalls(fates, n, saved)|
  }

  /** What the calls on one file leave in it. */
  function ContentLeft(fates: DiskFates, n: nat, file: Saved, before: Option<string>): Option<string> {
    match file.content
    case None => if fates(n, Removes(file.path)).Works? then None else before
    case Some(text) => LeftBy(fates(n, Writes(file.path, text)), text)
  }

  /** What the calls on all files leave in this one. */
  function FinalContent(fates: DiskFates, n: nat, saved: seq<Saved>, path: Path, before: Option<string>)
    : Option<string>
  {
    if saved == [] then before
    else
      var left := FinalContent(fates, n, Front(saved), path, before);
      if Last(saved).path == path then ContentLeft(fates, CallAfter(fates, n, Front(saved)), Last(saved), left)
      else left
  }

  /** Every file holds what the calls from number `n` on have left in it. */
  ghost predicate Leaves(fates: DiskFates, n: nat, saved: seq<Saved>, before: Fs, now: Fs) {
    forall path :: Lookup(now, path) == FinalContent(fates, n, saved, path, Lookup(before, path))
  }

  /** The log ends with the reading of the point as call number `c` and then the restore of its files. */
  ghost predicate RestoredBy(fates: DiskFates, log: seq<Call>, c: nat, id: Id, saved: seq<Saved>, before: Fs, now: Fs) {
    && c < |log| && log[c] == ReadsPoint(id) && fates(c, ReadsPoint(id)).Works?
    && log == log[..c + 1] + RestoreCalls(fates, c + 1, saved)
    && Leaves(fates, c + 1, saved, before, now)
  }

  lemma NothingLeft(fates: DiskFates, n: nat, none: seq<Saved>, files: Fs)
    requires none == []
    ensures RestoreCalls(fates, n, none) == [] && Leaves(fates, n, none, files, files)
  {
  }

  lemma NextLeft(fates: DiskFates, n: nat, saved: seq<Saved>, file: Saved, start: Fs, before: Fs, now: Fs)
    requires Leaves(fates, n, saved, start, before) && AgreeOutside(now, before, {file.path})
    requires Lookup(now, file.path)
          == ContentLeft(fates, CallAfter(fates, n, saved), file, Lookup(before, file.path))
    ensures Leaves(fates, n, saved + [file], start, now)
    ensures RestoreCalls(fates, n, saved + [file])
         == RestoreCalls(fates, n, saved) + FileCalls(fates, CallAfter(fates, n, saved), file)
  {
    hide ContentLeft, FileCalls;
    assert Front(saved + [file]) == saved;
    forall path
      ensures Lookup(now, path) == FinalContent(fates, n, saved + [file], path, Lookup(start, path))
    {
      assert path != file.path ==> Lookup(now, path) == Lookup(before, path);
    }
  }

  // When a file is back

  /** The removal of the file works at one of its places in the list. */
  ghost predicate SomeRemovalWorks(fates: DiskFates, n: nat, saved: seq<Saved>, path: Path) {
    exists k :: 0 <= k < |saved| && saved[k].path == path
             && fates(CallAfter(fates, n, saved[..k]), Removes(path)).Works?
  }

  /** The last place of the file in the list. */
  predicate LastPlace(saved: seq<Saved>, path: Path, k: nat) {
    k < |saved| && saved[k].path == path && forall j :: k < j < |saved| ==> saved[j].path != path
  }

  /** The last write of the file leaves its text. */
  ghost predicate LastWriteLeaves(fates: DiskFates, n: nat, saved: seq<Saved>, path: Path, text: string) {
    exists k: nat ::
      LastPlace(saved, path, k)
      && LeftBy(fates(CallAfter(fates, n, saved[..k]), Writes(path, text)), text) == Some(text)
  }

  /** The fates of the calls bring the file back: where it did not exist, it is absent already or a removal works; where
      it did, the last write of it leaves its text. */
  ghost predicate BringBack(fates: DiskFates, n: nat, saved: seq<Saved>, path: Path, before: Option<string>,
                            content: Option<string>)
  {
    match content
    case None => before.None? || SomeRemovalWorks(fates, n, saved, path)
    case Some(text) => LastWriteLeaves(fates, n, saved, path, text)
  }

  /** Every place of the file in the list has the same content. */
  ghost predicate SavedAs(saved: seq<Saved>, path: Path, content: Option<string>) {
    forall k :: 0 <= k < |saved| && saved[k].path == path ==> saved[k].content == content
  }

  lemma {:induction false} AbsentExactly(fates: DiskFates, n: nat, saved: seq<Saved>, path: Path,
                                         before: Option<string>)
    requires SavedAs(saved, path, None)
    ensures FinalContent(fates, n, saved, path, before) == None <==>
      before.None? || SomeRemovalWorks(fates, n, saved, path)
  {
    if saved != [] {
      AbsentExactly(fates, n, Front(saved), path, before);
      RemovalsNext(fates, n, saved, path);
    }
  }

  lemma RemovalsNext(fates: DiskFates, n: nat, saved: seq<Saved>, path: Path)
    requires saved != []
    ensures SomeRemovalWorks(fates, n, saved, path) <==>
      || SomeRemovalWorks(fates, n, Front(saved), path)
      || (Last(saved).path == path && fates(CallAfter(fates, n, Front(saved)), Removes(path)).Works?)
  {
    hide CallAfter;
    var front, last := Front(saved), |saved| - 1;
    assert saved[..last] == front;
    assert forall k :: 0 <= k < last ==> front[..k] == saved[..k];
    if SomeRemovalWorks(fates, n, front, path) {
      var k :| 0 <= k < last && front[k].path == path
            && fates(CallAfter(fates, n, front[..k]), Removes(path)).Works?;
      assert saved[k].path == path;
    }
    if Last(saved).path == path && fates(CallAfter(fates, n, front), Removes(path)).Works? {
      assert saved[last].path == path;
    }
  }

  lemma {:induction false} PresentExactly(fates: DiskFates, n: nat, saved: seq<Saved>, path: Path,
                                          before: Option<string>, text: string)
    requires SavedAs(saved, path, Some(text)) && path in PathsOf(saved)
    ensures FinalContent(fates, n, saved, path, before) == Some(text) <==> LastWriteLeaves(fates, n, saved, path, text)
  {
    WritesNext(fates, n, saved, path, text);
    if Last(saved).path != path {
      PathsFront(saved, path);
      PresentExactly(fates, n, Front(saved), path, before, text);
    }
  }

  lemma PathsFront(saved: seq<Saved>, path: Path)
    requires path in PathsOf(saved) && Last(saved).path != path
    ensures path in PathsOf(Front(saved))
  {
    var k :| 0 <= k < |saved| && saved[k].path == path;
    assert Front(saved)[k].path == path;
  }

  lemma LastPlaceNext(saved: seq<Saved>, path: Path, k: nat)
    requires saved != []
    ensures LastPlace(saved, path, k) <==>
      if Last(saved).path == path then k == |saved| - 1 else LastPlace(Front(saved), path, k)
  {
    var front := Front(saved);
    assert forall j :: 0 <= j < |front| ==> front[j] == saved[j];
    if LastPlace(saved, path, k) && k < |saved| - 1 {
      assert saved[|saved| - 1].path != path;
    }
  }

  lemma WritesNext(fates: DiskFates, n: nat, saved: seq<Saved>, path: Path, text: string)
    requires saved != []
    ensures LastWriteLeaves(fates, n, saved, path, text) <==>
      if Last(saved).path == path
      then LeftBy(fates(CallAfter(fates, n, Front(saved)), Writes(path, text)), text) == Some(text)
      else LastWriteLeaves(fates, n, Front(saved), path, text)
  {
    var front, last: nat := Front(saved), |saved| - 1;
    forall k: nat
      ensures LastPlace(saved, path, k) <==>
        if Last(saved).path == path then k == last else LastPlace(front, path, k)
      ensures k < |saved| ==> saved[..k] == front[..k]
    {
      LastPlaceNext(saved, path, k);
    }
    PlacesInside(saved, path);
    PlacesInside(front, path);
    hide CallAfter, LeftBy, LastPlace;
    if Last(saved).path == path {
      assert LastPlace(saved, path, last) && saved[..last] == front;
    } else if LastWriteLeaves(fates, n, front, path, text) {
      var k: nat :| LastPlace(front, path, k)
                 && LeftBy(fates(CallAfter(fates, n, front[..k]), Writes(path, text)), text) == Some(text);
      assert LastPlace(saved, path, k);
    }
  }

  lemma PlacesInside(saved: seq<Saved>, path: Path)
    ensures forall k: nat :: LastPlace(saved, path, k) ==> k < |saved|
  {
  }

  /** A file of the list is back after the restore if and only if the fates of its calls bring it back. */
  lemma BackExactly(fates: DiskFates, n: nat, saved: seq<Saved>, path: Path, before: Option<string>,
                    content: Option<string>)
    requires SavedAs(saved, path, content) && path in PathsOf(saved)
    ensures FinalContent(fates, n, saved, path, before) == content <==>
      BringBack(fates, n, saved, path, before, content)
  {
    hide FinalContent, SomeRemovalWorks, LastWriteLeaves;
    if content.None? {
      AbsentExactly(fates, n, saved, path, before);
    } else {
      PresentExactly(fates, n, saved, path, before, content.value);
    }
  }
}
