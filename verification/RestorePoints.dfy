/** The store of restore points on values: what creating, pruning, restoring and rebuilding do to it,
    and how long a point survives. */
module RestorePoints {
  import opened Text
  import opened WorkspaceDisk
  import NewestFirst

  const DEFAULT_MAX_POINTS := 60

  function MaxPoints(option: Option<int>): (max: nat)
    ensures option.None? ==> max == 60
    ensures option.Some? ==> max >= 1 && max >= option.value && (max == option.value || max == 1)
  {
    match option
    case None => DEFAULT_MAX_POINTS
    case Some(n) => if n < 1 then 1 else n
  }

  // Paths

  function NamedParts(parts: seq<string>): seq<string> {
    if parts == [] then []
    else (if parts[0] == "" || parts[0] == "." then [] else [parts[0]]) + NamedParts(parts[1..])
  }

  /** The file a relative path without `..` names. */
  function Resolve(path: string): Path {
    Join(NamedParts(Split(path, "/")), "/")
  }

  function Resolved(paths: seq<string>): (targets: seq<Path>)
    ensures |targets| == |paths|
  {
    seq(|paths|, k requires 0 <= k < |paths| => Resolve(paths[k]))
  }

  /** Trimmed, without empty names, each name once, in order of first appearance. */
  function Unique(paths: seq<string>): seq<string> {
    if paths == [] then []
    else
      var before, name := Unique(Front(paths)), Trim(Last(paths));
      if name == "" || name in before then before else before + [name]
  }

  predicate Names(paths: seq<string>, name: string) {
    name != "" && exists k :: 0 <= k < |paths| && Trim(paths[k]) == name
  }

  lemma {:induction false} UniqueExactly(paths: seq<string>)
    ensures forall name :: name in Unique(paths) <==> Names(paths, name)
    ensures forall i, j :: 0 <= i < j < |Unique(paths)| ==> Unique(paths)[i] != Unique(paths)[j]
    ensures paths != [] ==> Unique(Front(paths)) <= Unique(paths)
  {
    hide Trim;
    if paths != [] {
      UniqueExactly(Front(paths));
      var name := Trim(Last(paths));
      assert Trim(paths[|paths| - 1]) == name;
      forall other
        ensures Names(paths, other) <==> other != "" && (other == name || Names(Front(paths), other))
      {
        if k :| 0 <= k < |paths| && Trim(paths[k]) == other {
          assert k < |Front(paths)| ==> Trim(Front(paths)[k]) == other;
        }
        if k :| 0 <= k < |Front(paths)| && Trim(Front(paths)[k]) == other {
          assert Trim(paths[k]) == other;
        }
      }
    }
  }

  // Saving and restoring files

  function Capture(files: Fs, targets: seq<Path>): seq<Saved> {
    seq(|targets|, k requires 0 <= k < |targets| => Saved(targets[k], Lookup(files, targets[k])))
  }

  function Restored(files: Fs, saved: seq<Saved>): Fs {
    if saved == [] then files else Put(Restored(files, Front(saved)), Last(saved).path, Last(saved).content)
  }

  function PathsOf(saved: seq<Saved>): set<Path> {
    set k | 0 <= k < |saved| :: saved[k].path
  }

  /** Files that a restore does not name stay as they are. */
  lemma {:induction false} RestoredFrame(files: Fs, saved: seq<Saved>)
    ensures AgreeOutside(Restored(files, saved), files, PathsOf(saved))
  {
    if saved != [] {
      RestoredFrame(files, Front(saved));
      assert PathsOf(saved) == PathsOf(Front(saved)) + {Last(saved).path};
    }
  }

  lemma {:induction false} RestoredAt(now: Fs, past: Fs, targets: seq<Path>, path: Path)
    ensures Lookup(Restored(now, Capture(past, targets)), path)
         == if path in targets then Lookup(past, path) else Lookup(now, path)
  {
    if targets != [] {
      var saved := Capture(past, targets);
      assert Front(saved) == Capture(past, Front(targets));
      RestoredAt(now, past, Front(targets), path);
      assert targets == Front(targets) + [Last(targets)];
      PutAgrees(Restored(now, Front(saved)), Last(saved).path, Last(saved).content);
    }
  }

  lemma SameLookups(a: Fs, b: Fs)
    requires forall path :: Lookup(a, path) == Lookup(b, path)
    ensures a == b
  {
    forall path
      ensures path in a <==> path in b
      ensures path in a ==> a[path] == b[path]
    {
      assert Lookup(a, path) == Lookup(b, path);
    }
  }

  /** Restoring what was captured undoes every change made to the captured files since, whatever it was. */
  lemma RestoreUndoes(now: Fs, past: Fs, targets: seq<Path>)
    requires AgreeOutside(now, past, set path | path in targets)
    ensures Restored(now, Capture(past, targets)) == past
  {
    forall path
      ensures Lookup(Restored(now, Capture(past, targets)), path) == Lookup(past, path)
    {
      RestoredAt(now, past, targets, path);
    }
    SameLookups(Restored(now, Capture(past, targets)), past);
  }

  // Creating and pruning

  function EntryOf(point: Point): Entry {
    Entry(point.id, point.createdAt, |point.files|)
  }

  function Ids(entries: seq<Entry>): set<Id> {
    set k | 0 <= k < |entries| :: entries[k].id
  }

  function Added(store: Store, point: Point): Store {
    Store(store.points[point.id := Whole(point)], Entries([EntryOf(point)] + Listed(store.index)))
  }

  /** `cleanupOldRestorePoints`: entries beyond the limit go, and so do their files. */
  function Pruned(store: Store, max: nat): Store {
    var listed := Listed(store.index);
    if |listed| <= max then store
    else Store(store.points - Ids(listed[max..]), Entries(listed[..max]))
  }

  function Created(store: Store, point: Point, max: nat): Store {
    Pruned(Added(store, point), max)
  }

  function Times(): Entry -> nat {
    (e: Entry) => e.createdAt
  }

  /** The index is within the limit, names each point once, and matches the files. */
  ghost predicate WellKept(store: Store, max: nat) {
    var listed := Listed(store.index);
    && |listed| <= max
    && (forall i, j :: 0 <= i < j < |listed| ==> listed[i].id != listed[j].id)
    && (forall k :: 0 <= k < |listed| ==> HasFile(store.points, listed[k]))
  }

  predicate HasFile(points: map<Id, PointFile>, entry: Entry) {
    entry.id in points && points[entry.id].Whole? && EntryOf(points[entry.id].point) == entry
  }

  lemma CreateKeepsStore(store: Store, point: Point, max: nat)
    requires max >= 1 && WellKept(store, max) && FreshFrom(store, point.id)
    ensures WellKept(Created(store, point, max), max)
  {
    AddKeepsOrder(store, point);
    PruneKeepsOrder(Added(store, point), max);
  }

  /** The same without a limit. */
  ghost predicate WellOrdered(store: Store) {
    WellKept(store, |Listed(store.index)|)
  }

  lemma AddKeepsOrder(store: Store, point: Point)
    requires WellOrdered(store) && FreshFrom(store, point.id)
    ensures WellOrdered(Added(store, point))
  {
    var added := Added(store, point);
    var listed := Listed(added.index);
    assert forall k :: 1 <= k < |listed| ==> listed[k] == Listed(store.index)[k - 1];
    forall k | 0 <= k < |listed|
      ensures HasFile(added.points, listed[k])
    {
      if k > 0 {
        assert HasFile(store.points, Listed(store.index)[k - 1]);
      }
    }
  }

  lemma PruneKeepsOrder(store: Store, max: nat)
    requires WellOrdered(store)
    ensures WellKept(Pruned(store, max), max)
  {
    hide HasFile;
    var listed, pruned := Listed(store.index), Pruned(store, max);
    if |listed| > max {
      forall k | 0 <= k < max
        ensures HasFile(pruned.points, listed[k])
      {
        assert HasFile(store.points, listed[k]);
        assert listed[k].id !in Ids(listed[max..]);
        KeptFile(store.points, Ids(listed[max..]), listed[k]);
      }
    }
  }

  lemma KeptFile(points: map<Id, PointFile>, gone: set<Id>, entry: Entry)
    requires HasFile(points, entry) && entry.id !in gone
    ensures HasFile(points - gone, entry)
  {
  }

  /** Whether the index stays in the order of the times is decided by the clock: exactly when the new point is not
      older than the one listed first, or is the only one kept. */
  lemma CreateSortedExactly(store: Store, point: Point, max: nat)
    requires max >= 1 && WellKept(store, max) && NewestFirst.Sorted(Listed(store.index), Times())
    ensures NewestFirst.Sorted(Listed(Created(store, point, max).index), Times()) <==>
      (max == 1 || Listed(store.index) == [] || Listed(store.index)[0].createdAt <= point.createdAt)
  {
    var listed, after := Listed(store.index), Listed(Created(store, point, max).index);
    CreatedListing(store, point, max);
    assert forall k :: 1 <= k < |after| ==> after[k] == listed[k - 1];
    if NewestFirst.Sorted(after, Times()) && max > 1 && listed != [] {
      assert Times()(after[0]) >= Times()(after[1]);
    }
  }

  /** The new entry, then the old ones as far as the limit allows. */
  lemma CreatedListing(store: Store, point: Point, max: nat)
    requires max >= 1 && |Listed(store.index)| <= max
    ensures var after, all := Listed(Created(store, point, max).index), [EntryOf(point)] + Listed(store.index);
      |after| == Min(max, |all|) && after == all[..|after|]
  {
  }

  /** The entries of the points, the last one first. */
  function Latest(points: seq<Point>): (r: seq<Entry>)
    ensures |r| == |points|
  {
    if points == [] then [] else [EntryOf(Last(points))] + Latest(Front(points))
  }

  /** Over any run of creates the index lists the points the last created first, then what it listed before, up to
      the limit, and stays in step with the files. */
  lemma {:induction false} CreatesKeepStore(store: Store, points: seq<Point>, max: nat)
    requires max >= 1 && WellKept(store, max) && FreshPoints(store, points)
    ensures WellKept(CreatedAll(store, points, max), max)
    ensures var after, all := Listed(CreatedAll(store, points, max).index), Latest(points) + Listed(store.index);
      |after| == Min(max, |all|) && after == all[..|after|]
  {
    hide WellKept, Created;
    if points == [] {
      KeptLimit(store, max);
      assert Latest(points) + Listed(store.index) == Listed(store.index);
    } else {
      var front, last := Front(points), Last(points);
      CreatesKeepStore(store, front, max);
      FreshAfterAll(store, front, max, last.id);
      var before := CreatedAll(store, front, max);
      CreateKeepsStore(before, last, max);
      KeptLimit(before, max);
      CreatedListing(before, last, max);
      TakeAgain(EntryOf(last), Latest(front) + Listed(store.index), Listed(before.index), max);
      Assoc([EntryOf(last)], Latest(front), Listed(store.index));
    }
  }

  lemma KeptLimit(store: Store, max: nat)
    requires WellKept(store, max)
    ensures |Listed(store.index)| <= max
  {
  }

  lemma TakeAgain(entry: Entry, all: seq<Entry>, taken: seq<Entry>, max: nat)
    requires |taken| == Min(max, |all|) && taken == all[..|taken|]
    ensures var n := Min(max, |taken| + 1);
      n == Min(max, |all| + 1) && ([entry] + taken)[..n] == ([entry] + all)[..n]
  {
  }

  /** Whatever the store held before, also behind a corrupted index, the new point is on disk and first in
      an index within the limit. */
  lemma CreatedIsFirst(store: Store, point: Point, max: nat)
    requires max >= 1 && FreshFrom(store, point.id)
    ensures var created := Created(store, point, max);
      && created.index.Entries? && 1 <= |created.index.entries| <= max
      && created.index.entries[0] == Entry(point.id, point.createdAt, |point.files|)
      && point.id in created.points && created.points[point.id] == Whole(point)
  {
    var listed := Listed(Added(store, point).index);
    if |listed| > max {
      forall k | 0 <= k < |listed[max..]|
        ensures listed[max..][k].id != point.id
      {
        assert listed[max..][k] == Listed(store.index)[max + k - 1];
      }
      assert point.id !in Ids(listed[max..]);
    }
  }

  // How long a point survives

  /** The point is on disk and listed at position `n` alone. */
  ghost predicate Placed(store: Store, id: Id, file: PointFile, n: nat) {
    var listed := Listed(store.index);
    && id in store.points && store.points[id] == file
    && n < |listed| && listed[n].id == id
    && (forall k :: 0 <= k < |listed| && k != n ==> listed[k].id != id)
  }

  ghost predicate Gone(store: Store, id: Id) {
    id !in store.points && forall k :: 0 <= k < |Listed(store.index)| ==> Listed(store.index)[k].id != id
  }

  lemma AddedPlaced(store: Store, point: Point, id: Id, file: PointFile, n: nat)
    requires Placed(store, id, file, n) && FreshFrom(store, point.id)
    ensures Placed(Added(store, point), id, file, n + 1)
  {
    var listed := Listed(Added(store, point).index);
    assert forall k :: 1 <= k < |listed| ==> listed[k] == Listed(store.index)[k - 1];
  }

  lemma PrunedPlaced(store: Store, max: nat, id: Id, file: PointFile, n: nat)
    requires Placed(store, id, file, n)
    ensures if n < max then Placed(Pruned(store, max), id, file, n) else Gone(Pruned(store, max), id)
  {
    var listed := Listed(store.index);
    if |listed| > max {
      var dropped := listed[max..];
      assert forall k :: 0 <= k < |dropped| ==> dropped[k] == listed[max + k];
      if n >= max {
        assert dropped[n - max].id == id;
        assert id in Ids(dropped);
      } else {
        assert id !in Ids(dropped);
      }
    }
  }

  function CreatedAll(store: Store, points: seq<Point>, max: nat): Store {
    if points == [] then store else Created(CreatedAll(store, Front(points), max), Last(points), max)
  }

  /** Later points get larger ids than everything in the store. */
  ghost predicate FreshPoints(store: Store, points: seq<Point>) {
    && (forall k :: 0 <= k < |points| ==> FreshFrom(store, points[k].id))
    && (forall i, j :: 0 <= i < j < |points| ==> points[i].id < points[j].id)
  }

  lemma FreshAfterCreate(store: Store, point: Point, max: nat, later: Id)
    requires FreshFrom(store, later) && point.id < later
    ensures FreshFrom(Created(store, point, max), later)
  {
    var added := Added(store, point);
    assert FreshFrom(added, later) by {
      var listed := Listed(added.index);
      assert forall k :: 1 <= k < |listed| ==> listed[k] == Listed(store.index)[k - 1];
    }
  }

  lemma {:induction false} FreshAfterAll(store: Store, points: seq<Point>, max: nat, later: Id)
    requires FreshPoints(store, points) && FreshFrom(store, later)
    requires forall k :: 0 <= k < |points| ==> points[k].id < later
    ensures FreshFrom(CreatedAll(store, points, max), later)
  {
    hide FreshFrom, Created;
    if points != [] {
      FreshAfterAll(store, Front(points), max, later);
      FreshAfterCreate(CreatedAll(store, Front(points), max), Last(points), max, later);
    }
  }

  /** Retention is exact: a point with `n` newer ones survives the creation of more points exactly as long
      as it has fewer than `max` newer ones in all. */
  lemma {:induction false} RetentionExactly(store: Store, points: seq<Point>, max: nat, id: Id, file: PointFile, n: nat)
    requires Placed(store, id, file, n) && n < max && FreshPoints(store, points)
    ensures var after := CreatedAll(store, points, max);
      if n + |points| < max then Placed(after, id, file, n + |points|) else Gone(after, id)
  {
    hide Created, Placed, Gone;
    if points != [] {
      var before, point := CreatedAll(store, Front(points), max), Last(points);
      RetentionExactly(store, Front(points), max, id, file, n);
      FreshAfterAll(store, Front(points), max, point.id);
      if n + |points| - 1 < max {
        CreatedPlaced(before, point, max, id, file, n + |points| - 1);
      } else {
        IdKnown(store, id, file, n, point.id);
        CreatedGone(before, point, max, id);
      }
    }
  }

  lemma CreatedPlaced(store: Store, point: Point, max: nat, id: Id, file: PointFile, n: nat)
    requires Placed(store, id, file, n) && FreshFrom(store, point.id)
    ensures var after := Created(store, point, max);
      if n + 1 < max then Placed(after, id, file, n + 1) else Gone(after, id)
  {
    hide Pruned, Added, Placed, FreshFrom;
    AddedPlaced(store, point, id, file, n);
    PrunedPlaced(Added(store, point), max, id, file, n + 1);
  }

  lemma IdKnown(store: Store, id: Id, file: PointFile, n: nat, later: Id)
    requires Placed(store, id, file, n) && FreshFrom(store, later)
    ensures id != later
  {
  }

  lemma CreatedGone(store: Store, point: Point, max: nat, id: Id)
    requires Gone(store, id) && id != point.id
    ensures Gone(Created(store, point, max), id)
  {
    var listed := Listed(Added(store, point).index);
    assert forall k :: 1 <= k < |listed| ==> listed[k] == Listed(store.index)[k - 1];
  }

  // Rebuilding the index

  /** The entries `rebuildIndexFromDisk` collects from the listed files. */
  function Collected(points: map<Id, PointFile>, listing: seq<Id>): seq<Entry> {
    if listing == [] then []
    else
      var before, id := Collected(points, Front(listing)), Last(listing);
      if id in points && points[id].Whole? then before + [EntryOf(points[id].point)] else before
  }

  function Rebuilt(points: map<Id, PointFile>, listing: seq<Id>): seq<Entry> {
    NewestFirst.Sort(Collected(points, listing), Times())
  }

  /** A listing of the store's directory: every point file once, in any order. */
  ghost predicate Lists(listing: seq<Id>, points: map<Id, PointFile>) {
    && (forall id :: id in listing <==> id in points)
    && (forall i, j :: 0 <= i < j < |listing| ==> listing[i] != listing[j])
  }

  lemma {:induction false} CollectedExactly(points: map<Id, PointFile>, listing: seq<Id>)
    ensures forall entry :: entry in Collected(points, listing) <==>
      exists id :: id in listing && id in points && points[id].Whole? && EntryOf(points[id].point) == entry
    ensures (forall i, j :: 0 <= i < j < |listing| ==> listing[i] != listing[j]) ==>
      |Collected(points, listing)| == |WholeIds(points, listing)|
  {
    if listing != [] {
      var front, id := Front(listing), Last(listing);
      CollectedExactly(points, front);
      FrontLast(listing);
      WholeIdsMore(points, front, id);
      hide WholeIds;
    }
  }

  function WholeIds(points: map<Id, PointFile>, listing: seq<Id>): set<Id> {
    set id | id in listing && id in points && points[id].Whole?
  }

  lemma WholeIdsMore(points: map<Id, PointFile>, listing: seq<Id>, id: Id)
    ensures WholeIds(points, listing + [id])
         == WholeIds(points, listing) + if id in points && points[id].Whole? then {id} else {}
    ensures forall other :: other in WholeIds(points, listing) ==> other in listing
  {
    forall other
      ensures other in listing + [id] <==> other in listing || other == id
    {
    }
  }

  /** The rebuilt index is sorted and holds exactly the well-formed point files, one entry each, whatever
      the index said before and whatever the order of the listing. */
  lemma RebuildExactly(points: map<Id, PointFile>, listing: seq<Id>)
    requires Lists(listing, points)
    ensures NewestFirst.Sorted(Rebuilt(points, listing), Times())
    ensures forall entry :: entry in Rebuilt(points, listing) <==>
      exists id :: id in points && points[id].Whole? && EntryOf(points[id].point) == entry
    ensures |Rebuilt(points, listing)| == |set id | id in points && points[id].Whole?|
  {
    var collected := Collected(points, listing);
    NewestFirst.SortSorts(collected, Times());
    CollectedExactly(points, listing);
    assert WholeIds(points, listing) == set id | id in points && points[id].Whole?;
    assert forall entry :: entry in Rebuilt(points, listing) <==> entry in multiset(Rebuilt(points, listing));
    assert forall entry :: entry in collected <==> entry in multiset(collected);
  }

  lemma {:induction false} DistinctSameItems<T>(a: seq<T>, b: seq<T>)
    requires forall x :: x in a <==> x in b
    requires forall i, j :: 0 <= i < j < |a| ==> a[i] != a[j]
    requires forall i, j :: 0 <= i < j < |b| ==> b[i] != b[j]
    ensures multiset(a) == multiset(b)
  {
    CountOnce(a);
    CountOnce(b);
  }

  lemma {:induction false} CountOnce<T>(a: seq<T>)
    requires forall i, j :: 0 <= i < j < |a| ==> a[i] != a[j]
    ensures forall x :: multiset(a)[x] == if x in a then 1 else 0
  {
    if a != [] {
      CountOnce(Front(a));
      assert a == Front(a) + [Last(a)];
    }
  }

  /** Every point file is named after its point and listed in the index. */
  ghost predicate AllListed(store: Store) {
    forall id :: id in store.points && store.points[id].Whole? ==>
      store.points[id].point.id == id && EntryOf(store.points[id].point) in Listed(store.index)
  }

  /** Losing the index loses nothing: rebuilding lists exactly the points it listed. It is the very index that was
      lost if and only if that one was in the order of the times, and points of the same time stood in it as the
      directory lists them. */
  lemma RebuildRecoversIndex(store: Store, max: nat, listing: seq<Id>)
    requires WellKept(store, max) && AllListed(store) && Lists(listing, store.points)
    ensures multiset(Rebuilt(store.points, listing)) == multiset(Listed(store.index))
    ensures Rebuilt(store.points, listing) == Listed(store.index) <==>
      && NewestFirst.Sorted(Listed(store.index), Times())
      && NewestFirst.SameByTime(Collected(store.points, listing), Listed(store.index), Times())
  {
    var collected, listed := Collected(store.points, listing), Listed(store.index);
    NewestFirst.SortSorts(collected, Times());
    RebuildListsAll(store, max, listing);
    hide Collected, WellKept, AllListed;
    if NewestFirst.Sorted(listed, Times()) && NewestFirst.SameByTime(collected, listed, Times()) {
      SortedAsListed(collected, listed);
    }
    if Rebuilt(store.points, listing) == listed {
      assert NewestFirst.SameByTime(collected, listed, Times());
    }
  }

  lemma SortedAsListed(collected: seq<Entry>, listed: seq<Entry>)
    requires NewestFirst.Sorted(listed, Times()) && NewestFirst.SameByTime(collected, listed, Times())
    ensures NewestFirst.Sort(collected, Times()) == listed
  {
    NewestFirst.SortSorts(collected, Times());
    NewestFirst.SortedByTimes(NewestFirst.Sort(collected, Times()), listed, Times());
  }

  lemma RebuildListsAll(store: Store, max: nat, listing: seq<Id>)
    requires WellKept(store, max) && AllListed(store) && Lists(listing, store.points)
    ensures multiset(Collected(store.points, listing)) == multiset(Listed(store.index))
  {
    var collected, listed := Collected(store.points, listing), Listed(store.index);
    CollectedExactly(store.points, listing);
    CollectedDistinct(store.points, listing);
    forall entry
      ensures entry in collected <==> entry in listed
    {
      if entry in listed {
        assert HasFile(store.points, entry);
      }
    }
    DistinctSameItems(collected, listed);
  }

  /** With a clock that moved on between the points there is only one order. */
  lemma RebuildIsIndex(store: Store, max: nat, listing: seq<Id>)
    requires WellKept(store, max) && AllListed(store) && Lists(listing, store.points)
    requires NewestFirst.Sorted(Listed(store.index), Times())
    requires NewestFirst.AllTimesDiffer(Listed(store.index), Times())
    ensures Rebuilt(store.points, listing) == Listed(store.index)
  {
    RebuildRecoversIndex(store, max, listing);
    NewestFirst.SortSorts(Collected(store.points, listing), Times());
    NewestFirst.SortedIsUnique(Rebuilt(store.points, listing), Listed(store.index), Times());
  }

  lemma {:induction false} CollectedDistinct(points: map<Id, PointFile>, listing: seq<Id>)
    requires forall i, j :: 0 <= i < j < |listing| ==> listing[i] != listing[j]
    requires forall id :: id in points && points[id].Whole? ==> points[id].point.id == id
    ensures forall i, j :: 0 <= i < j < |Collected(points, listing)| ==>
      Collected(points, listing)[i] != Collected(points, listing)[j]
  {
    if listing != [] {
      var front := Front(listing);
      CollectedDistinct(points, front);
      CollectedExactly(points, front);
      if Last(listing) in points && points[Last(listing)].Whole? {
        var entry := EntryOf(points[Last(listing)].point);
        assert entry.id == Last(listing) && Last(listing) !in front;
        assert entry !in Collected(points, front);
      }
    }
  }
}
