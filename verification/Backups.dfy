/** Backups of the application state on values: their listing, pruning and restoring, and which backup
    survives the safety backup made before a restore. */
module Backups {
  import opened Text
  import NewestFirst

  type Path = string
  type Time = nat
  /** The directory of a backup, named after the time in milliseconds at which it was begun. */
  type Id = nat
  type Fs = map<Path, string>

  const DEFAULT_MAX_BACKUPS := 14

  datatype Entry = Entry(originalPath: Path, backupRelativePath: Path)

  datatype Manifest = Manifest(createdAt: Time, workspaceRoot: Option<Path>, entries: seq<Entry>)

  /** The copies in a backup's directory, and its manifest once one was written. */
  datatype Dir = Dir(manifest: Option<Manifest>, copies: Fs)

  type Backups = map<Id, Dir>

  function MaxBackups(option: Option<int>): (max: nat)
    ensures option.None? ==> max == 14
    ensures option.Some? ==> max >= 1 && max >= option.value && (max == option.value || max == 1)
  {
    match option
    case None => DEFAULT_MAX_BACKUPS
    case Some(n) => if n < 1 then 1 else n
  }

  // Listing and pruning

  datatype Summary = Summary(id: Id, createdAt: Time)

  predicate Listed(backups: Backups, id: Id) {
    id in backups && backups[id].manifest.Some?
  }

  function CreatedAt(backups: Backups, id: Id): Time
    requires Listed(backups, id)
  {
    backups[id].manifest.value.createdAt
  }

  /** The summaries of the directories in `seen` that hold a manifest. */
  function Summaries(backups: Backups, seen: seq<Id>): seq<Summary> {
    if seen == [] then []
    else
      var before, id := Summaries(backups, Front(seen)), Last(seen);
      if Listed(backups, id) then before + [Summary(id, CreatedAt(backups, id))] else before
  }

  function Times(): Summary -> nat {
    (s: Summary) => s.createdAt
  }

  function Ranked(backups: Backups, seen: seq<Id>): seq<Summary> {
    NewestFirst.Sort(Summaries(backups, seen), Times())
  }

  function IdsOf(summaries: seq<Summary>): set<Id> {
    set k | 0 <= k < |summaries| :: summaries[k].id
  }

  function Pruned(backups: Backups, seen: seq<Id>, max: nat): Backups {
    var ranked := Ranked(backups, seen);
    if |ranked| <= max then backups else backups - IdsOf(ranked[max..])
  }

  predicate Distinct<T(==)>(items: seq<T>) {
    forall i, j :: 0 <= i < j < |items| ==> items[i] != items[j]
  }

  /** The backups at least as new as this one. */
  function NotOlder(backups: Backups, id: Id): set<Id>
    requires Listed(backups, id)
  {
    set other | other in backups && other != id && Listed(backups, other)
                && CreatedAt(backups, other) >= CreatedAt(backups, id)
  }

  function Rank(backups: Backups, id: Id): nat
    requires Listed(backups, id)
  {
    |NotOlder(backups, id)|
  }

  predicate InDirectory(backups: Backups, summary: Summary) {
    Listed(backups, summary.id) && summary.createdAt == CreatedAt(backups, summary.id)
  }

  lemma {:induction false} SummariesExactly(backups: Backups, seen: seq<Id>)
    requires Distinct(seen)
    ensures forall k :: 0 <= k < |Summaries(backups, seen)| ==> InDirectory(backups, Summaries(backups, seen)[k])
    ensures forall summary :: summary in Summaries(backups, seen) ==> summary.id in seen
    ensures forall id :: id in seen && Listed(backups, id) ==>
      Summary(id, CreatedAt(backups, id)) in Summaries(backups, seen)
    ensures forall i, j :: 0 <= i < j < |Summaries(backups, seen)| ==>
      Summaries(backups, seen)[i].id != Summaries(backups, seen)[j].id
  {
    if seen != [] {
      assert seen == Front(seen) + [Last(seen)];
      assert Last(seen) !in Front(seen);
      SummariesExactly(backups, Front(seen));
      var before := Summaries(backups, Front(seen));
      forall k | 0 <= k < |before|
        ensures before[k].id != Last(seen)
      {
        assert before[k] in before;
      }
    }
  }

  /** What a listing is: newest first, one summary for each directory seen that holds a manifest. */
  ghost predicate Lists(ranked: seq<Summary>, backups: Backups, seen: seq<Id>) {
    && NewestFirst.Sorted(ranked, Times())
    && (forall k :: 0 <= k < |ranked| ==> InDirectory(backups, ranked[k]) && ranked[k].id in seen)
    && (forall id :: id in seen && Listed(backups, id) ==> Summary(id, CreatedAt(backups, id)) in ranked)
    && (forall i, j :: 0 <= i < j < |ranked| ==> ranked[i].id != ranked[j].id)
  }

  lemma RankedLists(backups: Backups, seen: seq<Id>)
    requires Distinct(seen)
    ensures Lists(Ranked(backups, seen), backups, seen)
  {
    var summaries, ranked := Summaries(backups, seen), Ranked(backups, seen);
    SummariesExactly(backups, seen);
    NewestFirst.SortSorts(summaries, Times());
    SameMembers(summaries, ranked);
    StillDistinct(summaries, ranked);
    hide Summaries, NewestFirst.Sort, NewestFirst.Sorted;
    forall k | 0 <= k < |ranked|
      ensures InDirectory(backups, ranked[k]) && ranked[k].id in seen
    {
      assert ranked[k] in summaries;
    }
  }

  lemma SameMembers(a: seq<Summary>, b: seq<Summary>)
    requires multiset(a) == multiset(b)
    ensures forall summary :: summary in a <==> summary in b
  {
    assert forall summary :: summary in a <==> summary in multiset(a);
    assert forall summary :: summary in b <==> summary in multiset(b);
  }

  lemma StillDistinct(a: seq<Summary>, b: seq<Summary>)
    requires multiset(a) == multiset(b)
    requires forall i, j :: 0 <= i < j < |a| ==> a[i].id != a[j].id
    ensures forall i, j :: 0 <= i < j < |b| ==> b[i].id != b[j].id
  {
    forall i, j | 0 <= i < j < |b|
      ensures b[i].id != b[j].id
    {
      if b[i].id == b[j].id {
        assert b[i] in multiset(a) && b[j] in multiset(a);
        assert b[i] in a && b[j] in a;
        assert b[i] == b[j];
        CountTwice(b, i, j);
        CountAtMostOnce(a, b[i]);
      }
    }
  }

  lemma CountTwice(b: seq<Summary>, i: nat, j: nat)
    requires i < j < |b| && b[i] == b[j]
    ensures multiset(b)[b[i]] >= 2
  {
    assert b == b[..j] + b[j..];
    assert b[i] in b[..j] && b[j] in b[j..];
  }

  lemma {:induction false} CountAtMostOnce(a: seq<Summary>, x: Summary)
    requires forall i, j :: 0 <= i < j < |a| ==> a[i].id != a[j].id
    ensures multiset(a)[x] <= 1
  {
    if a != [] {
      assert a == Front(a) + [Last(a)];
      CountAtMostOnce(Front(a), x);
      if x == Last(a) {
        assert x !in Front(a);
      }
    }
  }

  /** The directories at the first `k` places. */
  lemma {:induction false} FirstIds(ranked: seq<Summary>, k: nat)
    requires k <= |ranked|
    requires forall i, j :: 0 <= i < j < |ranked| ==> ranked[i].id != ranked[j].id
    ensures |IdsOf(ranked[..k])| == k
    ensures k < |ranked| ==> ranked[k].id !in IdsOf(ranked[..k])
  {
    if k > 0 {
      FirstIds(ranked, k - 1);
      assert ranked[..k] == ranked[..k - 1] + [ranked[k - 1]];
      assert IdsOf(ranked[..k]) == IdsOf(ranked[..k - 1]) + {ranked[k - 1].id} by {
        assert ranked[..k][k - 1] == ranked[k - 1];
        assert forall i :: 0 <= i < k - 1 ==> ranked[..k][i] == ranked[..k - 1][i];
      }
    }
  }

  /** A backup stands at most at the place of its rank. */
  lemma PlaceAtMostRank(backups: Backups, seen: seq<Id>, ranked: seq<Summary>, k: nat)
    requires Lists(ranked, backups, seen) && k < |ranked|
    ensures Listed(backups, ranked[k].id) && k <= Rank(backups, ranked[k].id)
  {
    assert InDirectory(backups, ranked[k]);
    var id, before := ranked[k].id, IdsOf(ranked[..k]);
    FirstIds(ranked, k);
    forall other | other in before
      ensures other in NotOlder(backups, id)
    {
      var i :| 0 <= i < k && ranked[..k][i].id == other;
      assert InDirectory(backups, ranked[i]);
      assert Times()(ranked[i]) >= Times()(ranked[k]);
    }
    Smaller(before, NotOlder(backups, id));
  }

  lemma Smaller<T>(a: set<T>, b: set<T>)
    requires a <= b
    ensures |a| <= |b|
  {
    if a != {} {
      var x :| x in a;
      Smaller(a - {x}, b - {x});
    }
  }

  lemma DroppedIds(ranked: seq<Summary>, max: nat, id: Id)
    requires max <= |ranked|
    ensures id in IdsOf(ranked[max..]) <==> exists k :: max <= k < |ranked| && ranked[k].id == id
  {
    var dropped := ranked[max..];
    assert forall k :: 0 <= k < |dropped| ==> dropped[k] == ranked[max + k];
    if k :| max <= k < |ranked| && ranked[k].id == id {
      assert dropped[k - max].id == id;
    }
  }

  /** Pruning keeps every backup whose rank is below the limit, whatever part of the directory was seen. */
  lemma PruneKeeps(backups: Backups, seen: seq<Id>, max: nat, id: Id)
    requires Distinct(seen) && Listed(backups, id) && Rank(backups, id) < max
    ensures |Ranked(backups, seen)| > max ==> id !in IdsOf(Ranked(backups, seen)[max..])
    ensures id in Pruned(backups, seen, max) && Pruned(backups, seen, max)[id] == backups[id]
  {
    var ranked := Ranked(backups, seen);
    RankedLists(backups, seen);
    hide Ranked;
    if |ranked| > max {
      DroppedIds(ranked, max, id);
      forall k | max <= k < |ranked|
        ensures ranked[k].id != id
      {
        PlaceAtMostRank(backups, seen, ranked, k);
      }
    }
  }

  /** Where a backup stands: after the newer ones, and after those of the same time that the directory lists
      before it. */
  function PlaceOf(backups: Backups, seen: seq<Id>, p: nat): nat
    requires p < |seen| && Listed(backups, seen[p])
  {
    var time := CreatedAt(backups, seen[p]);
    NewestFirst.Newer(Summaries(backups, seen), Times(), time)
    + NewestFirst.AsOld(Summaries(backups, seen[..p]), Times(), time)
  }

  lemma {:induction false} SummaryAt(backups: Backups, seen: seq<Id>, p: nat)
    requires p < |seen| && Listed(backups, seen[p])
    ensures var all, before := Summaries(backups, seen), Summaries(backups, seen[..p]);
      && |before| < |all| && all[|before|] == Summary(seen[p], CreatedAt(backups, seen[p]))
      && all[..|before|] == before
    decreases |seen|
  {
    if p == |seen| - 1 {
      assert seen[..p] == Front(seen);
    } else {
      SummaryAt(backups, Front(seen), p);
      assert Front(seen)[..p] == seen[..p];
    }
  }

  /** Pruning is exact: a backup survives if and only if its place is within the limit. */
  lemma PruneExactly(backups: Backups, seen: seq<Id>, max: nat, p: nat)
    requires Distinct(seen) && p < |seen| && Listed(backups, seen[p])
    ensures seen[p] in Pruned(backups, seen, max) <==> PlaceOf(backups, seen, p) < max
  {
    var ranked, place, id := Ranked(backups, seen), PlaceOf(backups, seen, p), seen[p];
    SummaryAt(backups, seen, p);
    NewestFirst.SortPlaces(Summaries(backups, seen), Times(), |Summaries(backups, seen[..p])|);
    assert place < |ranked| && ranked[place].id == id;
    RankedLists(backups, seen);
    hide Ranked, PlaceOf, NewestFirst.Sorted, Summaries;
    if |ranked| > max {
      DroppedIds(ranked, max, id);
      assert forall k :: 0 <= k < |ranked| && ranked[k].id == id ==> k == place;
    }
  }

  /** The safety backup made before a restore moves the restored one down by one place. */
  lemma SafetyBackupMovesRank(backups: Backups, now: Id, dir: Dir, id: Id)
    requires now !in backups && Listed(backups, id)
    ensures Listed(backups[now := dir], id)
    ensures Rank(backups[now := dir], id)
         == Rank(backups, id)
            + (if dir.manifest.Some? && dir.manifest.value.createdAt >= CreatedAt(backups, id) then 1 else 0)
  {
    var after := backups[now := dir];
    if dir.manifest.Some? && dir.manifest.value.createdAt >= CreatedAt(backups, id) {
      assert NotOlder(after, id) == NotOlder(backups, id) + {now};
    } else {
      assert NotOlder(after, id) == NotOlder(backups, id);
    }
  }

  /** The safety backup comes before one that is older, or as old and listed after it. */
  predicate GoesAhead(dir: Dir, time: Time, listedBefore: bool) {
    && dir.manifest.Some?
    && (dir.manifest.value.createdAt > time || (dir.manifest.value.createdAt == time && listedBefore))
  }

  /** Restoring a backup finds it on disk, after the safety backup has pruned, exactly when it stood at least one place
      within the limit, or within it with the safety backup behind. With as many backups as are kept and a clock
      that goes on, restoring the oldest deletes it first. `a` and `b` are what the directory lists before and
      after the safety backup. */
  lemma SurvivesSafetyExactly(backups: Backups, now: Id, dir: Dir, a: seq<Id>, b: seq<Id>, max: nat, p: nat)
    requires now !in backups && Distinct(a + [now] + b)
    requires p < |a + b| && Listed(backups, (a + b)[p])
    ensures var id := (a + b)[p];
      id in Pruned(backups[now := dir], a + [now] + b, max) <==>
        PlaceOf(backups, a + b, p) + (if GoesAhead(dir, CreatedAt(backups, id), p >= |a|) then 1 else 0) < max
  {
    var seen, q := a + [now] + b, if p < |a| then p else p + 1;
    assert seen[q] == (a + b)[p];
    assert seen[|a|] == now && forall i :: 0 <= i < |a| ==> seen[i] == a[i];
    assert forall j :: 0 <= j < |b| ==> seen[|a| + 1 + j] == b[j];
    hide PlaceOf, Pruned;
    SafetyPlace(backups, now, dir, a, b, p);
    PruneExactly(backups[now := dir], seen, max, q);
  }

  lemma SafetyPlace(backups: Backups, now: Id, dir: Dir, a: seq<Id>, b: seq<Id>, p: nat)
    requires now !in backups && now !in a && now !in b && p < |a + b| && Listed(backups, (a + b)[p])
    ensures var q, id, more := if p < |a| then p else p + 1, (a + b)[p], backups[now := dir];
      && (a + [now] + b)[q] == id && Listed(more, id)
      && PlaceOf(more, a + [now] + b, q)
         == PlaceOf(backups, a + b, p) + if GoesAhead(dir, CreatedAt(backups, id), p >= |a|) then 1 else 0
  {
    var more, seen, q, id := backups[now := dir], a + [now] + b, if p < |a| then p else p + 1, (a + b)[p];
    var time := CreatedAt(backups, id);
    NewerAround(backups, now, dir, a, b, time);
    if p < |a| {
      assert seen[..q] == a[..p] && (a + b)[..p] == a[..p];
      SummariesElsewhere(backups, now, dir, a[..p]);
    } else {
      var rest := b[..p - |a|];
      assert seen[..q] == a + [now] + rest && (a + b)[..p] == a + rest;
      AsOldAround(backups, now, dir, a, rest, time);
    }
  }

  lemma {:induction false} SummariesElsewhere(backups: Backups, now: Id, dir: Dir, seen: seq<Id>)
    requires now !in seen
    ensures Summaries(backups[now := dir], seen) == Summaries(backups, seen)
  {
    if seen != [] {
      SummariesElsewhere(backups, now, dir, Front(seen));
      assert Last(seen) in seen;
    }
  }

  lemma {:induction false} SummariesConcat(backups: Backups, a: seq<Id>, b: seq<Id>)
    ensures Summaries(backups, a + b) == Summaries(backups, a) + Summaries(backups, b)
    decreases |b|
  {
    if b == [] {
      assert a + b == a;
    } else {
      SummariesConcat(backups, a, Front(b));
      assert Front(a + b) == a + Front(b);
    }
  }

  lemma {:induction false} NewerConcat(a: seq<Summary>, b: seq<Summary>, time: Time)
    ensures NewestFirst.Newer(a + b, Times(), time)
         == NewestFirst.Newer(a, Times(), time) + NewestFirst.Newer(b, Times(), time)
    ensures NewestFirst.AsOld(a + b, Times(), time)
         == NewestFirst.AsOld(a, Times(), time) + NewestFirst.AsOld(b, Times(), time)
  {
    if a == [] {
      assert a + b == b;
    } else {
      NewerConcat(a[1..], b, time);
      assert (a + b)[1..] == a[1..] + b;
    }
  }

  /** The summary of one directory, if it has one. */
  function SummaryOf(dir: Dir, id: Id): seq<Summary> {
    if dir.manifest.Some? then [Summary(id, dir.manifest.value.createdAt)] else []
  }

  lemma SummariesAround(backups: Backups, now: Id, dir: Dir, a: seq<Id>, b: seq<Id>)
    requires now !in a && now !in b
    ensures Summaries(backups[now := dir], a + [now] + b)
         == Summaries(backups, a) + SummaryOf(dir, now) + Summaries(backups, b)
  {
    var more := backups[now := dir];
    SummariesConcat(more, a + [now], b);
    SummariesConcat(more, a, [now]);
    SummariesElsewhere(backups, now, dir, a);
    SummariesElsewhere(backups, now, dir, b);
    assert Front([now]) == [];
  }

  lemma NewerAround(backups: Backups, now: Id, dir: Dir, a: seq<Id>, b: seq<Id>, time: Time)
    requires now !in a && now !in b
    ensures NewestFirst.Newer(Summaries(backups[now := dir], a + [now] + b), Times(), time)
         == NewestFirst.Newer(Summaries(backups, a + b), Times(), time)
            + if dir.manifest.Some? && dir.manifest.value.createdAt > time then 1 else 0
  {
    hide Summaries;
    SummariesAround(backups, now, dir, a, b);
    SummariesConcat(backups, a, b);
    NewerConcat(Summaries(backups, a) + SummaryOf(dir, now), Summaries(backups, b), time);
    NewerConcat(Summaries(backups, a), SummaryOf(dir, now), time);
    NewerConcat(Summaries(backups, a), Summaries(backups, b), time);
  }

  lemma AsOldAround(backups: Backups, now: Id, dir: Dir, a: seq<Id>, b: seq<Id>, time: Time)
    requires now !in a && now !in b
    ensures NewestFirst.AsOld(Summaries(backups[now := dir], a + [now] + b), Times(), time)
         == NewestFirst.AsOld(Summaries(backups, a + b), Times(), time)
            + if dir.manifest.Some? && dir.manifest.value.createdAt == time then 1 else 0
  {
    hide Summaries;
    SummariesAround(backups, now, dir, a, b);
    SummariesConcat(backups, a, b);
    NewerConcat(Summaries(backups, a) + SummaryOf(dir, now), Summaries(backups, b), time);
    NewerConcat(Summaries(backups, a), SummaryOf(dir, now), time);
    NewerConcat(Summaries(backups, a), Summaries(backups, b), time);
  }

  // Copying

  /** Every entry has its own place in the backup. */
  ghost predicate OwnPlaces(sources: seq<Entry>) {
    forall i, j :: 0 <= i < j < |sources| ==> sources[i].backupRelativePath != sources[j].backupRelativePath
  }

  /** The copies of `entries` are what `files` held. */
  ghost predicate CopiedFrom(files: Fs, entries: seq<Entry>, copies: Fs) {
    forall k :: 0 <= k < |entries| ==>
      && entries[k].originalPath in files
      && Lookup(copies, entries[k].backupRelativePath) == Some(files[entries[k].originalPath])
  }

  /** Restoring copies each entry back, in order; an entry without a copy is an error. */
  function RestoredFiles(files: Fs, entries: seq<Entry>, copies: Fs): Fs {
    if entries == [] then files
    else
      var before, entry := RestoredFiles(files, Front(entries), copies), Last(entries);
      if entry.backupRelativePath !in copies then before
      else before[entry.originalPath := copies[entry.backupRelativePath]]
  }

  /** A restore gives every file of the manifest its content at the time of the backup, whatever happened
      to it since, and touches no other file. */
  lemma {:induction false} RestoreBringsBack(past: Fs, now: Fs, entries: seq<Entry>, copies: Fs, path: Path)
    requires CopiedFrom(past, entries, copies)
    ensures Lookup(RestoredFiles(now, entries, copies), path)
         == if exists k :: 0 <= k < |entries| && entries[k].originalPath == path then Lookup(past, path)
            else Lookup(now, path)
  {
    if entries != [] {
      RestoreBringsBack(past, now, Front(entries), copies, path);
      var last := |entries| - 1;
      assert entries[last].originalPath in past;
      if k :| 0 <= k < |entries| && entries[k].originalPath == path {
        assert k < last ==> Front(entries)[k].originalPath == path;
      }
    }
  }

  /** What copying every source that exists into a directory gives. */
  function CopiesOf(files: Fs, sources: seq<Entry>, start: Fs): Fs {
    if sources == [] then start
    else
      var copies, source := CopiesOf(files, Front(sources), start), Last(sources);
      if source.originalPath in files then copies[source.backupRelativePath := files[source.originalPath]] else copies
  }

  function EntriesOf(files: Fs, sources: seq<Entry>): seq<Entry> {
    if sources == [] then []
    else EntriesOf(files, Front(sources)) + if Last(sources).originalPath in files then [Last(sources)] else []
  }

  /** Every source that exists has its entry, and nothing else has one. */
  lemma {:induction false} EntriesExactly(files: Fs, sources: seq<Entry>)
    ensures forall entry :: entry in EntriesOf(files, sources) <==> entry in sources && entry.originalPath in files
  {
    if sources != [] {
      EntriesExactly(files, Front(sources));
      FrontLast(sources);
    }
  }
}
