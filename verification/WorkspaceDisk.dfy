/** The workspace a patch works on: its files and its store of restore points, behind calls that may
    fail. A write of a workspace file may throw and leave anything in that file, or claim success
    without having written the text; a write of the store throws, leaving anything, or is truthful.
    The fates of the calls are an oracle, and a log keeps the calls that were made. */
module WorkspaceDisk {
  import opened Text
  import Calls

  type Path = string
  type Id = nat
  type Time = nat

  type Fs = map<Path, string>

  /** A file as a restore point keeps it: its text, or the fact that it did not exist. */
  datatype Saved = Saved(path: Path, content: Option<string>)

  datatype Point = Point(id: Id, files: seq<Saved>, createdAt: Time)

  /** What the file of a restore point may hold: nothing, text that is not JSON, JSON without an id or
      a time (with or without a list of files), or a whole point. */
  datatype PointFile = Empty | Malformed | Incomplete(files: Option<seq<Saved>>) | Whole(point: Point)

  datatype Entry = Entry(id: Id, createdAt: Time, fileCount: nat)

  datatype Index = Missing | Corrupt | Entries(entries: seq<Entry>)

  datatype Store = Store(points: map<Id, PointFile>, index: Index)

  datatype Read = Content(text: string) | Absent | ReadFails
  datatype PointRead = Found(file: PointFile) | NoPoint | PointFails

  function Put(files: Fs, path: Path, content: Option<string>): Fs {
    match content
    case Some(text) => files[path := text]
    case None => files - {path}
  }

  lemma PutAgrees(files: Fs, path: Path, content: Option<string>)
    ensures AgreeOutside(Put(files, path, content), files, {path})
    ensures Lookup(Put(files, path, content), path) == content
  {
  }

  /** The ids handed out so far are all below `minted`, so a new one is fresh. */
  ghost predicate FreshFrom(store: Store, minted: Id) {
    && (forall id :: id in store.points ==> id < minted)
    && (forall k :: 0 <= k < |Listed(store.index)| ==> Listed(store.index)[k].id < minted)
  }

  /** What `readIndex` makes of the index file. */
  function Listed(index: Index): seq<Entry> {
    if index.Entries? then index.entries else []
  }

  /** What a failing call leaves in the file, or in the file of the restore point, that it was writing. */
  datatype Left = Left(content: Option<string>, point: Option<PointFile>)

  /** The calls: on workspace files, on the restore point store, and on what is not modelled (guards, git). */
  datatype Call =
    | Looks(path: Path) | Reads(path: Path) | Writes(path: Path, text: string) | Removes(path: Path)
    | MakesStore | ListsStore | ReadsIndex | WritesIndex
    | ReadsPoint(id: Id) | WritesPoint(id: Id) | RemovesPoint(id: Id)
    | Asks | ReadsGit

  type DiskFates = Calls.Fates<Call, Left>

  predicate Alters(call: Call) {
    call.Writes? || call.Removes?
  }

  /** The call leaves the workspace files alone, and reads no restore point. */
  predicate Quiet(call: Call) {
    !Alters(call) && !call.ReadsPoint?
  }

  predicate OnFile(call: Call) {
    call.Looks? || call.Reads? || call.Writes? || call.Removes?
  }

  /** What a write leaves in its file. */
  function LeftBy(fate: Calls.Fate<Left>, text: string): Option<string> {
    if fate.Works? then Some(text) else fate.left.content
  }

  /** A call has failed when it threw or had nothing to report, or was a write that did not leave its text. */
  predicate Fails(fate: Calls.Fate<Left>, call: Call) {
    if call.Writes? then fate.Throws? || LeftBy(fate, call.text) != Some(call.text) else !fate.Works?
  }

  /** What the calls from number `from` on make of a file that held `before`. */
  function ContentAfter(fates: DiskFates, log: seq<Call>, from: nat, path: Path, before: Option<string>)
    : Option<string>
  {
    if |log| <= from then before
    else
      var call, fate := Last(log), fates(|log| - 1, Last(log));
      if call.Writes? && call.path == path then LeftBy(fate, call.text)
      else if call.Removes? && call.path == path && fate.Works? then None
      else ContentAfter(fates, Front(log), from, path, before)
  }

  lemma ContentNext(fates: DiskFates, log: seq<Call>, call: Call, from: nat, path: Path, before: Option<string>)
    requires from <= |log|
    ensures ContentAfter(fates, log + [call], from, path, before)
         == if call.Writes? && call.path == path then LeftBy(fates(|log|, call), call.text)
            else if call.Removes? && call.path == path && fates(|log|, call).Works? then None
            else ContentAfter(fates, log, from, path, before)
  {
    assert Front(log + [call]) == log;
  }

  /** The files on which a call failed after the restore point was last read. */
  function FailedSince(fates: DiskFates, log: seq<Call>, id: Id): set<Path> {
    if log == [] || Last(log) == ReadsPoint(id) then {}
    else FailedSince(fates, Front(log), id) + FailedOn(fates(|log| - 1, Last(log)), Last(log))
  }

  function FailedOn(fate: Calls.Fate<Left>, call: Call): set<Path> {
    if OnFile(call) && Fails(fate, call) then {call.path} else {}
  }

  lemma FailedSinceMore(fates: DiskFates, log: seq<Call>, call: Call, id: Id)
    ensures FailedSince(fates, log + [call], id)
         == if call == ReadsPoint(id) then {} else FailedSince(fates, log, id) + FailedOn(fates(|log|, call), call)
  {
    assert Front(log + [call]) == log;
  }

  /** A call on the file failed among those from number `from` on. */
  ghost predicate FailedBetween(fates: DiskFates, log: seq<Call>, from: nat, path: Path) {
    exists c :: from <= c < |log| && OnFile(log[c]) && log[c].path == path && Fails(fates(c, log[c]), log[c])
  }

  /** The file was written or removed, or that was tried, from call number `from` on. */
  ghost predicate Touched(log: seq<Call>, from: nat, path: Path) {
    exists c :: from <= c < |log| && Alters(log[c]) && log[c].path == path
  }

  /** The log has grown by calls that write or remove nothing. */
  ghost predicate Unaltered(before: seq<Call>, after: seq<Call>) {
    before <= after && forall c :: |before| <= c < |after| ==> !Alters(after[c])
  }

  /** The log has grown by quiet calls. */
  ghost predicate OnlyQuiet(before: seq<Call>, after: seq<Call>) {
    before <= after && forall c :: |before| <= c < |after| ==> Quiet(after[c])
  }

  /** The log has grown by quiet calls and by such as write or remove these files. */
  ghost predicate OnlyOn(before: seq<Call>, after: seq<Call>, paths: set<Path>) {
    && before <= after
    && forall c :: |before| <= c < |after| ==>
         !after[c].ReadsPoint? && (Alters(after[c]) ==> after[c].path in paths)
  }

  /** Of the calls that the log has grown by at most one writes or removes something, and then it is this one. */
  ghost predicate AtMostOnce(before: seq<Call>, after: seq<Call>, call: Call) {
    && before <= after
    && (forall c :: |before| <= c < |after| && Alters(after[c]) ==> after[c] == call)
    && (forall c, d :: |before| <= c < |after| && |before| <= d < |after| && Alters(after[c]) && Alters(after[d]) ==>
          c == d)
  }

  // The store made ready

  /** The calls that make the store ready, the first of which has number `n`. */
  function StoreCalls(fates: DiskFates, n: nat, index: Index): seq<Call> {
    if !fates(n, MakesStore).Works? then [MakesStore]
    else if !fates(n + 1, ReadsIndex).Works? || !index.Missing? then [MakesStore, ReadsIndex]
    else [MakesStore, ReadsIndex, WritesIndex]
  }

  predicate StoreReady(fates: DiskFates, n: nat, index: Index) {
    && fates(n, MakesStore).Works? && fates(n + 1, ReadsIndex).Works?
    && (index.Missing? ==> fates(n + 2, WritesIndex).Works?)
  }

  class Disk {
    const fates: DiskFates
    ghost const initial: Fs
    var files: Fs
    var points: map<Id, PointFile>
    var index: Index
    var minted: Id
    var log: seq<Call>

    function Shelf(): Store
      reads this
    {
      Store(points, index)
    }

    /** Ids are fresh, and the files are what the calls have made of them. */
    ghost predicate Valid()
      reads this
    {
      FreshFrom(Shelf(), minted) && Traced()
    }

    ghost predicate Traced()
      reads this
    {
      forall path :: Lookup(files, path) == ContentAfter(fates, log, 0, path, Lookup(initial, path))
    }

    /** Every call made from number `from` on has worked. */
    ghost predicate AllWork(from: nat)
      reads this`log
    {
      Calls.AllWork(fates, log, from)
    }

    constructor (files: Fs, fates: DiskFates)
      ensures Valid() && this.files == files && initial == files && this.fates == fates
      ensures Shelf() == Store(map[], Missing) && log == []
    {
      this.files, initial, points, index, minted, log := files, files, map[], Missing, 0, [];
      this.fates := fates;
    }

    /** A call that changes no file and no point. */
    method Make(call: Call) returns (works: bool)
      requires Traced() && !Alters(call)
      modifies this`log
      ensures Traced() && log == old(log) + [call] && works == fates(|old(log)|, call).Works?
    {
      works := fates(|log|, call).Works?;
      QuietTraced(fates, files, initial, log, call);
      log := log + [call];
    }

    method Now() returns (time: Time)
    {
      time := *;
    }

    method ReadFile(path: Path) returns (r: Read)
      requires Traced()
      modifies this`log
      ensures Traced() && log == old(log) + [Reads(path)]
      ensures r == if !fates(|old(log)|, Reads(path)).Works? then ReadFails
                   else if path in files then Content(files[path]) else Absent
    {
      var works := Make(Reads(path));
      r := if !works then ReadFails else if path in files then Content(files[path]) else Absent;
    }

    /** `access`: a fault reads as absence. */
    method Exists(path: Path) returns (r: bool)
      requires Traced()
      modifies this`log
      ensures Traced() && log == old(log) + [Looks(path)]
      ensures r == (fates(|old(log)|, Looks(path)).Works? && path in files)
    {
      var works := Make(Looks(path));
      r := works && path in files;
    }

    /** Success does not promise the text: only reading it back does. */
    method WriteFile(path: Path, text: string) returns (ok: bool)
      requires Traced()
      modifies this`files, this`log
      ensures Traced() && log == old(log) + [Writes(path, text)]
      ensures var fate := fates(|old(log)|, Writes(path, text));
        ok == !fate.Throws? && files == Put(old(files), path, LeftBy(fate, text))
    {
      var fate := fates(|log|, Writes(path, text));
      ok := !fate.Throws?;
      WriteTraced(fates, files, initial, log, path, text);
      files := Put(files, path, LeftBy(fate, text));
      log := log + [Writes(path, text)];
    }

    method RemoveFile(path: Path) returns (ok: bool)
      requires Traced()
      modifies this`files, this`log
      ensures Traced() && log == old(log) + [Removes(path)] && ok == fates(|old(log)|, Removes(path)).Works?
      ensures files == if ok then Put(old(files), path, None) else old(files)
    {
      ok := fates(|log|, Removes(path)).Works?;
      RemoveTraced(fates, files, initial, log, path);
      if ok {
        files := Put(files, path, None);
      }
      log := log + [Removes(path)];
    }

    method MintId() returns (id: Id)
      requires Valid()
      modifies this`minted
      ensures Valid() && id == old(minted) && minted == id + 1
    {
      id := minted;
      minted := minted + 1;
    }

    method ReadPoint(id: Id) returns (r: PointRead)
      requires Traced()
      modifies this`log
      ensures Traced() && log == old(log) + [ReadsPoint(id)]
      ensures r == if !fates(|old(log)|, ReadsPoint(id)).Works? then PointFails
                   else if id in points then Found(points[id]) else NoPoint
    {
      var works := Make(ReadsPoint(id));
      r := if !works then PointFails else if id in points then Found(points[id]) else NoPoint;
    }

    method WritePoint(id: Id, point: Point) returns (ok: bool)
      requires Traced()
      modifies this`points, this`log
      ensures Traced() && log == old(log) + [WritesPoint(id)] && ok == fates(|old(log)|, WritesPoint(id)).Works?
      ensures points - {id} == old(points) - {id}
      ensures ok ==> points == old(points)[id := Whole(point)]
    {
      var fate := fates(|log|, WritesPoint(id));
      ok := Make(WritesPoint(id));
      points := if ok then points[id := Whole(point)]
                else if fate.left.point.Some? then points[id := fate.left.point.value] else points - {id};
    }

    method RemovePoint(id: Id) returns (ok: bool)
      requires Traced()
      modifies this`points, this`log
      ensures Traced() && log == old(log) + [RemovesPoint(id)] && ok == fates(|old(log)|, RemovesPoint(id)).Works?
      ensures points == if ok then old(points) - {id} else old(points)
    {
      ok := Make(RemovesPoint(id));
      if ok {
        points := points - {id};
      }
    }

    /** `None` where reading throws. */
    method ReadIndex() returns (r: Option<seq<Entry>>)
      requires Traced()
      modifies this`log
      ensures Traced() && log == old(log) + [ReadsIndex]
      ensures r == if fates(|old(log)|, ReadsIndex).Works? then Some(Listed(index)) else None
    {
      var works := Make(ReadsIndex);
      r := if works then Some(Listed(index)) else None;
    }

    /** A failing write leaves the old index or one that reads as empty. */
    method WriteIndex(entries: seq<Entry>) returns (ok: bool)
      requires Traced()
      modifies this`index, this`log
      ensures Traced() && log == old(log) + [WritesIndex] && ok == fates(|old(log)|, WritesIndex).Works?
      ensures ok ==> index == Entries(entries)
      ensures !ok ==> index == old(index) || index == Corrupt
    {
      var fate := fates(|log|, WritesIndex);
      ok := Make(WritesIndex);
      if ok {
        index := Entries(entries);
      } else if fate.left.content.Some? {
        index := Corrupt;
      }
    }

    /** `ensureStorage`: the directory, the index, and a new index where there is none. It fails with its last call,
        the others having worked. */
    method EnsureStorage() returns (ok: bool)
      requires Traced()
      modifies this`index, this`log
      ensures Traced() && OnlyStore(old(log), log) && |log| <= |old(log)| + 3
      ensures ok <==> AllWork(|old(log)|)
      ensures ok <==> StoreReady(fates, |old(log)|, old(index))
      ensures log == old(log) + StoreCalls(fates, |old(log)|, old(index))
      ensures !ok ==> StopsAt(fates, old(log), log)
      ensures Listed(index) == Listed(old(index))
      ensures ok && old(index).Missing? ==> index == Entries([])
      ensures !old(index).Missing? ==> index == old(index)
    {
      ghost var from := |log|;
      ok := Make(MakesStore);
      assert log[from] == MakesStore;
      if !ok {
        return;
      }
      ok := Make(ReadsIndex);
      assert log[from] == MakesStore && log[from + 1] == ReadsIndex;
      if !ok || !index.Missing? {
        return;
      }
      ok := WriteIndex([]);
      assert log[from] == MakesStore && log[from + 1] == ReadsIndex && log[from + 2] == WritesIndex;
    }
  }

  /** The log has grown by calls on the directory and the index of the store. */
  ghost predicate OnlyStore(before: seq<Call>, after: seq<Call>) {
    before <= after && forall c :: |before| <= c < |after| ==> after[c] in {MakesStore, ReadsIndex, WritesIndex}
  }

  /** The last of the calls made since did not work, and all before it did. */
  ghost predicate StopsAt(fates: DiskFates, before: seq<Call>, after: seq<Call>) {
    && before < after && !fates(|after| - 1, Last(after)).Works?
    && Calls.AllWork(fates, Front(after), |before|)
  }

  lemma QuietTraced(fates: DiskFates, files: Fs, initial: Fs, log: seq<Call>, call: Call)
    requires !Alters(call)
    requires forall path :: Lookup(files, path) == ContentAfter(fates, log, 0, path, Lookup(initial, path))
    ensures forall path :: Lookup(files, path) == ContentAfter(fates, log + [call], 0, path, Lookup(initial, path))
  {
    forall path
      ensures Lookup(files, path) == ContentAfter(fates, log + [call], 0, path, Lookup(initial, path))
    {
      ContentNext(fates, log, call, 0, path, Lookup(initial, path));
    }
  }

  lemma WriteTraced(fates: DiskFates, files: Fs, initial: Fs, log: seq<Call>, path: Path, text: string)
    requires forall p :: Lookup(files, p) == ContentAfter(fates, log, 0, p, Lookup(initial, p))
    ensures var call := Writes(path, text);
            var now := Put(files, path, LeftBy(fates(|log|, call), text));
      forall p :: Lookup(now, p) == ContentAfter(fates, log + [call], 0, p, Lookup(initial, p))
  {
    var call := Writes(path, text);
    var now := Put(files, path, LeftBy(fates(|log|, call), text));
    forall p
      ensures Lookup(now, p) == ContentAfter(fates, log + [call], 0, p, Lookup(initial, p))
    {
      ContentNext(fates, log, call, 0, p, Lookup(initial, p));
    }
  }

  lemma RemoveTraced(fates: DiskFates, files: Fs, initial: Fs, log: seq<Call>, path: Path)
    requires forall p :: Lookup(files, p) == ContentAfter(fates, log, 0, p, Lookup(initial, p))
    ensures var call := Removes(path);
            var now := if fates(|log|, call).Works? then Put(files, path, None) else files;
      forall p :: Lookup(now, p) == ContentAfter(fates, log + [call], 0, p, Lookup(initial, p))
  {
    var call := Removes(path);
    var now := if fates(|log|, call).Works? then Put(files, path, None) else files;
    forall p
      ensures Lookup(now, p) == ContentAfter(fates, log + [call], 0, p, Lookup(initial, p))
    {
      ContentNext(fates, log, call, 0, p, Lookup(initial, p));
    }
  }

  lemma QuietStart(fates: DiskFates, log: seq<Call>)
    ensures OnlyQuiet(log, log) && Unaltered(log, log) && Calls.AllWork(fates, log, |log|)
  {
  }

  lemma StoreIsQuiet(before: seq<Call>, after: seq<Call>)
    requires OnlyStore(before, after)
    ensures OnlyQuiet(before, after) && before <= after
  {
  }

  lemma QuietMore(before: seq<Call>, after: seq<Call>)
    requires OnlyQuiet(before, after)
    ensures before <= after && Unaltered(before, after)
  {
  }

  lemma UnalteredMore(before: seq<Call>, after: seq<Call>)
    requires Unaltered(before, after)
    ensures before <= after
  {
  }

  /** One more call: quiet if it is, and all have worked if they had and it does. */
  lemma QuietStep(fates: DiskFates, start: seq<Call>, log: seq<Call>, call: Call)
    requires start <= log
    ensures start <= log + [call]
    ensures OnlyQuiet(start, log) && Quiet(call) ==> OnlyQuiet(start, log + [call])
    ensures Unaltered(start, log) && !Alters(call) ==> Unaltered(start, log + [call])
    ensures Calls.AllWork(fates, log + [call], |start|) <==>
      Calls.AllWork(fates, log, |start|) && fates(|log|, call).Works?
  {
    var more := log + [call];
    assert more[|log|] == call && forall k :: 0 <= k < |log| ==> more[k] == log[k];
  }

  lemma QuietThen(fates: DiskFates, a: seq<Call>, b: seq<Call>, c: seq<Call>)
    requires a <= b <= c
    ensures OnlyQuiet(a, b) && OnlyQuiet(b, c) ==> OnlyQuiet(a, c)
    ensures Unaltered(a, b) && Unaltered(b, c) ==> Unaltered(a, c)
    ensures Calls.AllWork(fates, c, |a|) <==> Calls.AllWork(fates, b, |a|) && Calls.AllWork(fates, c, |b|)
  {
    assert forall k :: 0 <= k < |b| ==> c[k] == b[k];
  }

  /** Calls on these files: none, one more, and more after them. */
  lemma OnStart(log: seq<Call>, paths: set<Path>)
    ensures OnlyOn(log, log, paths)
  {
  }

  lemma OnStep(start: seq<Call>, log: seq<Call>, call: Call, paths: set<Path>)
    requires OnlyOn(start, log, paths) && !call.ReadsPoint? && (Alters(call) ==> call.path in paths)
    ensures OnlyOn(start, log + [call], paths)
  {
    var more := log + [call];
    assert more[|log|] == call && forall k :: 0 <= k < |log| ==> more[k] == log[k];
  }

  lemma OnThen(a: seq<Call>, b: seq<Call>, c: seq<Call>, paths: set<Path>)
    requires OnlyOn(a, b, paths) && OnlyOn(b, c, paths)
    ensures OnlyOn(a, c, paths)
  {
    assert forall k :: 0 <= k < |b| ==> c[k] == b[k];
  }

  lemma OnMore(before: seq<Call>, after: seq<Call>, paths: set<Path>, more: set<Path>)
    requires OnlyOn(before, after, paths) && paths <= more
    ensures OnlyOn(before, after, more)
  {
  }

  lemma OnceQuiet(before: seq<Call>, after: seq<Call>, call: Call)
    requires Unaltered(before, after)
    ensures AtMostOnce(before, after, call)
  {
  }

  lemma OnceStep(before: seq<Call>, log: seq<Call>, call: Call)
    requires Unaltered(before, log)
    ensures AtMostOnce(before, log + [call], call)
  {
    var more := log + [call];
    assert forall k :: 0 <= k < |log| ==> more[k] == log[k];
  }

  lemma OnceThen(a: seq<Call>, b: seq<Call>, c: seq<Call>, call: Call)
    requires (Unaltered(a, b) && AtMostOnce(b, c, call)) || (AtMostOnce(a, b, call) && Unaltered(b, c))
    ensures AtMostOnce(a, c, call)
  {
    assert forall k :: 0 <= k < |b| ==> c[k] == b[k];
  }

  lemma QuietIsOn(before: seq<Call>, after: seq<Call>, paths: set<Path>)
    requires OnlyQuiet(before, after)
    ensures OnlyOn(before, after, paths)
  {
  }
}
