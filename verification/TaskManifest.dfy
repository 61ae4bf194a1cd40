/** The task manifest: a snapshot of the workspace kept inside the workspace, and drift detection. */
module TaskManifest {
  import opened Text

  type Path = string
  type RunId = string

  /** A file: text, the stored manifest with its file hashes, or a file that cannot be read.
      A content stands for its own SHA-256 hash, which makes hashing injective. */
  datatype File = Plain(bytes: string) | Manifest(fileHashes: map<Path, File>) | Unreadable

  type Fs = map<Path, File>

  const IGNORED_ANYWHERE := {".git", ".codee", "node_modules", ".venv", "__pycache__", ".pytest_cache",
                             ".mypy_cache", ".ruff_cache", "playwright-report", "test-results"}
  const IGNORED_ROOT_GENERATED := {"dist", "build", "out", "target"}

  predicate Ignored(path: Path) {
    var parts := Split(path, "/");
    (exists part :: part in parts && part in IGNORED_ANYWHERE) || parts[0] in IGNORED_ROOT_GENERATED
  }

  function TaskPath(run: RunId): Path {
    ".codee" + "/" + ("tasks/" + run + "/task.json")
  }

  lemma TaskPathIgnored(run: RunId)
    ensures Ignored(TaskPath(run))
  {
    var rest := "tasks/" + run + "/task.json";
    SplitAfter(".codee", "/", rest);
    assert Split(TaskPath(run), "/")[0] == ".codee";
  }

  /** What a snapshot sees of a path. */
  function Visible(fs: Fs, path: Path): Option<File> {
    if path in fs && !Ignored(path) && !fs[path].Unreadable? then Some(fs[path]) else None
  }

  function Snapshot(fs: Fs): map<Path, File> {
    map path | path in fs && Visible(fs, path).Some? :: fs[path]
  }

  /** The loop of `workspace_snapshot` over the listed paths. */
  method WorkspaceSnapshot(fs: Fs, listing: seq<Path>) returns (files: map<Path, File>)
    requires forall path :: path in listing <==> path in fs
    ensures files == Snapshot(fs)
  {
    hide Ignored;
    files := map[];
    for k := 0 to |listing|
      invariant forall path :: path in files <==> path in listing[..k] && Visible(fs, path).Some?
      invariant forall path :: path in files ==> files[path] == fs[path]
    {
      var path := listing[k];
      assert listing[..k + 1] == listing[..k] + [path];
      if Ignored(path) || fs[path].Unreadable? {
        continue;
      }
      files := files[path := fs[path]];
    }
    assert listing[..|listing|] == listing;
  }

  function Materialize(fs: Fs, run: RunId): Fs {
    fs[TaskPath(run) := Manifest(Snapshot(fs))]
  }

  const MANIFEST_MISSING := "task_manifest_missing"

  /** The drifted paths, as a set; `None` where reading or parsing the manifest raises. */
  function Drift(fs: Fs, run: RunId): Option<set<Path>> {
    if TaskPath(run) !in fs then Some({MANIFEST_MISSING})
    else
      match fs[TaskPath(run)]
      case Plain(_) => None
      case Unreadable => None
      case Manifest(before) =>
        var current := Snapshot(fs);
        Some(set path | path in before.Keys + current.Keys && Lookup(before, path) != Lookup(current, path))
  }

  // The order of `sorted` on strings

  predicate Less(a: string, b: string) {
    b != "" && (a == "" || a[0] < b[0] || (a[0] == b[0] && Less(a[1..], b[1..])))
  }

  lemma {:induction false} LessTotal(a: string, b: string)
    ensures a == b || Less(a, b) || Less(b, a)
    decreases |a|
  {
    if a != "" && b != "" && a[0] == b[0] {
      LessTotal(a[1..], b[1..]);
      assert a == [a[0]] + a[1..] && b == [b[0]] + b[1..];
    }
  }

  predicate Ascending(s: seq<Path>) {
    |s| < 2 || (Less(s[0], s[1]) && Ascending(s[1..]))
  }

  function Insert(s: seq<Path>, p: Path): (r: seq<Path>)
    ensures |r| == |s| + 1
  {
    if s == [] || Less(p, s[0]) then [p] + s else [s[0]] + Insert(s[1..], p)
  }

  lemma {:induction false} InsertAscending(s: seq<Path>, p: Path)
    requires Ascending(s) && p !in s
    ensures Ascending(Insert(s, p))
    ensures forall q :: q in Insert(s, p) <==> q == p || q in s
    decreases |s|
  {
    if s != [] && !Less(p, s[0]) {
      LessTotal(p, s[0]);
      InsertAscending(s[1..], p);
      assert s == [s[0]] + s[1..];
    }
  }

  /** `validate`: the drifted paths in ascending order, each once. */
  method Validate(fs: Fs, run: RunId) returns (changed: Option<seq<Path>>)
    ensures changed.None? <==> Drift(fs, run).None?
    ensures changed.Some? ==> Ascending(changed.value)
    ensures changed.Some? ==> forall path :: path in changed.value <==> path in Drift(fs, run).value
  {
    if TaskPath(run) !in fs {
      return Some([MANIFEST_MISSING]);
    }
    if !fs[TaskPath(run)].Manifest? {
      return None;
    }
    var before, current := fs[TaskPath(run)].fileHashes, Snapshot(fs);
    var todo := before.Keys + current.Keys;
    var result: seq<Path> := [];
    while todo != {}
      invariant todo <= before.Keys + current.Keys
      invariant Ascending(result)
      invariant forall path :: path in result <==>
        path in before.Keys + current.Keys - todo && Lookup(before, path) != Lookup(current, path)
      decreases todo
    {
      var path :| path in todo;
      todo := todo - {path};
      if Lookup(before, path) != Lookup(current, path) {
        InsertAscending(result, path);
        result := Insert(result, path);
      }
    }
    return Some(result);
  }

  // Exactness

  datatype Edit = Write(path: Path, file: File) | Remove(path: Path)

  function ApplyEdit(fs: Fs, edit: Edit): Fs {
    match edit
    case Write(path, file) => fs[path := file]
    case Remove(path) => fs - {path}
  }

  function ApplyEdits(fs: Fs, edits: seq<Edit>): Fs {
    if edits == [] then fs else ApplyEdit(ApplyEdits(fs, Front(edits)), Last(edits))
  }

  lemma {:induction false} EditsKeepTask(fs: Fs, edits: seq<Edit>, path: Path)
    requires forall k :: 0 <= k < |edits| ==> edits[k].path != path
    ensures Lookup(ApplyEdits(fs, edits), path) == Lookup(fs, path)
    decreases |edits|
  {
    if edits != [] {
      EditsKeepTask(fs, Front(edits), path);
    }
  }

  lemma SnapshotSees(fs: Fs, path: Path)
    ensures Lookup(Snapshot(fs), path) == Visible(fs, path)
  {
  }

  /** Writing a manifest changes nothing a snapshot sees. */
  lemma MaterializeInvisible(fs: Fs, run: RunId)
    ensures Snapshot(Materialize(fs, run)) == Snapshot(fs)
  {
    TaskPathIgnored(run);
  }

  /** Right after writing the manifest there is no drift. */
  lemma NoDriftAfterMaterialize(fs: Fs, run: RunId)
    ensures Drift(Materialize(fs, run), run) == Some({})
  {
    hide Ignored;
    MaterializeInvisible(fs, run);
    assert Drift(Materialize(fs, run), run).value == {};
  }

  /** After any edits that leave the manifest file alone, exactly the paths whose visible content
      differs from the materialized workspace are reported: created, deleted or changed. */
  lemma DriftExact(fs: Fs, run: RunId, edits: seq<Edit>)
    requires forall k :: 0 <= k < |edits| ==> edits[k].path != TaskPath(run)
    ensures var now := ApplyEdits(Materialize(fs, run), edits);
      Drift(now, run).Some?
      && forall path :: path in Drift(now, run).value <==> Visible(fs, path) != Visible(now, path)
  {
    var now := ApplyEdits(Materialize(fs, run), edits);
    EditsKeepTask(Materialize(fs, run), edits, TaskPath(run));
    assert Lookup(now, TaskPath(run)) == Some(Manifest(Snapshot(fs)));
    forall path
      ensures path in Drift(now, run).value <==> Visible(fs, path) != Visible(now, path)
    {
      SnapshotSees(fs, path);
      SnapshotSees(now, path);
    }
  }

  /** The manifests of two runs are different files. */
  lemma TaskPathInjective(a: RunId, b: RunId)
    requires TaskPath(a) == TaskPath(b)
    ensures a == b
  {
    var head := ".codee" + "/";
    var x, y := "tasks/" + a + "/task.json", "tasks/" + b + "/task.json";
    assert (head + x)[|head|..] == x && (head + y)[|head|..] == y;
    assert x[6..6 + |a|] == a && y[6..6 + |b|] == b;
  }

  /** What a snapshot leaves out, told by the parts of a path. */
  lemma IgnoredExactly(parts: seq<string>)
    requires parts != [] && forall k :: 0 <= k < |parts| ==> '/' !in parts[k]
    ensures Ignored(Join(parts, "/")) <==>
      parts[0] in IGNORED_ROOT_GENERATED || exists k :: 0 <= k < |parts| && parts[k] in IGNORED_ANYWHERE
  {
    SplitJoin(parts, '/');
    hide Split, Join, IGNORED_ANYWHERE, IGNORED_ROOT_GENERATED;
  }

  /** One file written since the manifest is reported if and only if a snapshot sees it and its content is another. */
  lemma WrittenFileExactly(fs: Fs, run: RunId, path: Path, text: string)
    requires path != TaskPath(run)
    ensures Drift(Materialize(fs, run)[path := Plain(text)], run)
         == Some(if Ignored(path) || Lookup(fs, path) == Some(Plain(text)) then {} else {path})
  {
    var after := Materialize(fs, run)[path := Plain(text)];
    TaskPathIgnored(run);
    hide Ignored, TaskPath;
    forall other
      ensures Lookup(Snapshot(fs), other) != Lookup(Snapshot(after), other) <==>
        other == path && !Ignored(path) && Lookup(fs, path) != Some(Plain(text))
    {
      SnapshotSees(fs, other);
      SnapshotSees(after, other);
    }
    assert after[TaskPath(run)] == Manifest(Snapshot(fs));
    hide Snapshot;
    DifferenceIs(Snapshot(fs), Snapshot(after), path);
  }

  /** What differs between two snapshots that agree on every other path. */
  lemma DifferenceIs(before: map<Path, File>, after: map<Path, File>, path: Path)
    requires forall other :: other != path ==> Lookup(before, other) == Lookup(after, other)
    ensures (set p | p in before.Keys + after.Keys && Lookup(before, p) != Lookup(after, p))
         == if Lookup(before, path) != Lookup(after, path) then {path} else {}
  {
  }
}
