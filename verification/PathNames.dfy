/** Which file a path names, which paths a proposal may use, and where an applied proposal leaves its texts. */
module PathNames {
  import opened Text
  import opened WorkspaceDisk
  import opened RestorePoints
  import opened PatchProposals

  /** Names of directories and files: not empty, not `.`, without a slash. */
  predicate PlainParts(parts: seq<string>) {
    forall k :: 0 <= k < |parts| ==> parts[k] != "" && parts[k] != "." && '/' !in parts[k]
  }

  predicate SlashFree(parts: seq<string>) {
    forall k :: 0 <= k < |parts| ==> '/' !in parts[k]
  }

  /** A path that is written as plainly as it can be. */
  predicate Plain(path: string) {
    PlainParts(Split(path, "/"))
  }

  // Joining and splitting

  /** Joining the pieces again gives the whole. */
  lemma {:induction false} JoinSplit(s: string, c: char)
    ensures Join(Split(s, [c]), [c]) == s
    decreases |s|
  {
    FindFirst(s, [c]);
    var i := Find(s, [c]);
    if i != -1 {
      var rest := s[i + 1..];
      JoinSplit(rest, c);
      assert Split(s, [c]) == [s[..i]] + Split(rest, [c]);
      assert ([s[..i]] + Split(rest, [c]))[1..] == Split(rest, [c]);
      assert s == s[..i] + [c] + rest;
    }
  }

  lemma {:induction false} NamedPlain(parts: seq<string>)
    requires PlainParts(parts)
    ensures NamedParts(parts) == parts
  {
    if parts != [] {
      NamedPlain(parts[1..]);
    }
  }

  lemma {:induction false} NamedArePlain(parts: seq<string>)
    requires SlashFree(parts)
    ensures PlainParts(NamedParts(parts))
  {
    if parts != [] {
      NamedArePlain(parts[1..]);
    }
  }

  function Counted(part: string): seq<string> {
    if part == "" || part == "." then [] else [part]
  }

  lemma NamedFrom(part: string, parts: seq<string>)
    ensures NamedParts([part] + parts) == Counted(part) + NamedParts(parts)
  {
    assert ([part] + parts)[1..] == parts;
  }

  lemma {:induction false} NamedBoth(a: seq<string>, b: seq<string>)
    ensures NamedParts(a + b) == NamedParts(a) + NamedParts(b)
  {
    if a == [] {
      assert a + b == b;
    } else {
      var rest := a[1..];
      NamedBoth(rest, b);
      NamedFrom(a[0], rest + b);
      NamedFrom(a[0], rest);
      assert a == [a[0]] + rest && a + b == [a[0]] + (rest + b);
      hide NamedParts, Counted;
      Assoc(Counted(a[0]), NamedParts(rest), NamedParts(b));
    }
  }

  lemma JoinPlain(parts: seq<string>)
    requires PlainParts(parts)
    ensures Join(parts, "/") == "" <==> parts == []
    ensures parts != [] ==> Split(Join(parts, "/"), "/") == parts
  {
    if parts != [] {
      SplitJoin(parts, '/');
      assert Split("", "/") == [""];
    }
  }

  // Which file a path names

  /** A path of plain parts names the file at exactly these parts. */
  lemma ResolvePlain(parts: seq<string>)
    requires PlainParts(parts) && parts != []
    ensures Resolve(Join(parts, "/")) == Join(parts, "/") && Plain(Join(parts, "/"))
  {
    JoinPlain(parts);
    NamedPlain(parts);
  }

  lemma PlainNamesItself(path: string)
    requires Plain(path)
    ensures Resolve(path) == path
  {
    JoinSplit(path, '/');
    NamedPlain(Split(path, "/"));
  }

  lemma ResolveJoin(parts: seq<string>)
    requires SlashFree(parts) && parts != []
    ensures Resolve(Join(parts, "/")) == Join(NamedParts(parts), "/")
  {
    SplitJoin(parts, '/');
  }

  lemma DotDropped(a: seq<string>, dot: string, b: seq<string>)
    requires dot in {"", "."}
    ensures NamedParts(a + [dot] + b) == NamedParts(a + b)
  {
    NamedFrom(dot, b);
    hide NamedParts;
    Assoc(a, [dot], b);
    NamedBoth(a, [dot] + b);
    NamedBoth(a, b);
  }

  /** Empty parts and `.` do not count, wherever they stand. */
  lemma DotsDoNotCount(a: seq<string>, dot: string, b: seq<string>)
    requires SlashFree(a) && SlashFree(b) && dot in {"", "."} && a + b != []
    ensures Resolve(Join(a + [dot] + b, "/")) == Resolve(Join(a + b, "/"))
  {
    DotDropped(a, dot, b);
    hide NamedParts, Join, Resolve;
    ResolveJoin(a + [dot] + b);
    ResolveJoin(a + b);
  }

  /** Two paths name one file if and only if they have the same parts, those that do not count left out. */
  lemma SameFileExactly(p: string, q: string)
    ensures Resolve(p) == Resolve(q) <==> NamedParts(Split(p, "/")) == NamedParts(Split(q, "/"))
  {
    var a, b := NamedParts(Split(p, "/")), NamedParts(Split(q, "/"));
    SplitPiecesFree(p, '/');
    SplitPiecesFree(q, '/');
    NamedArePlain(Split(p, "/"));
    NamedArePlain(Split(q, "/"));
    JoinPlain(a);
    JoinPlain(b);
  }

  /** What a path names is the plain path to it, unless it names the workspace itself. */
  lemma ResolvedIsPlain(path: string)
    ensures Resolve(path) == "" || Plain(Resolve(path))
    ensures Resolve(Resolve(path)) == Resolve(path)
  {
    var parts := NamedParts(Split(path, "/"));
    SplitPiecesFree(path, '/');
    NamedArePlain(Split(path, "/"));
    JoinPlain(parts);
    if parts != [] {
      ResolvePlain(parts);
    } else {
      assert Resolve("") == "";
    }
  }

  // Which paths a proposal may use

  lemma {:induction false} ForwardOnly(path: string)
    ensures '\\' !in SlashesForward(path) && |SlashesForward(path)| == |path|
    ensures forall k :: 0 <= k < |path| ==> SlashesForward(path)[k] == if path[k] == '\\' then '/' else path[k]
  {
    if path != "" {
      ForwardOnly(path[1..]);
    }
  }

  lemma ForwardFixed(path: string)
    requires '\\' !in path
    ensures SlashesForward(path) == path
  {
    ForwardOnly(path);
  }

  lemma {:induction false} LeadingGone(path: string)
    ensures WithoutLeadingSlashes(path) == "" || WithoutLeadingSlashes(path)[0] != '/'
    ensures forall c :: c in WithoutLeadingSlashes(path) ==> c in path
  {
    if path != "" && path[0] == '/' {
      LeadingGone(path[1..]);
    }
  }

  lemma {:induction false} TrimStartWithin(s: string)
    ensures forall c :: c in TrimStart(s) ==> c in s
  {
    if s != "" && IsWhitespace(s[0]) {
      TrimStartWithin(s[1..]);
    }
  }

  lemma {:induction false} TrimEndWithin(s: string)
    ensures forall c :: c in TrimEnd(s) ==> c in s
  {
    if s != "" && IsWhitespace(s[|s| - 1]) {
      TrimEndWithin(s[..|s| - 1]);
    }
  }

  /** Relative, with forward slashes, without surrounding white space, and never out of the workspace. */
  predicate Inside(path: string) {
    path != "" && path[0] != '/' && '\\' !in path && Trim(path) == path && ".." !in Split(path, "/")
  }

  /** Every accepted path lies inside. */
  lemma NormalIsInside(path: string)
    requires Normalize(path).Some?
    ensures Inside(Normalize(path).value)
  {
    var slashed := SlashesForward(path);
    var relative := WithoutLeadingSlashes(slashed);
    ForwardOnly(path);
    LeadingGone(slashed);
    TrimStartWithin(relative);
    TrimEndWithin(TrimStart(relative));
    TrimTwice(relative);
  }

  /** A relative path with forward slashes and nothing to trim is accepted, as it is, if and only if it has no `..`. */
  lemma NormalizeExactly(path: string)
    requires path != "" && path[0] != '/' && '\\' !in path && Trim(path) == path
    ensures Normalize(path) == if ".." in Split(path, "/") then None else Some(path)
  {
    ForwardFixed(path);
  }

  /** Leading slashes, and which way the slashes lean, make no difference. */
  lemma SlashesDoNotCount(path: string)
    ensures Normalize("/" + path) == Normalize(path) && Normalize(SlashesForward(path)) == Normalize(path)
  {
    assert ("/" + path)[1..] == path;
    assert SlashesForward("/" + path) == "/" + SlashesForward(path);
    assert ("/" + SlashesForward(path))[1..] == SlashesForward(path);
    ForwardOnly(path);
    ForwardFixed(SlashesForward(path));
  }

  // Where an applied proposal leaves its texts

  function PathsIn(changes: seq<Change>): set<Path> {
    set k | 0 <= k < |changes| :: changes[k].filePath
  }

  predicate AllPlain(changes: seq<Change>) {
    forall k :: 0 <= k < |changes| ==> Plain(changes[k].filePath)
  }

  ghost predicate Different(changes: seq<Change>) {
    forall i, j :: 0 <= i < j < |changes| ==> changes[i].filePath != changes[j].filePath
  }

  predicate TextWhereWritten(changes: seq<Change>) {
    forall k :: 0 <= k < |changes| ==> (changes[k].changeType.Delete? <==> changes[k].proposedContent.None?)
  }

  /** Under the very path of each change stands the text it proposes, or nothing where it has none, and no other file
      has changed. */
  ghost predicate InPlace(before: Fs, after: Fs, changes: seq<Change>) {
    && (forall k :: 0 <= k < |changes| ==> Lookup(after, changes[k].filePath) == changes[k].proposedContent)
    && AgreeOutside(after, before, PathsIn(changes))
  }

  lemma AppliedInPlace(files: Fs, changes: seq<Change>)
    requires AllPlain(changes) && Different(changes) && TextWhereWritten(changes)
    ensures InPlace(files, AppliedTo(files, changes), changes)
  {
    hide Plain, AppliedTo;
    forall k | 0 <= k < |changes|
      ensures Target(changes[k]) == changes[k].filePath && Desired(changes[k]) == changes[k].proposedContent
    {
      PlainNamesItself(changes[k].filePath);
    }
    assert Targets(changes) == PathsIn(changes);
    hide Target, Desired;
    AppliedExactly(files, changes);
  }

  lemma AcceptedChanges(proposal: Proposal, maxFiles: int, maxSize: int)
    requires Validated(proposal, maxFiles, maxSize).Accepted?
    ensures var changes := Validated(proposal, maxFiles, maxSize).value.changes;
      && Different(changes) && TextWhereWritten(changes)
      && forall k :: 0 <= k < |changes| ==> Inside(changes[k].filePath)
  {
    AcceptedExactly(proposal, maxFiles, maxSize);
    hide Validated, Normalize, TotalSize, Inside;
    var changes := Validated(proposal, maxFiles, maxSize).value.changes;
    forall k | 0 <= k < |changes|
      ensures Inside(changes[k].filePath)
    {
      NormalIsInside(proposal.changes[k].filePath);
    }
  }
}
