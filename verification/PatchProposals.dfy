/** Proposals of file changes: which ones are accepted, what applying one does to the files, and the
    limits of the pipeline. */
module PatchProposals {
  import opened Text
  import opened WorkspaceDisk
  import opened RestorePoints

  datatype ChangeType = Create | Modify | Delete

  datatype Change = Change(id: string, filePath: string, changeType: ChangeType, proposedContent: Option<string>)

  datatype Proposal = Proposal(id: string, runId: string, title: string, createdAt: string, changes: seq<Change>)

  datatype Error = ContractInvalid | NoChanges | TooManyFiles | PathInvalid | DuplicateFile | ContentRequired
                 | DeleteContentInvalid | TooLarge

  datatype Result<T> = Accepted(value: T) | Refused(error: Error)

  // Paths

  function SlashesForward(path: string): string {
    if path == "" then "" else [if path[0] == '\\' then '/' else path[0]] + SlashesForward(path[1..])
  }

  function WithoutLeadingSlashes(path: string): string {
    if path != "" && path[0] == '/' then WithoutLeadingSlashes(path[1..]) else path
  }

  /** `normalizeRelativePath`; `None` where it throws. */
  function Normalize(path: string): Option<string> {
    var normalized := Trim(WithoutLeadingSlashes(SlashesForward(path)));
    if normalized == "" || normalized[0] == '/' || ".." in Split(normalized, "/") then None else Some(normalized)
  }

  /** Bytes of a text in UTF-8. */
  function ByteLength(text: string): nat {
    if text == "" then 0
    else
      (if text[0] < '\U{80}' then 1 else if text[0] < '\U{800}' then 2 else if text[0] < '\U{10000}' then 3 else 4)
      + ByteLength(text[1..])
  }

  // Validation

  function TextOf(change: Change): string {
    if change.proposedContent.Some? then change.proposedContent.value else ""
  }

  function ChangeError(change: Change, seen: seq<string>): Option<Error> {
    var path := Normalize(change.filePath);
    if path.None? then Some(PathInvalid)
    else if path.value in seen then Some(DuplicateFile)
    else if !change.changeType.Delete? && change.proposedContent.None? then Some(ContentRequired)
    else if change.changeType.Delete? && change.proposedContent.Some? then Some(DeleteContentInvalid)
    else None
  }

  /** The error of the first change that has one. */
  function FirstError(changes: seq<Change>): Option<Error> {
    if changes == [] then None
    else
      var before := FirstError(Front(changes));
      if before.Some? then before else ChangeError(Last(changes), NormalPaths(Front(changes)))
  }

  function NormalPath(change: Change): string {
    var path := Normalize(change.filePath);
    if path.Some? then path.value else ""
  }

  function NormalPaths(changes: seq<Change>): (paths: seq<string>)
    ensures |paths| == |changes|
  {
    if changes == [] then [] else NormalPaths(Front(changes)) + [NormalPath(Last(changes))]
  }

  function NormalChanges(changes: seq<Change>): (normal: seq<Change>)
    ensures |normal| == |changes|
  {
    if changes == [] then []
    else NormalChanges(Front(changes)) + [Last(changes).(filePath := NormalPath(Last(changes)))]
  }

  function TotalSize(changes: seq<Change>): nat {
    if changes == [] then 0 else TotalSize(Front(changes)) + ByteLength(TextOf(Last(changes)))
  }

  const MAX_FILES_CHANGED := 8
  const MAX_PATCH_SIZE := 64_000

  method ValidateProposal(proposal: Proposal, maxFiles: int, maxSize: int) returns (r: Result<Proposal>)
    ensures r == Validated(proposal, maxFiles, maxSize)
  {
    if proposal.id == "" || proposal.runId == "" || proposal.title == "" {
      return Refused(ContractInvalid);
    }
    if |proposal.changes| == 0 {
      return Refused(NoChanges);
    }
    if |proposal.changes| > maxFiles {
      return Refused(TooManyFiles);
    }
    var seen, totalSize, changes := [], 0, [];
    var all := proposal.changes;
    for k := 0 to |all|
      invariant seen == NormalPaths(all[..k]) && totalSize == TotalSize(all[..k]) && changes == NormalChanges(all[..k])
      invariant FirstError(all[..k]).None?
    {
      assert Front(all[..k + 1]) == all[..k];
      var error := ChangeError(all[k], seen);
      if error.Some? {
        FirstErrorStays(all, k + 1);
        return Refused(error.value);
      }
      seen := seen + [NormalPath(all[k])];
      totalSize := totalSize + ByteLength(TextOf(all[k]));
      changes := changes + [all[k].(filePath := NormalPath(all[k]))];
    }
    assert all[..|all|] == all;
    if totalSize > maxSize {
      return Refused(TooLarge);
    }
    return Accepted(proposal.(changes := changes));
  }

  function Validated(proposal: Proposal, maxFiles: int, maxSize: int): Result<Proposal> {
    if proposal.id == "" || proposal.runId == "" || proposal.title == "" then Refused(ContractInvalid)
    else if proposal.changes == [] then Refused(NoChanges)
    else if |proposal.changes| > maxFiles then Refused(TooManyFiles)
    else if FirstError(proposal.changes).Some? then Refused(FirstError(proposal.changes).value)
    else if TotalSize(proposal.changes) > maxSize then Refused(TooLarge)
    else Accepted(proposal.(changes := NormalChanges(proposal.changes)))
  }

  lemma {:induction false} FirstErrorStays(changes: seq<Change>, k: nat)
    requires k <= |changes| && FirstError(changes[..k]).Some?
    ensures FirstError(changes) == FirstError(changes[..k])
    decreases |changes| - k
  {
    if k == |changes| {
      assert changes[..k] == changes;
    } else {
      assert Front(changes[..k + 1]) == changes[..k];
      FirstErrorStays(changes, k + 1);
    }
  }

  /** What an accepted list of changes looks like: a text exactly where one is written, and paths that are
      normal and different. */
  ghost predicate WellFormed(changes: seq<Change>) {
    && (forall k :: 0 <= k < |changes| ==>
          Normalize(changes[k].filePath).Some? && (changes[k].changeType.Delete? <==> changes[k].proposedContent.None?))
    && (forall i, j :: 0 <= i < j < |changes| ==> NormalPath(changes[i]) != NormalPath(changes[j]))
  }

  lemma {:induction false} NormalAt(changes: seq<Change>, k: nat)
    requires k < |changes|
    ensures NormalPaths(changes)[k] == NormalPath(changes[k])
    ensures NormalChanges(changes)[k] == changes[k].(filePath := NormalPath(changes[k]))
  {
    if k < |changes| - 1 {
      NormalAt(Front(changes), k);
    }
  }

  lemma SeenExactly(changes: seq<Change>, path: string)
    ensures path in NormalPaths(changes) <==> exists k :: 0 <= k < |changes| && NormalPath(changes[k]) == path
  {
    hide NormalPath;
    forall k | 0 <= k < |changes|
      ensures NormalPaths(changes)[k] == NormalPath(changes[k])
    {
      NormalAt(changes, k);
    }
    if path in NormalPaths(changes) {
      var k :| 0 <= k < |changes| && NormalPaths(changes)[k] == path;
      assert NormalPath(changes[k]) == path;
    }
  }

  lemma WellFormedMore(front: seq<Change>, change: Change)
    ensures WellFormed(front + [change]) <==>
      (WellFormed(front) && ChangeError(change, NormalPaths(front)).None?)
  {
    hide Normalize;
    SeenExactly(front, NormalPath(change));
    hide NormalPaths;
    var all := front + [change];
    assert all[|front|] == change && forall k :: 0 <= k < |front| ==> all[k] == front[k];
  }

  lemma {:induction false} NoErrorExactly(changes: seq<Change>)
    ensures FirstError(changes).None? <==> WellFormed(changes)
  {
    if changes != [] {
      hide WellFormed, ChangeError, NormalPaths;
      NoErrorExactly(Front(changes));
      WellFormedMore(Front(changes), Last(changes));
      assert changes == Front(changes) + [Last(changes)];
    }
  }

  /** Acceptance, exactly: a complete proposal of one to `maxFiles` well-formed changes whose texts together
      have at most `maxSize` bytes; the accepted proposal differs only in its normalised paths. */
  lemma AcceptedExactly(proposal: Proposal, maxFiles: int, maxSize: int)
    ensures Validated(proposal, maxFiles, maxSize).Accepted? <==>
      (&& proposal.id != "" && proposal.runId != "" && proposal.title != ""
       && 1 <= |proposal.changes| <= maxFiles
       && WellFormed(proposal.changes)
       && TotalSize(proposal.changes) <= maxSize)
    ensures Validated(proposal, maxFiles, maxSize).Accepted? ==>
      var accepted := Validated(proposal, maxFiles, maxSize).value;
      && accepted == proposal.(changes := accepted.changes) && |accepted.changes| == |proposal.changes|
      && (forall k :: 0 <= k < |proposal.changes| ==>
            accepted.changes[k] == proposal.changes[k].(filePath := NormalPath(proposal.changes[k])))
      && (forall i, j :: 0 <= i < j < |accepted.changes| ==>
            accepted.changes[i].filePath != accepted.changes[j].filePath)
  {
    NoErrorExactly(proposal.changes);
    forall k | 0 <= k < |proposal.changes|
      ensures NormalChanges(proposal.changes)[k] == proposal.changes[k].(filePath := NormalPath(proposal.changes[k]))
    {
      NormalAt(proposal.changes, k);
    }
  }

  /** Accepted paths carry no surrounding white space. */
  predicate TrimmedPaths(changes: seq<Change>) {
    forall k :: 0 <= k < |changes| ==> changes[k].filePath != "" && Trim(changes[k].filePath) == changes[k].filePath
  }

  lemma AcceptedTrimmed(proposal: Proposal, maxFiles: int, maxSize: int)
    requires Validated(proposal, maxFiles, maxSize).Accepted?
    ensures TrimmedPaths(Validated(proposal, maxFiles, maxSize).value.changes)
  {
    AcceptedExactly(proposal, maxFiles, maxSize);
    hide WithoutLeadingSlashes, SlashesForward, Split, TotalSize, FirstError, NormalChanges;
    forall k | 0 <= k < |proposal.changes|
      ensures var path := NormalPath(proposal.changes[k]); path != "" && Trim(path) == path
    {
      assert Normalize(proposal.changes[k].filePath).Some?;
      TrimTwice(WithoutLeadingSlashes(SlashesForward(proposal.changes[k].filePath)));
    }
  }

  // What applying means

  function Target(change: Change): Path {
    Resolve(change.filePath)
  }

  function Desired(change: Change): Option<string> {
    if change.changeType.Delete? then None else Some(TextOf(change))
  }

  function AppliedTo(files: Fs, changes: seq<Change>): Fs {
    if changes == [] then files
    else Put(AppliedTo(files, Front(changes)), Target(Last(changes)), Desired(Last(changes)))
  }

  function Targets(changes: seq<Change>): set<Path> {
    set k | 0 <= k < |changes| :: Target(changes[k])
  }

  lemma {:induction false} AppliedFrame(files: Fs, changes: seq<Change>)
    ensures AgreeOutside(AppliedTo(files, changes), files, Targets(changes))
  {
    if changes != [] {
      AppliedFrame(files, Front(changes));
      PutAgrees(AppliedTo(files, Front(changes)), Target(Last(changes)), Desired(Last(changes)));
      TargetsOfMore(Front(changes), Last(changes));
      assert changes == Front(changes) + [Last(changes)];
    }
  }

  lemma TargetsOfMore(changes: seq<Change>, change: Change)
    ensures Targets(changes + [change]) == Targets(changes) + {Target(change)}
  {
    var all := changes + [change];
    assert all[|changes|] == change;
    assert forall k :: 0 <= k < |changes| ==> all[k] == changes[k];
    forall path
      ensures path in Targets(all) <==> path in Targets(changes) || path == Target(change)
    {
      if path in Targets(changes) {
        var k :| 0 <= k < |changes| && Target(changes[k]) == path;
        assert Target(all[k]) == path;
      }
    }
  }

  /** Of several changes to one file the last one counts. */
  lemma {:induction false} LastChangeWins(files: Fs, changes: seq<Change>, k: nat)
    requires k < |changes| && forall j :: k < j < |changes| ==> Target(changes[j]) != Target(changes[k])
    ensures Lookup(AppliedTo(files, changes), Target(changes[k])) == Desired(changes[k])
  {
    var front := Front(changes);
    PutAgrees(AppliedTo(files, front), Target(Last(changes)), Desired(Last(changes)));
    if k < |front| {
      LastChangeWins(files, front, k);
    }
  }

  /** The last change to the file of change `k`. */
  lemma {:induction false} LastOf(changes: seq<Change>, k: nat) returns (last: nat)
    requires k < |changes|
    ensures k <= last < |changes| && Target(changes[last]) == Target(changes[k])
    ensures forall j :: last < j < |changes| ==> Target(changes[j]) != Target(changes[k])
  {
    last := |changes| - 1;
    while Target(changes[last]) != Target(changes[k])
      invariant k <= last < |changes|
      invariant forall j :: last < j < |changes| ==> Target(changes[j]) != Target(changes[k])
      decreases last
    {
      last := last - 1;
    }
  }

  /** Changes to one file ask for the same. */
  predicate Agreeing(changes: seq<Change>) {
    forall i, j :: 0 <= i < j < |changes| && Target(changes[i]) == Target(changes[j]) ==>
      Desired(changes[i]) == Desired(changes[j])
  }

  predicate AllGranted(files: Fs, changes: seq<Change>) {
    forall k :: 0 <= k < |changes| ==> Lookup(files, Target(changes[k])) == Desired(changes[k])
  }

  /** Applying gives every change what it proposes if and only if changes to the same file propose the same;
      the rest of the workspace is left alone in any case. */
  lemma AppliedExactly(files: Fs, changes: seq<Change>)
    ensures AllGranted(AppliedTo(files, changes), changes) <==> Agreeing(changes)
    ensures AgreeOutside(AppliedTo(files, changes), files, Targets(changes))
  {
    AppliedFrame(files, changes);
    hide AppliedTo;
    if AllGranted(AppliedTo(files, changes), changes) {
      GrantedAgree(AppliedTo(files, changes), changes);
    }
    if Agreeing(changes) {
      forall k | 0 <= k < |changes|
        ensures Lookup(AppliedTo(files, changes), Target(changes[k])) == Desired(changes[k])
      {
        AgreeingGranted(files, changes, k);
      }
    }
  }

  lemma GrantedAgree(files: Fs, changes: seq<Change>)
    requires AllGranted(files, changes)
    ensures Agreeing(changes)
  {
    hide Target, Desired;
  }

  lemma AgreeingGranted(files: Fs, changes: seq<Change>, k: nat)
    requires Agreeing(changes) && k < |changes|
    ensures Lookup(AppliedTo(files, changes), Target(changes[k])) == Desired(changes[k])
  {
    hide AppliedTo, Target, Desired;
    var last := LastOf(changes, k);
    LastChangeWins(files, changes, last);
  }

  /** Acceptance does not give agreement: the different paths "./a" and "a" name one file, and two changes that
      ask for different texts are accepted. */
  lemma SameFileTwice()
    ensures exists changes: seq<Change> ::
      && |changes| == 2 && FirstError(changes).None? && !Agreeing(changes)
  {
    var first, second := Change("1", "./a", Create, Some("x")), Change("2", "a", Create, Some("y"));
    var changes := [first, second];
    TwoNamesOfA();
    hide Normalize, Resolve;
    assert Front(changes) == [first] && Front([first]) == [];
    assert NormalPaths([first]) == ["./a"];
    assert FirstError([first]).None?;
    assert FirstError(changes).None?;
    assert Target(changes[0]) == Target(changes[1]) && Desired(changes[0]) != Desired(changes[1]);
  }

  lemma TwoNamesOfA()
    ensures Normalize("./a") == Some("./a") && Normalize("a") == Some("a")
    ensures Resolve("./a") == "a" && Resolve("a") == "a"
  {
    SplitAfter(".", "/", "a");
    SplitNone("a", "/");
    assert "./a" == "." + "/" + "a";
    assert Split("./a", "/") == [".", "a"] && Split("a", "/") == ["a"];
    hide Split, Trim, SlashesForward, WithoutLeadingSlashes, NamedParts;
    Untouched();
    PartsOfA();
  }

  lemma Untouched()
    ensures Trim(WithoutLeadingSlashes(SlashesForward("./a"))) == "./a"
    ensures Trim(WithoutLeadingSlashes(SlashesForward("a"))) == "a"
  {
    TrimFixed("./a");
    TrimFixed("a");
    hide Trim;
    assert "./a"[1..] == "/a" && "/a"[1..] == "a" && "a"[1..] == "";
    assert SlashesForward("a") == "a";
    assert SlashesForward("/a") == "/a";
    assert SlashesForward("./a") == "./a";
  }

  lemma PartsOfA()
    ensures NamedParts(["a"]) == ["a"] && NamedParts([".", "a"]) == ["a"]
  {
    assert ["a"][1..] == [] && [".", "a"][1..] == ["a"];
    assert NamedParts(["a"]) == ["a"];
  }

  // The limits of the pipeline

  datatype Limits = Limits(maxIterations: int, maxFilesChanged: int, maxPatchSize: int, maxCommandCount: int,
                           requireReviewGate: bool, allowCommit: bool)

  const DEFAULT_LIMITS := Limits(3, MAX_FILES_CHANGED, MAX_PATCH_SIZE, 12, true, false)

  datatype Context = Context(iteration: int, commandCount: int, reviewGateApproved: bool, allowCommit: bool)

  datatype PlanError = Iterations | Files | Size | Commands | ReviewGate | Commit

  datatype PlanChange = PlanChange(path: Path, proposedContent: string)

  function PlanSize(changes: seq<PlanChange>): nat {
    if changes == [] then 0 else PlanSize(Front(changes)) + ByteLength(Last(changes).proposedContent)
  }

  function ValidatePatchPlan(changes: seq<PlanChange>, context: Context, limits: Limits): Option<PlanError> {
    if context.iteration > limits.maxIterations then Some(Iterations)
    else if |set change | change in changes :: change.path| > limits.maxFilesChanged then Some(Files)
    else if PlanSize(changes) > limits.maxPatchSize then Some(Size)
    else if context.commandCount > limits.maxCommandCount then Some(Commands)
    else if limits.requireReviewGate && !context.reviewGateApproved then Some(ReviewGate)
    else if context.allowCommit && !limits.allowCommit then Some(Commit)
    else None
  }

  const APPROVED := Context(1, 0, true, false)

  /** The pipeline never refuses, change by change, what the validation of the whole proposal let through. */
  lemma PipelineAgrees(proposal: Proposal, limits: Limits, k: nat)
    requires Validated(proposal, limits.maxFilesChanged, limits.maxPatchSize).Accepted? && k < |proposal.changes|
    requires limits.maxIterations >= 1 && limits.maxCommandCount >= 0
    ensures var change := Validated(proposal, limits.maxFilesChanged, limits.maxPatchSize).value.changes[k];
      ValidatePatchPlan([PlanChange(Target(change), TextOf(change))], APPROVED, limits).None?
  {
    hide NormalChanges, FirstError, Target, ByteLength, TotalSize, NormalPath, TextOf, ValidatePatchPlan;
    NormalAt(proposal.changes, k);
    SizeOfOne(proposal.changes, k);
    var change := NormalChanges(proposal.changes)[k];
    assert change == proposal.changes[k].(filePath := change.filePath);
    SameText(proposal.changes[k], change.filePath);
    OneChangePasses(Target(change), TextOf(change), limits);
  }

  lemma SameText(change: Change, path: string)
    ensures TextOf(change.(filePath := path)) == TextOf(change)
  {
  }

  lemma OneChangePasses(path: Path, text: string, limits: Limits)
    requires limits.maxIterations >= 1 && limits.maxCommandCount >= 0
    requires limits.maxFilesChanged >= 1 && ByteLength(text) <= limits.maxPatchSize
    ensures ValidatePatchPlan([PlanChange(path, text)], APPROVED, limits).None?
  {
    var plan := [PlanChange(path, text)];
    hide ByteLength;
    PlanOfOne(path, text);
    hide PlanSize;
    OnePath(plan[0]);
  }

  lemma PlanOfOne(path: Path, text: string)
    ensures PlanSize([PlanChange(path, text)]) == ByteLength(text)
  {
    hide ByteLength;
    assert Front([PlanChange(path, text)]) == [];
  }

  lemma OnePath(change: PlanChange)
    ensures (set c | c in [change] :: c.path) == {change.path}
  {
    assert change in [change];
  }

  lemma {:induction false} SizeOfOne(changes: seq<Change>, k: nat)
    requires k < |changes|
    ensures ByteLength(TextOf(changes[k])) <= TotalSize(changes)
  {
    if k < |changes| - 1 {
      SizeOfOne(Front(changes), k);
    }
  }

  // Which error

  /** An earlier change names the same path. */
  ghost predicate SeenBefore(changes: seq<Change>, k: nat)
    requires k < |changes|
  {
    exists j :: 0 <= j < k && Normalize(changes[j].filePath) == Normalize(changes[k].filePath)
  }

  /** The change is the first that cannot be accepted, and this is what is wrong with it. */
  ghost predicate FirstBad(changes: seq<Change>, k: nat, error: Error) {
    && k < |changes| && WellFormed(changes[..k])
    && var path, change := Normalize(changes[k].filePath), changes[k];
       match error
       case PathInvalid => path.None?
       case DuplicateFile => path.Some? && SeenBefore(changes, k)
       case ContentRequired =>
         path.Some? && !SeenBefore(changes, k) && !change.changeType.Delete? && change.proposedContent.None?
       case DeleteContentInvalid =>
         path.Some? && !SeenBefore(changes, k) && change.changeType.Delete? && change.proposedContent.Some?
       case _ => false
  }

  lemma FirstBadStays(front: seq<Change>, changes: seq<Change>, k: nat, error: Error)
    requires FirstBad(front, k, error) && front <= changes
    ensures FirstBad(changes, k, error)
  {
    hide WellFormed, Normalize;
    assert front[..k] == changes[..k];
    assert forall j :: 0 <= j <= k ==> front[j] == changes[j];
  }

  lemma SeenAmong(front: seq<Change>, change: Change)
    requires WellFormed(front) && Normalize(change.filePath).Some?
    ensures SeenBefore(front + [change], |front|) <==> Normalize(change.filePath).value in NormalPaths(front)
  {
    var changes := front + [change];
    assert changes[|front|] == change && forall j :: 0 <= j < |front| ==> changes[j] == front[j];
    WellFormedPaths(front);
    SeenExactly(front, NormalPath(change));
    assert Normalize(change.filePath) == Some(NormalPath(change));
    hide WellFormed, Normalize, NormalPaths, NormalPath;
  }

  lemma LastIsBad(front: seq<Change>, change: Change)
    requires WellFormed(front) && ChangeError(change, NormalPaths(front)).Some?
    ensures FirstBad(front + [change], |front|, ChangeError(change, NormalPaths(front)).value)
  {
    var changes, k := front + [change], |front|;
    LastOne(front, change);
    if Normalize(change.filePath).Some? {
      SeenAmong(front, change);
    }
    hide WellFormed, Normalize, NormalPaths, SeenBefore;
    assert changes[k] == change && WellFormed(changes[..k]);
  }

  lemma LastOne<T>(front: seq<T>, last: T)
    ensures (front + [last])[..|front|] == front && (front + [last])[|front|] == last
  {
  }

  lemma {:induction false} FirstErrorIs(changes: seq<Change>)
    ensures FirstError(changes).Some? ==> exists k: nat :: FirstBad(changes, k, FirstError(changes).value)
  {
    hide FirstBad, WellFormed, ChangeError, NormalPaths;
    if FirstError(changes).Some? {
      var front := Front(changes);
      assert changes == front + [Last(changes)];
      if FirstError(front).Some? {
        FirstErrorIs(front);
        var k: nat :| FirstBad(front, k, FirstError(front).value);
        FirstBadStays(front, changes, k, FirstError(front).value);
      } else {
        NoErrorExactly(front);
        LastIsBad(front, Last(changes));
      }
    }
  }

  lemma WellFormedPaths(changes: seq<Change>)
    requires WellFormed(changes)
    ensures forall k :: 0 <= k < |changes| ==> Normalize(changes[k].filePath) == Some(NormalPath(changes[k]))
  {
    hide Normalize;
  }

  /** Which error a proposal is refused with: the first of the checks that fails, in this order, and among the changes
      the one of the first bad change. */
  lemma RefusedExactly(proposal: Proposal, maxFiles: int, maxSize: int)
    requires Validated(proposal, maxFiles, maxSize).Refused?
    ensures var (error, changes) := (Validated(proposal, maxFiles, maxSize).error, proposal.changes);
      if proposal.id == "" || proposal.runId == "" || proposal.title == "" then error == ContractInvalid
      else if changes == [] then error == NoChanges
      else if |changes| > maxFiles then error == TooManyFiles
      else if !WellFormed(changes) then exists k: nat :: FirstBad(changes, k, error)
      else error == TooLarge && TotalSize(changes) > maxSize
  {
    NoErrorExactly(proposal.changes);
    FirstErrorIs(proposal.changes);
    hide FirstError, WellFormed, FirstBad, TotalSize;
  }

  // Sizes

  lemma {:induction false} BytesOfBoth(a: string, b: string)
    ensures ByteLength(a + b) == ByteLength(a) + ByteLength(b)
  {
    if a == "" {
      assert a + b == b;
    } else {
      BytesOfBoth(a[1..], b);
      assert (a + b)[1..] == a[1..] + b;
    }
  }

  /** One character takes one to four bytes. */
  lemma BytesOfOne(c: char)
    ensures ByteLength([c]) ==
      if c <= '\U{7F}' then 1 else if c <= '\U{7FF}' then 2 else if c <= '\U{FFFF}' then 3 else 4
  {
    assert [c][1..] == "";
  }

  // The pipeline

  /** Everything the pipeline asks for. */
  predicate WithinLimits(changes: seq<PlanChange>, context: Context, limits: Limits) {
    && context.iteration <= limits.maxIterations
    && |set k | 0 <= k < |changes| :: changes[k].path| <= limits.maxFilesChanged
    && PlanSize(changes) <= limits.maxPatchSize
    && context.commandCount <= limits.maxCommandCount
    && (limits.requireReviewGate ==> context.reviewGateApproved)
    && (context.allowCommit ==> limits.allowCommit)
  }

  /** The pipeline lets through exactly what is within its limits, and a missing approval or a commit that is not
      allowed is what it refuses only after all of them. */
  lemma PlanPassesExactly(changes: seq<PlanChange>, context: Context, limits: Limits)
    ensures ValidatePatchPlan(changes, context, limits).None? <==> WithinLimits(changes, context, limits)
    ensures ValidatePatchPlan(changes, context, limits) in {Some(ReviewGate), Some(Commit)} ==>
      WithinLimits(changes, context.(reviewGateApproved := true, allowCommit := false), limits)
  {
    assert (set change | change in changes :: change.path) == set k | 0 <= k < |changes| :: changes[k].path;
    hide PlanSize;
  }
}
