/** One proposal and two oracles, through the calls: a rollback that is reported as done although a file is gone, and
    one that cannot begin. */
module PatchLoss {
  import opened Text
  import opened WorkspaceDisk
  import opened RestorePoints
  import opened PatchProposals
  import opened PatchPreviews
  import opened PatchCoordinator
  import Calls
  import FileChanges
  import FileChangeService
  import RestorePointService

  /** The proposal deletes two files. */
  const DELETIONS := [Change("1", "a", Delete, None), Change("2", "b", Delete, None)]
  const PROPOSAL := Proposal("p", "run", "title", "now", DELETIONS)

  const BEFORE: Fs := map["a" := "x", "b" := "y"]

  /** Removing the second file fails, so that the first one has to be written again, and that fails too. */
  predicate Hits(call: Call) {
    call == Removes("b") || (call.Writes? && call.path == "a")
  }

  const FATES: DiskFates := (n, call) => if Hits(call) then Calls.Throws(Left(None, None)) else Calls.Works

  /** Removing the second file fails, and so does every reading of a restore point. */
  predicate HitsReading(call: Call) {
    call == Removes("b") || call.ReadsPoint?
  }

  const UNREADABLE: DiskFates :=
    (n, call) => if HitsReading(call) then Calls.Throws(Left(None, None)) else Calls.Works

  /** What both have in common: the second file stays, and what is no matter of files or of a restore works. */
  ghost predicate Stubborn(fates: DiskFates) {
    && (forall n, call :: Quiet(call) ==> fates(n, call).Works?)
    && (forall n :: !fates(n, Removes("b")).Works?)
    && (forall n, text :: fates(n, Writes("b", text)).Works?)
  }

  lemma BothStubborn()
    ensures Stubborn(FATES) && Stubborn(UNREADABLE)
  {
  }

  lemma QuietWorks(fates: DiskFates, before: seq<Call>, log: seq<Call>)
    requires Stubborn(fates) && OnlyQuiet(before, log)
    ensures Calls.AllWork(fates, log, |before|)
  {
  }

  lemma {:induction false} SecondStays(fates: DiskFates, log: seq<Call>)
    requires Stubborn(fates)
    ensures ContentAfter(fates, log, 0, "b", Some("y")).Some?
  {
    if log != [] {
      SecondStays(fates, Front(log));
    }
  }

  lemma {:induction false} FirstGoes(log: seq<Call>, before: Option<string>)
    requires Touched(log, 0, "a")
    ensures ContentAfter(FATES, log, 0, "a", before) == None
  {
    var c :| 0 <= c < |log| && Alters(log[c]) && log[c].path == "a";
    if c < |log| - 1 && (!Alters(Last(log)) || Last(log).path != "a") {
      assert Front(log)[c] == log[c];
      FirstGoes(Front(log), before);
    }
  }

  lemma LetterIsName(c: char)
    requires c != '/' && c != '\\' && c != '.' && !IsWhitespace(c)
    ensures Normalize([c]) == Some([c]) && Resolve([c]) == [c]
  {
    var path := [c];
    SplitNone(path, "/");
    TrimFixed(path);
    hide Split, Trim;
    assert path[1..] == "";
    assert SlashesForward(path) == path;
    assert WithoutLeadingSlashes(path) == path;
    var none: seq<string> := [];
    assert [path][1..] == none;
    assert NamedParts([path]) == [path];
  }

  lemma TargetsAre()
    ensures Target(DELETIONS[0]) == "a" && Target(DELETIONS[1]) == "b"
    ensures NormalPath(DELETIONS[0]) == "a" && NormalPath(DELETIONS[1]) == "b"
  {
    LetterIsName('a');
    LetterIsName('b');
    hide Normalize, Resolve;
  }

  lemma ChangesAccepted()
    ensures FirstError(DELETIONS).None? && TotalSize(DELETIONS) == 0
  {
    LetterIsName('a');
    LetterIsName('b');
    hide Normalize;
    var first, both := [DELETIONS[0]], DELETIONS;
    assert Front(both) == first && Front(first) == [];
    assert NormalPaths(first) == ["a"];
  }

  lemma ChangesNormal()
    ensures NormalChanges(DELETIONS) == DELETIONS
  {
    TargetsAre();
    hide NormalPath;
    var first, both := [DELETIONS[0]], DELETIONS;
    assert Front(both) == first && Front(first) == [];
    assert NormalChanges(first) == first;
  }

  lemma ProposalAccepted()
    ensures Validated(PROPOSAL, MAX_FILES_CHANGED, MAX_PATCH_SIZE) == Accepted(PROPOSAL)
    ensures Target(DELETIONS[0]) == "a" && Target(DELETIONS[1]) == "b"
  {
    TargetsAre();
    ChangesAccepted();
    ChangesNormal();
    hide FirstError, TotalSize, NormalChanges, Target;
  }

  lemma NothingWritten()
    ensures WriteCount(DELETIONS) == 0
  {
    assert Front(DELETIONS) == [DELETIONS[0]] && Front([DELETIONS[0]]) == [];
  }

  lemma Deletable()
    ensures AllPreviewable(DELETIONS, BEFORE) && Applicable(BEFORE, DELETIONS, DEFAULT_LIMITS)
  {
    TargetsAre();
    hide Target;
  }

  lemma SecondRemoved(files: Fs)
    ensures Lookup(AppliedTo(files, DELETIONS), "b") == None
  {
    TargetsAre();
    hide Target;
    assert Last(DELETIONS) == DELETIONS[1];
  }

  /** An apply of the proposal under such fates is not applied, and fails only with a quiet call that failed. */
  lemma NotApplied(fates: DiskFates, disk: Fs, points: map<Id, PointFile>, log: seq<Call>, from: nat, r: ApplyResult,
                   max: nat, batch: Id)
    requires Stubborn(fates) && Ended(BEFORE, disk, points, fates, log, from, DELETIONS, r, max, batch) && max > 0
    requires forall path :: Lookup(disk, path) == ContentAfter(fates, log, 0, path, Lookup(BEFORE, path))
    ensures !r.WasApplied? && r != Raised(RestorePointNotFound)
    ensures r.HasFailed? ==> Calls.AllWork(fates, log, from)
  {
    NothingWritten();
    SecondStays(fates, log);
    hide Target, ContentAfter, FailedSince, Targets, PointHolds, WriteCount;
    assert Lookup(disk, "b").Some?;
    if r.WasApplied? {
      SecondRemoved(BEFORE);
      assert false;
    }
  }

  /** Under the first oracle it is never stopped by the store. */
  lemma StoreNeverStops(log: seq<Call>)
    ensures !StoreStopped(FATES, log)
  {
  }

  lemma LossAfterRollback(disk: Fs, points: map<Id, PointFile>, log: seq<Call>, from: nat, r: ApplyResult, max: nat,
                          batch: Id)
    requires Ended(BEFORE, disk, points, FATES, log, from, DELETIONS, r, max, batch) && r.WasRolledBack?
    requires forall path :: Lookup(disk, path) == ContentAfter(FATES, log, 0, path, Lookup(BEFORE, path))
    ensures "a" !in disk
  {
    TargetsAre();
    hide Target, ContentAfter, FailedSince, Targets, PointHolds, RestoredFrom;
    assert Touched(log, from, Target(DELETIONS[0]));
    FirstGoes(log, Lookup(BEFORE, "a"));
    assert Lookup(disk, "a") == None;
  }

  /** Under the second oracle an apply that stopped after another call had failed has removed the first file. */
  lemma FirstRemoved(disk: Fs, log: seq<Call>, from: nat)
    requires log != [] && Halfway(BEFORE, disk, Front(log), from, DELETIONS) && FailedBefore(UNREADABLE, log, from)
    ensures "a" !in disk
  {
    TargetsAre();
    var k: nat :| StoppedAt(BEFORE, disk, Front(log), from, DELETIONS, k);
    var front := Front(log);
    var c :| from <= c < |front| && !UNREADABLE(c, front[c]).Works?;
    assert front[c] == Removes("b");
    hide Target;
    if k == 0 {
      FirstOnly();
      assert false;
    }
    FirstApplied();
    assert Lookup(disk, "a") == None;
  }

  lemma FirstOnly()
    ensures Targets(DELETIONS[..1]) == {"a"}
  {
    TargetsAre();
    hide Target;
    assert DELETIONS[..1][0] == DELETIONS[0];
  }

  lemma FirstApplied()
    ensures Lookup(AppliedTo(BEFORE, DELETIONS[..1]), "a") == None
  {
    TargetsAre();
    hide Target;
    assert Last(DELETIONS[..1]) == DELETIONS[0];
  }

  lemma NoPointWasRead(start: Fs, now: Fs, log: seq<Call>, from: nat, changes: seq<Change>, batch: Id)
    ensures !RestoredFrom(start, now, UNREADABLE, log, from, changes, batch)
  {
  }

  /** Previewing and approving makes no call that these fates hit. */
  method Prepare(coordinator: AgentPatchCoordinator)
    requires coordinator.Valid() && coordinator.history == [] && coordinator.limits == DEFAULT_LIMITS
    requires Stubborn(coordinator.disk.fates) && coordinator.disk.files == BEFORE
    modifies coordinator, coordinator.fileChanges, coordinator.disk`log
    ensures coordinator.Valid() && ApprovedSincePreview(coordinator.history, "p")
    ensures "p" in coordinator.proposals && coordinator.proposals["p"].proposal == PROPOSAL
  {
    hide OnlyQuiet, FreshFrom, Validated, AllPreviewable, Calls.AllWork, Shown, PreviewAll, ApprovedSincePreview;
    hide ApprovalsHold, StoredWell, HeldVersion, Stubborn;
    ProposalAccepted();
    Deletable();
    ghost var start := coordinator.disk.log;
    var version, times := coordinator.CreatePreview(PROPOSAL);
    QuietWorks(coordinator.disk.fates, start, coordinator.disk.log);
    ghost var previewed := coordinator.history;
    var approved := coordinator.ApproveProposal("p", version.value);
    HistoryStep(previewed, ApprovedBy("p"), "p");
  }

  /** Applying then fails to remove the second file and turns to the rollback. */
  method Apply(coordinator: AgentPatchCoordinator) returns (r: ApplyResult)
    requires coordinator.Valid() && coordinator.limits == DEFAULT_LIMITS && Stubborn(coordinator.disk.fates)
    requires coordinator.disk.files == BEFORE && coordinator.disk.initial == BEFORE
    requires "p" in coordinator.proposals && coordinator.proposals["p"].proposal == PROPOSAL
    requires ApprovedSincePreview(coordinator.history, "p")
    modifies coordinator, coordinator.fileChanges, coordinator.disk
    ensures coordinator.Valid() && (r.WasRolledBack? || r == Raised(RestoreUnreadable))
    ensures Ended(BEFORE, coordinator.disk.files, coordinator.disk.points, coordinator.disk.fates,
                  coordinator.disk.log, |old(coordinator.disk.log)|, DELETIONS, r, coordinator.restorePoints.max,
                  old(coordinator.disk.minted))
    ensures r == Raised(RestoreUnreadable) ==>
      FailedBefore(coordinator.disk.fates, coordinator.disk.log, |old(coordinator.disk.log)|)
  {
    hide Ended, FreshFrom, Calls.AllWork, ApprovedSincePreview, ApprovalsHold, StoredWell, ContentAfter, Applicable;
    hide FailedBefore, StoppedFor, Stubborn;
    var disk := coordinator.disk;
    Deletable();
    ghost var start, minted := disk.log, disk.minted;
    r := coordinator.ApplyApprovedProposal("p");
    NotApplied(disk.fates, disk.files, disk.points, disk.log, |start|, r, coordinator.restorePoints.max, minted);
    assert r != Raised(ReviewRequired) && r != Raised(ProposalNotFound);
    assert r.Raised? ==> r.error.RestoreUnreadable?;
  }

  method Begin(fates: DiskFates) returns (coordinator: AgentPatchCoordinator)
    ensures fresh(coordinator) && fresh(coordinator.fileChanges) && fresh(coordinator.disk)
    ensures coordinator.Valid() && coordinator.history == [] && coordinator.limits == DEFAULT_LIMITS
    ensures coordinator.disk.fates == fates
    ensures coordinator.disk.files == BEFORE && coordinator.disk.initial == BEFORE
  {
    hide FreshFrom, ApprovedSincePreview, ApprovalsHold, StoredWell, FileChanges.Coherent, ContentAfter;
    var disk := new Disk(BEFORE, fates);
    var points := new RestorePointService.RestorePointService(disk, None);
    var changes := new FileChangeService.FileChangeService(points);
    coordinator := new AgentPatchCoordinator(changes, DEFAULT_LIMITS);
  }

  /** A fresh workspace and a fresh coordinator: preview, approve, apply. The result says rolled back; the first file
      is gone, and its text is left in the restore point alone. */
  method RolledBackWithLoss() returns (r: ApplyResult, after: Fs)
    ensures r.WasRolledBack? && "a" in BEFORE && "a" !in after
  {
    hide ApprovedSincePreview, ApprovalsHold, StoredWell, FileChanges.Coherent, ContentAfter, Ended, Stubborn;
    hide FreshFrom;
    BothStubborn();
    var coordinator := Begin(FATES);
    Prepare(coordinator);
    ghost var start, minted := coordinator.disk.log, coordinator.disk.minted;
    r := Apply(coordinator);
    after := coordinator.disk.files;
    ghost var disk, max := coordinator.disk, coordinator.restorePoints.max;
    NeverUnreadable(FATES, after, disk.points, disk.log, |start|, r, max, minted);
    LossAfterRollback(after, disk.points, disk.log, |start|, r, max, minted);
  }

  lemma NeverUnreadable(fates: DiskFates, disk: Fs, points: map<Id, PointFile>, log: seq<Call>, from: nat,
                        r: ApplyResult, max: nat, batch: Id)
    requires fates == FATES && Ended(BEFORE, disk, points, fates, log, from, DELETIONS, r, max, batch)
    ensures r != Raised(RestoreUnreadable)
  {
    StoreNeverStops(log);
  }

  /** The same with the other oracle: the rollback cannot begin, so that applying raises; the first file is gone, the
      second is still there. */
  method RollbackCannotBegin() returns (r: ApplyResult, after: Fs)
    ensures r == Raised(RestoreUnreadable) && "a" in BEFORE && "a" !in after && "b" in after
  {
    hide ApprovedSincePreview, ApprovalsHold, StoredWell, FileChanges.Coherent, ContentAfter, Ended, Stubborn;
    hide FreshFrom;
    hide FailedBefore;
    BothStubborn();
    var coordinator := Begin(UNREADABLE);
    Prepare(coordinator);
    ghost var start, minted := coordinator.disk.log, coordinator.disk.minted;
    r := Apply(coordinator);
    after := coordinator.disk.files;
    ghost var disk, max := coordinator.disk, coordinator.restorePoints.max;
    NeverRolledBack(UNREADABLE, after, disk.points, disk.log, |start|, r, max, minted);
    SecondStays(UNREADABLE, disk.log);
    assert Lookup(after, "b").Some?;
  }

  lemma NeverRolledBack(fates: DiskFates, disk: Fs, points: map<Id, PointFile>, log: seq<Call>, from: nat,
                        r: ApplyResult, max: nat, batch: Id)
    requires fates == UNREADABLE && Ended(BEFORE, disk, points, fates, log, from, DELETIONS, r, max, batch)
    requires r == Raised(RestoreUnreadable) ==> FailedBefore(fates, log, from)
    ensures !r.WasRolledBack? && (r == Raised(RestoreUnreadable) ==> "a" !in disk)
  {
    hide FailedBefore, Halfway, RestoredFrom, FailedSince;
    NoPointWasRead(BEFORE, disk, log, from, DELETIONS, batch);
    if r == Raised(RestoreUnreadable) {
      FirstRemoved(disk, log, from);
    }
  }
}
