/** The coordinator of agent patches: preview, approve, apply, and roll back when an apply fails. */
module PatchCoordinator {
  import opened Text
  import Calls
  import opened WorkspaceDisk
  import opened RestorePoints
  import opened RestoreTrace
  import opened PatchProposals
  import opened PatchPreviews
  import opened PathNames
  import FileChanges
  import FileChangeService
  import RestorePointService

  datatype PatchState = WaitingForApproval | Approved | Applying | Applied | RolledBack | Failed | Rejected

  datatype Stored = Stored(proposal: Proposal, previews: seq<FilePreview>, approvalVersion: Version,
                           approvedVersion: Option<Version>, state: PatchState)

  datatype ApplyError = ProposalNotFound | ReviewRequired | RestorePointNotFound | RestoreUnreadable

  datatype ApplyResult =
    | WasApplied(point: Id, changedFiles: seq<string>, deletedFiles: seq<string>)
    | WasRolledBack(point: Id)
    | HasFailed
    | Raised(error: ApplyError)

  // Approval over a run of calls

  datatype Request = Previewed(id: string) | ApprovedBy(id: string) | RejectedBy(id: string) | AppliedBy(id: string)

  /** The proposal was approved after its last preview; rejecting it does not take that back, nor does
      applying it use it up. */
  predicate ApprovedSincePreview(history: seq<Request>, id: string) {
    if history == [] then false
    else
      match Last(history)
      case Previewed(other) => other != id && ApprovedSincePreview(Front(history), id)
      case ApprovedBy(other) => other == id || ApprovedSincePreview(Front(history), id)
      case _ => ApprovedSincePreview(Front(history), id)
  }

  lemma HistoryStep(history: seq<Request>, call: Request, id: string)
    ensures ApprovedSincePreview(history + [call], id) ==
      (if call.Previewed? && call.id == id then false
       else if call.ApprovedBy? && call.id == id then true
       else ApprovedSincePreview(history, id))
  {
    assert Front(history + [call]) == history;
  }

  /** Approval, as the calls happened: some approval of the proposal has no later preview of it. */
  lemma {:induction false} ApprovedExactly(history: seq<Request>, id: string)
    ensures ApprovedSincePreview(history, id) <==>
      exists k :: 0 <= k < |history| && history[k] == ApprovedBy(id)
               && forall j :: k < j < |history| ==> history[j] != Previewed(id)
  {
    if history != [] {
      var front, n := Front(history), |history| - 1;
      ApprovedExactly(front, id);
      assert forall k :: 0 <= k < n ==> front[k] == history[k];
      if ApprovedSincePreview(history, id) {
        if history[n] == ApprovedBy(id) {
          assert n == |history| - 1;
        } else {
          var k :| 0 <= k < n && front[k] == ApprovedBy(id) && forall j :: k < j < n ==> front[j] != Previewed(id);
          assert history[k] == ApprovedBy(id) && forall j :: k < j < |history| ==> history[j] != Previewed(id);
        }
      }
    }
  }

  predicate ReadyToApply(stored: Stored) {
    stored.approvedVersion == Some(stored.approvalVersion)
  }

  /** What validation and preview leave in the map. */
  ghost predicate StoredWell(proposals: map<string, Stored>, limits: Limits) {
    forall id :: id in proposals ==> WellStored(proposals[id], limits)
  }

  ghost predicate WellStored(stored: Stored, limits: Limits) {
    && 1 <= |stored.proposal.changes| <= limits.maxFilesChanged
    && TrimmedPaths(stored.proposal.changes)
    && Different(stored.proposal.changes)
    && (forall k :: 0 <= k < |stored.proposal.changes| ==>
          Inside(stored.proposal.changes[k].filePath))
    && (forall k :: 0 <= k < |stored.proposal.changes| ==>
          Sound(stored.proposal.changes[k], limits) && Covered(stored.proposal.changes[k], stored.previews))
  }

  /** A text exactly where one is written, and not too long. */
  predicate Sound(change: Change, limits: Limits) {
    && (change.changeType.Delete? <==> change.proposedContent.None?)
    && ByteLength(TextOf(change)) <= limits.maxPatchSize
  }

  /** `find` finds a preview for the change. */
  predicate Covered(change: Change, previews: seq<FilePreview>) {
    exists k :: 0 <= k < |previews| && previews[k].changeId == change.id
  }

  /** The number of changes that write a file, and so add a restore point of their own. */
  function WriteCount(changes: seq<Change>): (n: nat)
    ensures n <= |changes|
  {
    if changes == [] then 0
    else WriteCount(Front(changes)) + if Last(changes).changeType.Delete? then 0 else 1
  }

  class AgentPatchCoordinator {
    const disk: Disk
    const restorePoints: RestorePointService.RestorePointService
    const fileChanges: FileChangeService.FileChangeService
    const limits: Limits
    var proposals: map<string, Stored>
    ghost var history: seq<Request>

    ghost predicate Valid()
      reads this, fileChanges, fileChanges.disk
    {
      && fileChanges.Valid() && fileChanges.disk == disk && fileChanges.restorePoints == restorePoints
      && restorePoints.max >= 1
      && ApprovalsHold(proposals, history)
      && StoredWell(proposals, limits)
    }

    function Changes(id: string): seq<Change>
      reads this
      requires id in proposals
    {
      proposals[id].proposal.changes
    }

    constructor (fileChanges: FileChangeService.FileChangeService, limits: Limits)
      requires fileChanges.Valid() && fileChanges.restorePoints.max >= 1
      ensures Valid() && this.fileChanges == fileChanges && this.limits == limits && proposals == map[] && history == []
    {
      disk, restorePoints := fileChanges.disk, fileChanges.restorePoints;
      this.fileChanges, this.limits := fileChanges, limits;
      proposals, history := map[], [];
    }

    /** `None` where a guard refuses the file, reading fails or the file is binary. */
    method ReadText(path: Path) returns (r: Option<string>)
      requires disk.Traced()
      modifies disk`log
      ensures disk.Traced() && OnlyQuiet(old(disk.log), disk.log)
      ensures r.Some? <==> disk.AllWork(|old(disk.log)|) && Readable(disk.files, path)
      ensures r.Some? ==> r.value == (if path in disk.files then disk.files[path] else "")
    {
      ghost var from := |disk.log|;
      var allowed := disk.Make(Asks);
      assert disk.log[from] == Asks;
      if !allowed {
        return None;
      }
      var read := disk.ReadFile(path);
      assert disk.log[from] == Asks && disk.log[from + 1] == Reads(path);
      if read.ReadFails? || (read.Content? && '\0' in read.text) {
        return None;
      }
      return Some(if read.Content? then read.text else "");
    }

    /** A preview of every change. `times` are the times at which snapshots may have been taken. */
    method CreatePreview(proposal: Proposal) returns (r: Option<Version>, ghost times: seq<Time>)
      requires Valid()
      modifies this, fileChanges, disk`log
      ensures Valid() && OnlyQuiet(old(disk.log), disk.log)
      ensures r.None? ==> proposals == old(proposals) && history == old(history)
      ensures r.Some? ==>
        var accepted := Validated(proposal, limits.maxFilesChanged, limits.maxPatchSize);
        && accepted.Accepted?
        && history == old(history) + [Previewed(proposal.id)]
        && proposal.id in proposals
        && proposals == old(proposals)[proposal.id := proposals[proposal.id]]
        && var stored := proposals[proposal.id];
        && stored == Stored(accepted.value, stored.previews, r.value, None, WaitingForApproval)
        && Shown(accepted.value.changes, stored.previews, fileChanges.Held(), disk.files)
        && |times| == |accepted.value.changes|
        && fileChanges.Held() == PreviewAll(old(fileChanges.Held()), disk.files, accepted.value.changes, times)
        && r.value == HeldVersion(accepted.value, fileChanges.Held())
      ensures disk.AllWork(|old(disk.log)|) ==>
        (r.Some? <==>
          var accepted := Validated(proposal, limits.maxFilesChanged, limits.maxPatchSize);
          accepted.Accepted? && AllPreviewable(accepted.value.changes, disk.files))
    {
      hide FreshFrom, FileChanges.Coherent, StoredWell, ApprovalsHold, Validated, Shown, PreviewAll, AllPreviewable;
      hide OnlyQuiet, Calls.AllWork;
      QuietStart(disk.fates, disk.log);
      times := [];
      var validated := ValidateProposal(proposal, limits.maxFilesChanged, limits.maxPatchSize);
      if validated.Refused? {
        return None, [];
      }
      var changes := validated.value.changes;
      var previews;
      previews, times := PreviewChanges(changes);
      if previews.None? {
        return None, times;
      }
      var version := VersionOf(validated.value, previews.value);
      VersionIsHeld(validated.value, previews.value, fileChanges.Held(), disk.files);
      var stored := Stored(validated.value, previews.value, version, None, WaitingForApproval);
      StoredOneMore(proposals, limits, proposal.id, stored, proposal, fileChanges.Held(), disk.files);
      proposals := proposals[proposal.id := stored];
      CallKeeps(old(proposals), proposals, history, Previewed(proposal.id));
      history := history + [Previewed(proposal.id)];
      return Some(version), times;
    }

    /** The loop of the preview. */
    method PreviewChanges(changes: seq<Change>) returns (r: Option<seq<FilePreview>>, ghost times: seq<Time>)
      requires Valid()
      modifies fileChanges, disk`log
      ensures Valid() && OnlyQuiet(old(disk.log), disk.log)
      ensures r.Some? ==>
        && Shown(changes, r.value, fileChanges.Held(), disk.files)
        && |times| == |changes|
        && fileChanges.Held() == PreviewAll(old(fileChanges.Held()), disk.files, changes, times)
      ensures disk.AllWork(|old(disk.log)|) ==>
        (r.Some? <==> AllPreviewable(changes, disk.files))
    {
      hide FreshFrom, StoredWell, ApprovalsHold, Shown, FileChanges.Preview, Previewable, PreviewAll, AllPreviewable;
      hide FileChanges.Coherent, OnlyQuiet, Calls.AllWork;
      ghost var start := disk.log;
      QuietStart(disk.fates, start);
      NothingPreviewed(fileChanges.Held(), disk.files, changes[..0]);
      assert AllPreviewable(changes[..0], disk.files) by {
        NonePreviewable(changes[..0], disk.files);
      }
      var previews: seq<FilePreview> := [];
      times := [];
      for k := 0 to |changes|
        invariant Valid() && start <= disk.log && OnlyQuiet(start, disk.log)
        invariant |previews| == k && Shown(changes[..k], previews, fileChanges.Held(), disk.files)
        invariant |times| == k
        invariant fileChanges.Held() == PreviewAll(old(fileChanges.Held()), disk.files, changes[..k], times)
        invariant disk.AllWork(|start|) ==> AllPreviewable(changes[..k], disk.files)
      {
        ghost var held, middle := fileChanges.Held(), disk.log;
        var preview, now := PreviewOne(changes[k]);
        QuietMore(middle, disk.log);
        QuietThen(disk.fates, start, middle, disk.log);
        PreviewableNext(changes, k, disk.files);
        if preview.None? {
          return None, times;
        }
        assert changes[..k + 1] == changes[..k] + [changes[k]];
        ShownNext(changes[..k], previews, held, fileChanges.Held(), disk.files, changes[k], preview.value, now);
        PreviewAllNext(old(fileChanges.Held()), disk.files, changes[..k], times, changes[k], now);
        previews := previews + [preview.value];
        times := times + [now];
      }
      assert changes[..|changes|] == changes;
      return Some(previews), times;
    }

    method PreviewOne(change: Change) returns (r: Option<FilePreview>, ghost now: Time)
      requires fileChanges.Valid() && fileChanges.disk == disk
      modifies fileChanges, disk`log
      ensures fileChanges.Valid() && OnlyQuiet(old(disk.log), disk.log)
      ensures r.Some? ==> ShownOne(change, r.value, fileChanges.Held(), disk.files)
      ensures r.Some? ==>
        fileChanges.Held() == FileChanges.Preview(old(fileChanges.Held()), disk.files, Target(change), now)
      ensures disk.AllWork(|old(disk.log)|) ==> (r.Some? <==> Previewable(change, disk.files))
    {
      hide FreshFrom, OnlyQuiet, Calls.AllWork;
      now := 0;
      var path := Target(change);
      ghost var start := disk.log;
      QuietStart(disk.fates, start);
      var existed := disk.Exists(path);
      QuietStep(disk.fates, start, start, Looks(path));
      if existed == change.changeType.Create? {
        return None, now;
      }
      ghost var middle := disk.log;
      var text := ReadText(path);
      QuietMore(middle, disk.log);
      QuietThen(disk.fates, start, middle, disk.log);
      if text.None? {
        return None, now;
      }
      middle := disk.log;
      var diff := fileChanges.CreateDiff(path, if change.changeType.Delete? then "" else TextOf(change));
      QuietMore(middle, disk.log);
      QuietThen(disk.fates, start, middle, disk.log);
      if diff.None? {
        return None, now;
      }
      now := diff.value.snapshotId.time;
      return Some(FilePreview(change.id, change.filePath, diff.value.snapshotId, diff.value.beforeContent,
                              diff.value.afterContent, diff.value.diff)), now;
    }

    /** A caller that previews a second proposal under the same id and approves with the version of the first preview:
        when id, time and targets agree the approval passes, whatever the texts of the second. */
    method PreviewAgainAndApprove(first: Proposal, second: Proposal)
      returns (ok: bool, shown: Option<Version>, latest: Option<Version>)
      requires Valid()
      modifies this, fileChanges, disk`log
      ensures Valid()
      ensures shown.Some? && latest.Some? && SameButTexts(first, second) ==>
        && latest == shown && ok
        && first.id in proposals && ReadyToApply(proposals[first.id])
        && Validated(second, limits.maxFilesChanged, limits.maxPatchSize) == Accepted(proposals[first.id].proposal)
    {
      hide FreshFrom, StoredWell, ApprovalsHold, Shown, Validated, PreviewAll, SameButTexts, AllHeld, HeldVersion;
      ok, latest := false, None;
      ghost var before: seq<Time>, after: seq<Time>;
      shown, before := CreatePreview(first);
      if shown.None? {
        return;
      }
      ghost var held, files, stored := fileChanges.Held(), disk.files, proposals[first.id];
      ShownHeld(stored.proposal.changes, stored.previews, held, files);
      latest, after := CreatePreview(second);
      if latest.None? {
        return;
      }
      if SameButTexts(first, second) {
        AcceptedAlike(first, second, stored.proposal, proposals[second.id].proposal, limits);
        VersionStays(stored.proposal, proposals[second.id].proposal, held, files, after);
      }
      ok := ApproveProposal(first.id, shown.value);
    }

    /** An approval counts only for the version of the last preview. */
    method ApproveProposal(id: string, version: Version) returns (ok: bool)
      requires Valid()
      modifies this
      ensures Valid()
      ensures ok <==> id in old(proposals) && old(proposals)[id].approvalVersion == version
      ensures ok ==>
        && proposals == old(proposals)[id := old(proposals)[id].(approvedVersion := Some(version), state := Approved)]
        && history == old(history) + [ApprovedBy(id)]
      ensures !ok ==> proposals == old(proposals) && history == old(history)
    {
      if id !in proposals || proposals[id].approvalVersion != version {
        return false;
      }
      proposals := proposals[id := proposals[id].(approvedVersion := Some(version), state := Approved)];
      CallKeeps(old(proposals), proposals, history, ApprovedBy(id));
      history := history + [ApprovedBy(id)];
      return true;
    }

    /** Rejecting changes the state shown, not the approval. */
    method RejectProposal(id: string) returns (ok: bool)
      requires Valid()
      modifies this
      ensures Valid()
      ensures ok <==> id in old(proposals)
      ensures proposals == if ok then old(proposals)[id := old(proposals)[id].(state := Rejected)] else old(proposals)
      ensures history == if ok then old(history) + [RejectedBy(id)] else old(history)
    {
      if id !in proposals {
        return false;
      }
      proposals := proposals[id := proposals[id].(state := Rejected)];
      CallKeeps(old(proposals), proposals, history, RejectedBy(id));
      history := history + [RejectedBy(id)];
      return true;
    }

    method SetState(id: string, state: PatchState)
      requires Valid() && id in proposals
      modifies this`proposals
      ensures Valid() && proposals == old(proposals)[id := old(proposals)[id].(state := state)]
    {
      ReadyStays(proposals, limits, history, id, state);
      proposals := proposals[id := proposals[id].(state := state)];
    }

    /** All or nothing, with one way out. Nothing is written without an approval since the last preview. An applied
        proposal has left every file as proposed. A rolled back one has written or removed every target again and left
        every file as it was, except exactly those on which a call failed since the restore point was read; the result
        does not name them. A failed one has changed no file. Raising is left for a proposal that may not be applied,
        and for a rollback that cannot begin, which leaves the files as the apply left them, the changes before some
        place applied and none after it: the point is gone, which takes as many written files as points are kept, or
        the store could not be made ready or the point not be read, after another call had failed. When every call
        works, an approved proposal is applied. */
    method ApplyApprovedProposal(id: string) returns (r: ApplyResult)
      requires Valid()
      modifies this, fileChanges, disk
      ensures Valid() && old(disk.log) <= disk.log
      ensures r == Raised(ProposalNotFound) <==> id !in old(proposals)
      ensures r == Raised(ReviewRequired) <==> id in old(proposals) && !ApprovedSincePreview(old(history), id)
      ensures id !in old(proposals) || !ApprovedSincePreview(old(history), id) ==>
        disk.files == old(disk.files) && disk.Shelf() == old(disk.Shelf()) && proposals == old(proposals)
      ensures id in old(proposals) ==>
        Ended(old(disk.files), disk.files, disk.points, disk.fates, disk.log, |old(disk.log)|,
              old(proposals)[id].proposal.changes, r, restorePoints.max, old(disk.minted))
      ensures id in old(proposals) && ApprovedSincePreview(old(history), id) ==>
        proposals == old(proposals)[id := old(proposals)[id].(state := StateAfter(r))]
        && (proposals[id].state == if r.WasApplied? then Applied else if r.WasRolledBack? then RolledBack
                                   else if r.HasFailed? then Failed else Applying)
      ensures r.WasApplied? && AllPlain(old(proposals)[id].proposal.changes) ==>
        InPlace(old(disk.files), disk.files, old(proposals)[id].proposal.changes)
      ensures (&& id in old(proposals) && ApprovedSincePreview(old(history), id) && disk.AllWork(|old(disk.log)|)
               && Applicable(old(disk.files), old(proposals)[id].proposal.changes, limits)) ==> r.WasApplied?
      ensures (&& id in old(proposals) && Applicable(old(disk.files), old(proposals)[id].proposal.changes, limits)
               && r == Raised(RestoreUnreadable)) ==> FailedBefore(disk.fates, disk.log, |old(disk.log)|)
      ensures r == Raised(RestorePointNotFound) || r == Raised(RestoreUnreadable) ==>
        && id in old(proposals) && disk.log != []
        && StoppedFor(old(disk.files), disk.files, disk.fates, Front(disk.log), |old(disk.log)|,
                      old(proposals)[id].proposal.changes, old(proposals)[id].previews, limits)
    {
      hide FreshFrom, AppliedTo, Ended, ApprovedSincePreview, ApprovalsHold, StoredWell, Applicable, FailedBefore;
      hide FileChanges.Coherent, StoppedFor, WellStored, InPlace, AllPlain;
      StartsEnded(disk.files, disk.points, disk.fates, disk.log, if id in proposals then Changes(id) else [],
                  restorePoints.max, disk.minted);
      ApprovalOf(proposals, limits, history, id);
      if id !in proposals {
        return Raised(ProposalNotFound);
      }
      var stored := proposals[id];
      if !ReadyToApply(stored) {
        return Raised(ReviewRequired);
      }
      SetState(id, Applying);
      r := TryApply(stored);
      AppliedAsStored(stored, limits, old(disk.files), disk.files, disk.points, disk.fates, disk.log,
                      |old(disk.log)|, r, restorePoints.max, old(disk.minted));
      if !r.Raised? {
        SetState(id, StateAfter(r));
      }
      CallKeeps(proposals, proposals, history, AppliedBy(id));
      history := history + [AppliedBy(id)];
    }

    method TryApply(stored: Stored) returns (r: ApplyResult)
      requires Valid() && WellStored(stored, limits)
      modifies fileChanges, disk
      ensures Valid() && old(disk.log) <= disk.log
      ensures Ended(old(disk.files), disk.files, disk.points, disk.fates, disk.log, |old(disk.log)|,
                    stored.proposal.changes, r, restorePoints.max, old(disk.minted))
      ensures r.Raised? ==>
        && r.error in {RestorePointNotFound, RestoreUnreadable} && disk.log != []
        && StoppedFor(old(disk.files), disk.files, disk.fates, Front(disk.log), |old(disk.log)|,
                      stored.proposal.changes, stored.previews, limits)
      ensures disk.AllWork(|old(disk.log)|) && Applicable(old(disk.files), stored.proposal.changes, limits) ==>
        r.WasApplied?
      ensures r == Raised(RestoreUnreadable) && Applicable(old(disk.files), stored.proposal.changes, limits) ==>
        FailedBefore(disk.fates, disk.log, |old(disk.log)|)
    {
      hide FreshFrom, AppliedTo, Applicable, AllGrantable, Readable, Ended, FailedBefore, StoppedFor;
      hide StoredWell, ApprovalsHold, FileChanges.Coherent, WellStored;
      var changes := stored.proposal.changes;
      if Applicable(disk.files, changes, limits) {
        StoredGrantable(stored, limits, disk.files);
      }
      hide OnlyQuiet, Calls.AllWork;
      ghost var files, start, minted := disk.files, disk.log, disk.minted;
      var readable := CheckTargets(changes);
      ghost var checked := disk.log;
      QuietMore(start, checked);
      NothingChanged(files, disk.points, disk.fates, start, checked, changes, restorePoints.max, disk.minted);
      if !readable {
        return HasFailed;
      }
      NamesThere(stored, limits);
      TrimmedStored(stored, limits);
      r := ApplyOrRollBack(stored, changes);
      QuietThen(disk.fates, start, checked, disk.log);
      FailedFrom(disk.fates, disk.log, |start|, |checked|);
      if r.Raised? {
        StoppedLong(files, disk.files, disk.fates, checked, disk.log, changes, stored.previews, limits);
        StoppedEarlier(files, disk.files, disk.fates, start, checked, Front(disk.log), changes, stored.previews,
                       limits);
      }
      EarlierFrom(files, disk.files, disk.points, disk.fates, disk.log, start, checked, changes, r, restorePoints.max,
                  minted);
    }

    /** From the batch restore point on. When it raises, some change had stopped the apply, one that was not granted or
        after a call that failed, and the calls since are those of a rollback that could not begin. */
    method ApplyOrRollBack(stored: Stored, changes: seq<Change>) returns (r: ApplyResult)
      requires Valid() && TrimmedPaths(changes) && Unique(FilePaths(changes)) != []
      modifies fileChanges, disk
      ensures Valid() && old(disk.log) <= disk.log
      ensures Ended(old(disk.files), disk.files, disk.points, disk.fates, disk.log, |old(disk.log)|, changes, r,
                    restorePoints.max, old(disk.minted))
      ensures r.Raised? ==>
        && r.error in {RestorePointNotFound, RestoreUnreadable} && disk.log != []
        && StoppedFor(old(disk.files), disk.files, disk.fates, Front(disk.log), |old(disk.log)|, changes,
                      stored.previews, limits)
      ensures disk.AllWork(|old(disk.log)|) && AllGrantable(changes, stored.previews, limits) ==> r.WasApplied?
      ensures r == Raised(RestoreUnreadable) && AllGrantable(changes, stored.previews, limits) ==>
        FailedBefore(disk.fates, disk.log, |old(disk.log)|)
    {
      hide FreshFrom, AppliedTo, Created, Capture, Resolved, Unique, OnlyQuiet, Calls.AllWork, FailedBefore;
      hide RestorePointService.Unread, RestorePointService.Moves, RestorePointService.Safe, RestoredBy;
      hide StoredWell, ApprovalsHold, FileChanges.Coherent, AllGrantable, Named, Kept, Targets, TrimmedPaths, Ended;
      hide StoppedFor, StoppedAt, Halfway, BringBack, RestorePointService.PointReadable;
      ghost var files, before, minted, start := disk.files, disk.Shelf(), disk.minted, disk.log;
      var batch := restorePoints.CreateRestorePoint(FilePaths(changes));
      ghost var pointed := disk.log;
      QuietMore(start, pointed);
      NothingChanged(files, disk.points, disk.fates, start, pointed, changes, restorePoints.max, minted);
      if batch.None? {
        return HasFailed;
      }
      ghost var shelf, bound := disk.Shelf(), disk.minted;
      BatchIsSafe(before, minted, batch.value, restorePoints.max);
      var ok, changed, deleted := ApplyAll(stored, changes);
      ghost var applied := disk.log;
      QuietThen(disk.fates, start, pointed, applied);
      BatchStillThere(shelf, disk.Shelf(), bound, batch.value, WriteCount(changes), restorePoints.max);
      if ok {
        AppliedEnds(files, disk.files, disk.points, disk.fates, applied, |start|, changes, changed, deleted,
                    batch.value, restorePoints.max);
        return WasApplied(batch.value.id, changed, deleted);
      }
      StoppedEarlier(files, disk.files, disk.fates, start, pointed, applied, changes, stored.previews, limits);
      StoppedIsHalfway(files, disk.files, disk.fates, applied, |start|, changes, stored.previews, limits);
      r := RollBack(files, batch.value, changes, |start|);
      QuietThen(disk.fates, start, applied, disk.log);
      if r.Raised? {
        StoppedMore(files, disk.files, disk.fates, applied, Front(disk.log), |start|, changes, stored.previews, limits);
        StoppedByCall(files, disk.files, disk.fates, disk.log, |start|, changes, stored.previews, limits);
      }
    }

    /** The guards and the reading of every target before anything is written. */
    method CheckTargets(changes: seq<Change>) returns (ok: bool)
      requires Valid()
      modifies disk`log
      ensures Valid() && OnlyQuiet(old(disk.log), disk.log)
      ensures disk.AllWork(|old(disk.log)|) ==> (ok <==> AllReadable(changes, disk.files))
      ensures ok ==> disk.AllWork(|old(disk.log)|)
    {
      hide FreshFrom, StoredWell, ApprovalsHold, FileChanges.Coherent, Readable, OnlyQuiet, Calls.AllWork, AllReadable;
      ghost var start := disk.log;
      QuietStart(disk.fates, start);
      NoneReadable(changes[..0], disk.files);
      for k := 0 to |changes|
        invariant Valid() && start <= disk.log && OnlyQuiet(start, disk.log) && disk.AllWork(|start|)
        invariant AllReadable(changes[..k], disk.files)
      {
        ghost var middle := disk.log;
        var text := ReadText(Target(changes[k]));
        QuietMore(middle, disk.log);
        QuietThen(disk.fates, start, middle, disk.log);
        ReadableNext(changes, k, disk.files);
        if text.None? {
          return false;
        }
      }
      assert changes[..|changes|] == changes;
      return true;
    }

    /** Applies the changes in order, up to the first failure. */
    method ApplyAll(stored: Stored, changes: seq<Change>) returns (ok: bool, changed: seq<string>, deleted: seq<string>)
      requires Valid()
      modifies fileChanges, disk
      ensures Valid() && disk.minted >= old(disk.minted) && old(disk.log) <= disk.log
      ensures disk.AllWork(|old(disk.log)|) && AllGrantable(changes, stored.previews, limits) ==> ok
      ensures ok ==> disk.files == AppliedTo(old(disk.files), changes)
      ensures ok ==> Named(changes, changed, deleted)
      ensures ok ==> OnlyOn(old(disk.log), disk.log, Targets(changes))
      ensures !ok ==>
        StoppedFor(old(disk.files), disk.files, disk.fates, disk.log, |old(disk.log)|, changes, stored.previews, limits)
      ensures AgreeOutside(disk.files, old(disk.files), Targets(changes))
      ensures RestorePointService.Moves(old(disk.Shelf()), disk.Shelf(), old(disk.minted), WriteCount(changes),
                                        restorePoints.max)
    {
      hide FreshFrom, AppliedTo, RestorePointService.Moves, RestorePointService.Safe, Target, Targets, Grantable, Named;
      hide StoredWell, ApprovalsHold, FileChanges.Coherent, AllGrantable, Calls.AllWork, OnlyOn, StoppedFor;
      ghost var start, shelf, bound, log := disk.files, disk.Shelf(), disk.minted, disk.log;
      QuietStart(disk.fates, log);
      ok, changed, deleted := true, [], [];
      NothingApplied(start, shelf, bound, changes[..0], restorePoints.max);
      OnStart(log, Targets(changes[..0]));
      for k := 0 to |changes|
        invariant Valid() && disk.minted >= bound && log <= disk.log
        invariant disk.files == AppliedTo(start, changes[..k])
        invariant RestorePointService.Moves(shelf, disk.Shelf(), bound, WriteCount(changes[..k]), restorePoints.max)
        invariant Named(changes[..k], changed, deleted)
        invariant OnlyOn(log, disk.log, Targets(changes[..k]))
      {
        ghost var before, middle, minted, made := disk.files, disk.Shelf(), disk.minted, disk.log;
        ok := ApplyOne(stored, changes[k]);
        QuietThen(disk.fates, log, made, disk.log);
        OnNext(log, made, disk.log, changes, k);
        GrantableOne(changes, k, stored.previews, limits);
        AppliedNext(start, before, disk.files, changes, k, ok);
        MovesNext(shelf, middle, disk.Shelf(), bound, minted, changes, k, restorePoints.max);
        if !ok {
          StopsFor(start, disk.files, disk.fates, log, disk.log, changes, k, stored.previews, limits);
          return;
        }
        NamedNext(changes, k, changed, deleted);
        if changes[k].changeType.Delete? {
          deleted := deleted + [changes[k].filePath];
        } else {
          changed := changed + [changes[k].filePath];
        }
      }
      assert changes[..|changes|] == changes;
      AppliedFrame(start, changes);
    }

    /** Deletes or writes one file and checks the result on disk. */
    method ApplyOne(stored: Stored, change: Change) returns (ok: bool)
      requires Valid()
      modifies fileChanges, disk
      ensures Valid() && disk.minted >= old(disk.minted) && old(disk.log) <= disk.log
      ensures disk.AllWork(|old(disk.log)|) && Grantable(change, stored.previews, limits) ==> ok
      ensures AgreeOutside(disk.files, old(disk.files), {Target(change)})
      ensures ok ==> disk.files == Put(old(disk.files), Target(change), Desired(change))
      ensures OnlyOn(old(disk.log), disk.log, {Target(change)})
      ensures AtMostOnce(old(disk.log), disk.log, ApplyCall(change))
      ensures RestorePointService.Moves(old(disk.Shelf()), disk.Shelf(), old(disk.minted),
                                        if change.changeType.Delete? then 0 else 1, restorePoints.max)
    {
      hide FreshFrom, RestorePointService.Moves, RestorePointService.Safe, Created, Unique, Capture;
      hide StoredWell, ApprovalsHold, FileChanges.Coherent, OnlyQuiet, Calls.AllWork, OnlyOn, AtMostOnce, Unaltered;
      var path := Target(change);
      ghost var start := disk.log;
      OnStart(start, {path});
      QuietStart(disk.fates, start);
      OnceQuiet(start, start, ApplyCall(change));
      QuietStart(disk.fates, start);
      RestorePointService.NewPointMoves(disk.Shelf(), disk.Shelf(), disk.minted, disk.minted, restorePoints.max);
      FileChangeService.Untouched(disk.Shelf(), disk.minted, restorePoints.max);
      if !Covered(change, stored.previews) {
        return false;
      }
      if change.changeType.Delete? {
        PutAgrees(disk.files, path, None);
        ok := disk.RemoveFile(path);
        QuietStep(disk.fates, start, start, Removes(path));
        OnStep(start, start, Removes(path), {path});
        OnceStep(start, start, Removes(path));
        if ok {
          ghost var middle := disk.log;
          var still := disk.Exists(path);
          QuietStep(disk.fates, start, middle, Looks(path));
          OnStep(start, middle, Looks(path), {path});
          QuietStart(disk.fates, middle);
          QuietStep(disk.fates, middle, middle, Looks(path));
          OnceThen(start, middle, disk.log, Removes(path));
          ok := !still;
        }
        return;
      }
      var point := ApplyPatchWithRestorePoint(path, TextOf(change));
      if point.None? {
        return false;
      }
      ghost var middle := disk.log;
      var actual := disk.ReadFile(path);
      QuietStep(disk.fates, start, middle, Reads(path));
      OnStep(start, middle, Reads(path), {path});
      QuietStart(disk.fates, middle);
      QuietStep(disk.fates, middle, middle, Reads(path));
      OnceThen(start, middle, disk.log, Writes(path, TextOf(change)));
      ok := actual.Content? && Some(actual.text) == change.proposedContent;
    }

    /** The pipeline: its own limits, a preview, and the change with a restore point of its own. */
    method ApplyPatchWithRestorePoint(path: Path, text: string) returns (r: Option<Point>)
      requires Valid()
      modifies fileChanges, disk
      ensures Valid() && disk.minted >= old(disk.minted) && old(disk.log) <= disk.log
      ensures (&& disk.AllWork(|old(disk.log)|) && Trim(path) != ""
               && ValidatePatchPlan([PlanChange(path, text)], APPROVED, limits).None?) ==> r.Some?
      ensures AgreeOutside(disk.files, old(disk.files), {path})
      ensures OnlyOn(old(disk.log), disk.log, {path})
      ensures AtMostOnce(old(disk.log), disk.log, Writes(path, text))
      ensures r.Some? ==>
        && disk.files == Put(old(disk.files), path, Some(text))
        && r.value.files == Capture(old(disk.files), Resolved(Unique([path])))
        && disk.Shelf() == Created(old(disk.Shelf()), r.value, restorePoints.max)
      ensures RestorePointService.Moves(old(disk.Shelf()), disk.Shelf(), old(disk.minted), 1, restorePoints.max)
    {
      hide FreshFrom, RestorePointService.Moves, RestorePointService.Safe, Created, Unique, Capture, Resolved;
      hide StoredWell, ApprovalsHold, ValidatePatchPlan, OnlyQuiet, Calls.AllWork, OnlyOn, AtMostOnce, Unaltered;
      ghost var start := disk.log;
      OnStart(start, {path});
      QuietStart(disk.fates, start);
      OnceQuiet(start, start, Writes(path, text));
      FileChangeService.Untouched(disk.Shelf(), disk.minted, restorePoints.max);
      if ValidatePatchPlan([PlanChange(path, text)], APPROVED, limits).Some? {
        return None;
      }
      var diff := fileChanges.CreateDiff(path, text);
      ghost var middle := disk.log;
      QuietMore(start, middle);
      QuietIsOn(start, middle, {path});
      OnceQuiet(start, middle, Writes(path, text));
      if diff.None? {
        return None;
      }
      r := fileChanges.ApplyChange(path, text, Some(diff.value.snapshotId));
      QuietThen(disk.fates, start, middle, disk.log);
      OnThen(start, middle, disk.log, {path});
      OnceThen(start, middle, disk.log, Writes(path, text));
    }

    /** Restores the batch restore point. It begins exactly where the store can be made ready, the point can be read and
        is there; otherwise it raises and leaves the files alone. Whether every file was restored is not looked at: the
        files are all as at the start exactly where the fates of the calls that restore them bring every target back. */
    method RollBack(ghost start: Fs, batch: Point, ghost changes: seq<Change>, ghost from: nat)
      returns (r: ApplyResult)
      requires Valid() && TrimmedPaths(changes)
      requires Kept(disk.points, batch, WriteCount(changes), restorePoints.max)
      requires batch.files == BatchFiles(start, changes)
      requires AgreeOutside(disk.files, start, Targets(changes)) && Halfway(start, disk.files, disk.log, from, changes)
      modifies disk`files, disk`index, disk`log
      ensures Valid() && old(disk.log) <= disk.log
      ensures r == WasRolledBack(batch.id) <==>
        && RestorePointService.PointReadable(disk.fates, |old(disk.log)|, old(disk.index), batch.id)
        && batch.id in disk.points
      ensures r == Raised(RestorePointNotFound) <==>
        && RestorePointService.PointReadable(disk.fates, |old(disk.log)|, old(disk.index), batch.id)
        && batch.id !in disk.points
      ensures r == Raised(RestoreUnreadable) <==>
        !RestorePointService.PointReadable(disk.fates, |old(disk.log)|, old(disk.index), batch.id)
      ensures r.Raised? ==>
        && disk.files == old(disk.files) && disk.log != []
        && OnlyQuiet(old(disk.log), Front(disk.log)) && Unaltered(old(disk.log), disk.log)
      ensures r == Raised(RestoreUnreadable) ==>
        RestorePointService.Unread(disk.fates, old(disk.log), disk.log, batch.id)
      ensures Ended(start, disk.files, disk.points, disk.fates, disk.log, from, changes, r, restorePoints.max, batch.id)
      ensures r.WasRolledBack? ==>
        var c := RestorePointService.PlaceOfReading(|old(disk.log)|, old(disk.index));
        && RestoredBy(disk.fates, disk.log, c, batch.id, batch.files, old(disk.files), disk.files)
        && (disk.files == start <==> AllBroughtBack(disk.fates, c + 1, batch.files, changes, old(disk.files), start))
      ensures disk.AllWork(|old(disk.log)|) && WriteCount(changes) < restorePoints.max ==>
        r.WasRolledBack? && disk.files == start
    {
      hide Restored, Unique, Targets, Capture, Resolved, FailedSince, OnlyQuiet, Calls.AllWork, Touched, Unaltered;
      hide RestorePointService.Restoration, RestorePointService.Reported, RestorePointService.AllTouched;
      hide RestorePointService.Unread, RestorePointService.ReadingCalls, RestorePointService.PointReadable;
      hide StoredWell, ApprovalsHold, FileChanges.Coherent, AllBroughtBack, RestoredBy, Halfway, Ended, Calls.AllWork;
      ghost var broken, before, index := disk.files, disk.log, disk.index;
      var outcome := restorePoints.RestorePoint(batch.id);
      RestorePointService.ReadingIsQuiet(disk.fates, before, index, batch.id);
      match outcome {
        case NotFound =>
          HalfwayMore(start, broken, before, Front(disk.log), from, changes);
          GoneEnds(start, broken, disk.points, disk.fates, disk.log, from, changes, restorePoints.max, batch.id);
          r := Raised(RestorePointNotFound);
        case Unreadable =>
          HalfwayMore(start, broken, before, Front(disk.log), from, changes);
          UnreadEnds(start, broken, disk.points, disk.fates, before, disk.log, from, changes, restorePoints.max,
                     batch.id);
          UnreadFails(disk.fates, before, disk.log, batch.id);
          r := Raised(RestoreUnreadable);
        case Finished(result) =>
          ghost var c := RestorePointService.PlaceOfReading(|before|, index);
          RestoredWithin(disk.fates, disk.log, c, batch.id, batch.files, broken, disk.files);
          HalfwayMore(start, broken, before, disk.log[..c], from, changes);
          RolledBackTo(start, broken, disk.files, changes, batch.files, result.errors);
          TargetsTouched(start, changes, disk.log, |before|, batch.files);
          RestoredEnds(start, broken, disk.files, disk.points, disk.fates, disk.log, |before|, from, changes,
                       restorePoints.max, batch, c);
          RolledBackExactly(start, broken, disk.files, disk.fates, disk.log, changes, batch.id, c);
          if result.errors == [] {
            NothingLost(start, disk.files, result.errors);
          }
          r := WasRolledBack(batch.id);
      }
    }

    /** The manual rollback, which does look. Where it reports, every file is restored but those on which a call failed
        since the point was read, and it reports success exactly where there is none. */
    method Rollback(id: Id) returns (r: Option<bool>)
      requires Valid()
      modifies disk`files, disk`index, disk`log
      ensures Valid() && old(disk.log) <= disk.log
      ensures r.Some? ==>
        && id in disk.points && RestorePointService.FilesOf(disk.points[id]).Some?
        && RestoredBy(disk.fates, disk.log, RestorePointService.PlaceOfReading(|old(disk.log)|, old(disk.index)), id,
                      RestorePointService.FilesOf(disk.points[id]).value, old(disk.files), disk.files)
        && (r.value <==> FailedSince(disk.fates, disk.log, id) == {})
        && AgreeOutside(disk.files, Restored(old(disk.files), RestorePointService.FilesOf(disk.points[id]).value),
                        FailedSince(disk.fates, disk.log, id))
      ensures r == Some(true) ==>
        disk.files == Restored(old(disk.files), RestorePointService.FilesOf(disk.points[id]).value)
      ensures r.None? ==> disk.files == old(disk.files)
      ensures r.Some? <==>
        && RestorePointService.PointReadable(disk.fates, |old(disk.log)|, old(disk.index), id)
        && id in disk.points && RestorePointService.FilesOf(disk.points[id]).Some?
    {
      hide Restored, FailedSince, RestoredBy, RestorePointService.PointReadable, RestorePointService.Unread;
      var outcome := restorePoints.RestorePoint(id);
      if !outcome.Finished? {
        return None;
      }
      NoElements(outcome.result.errors);
      if outcome.result.success {
        RestorePointService.AllRestored(old(disk.files), disk.files, RestorePointService.FilesOf(disk.points[id]).value,
                                        outcome.result.errors);
      }
      return Some(outcome.result.success);
    }
  }

  /** The one call of an apply that writes or removes the file of the change. */
  function ApplyCall(change: Change): WorkspaceDisk.Call {
    if change.changeType.Delete? then Removes(Target(change)) else Writes(Target(change), TextOf(change))
  }

  function FilePaths(changes: seq<Change>): (paths: seq<string>)
    ensures |paths| == |changes|
  {
    seq(|changes|, k requires 0 <= k < |changes| => changes[k].filePath)
  }

  function StateAfter(r: ApplyResult): PatchState {
    match r
    case WasApplied(_, _, _) => Applied
    case WasRolledBack(_) => RolledBack
    case HasFailed => Failed
    case Raised(_) => Applying
  }

  /** Every changed and every deleted file is named, and only they. */
  predicate Named(changes: seq<Change>, changed: seq<string>, deleted: seq<string>) {
    && |changed| + |deleted| == |changes|
    && forall k :: 0 <= k < |changes| ==>
         changes[k].filePath in (if changes[k].changeType.Delete? then deleted else changed)
  }

  /** The point is there when fewer than `max` files are written, and never holds anything but the files of the
      proposal as they were at the start. */
  ghost predicate PointHolds(points: map<Id, PointFile>, id: Id, start: Fs, changes: seq<Change>, max: nat) {
    && (WriteCount(changes) < max ==> id in points)
    && (id in points ==>
          points[id].Whole? && points[id].point.files == Capture(start, Resolved(Unique(FilePaths(changes)))))
  }

  /** The last call was on the store, and did not work. */
  predicate StoreStopped(fates: DiskFates, log: seq<WorkspaceDisk.Call>) {
    && log != [] && !fates(|log| - 1, Last(log)).Works?
    && (Last(log) in {MakesStore, ReadsIndex, WritesIndex} || Last(log).ReadsPoint?)
  }

  /** Of the calls from number `from` on another one than the last did not work. */
  ghost predicate FailedBefore(fates: DiskFates, log: seq<WorkspaceDisk.Call>, from: nat) {
    log != [] && !Calls.AllWork(fates, Front(log), from)
  }

  lemma FailedFrom(fates: DiskFates, log: seq<WorkspaceDisk.Call>, from: nat, later: nat)
    requires from <= later
    ensures FailedBefore(fates, log, later) ==> FailedBefore(fates, log, from)
  {
  }

  ghost predicate TargetsAreTouched(log: seq<WorkspaceDisk.Call>, from: nat, changes: seq<Change>) {
    forall k :: 0 <= k < |changes| ==> Touched(log, from, Target(changes[k]))
  }

  /** No call from number `from` on has written or removed a file. */
  ghost predicate QuietSince(log: seq<WorkspaceDisk.Call>, from: nat) {
    forall c :: from <= c < |log| ==> Quiet(log[c])
  }

  /** The files of the proposal as the batch point keeps them. */
  function BatchFiles(start: Fs, changes: seq<Change>): seq<Saved> {
    Capture(start, Resolved(Unique(FilePaths(changes))))
  }

  /** The apply stopped at change number `k`: the changes before it are applied, besides at most its own file has
      changed, and no file of a later change was written or removed. */
  ghost predicate StoppedAt(start: Fs, now: Fs, log: seq<WorkspaceDisk.Call>, from: nat, changes: seq<Change>, k: nat) {
    && k < |changes| && from <= |log|
    && AgreeOutside(now, AppliedTo(start, changes[..k]), {Target(changes[k])})
    && OnlyOn(log[..from], log, Targets(changes[..k + 1]))
  }

  ghost predicate Halfway(start: Fs, now: Fs, log: seq<WorkspaceDisk.Call>, from: nat, changes: seq<Change>) {
    exists k: nat :: StoppedAt(start, now, log, from, changes, k)
  }

  /** The change that stopped it was not granted, or a call had failed. */
  ghost predicate StoppedFor(start: Fs, now: Fs, fates: DiskFates, log: seq<WorkspaceDisk.Call>, from: nat,
                             changes: seq<Change>, previews: seq<FilePreview>, limits: Limits)
  {
    exists k: nat :: StoppedAt(start, now, log, from, changes, k)
             && (Grantable(changes[k], previews, limits) ==> !Calls.AllWork(fates, log, from))
  }

  /** The log ends with the reading of the batch point and the restore of its files, out of what an apply that stopped
      halfway had left. */
  ghost predicate RestoredFrom(start: Fs, now: Fs, fates: DiskFates, log: seq<WorkspaceDisk.Call>, from: nat,
                               changes: seq<Change>, batch: Id)
  {
    exists c: nat, broken ::
      && RestoredBy(fates, log, c, batch, BatchFiles(start, changes), broken, now)
      && from <= c && Halfway(start, broken, log[..c], from, changes)
  }

  /** The log ends with a reading of the point that gave up before it was read. */
  ghost predicate UnreadAtLast(fates: DiskFates, log: seq<WorkspaceDisk.Call>, from: nat, batch: Id) {
    exists m :: from <= m <= |log| && RestorePointService.Unread(fates, log[..m], log, batch)
  }

  /** The ways an apply that began with call number `from` can end. The point it makes is `batch`. */
  ghost predicate Ended(start: Fs, now: Fs, points: map<Id, PointFile>, fates: DiskFates, log: seq<WorkspaceDisk.Call>,
                        from: nat, changes: seq<Change>, r: ApplyResult, max: nat, batch: Id)
  {
    match r
    case WasApplied(point, changed, deleted) =>
      && now == AppliedTo(start, changes) && Named(changes, changed, deleted)
      && point == batch && PointHolds(points, batch, start, changes, max)
    case WasRolledBack(point) =>
      && AgreeOutside(now, start, FailedSince(fates, log, batch)) && FailedSince(fates, log, batch) <= Targets(changes)
      && RestoredFrom(start, now, fates, log, from, changes, batch) && TargetsAreTouched(log, from, changes)
      && point == batch && PointHolds(points, batch, start, changes, max)
    case HasFailed => now == start && QuietSince(log, from)
    case Raised(ProposalNotFound) => now == start
    case Raised(ReviewRequired) => now == start
    case Raised(RestorePointNotFound) =>
      && AgreeOutside(now, start, Targets(changes)) && WriteCount(changes) >= max
      && log != [] && Halfway(start, now, Front(log), from, changes)
      && batch !in points && Last(log) == ReadsPoint(batch)
    case Raised(RestoreUnreadable) =>
      && AgreeOutside(now, start, Targets(changes))
      && log != [] && Halfway(start, now, Front(log), from, changes)
      && StoreStopped(fates, log) && UnreadAtLast(fates, log, from, batch)
  }

  lemma StartsEnded(files: Fs, points: map<Id, PointFile>, fates: DiskFates, log: seq<WorkspaceDisk.Call>,
                    changes: seq<Change>, max: nat, batch: Id)
    ensures Ended(files, files, points, fates, log, |log|, changes, Raised(ReviewRequired), max, batch)
    ensures Ended(files, files, points, fates, log, |log|, changes, Raised(ProposalNotFound), max, batch)
  {
  }

  lemma NothingChanged(files: Fs, points: map<Id, PointFile>, fates: DiskFates, start: seq<WorkspaceDisk.Call>,
                       log: seq<WorkspaceDisk.Call>, changes: seq<Change>, max: nat, batch: Id)
    requires OnlyQuiet(start, log)
    ensures Ended(files, files, points, fates, log, |start|, changes, HasFailed, max, batch)
  {
  }

  lemma AppliedEnds(start: Fs, now: Fs, points: map<Id, PointFile>, fates: DiskFates, log: seq<WorkspaceDisk.Call>,
                    from: nat, changes: seq<Change>, changed: seq<string>, deleted: seq<string>, batch: Point, max: nat)
    requires now == AppliedTo(start, changes) && Named(changes, changed, deleted)
    requires Kept(points, batch, WriteCount(changes), max)
    requires batch.files == BatchFiles(start, changes)
    ensures Ended(start, now, points, fates, log, from, changes, WasApplied(batch.id, changed, deleted), max, batch.id)
  {
    hide AppliedTo, Named, Capture, Resolved, Unique;
  }

  lemma GoneEnds(start: Fs, now: Fs, points: map<Id, PointFile>, fates: DiskFates, log: seq<WorkspaceDisk.Call>,
                 from: nat, changes: seq<Change>, max: nat, batch: Id)
    requires AgreeOutside(now, start, Targets(changes)) && WriteCount(changes) >= max && batch !in points
    requires log != [] && Halfway(start, now, Front(log), from, changes) && Last(log) == ReadsPoint(batch)
    ensures Ended(start, now, points, fates, log, from, changes, Raised(RestorePointNotFound), max, batch)
  {
    hide Halfway, Targets;
  }

  lemma UnreadEnds(start: Fs, now: Fs, points: map<Id, PointFile>, fates: DiskFates, before: seq<WorkspaceDisk.Call>,
                   log: seq<WorkspaceDisk.Call>, from: nat, changes: seq<Change>, max: nat, batch: Id)
    requires AgreeOutside(now, start, Targets(changes)) && from <= |before|
    requires log != [] && Halfway(start, now, Front(log), from, changes)
    requires RestorePointService.Unread(fates, before, log, batch)
    ensures Ended(start, now, points, fates, log, from, changes, Raised(RestoreUnreadable), max, batch)
  {
    hide Halfway, Targets;
    UnreadStops(fates, before, log, batch);
    assert log[..|before|] == before;
    hide RestorePointService.Unread, StoreStopped;
  }

  lemma RestoredEnds(start: Fs, broken: Fs, now: Fs, points: map<Id, PointFile>, fates: DiskFates,
                     log: seq<WorkspaceDisk.Call>, later: nat, from: nat, changes: seq<Change>, max: nat, batch: Point,
                     c: nat)
    requires AgreeOutside(now, start, FailedSince(fates, log, batch.id))
    requires FailedSince(fates, log, batch.id) <= Targets(changes)
    requires TargetsAreTouched(log, later, changes) && from <= later && from <= c
    requires batch.files == BatchFiles(start, changes) && Kept(points, batch, WriteCount(changes), max)
    requires RestoredBy(fates, log, c, batch.id, batch.files, broken, now)
    requires Halfway(start, broken, log[..c], from, changes)
    ensures Ended(start, now, points, fates, log, from, changes, WasRolledBack(batch.id), max, batch.id)
  {
    hide Halfway, Targets, FailedSince, RestoredBy, TargetsAreTouched, Capture, Resolved, Unique;
    TouchedFrom(log, from, later, changes);
  }

  lemma EarlierFrom(files: Fs, now: Fs, points: map<Id, PointFile>, fates: DiskFates, log: seq<WorkspaceDisk.Call>,
                    start: seq<WorkspaceDisk.Call>, later: seq<WorkspaceDisk.Call>, changes: seq<Change>,
                    r: ApplyResult, max: nat, batch: Id)
    requires OnlyQuiet(start, later) && later <= log
    requires Ended(files, now, points, fates, log, |later|, changes, r, max, batch)
    ensures Ended(files, now, points, fates, log, |start|, changes, r, max, batch)
  {
    hide AppliedTo, Named, PointHolds, FailedSince, Targets, TargetsAreTouched, StoreStopped, BatchFiles;
    hide RestorePointService.Unread, Halfway, RestoredFrom;
    match r {
      case HasFailed =>
        forall c | |start| <= c < |log|
          ensures Quiet(log[c])
        {
          if c < |later| {
            assert later[c] == log[c];
          }
        }
      case WasRolledBack(_) =>
        TouchedFrom(log, |start|, |later|, changes);
        RestoredEarlier(files, now, fates, log, start, later, changes, batch);
      case Raised(error) =>
        if error in {RestorePointNotFound, RestoreUnreadable} {
          HalfwayLong(files, now, Front(log), |later|, changes);
          HalfwayEarlier(files, now, start, later, Front(log), changes);
        }
      case _ =>
    }
  }

  lemma RestoredWithin(fates: DiskFates, log: seq<WorkspaceDisk.Call>, c: nat, batch: Id, saved: seq<Saved>, before: Fs,
                       now: Fs)
    requires RestoredBy(fates, log, c, batch, saved, before, now)
    ensures c < |log|
  {
  }

  lemma RestoredEarlier(files: Fs, now: Fs, fates: DiskFates, log: seq<WorkspaceDisk.Call>,
                        start: seq<WorkspaceDisk.Call>, later: seq<WorkspaceDisk.Call>, changes: seq<Change>, batch: Id)
    requires RestoredFrom(files, now, fates, log, |later|, changes, batch) && OnlyQuiet(start, later) && later <= log
    ensures RestoredFrom(files, now, fates, log, |start|, changes, batch)
  {
    hide Halfway, RestoreCalls, Leaves, BatchFiles, OnlyQuiet;
    QuietMore(start, later);
    var c: nat, broken :| RestoredBy(fates, log, c, batch, BatchFiles(files, changes), broken, now)
                       && |later| <= c && Halfway(files, broken, log[..c], |later|, changes);
    HalfwayEarlier(files, broken, start, later, log[..c], changes);
  }

  lemma HalfwayLong(start: Fs, now: Fs, log: seq<WorkspaceDisk.Call>, from: nat, changes: seq<Change>)
    requires Halfway(start, now, log, from, changes)
    ensures from <= |log|
  {
  }

  /** Quiet calls before or after do not matter. */
  lemma StoppedBetween(start: Fs, now: Fs, from: seq<WorkspaceDisk.Call>, later: seq<WorkspaceDisk.Call>,
                       log: seq<WorkspaceDisk.Call>, longer: seq<WorkspaceDisk.Call>, changes: seq<Change>, k: nat)
    requires StoppedAt(start, now, log, |later|, changes, k)
    requires OnlyQuiet(from, later) && later <= log && OnlyQuiet(log, longer)
    ensures StoppedAt(start, now, longer, |from|, changes, k)
  {
    hide AppliedTo, Targets, OnlyOn, OnlyQuiet;
    QuietMore(from, later);
    QuietMore(log, longer);
    var paths := Targets(changes[..k + 1]);
    assert log[..|later|] == later && longer[..|from|] == from;
    QuietIsOn(from, later, paths);
    QuietIsOn(log, longer, paths);
    OnThen(from, later, log, paths);
    OnThen(from, log, longer, paths);
  }

  lemma HalfwayEarlier(start: Fs, now: Fs, from: seq<WorkspaceDisk.Call>, later: seq<WorkspaceDisk.Call>,
                       log: seq<WorkspaceDisk.Call>, changes: seq<Change>)
    requires Halfway(start, now, log, |later|, changes) && OnlyQuiet(from, later) && later <= log
    ensures Halfway(start, now, log, |from|, changes)
  {
    hide StoppedAt;
    var k: nat :| StoppedAt(start, now, log, |later|, changes, k);
    StoppedBetween(start, now, from, later, log, log, changes, k);
  }

  lemma HalfwayMore(start: Fs, now: Fs, log: seq<WorkspaceDisk.Call>, longer: seq<WorkspaceDisk.Call>, from: nat,
                    changes: seq<Change>)
    requires Halfway(start, now, log, from, changes) && OnlyQuiet(log, longer)
    ensures Halfway(start, now, longer, from, changes) && from <= |log|
  {
    var k: nat :| StoppedAt(start, now, log, from, changes, k);
    assert log[..from] <= log;
    hide StoppedAt;
    StoppedBetween(start, now, log[..from], log[..from], log, longer, changes, k);
  }

  lemma StoppedEarlier(start: Fs, now: Fs, fates: DiskFates, from: seq<WorkspaceDisk.Call>,
                       later: seq<WorkspaceDisk.Call>, log: seq<WorkspaceDisk.Call>, changes: seq<Change>,
                       previews: seq<FilePreview>, limits: Limits)
    requires StoppedFor(start, now, fates, log, |later|, changes, previews, limits)
    requires OnlyQuiet(from, later) && later <= log
    ensures StoppedFor(start, now, fates, log, |from|, changes, previews, limits)
  {
    hide Grantable;
    var k: nat :| StoppedAt(start, now, log, |later|, changes, k)
               && (Grantable(changes[k], previews, limits) ==> !Calls.AllWork(fates, log, |later|));
    hide StoppedAt;
    StoppedBetween(start, now, from, later, log, log, changes, k);
  }

  lemma StoppedLong(start: Fs, now: Fs, fates: DiskFates, later: seq<WorkspaceDisk.Call>, log: seq<WorkspaceDisk.Call>,
                    changes: seq<Change>, previews: seq<FilePreview>, limits: Limits)
    requires log != [] && later <= log
    requires StoppedFor(start, now, fates, Front(log), |later|, changes, previews, limits)
    ensures later <= Front(log)
  {
    hide Grantable;
  }

  lemma StoppedMore(start: Fs, now: Fs, fates: DiskFates, log: seq<WorkspaceDisk.Call>,
                    longer: seq<WorkspaceDisk.Call>, from: nat, changes: seq<Change>, previews: seq<FilePreview>,
                    limits: Limits)
    requires StoppedFor(start, now, fates, log, from, changes, previews, limits) && OnlyQuiet(log, longer)
    ensures StoppedFor(start, now, fates, longer, from, changes, previews, limits)
  {
    hide Grantable;
    var k: nat :| StoppedAt(start, now, log, from, changes, k)
               && (Grantable(changes[k], previews, limits) ==> !Calls.AllWork(fates, log, from));
    assert log[..from] <= log;
    hide StoppedAt;
    StoppedBetween(start, now, log[..from], log[..from], log, longer, changes, k);
  }

  lemma StoppedIsHalfway(start: Fs, now: Fs, fates: DiskFates, log: seq<WorkspaceDisk.Call>, from: nat,
                         changes: seq<Change>, previews: seq<FilePreview>, limits: Limits)
    requires StoppedFor(start, now, fates, log, from, changes, previews, limits)
    ensures Halfway(start, now, log, from, changes)
  {
    hide StoppedAt, Grantable;
  }

  lemma StoppedByCall(start: Fs, now: Fs, fates: DiskFates, log: seq<WorkspaceDisk.Call>, from: nat,
                      changes: seq<Change>, previews: seq<FilePreview>, limits: Limits)
    requires log != [] && StoppedFor(start, now, fates, Front(log), from, changes, previews, limits)
    ensures AllGrantable(changes, previews, limits) ==> FailedBefore(fates, log, from)
  {
    hide Grantable, AppliedTo, OnlyOn, Calls.AllWork;
  }

  lemma StopsFor(start: Fs, now: Fs, fates: DiskFates, before: seq<WorkspaceDisk.Call>, log: seq<WorkspaceDisk.Call>,
                 changes: seq<Change>, k: nat, previews: seq<FilePreview>, limits: Limits)
    requires k < |changes| && AgreeOutside(now, AppliedTo(start, changes[..k]), {Target(changes[k])})
    requires OnlyOn(before, log, Targets(changes[..k + 1])) && before <= log
    requires Grantable(changes[k], previews, limits) ==> !Calls.AllWork(fates, log, |before|)
    ensures StoppedFor(start, now, fates, log, |before|, changes, previews, limits)
  {
    hide AppliedTo, Grantable, OnlyOn, Targets, Calls.AllWork;
    assert log[..|before|] == before;
    assert StoppedAt(start, now, log, |before|, changes, k);
  }

  lemma OnNext(start: seq<WorkspaceDisk.Call>, made: seq<WorkspaceDisk.Call>, log: seq<WorkspaceDisk.Call>,
               changes: seq<Change>, k: nat)
    requires k < |changes| && OnlyOn(start, made, Targets(changes[..k])) && OnlyOn(made, log, {Target(changes[k])})
    ensures OnlyOn(start, log, Targets(changes[..k + 1])) && start <= log
  {
    hide OnlyOn, Target;
    var next := changes[..k + 1];
    assert next[k] == changes[k] && forall j :: 0 <= j < k ==> next[j] == changes[..k][j];
    assert Targets(changes[..k]) <= Targets(next) && {Target(changes[k])} <= Targets(next);
    OnMore(start, made, Targets(changes[..k]), Targets(next));
    OnMore(made, log, {Target(changes[k])}, Targets(next));
    hide Targets;
    OnThen(start, made, log, Targets(next));
    OnlyLonger(start, log, Targets(next));
  }

  lemma OnlyLonger(start: seq<WorkspaceDisk.Call>, log: seq<WorkspaceDisk.Call>, paths: set<Path>)
    requires OnlyOn(start, log, paths)
    ensures start <= log
  {
  }

  lemma TouchedFrom(log: seq<WorkspaceDisk.Call>, from: nat, later: nat, changes: seq<Change>)
    requires TargetsAreTouched(log, later, changes) && from <= later
    ensures TargetsAreTouched(log, from, changes)
  {
    hide Target;
  }

  lemma UnreadStops(fates: DiskFates, before: seq<WorkspaceDisk.Call>, log: seq<WorkspaceDisk.Call>, id: Id)
    requires RestorePointService.Unread(fates, before, log, id)
    ensures StoreStopped(fates, log)
  {
    assert log[|log| - 1] == Last(log);
  }

  lemma UnreadFails(fates: DiskFates, before: seq<WorkspaceDisk.Call>, log: seq<WorkspaceDisk.Call>, id: Id)
    requires RestorePointService.Unread(fates, before, log, id)
    ensures !Calls.AllWork(fates, log, |before|)
  {
    assert log[|log| - 1] == Last(log);
  }

  /** Restoring the batch point touches every target. */
  lemma TargetsTouched(start: Fs, changes: seq<Change>, log: seq<WorkspaceDisk.Call>, from: nat, saved: seq<Saved>)
    requires saved == Capture(start, Resolved(Unique(FilePaths(changes)))) && TrimmedPaths(changes)
    requires RestorePointService.AllTouched(log, from, saved)
    ensures TargetsAreTouched(log, from, changes)
  {
    hide Touched, Target, TrimmedPaths;
    var targets := Resolved(Unique(FilePaths(changes)));
    TargetsCaptured(changes);
    hide Unique, Resolved;
    forall k | 0 <= k < |changes|
      ensures Touched(log, from, Target(changes[k]))
    {
      assert Target(changes[k]) in Targets(changes);
      assert Target(changes[k]) in set path | path in targets;
      var j :| 0 <= j < |targets| && targets[j] == Target(changes[k]);
      assert saved[j].path == targets[j];
    }
  }

  /** With the limits as shipped, eight files and sixty points, the rollback never misses its restore point. */
  lemma DefaultLimitsSuffice(start: Fs, now: Fs, points: map<Id, PointFile>, fates: DiskFates,
                             log: seq<WorkspaceDisk.Call>, from: nat, changes: seq<Change>, r: ApplyResult,
                             batch: Id)
    requires |changes| <= MAX_FILES_CHANGED
    requires Ended(start, now, points, fates, log, from, changes, r, MaxPoints(None), batch)
    ensures r != Raised(RestorePointNotFound)
  {
  }

  /** A rollback during which every call works, from the reading of its point on, leaves every file as it was. */
  lemma CleanRollback(start: Fs, now: Fs, points: map<Id, PointFile>, fates: DiskFates, log: seq<WorkspaceDisk.Call>,
                      from: nat, changes: seq<Change>, point: Id, max: nat, c: nat)
    requires Ended(start, now, points, fates, log, from, changes, WasRolledBack(point), max, point)
    requires c < |log| && log[c] == ReadsPoint(point) && forall k :: c < k < |log| ==> fates(k, log[k]).Works?
    ensures now == start
  {
    hide Targets, PointHolds, TargetsAreTouched;
    NoneFailed(log, point, fates, c);
    SameLookups(now, start);
  }

  lemma {:induction false} NoneFailed(log: seq<WorkspaceDisk.Call>, point: Id, fates: DiskFates, c: nat)
    requires c < |log| && log[c] == ReadsPoint(point) && forall k :: c < k < |log| ==> fates(k, log[k]).Works?
    ensures FailedSince(fates, log, point) == {}
  {
    if Last(log) != ReadsPoint(point) {
      assert c < |log| - 1 && Front(log)[c] == log[c];
      NoneFailed(Front(log), point, fates, c);
    }
  }

  /** The fates of the calls from number `n` on bring every target back. */
  ghost predicate AllBroughtBack(fates: DiskFates, n: nat, saved: seq<Saved>, changes: seq<Change>, broken: Fs,
                                 start: Fs)
  {
    forall k :: 0 <= k < |changes| ==>
      var path := Target(changes[k]); BringBack(fates, n, saved, path, Lookup(broken, path), Lookup(start, path))
  }

  /** Exactly when a rollback has left every file as it was: when for every target that did not exist it was absent
      already or one of its removals works, and for every other the last write of it leaves its text. */
  lemma RolledBackExactly(start: Fs, broken: Fs, now: Fs, fates: DiskFates, log: seq<WorkspaceDisk.Call>,
                          changes: seq<Change>, point: Id, c: nat)
    requires AgreeOutside(broken, start, Targets(changes)) && TrimmedPaths(changes)
    requires RestoredBy(fates, log, c, point, BatchFiles(start, changes), broken, now)
    ensures now == start <==> AllBroughtBack(fates, c + 1, BatchFiles(start, changes), changes, broken, start)
  {
    var saved, targets := BatchFiles(start, changes), Resolved(Unique(FilePaths(changes)));
    TargetsCaptured(changes);
    CapturedPaths(start, targets);
    CapturedAs(start, targets);
    assert Leaves(fates, c + 1, saved, broken, now) && saved == Capture(start, targets);
    hide RestoredBy, BringBack, FinalContent, TrimmedPaths, Unique, Resolved, Capture, BatchFiles, Target;
    forall k | 0 <= k < |changes|
      ensures var path := Target(changes[k]);
        BringBack(fates, c + 1, saved, path, Lookup(broken, path), Lookup(start, path)) <==>
          Lookup(now, path) == Lookup(start, path)
    {
      var path := Target(changes[k]);
      assert path in Targets(changes);
      BackExactly(fates, c + 1, saved, path, Lookup(broken, path), Lookup(start, path));
    }
    if AllBroughtBack(fates, c + 1, saved, changes, broken, start) {
      forall path
        ensures Lookup(now, path) == Lookup(start, path)
      {
        if path !in Targets(changes) {
          OthersStay(fates, c + 1, saved, path, Lookup(broken, path));
        }
      }
      SameLookups(now, start);
    }
  }

  lemma CapturedAs(files: Fs, targets: seq<Path>)
    ensures forall path :: SavedAs(Capture(files, targets), path, Lookup(files, path))
  {
  }

  lemma {:induction false} OthersStay(fates: DiskFates, n: nat, saved: seq<Saved>, path: Path, before: Option<string>)
    requires path !in PathsOf(saved)
    ensures FinalContent(fates, n, saved, path, before) == before
  {
    if saved != [] {
      assert saved[|saved| - 1].path in PathsOf(saved);
      assert forall k :: 0 <= k < |saved| - 1 ==> Front(saved)[k] == saved[k];
      OthersStay(fates, n, Front(saved), path, before);
    }
  }

  // What an apply needs besides calls that work

  predicate Readable(files: Fs, path: Path) {
    path in files ==> '\0' !in files[path]
  }

  /** The target exists exactly where it should, and is no binary file. */
  predicate Previewable(change: Change, files: Fs) {
    (Target(change) in files <==> !change.changeType.Create?) && Readable(files, Target(change))
  }

  predicate AllPreviewable(changes: seq<Change>, files: Fs) {
    forall k :: 0 <= k < |changes| ==> Previewable(changes[k], files)
  }

  lemma NonePreviewable(none: seq<Change>, files: Fs)
    requires none == []
    ensures AllPreviewable(none, files)
  {
  }

  lemma PreviewableNext(changes: seq<Change>, k: nat, files: Fs)
    requires k < |changes|
    ensures AllPreviewable(changes[..k + 1], files) <==>
      AllPreviewable(changes[..k], files) && Previewable(changes[k], files)
    ensures AllPreviewable(changes, files) ==> Previewable(changes[k], files)
  {
    hide Previewable;
    assert forall j :: 0 <= j < k ==> changes[..k + 1][j] == changes[..k][j];
    assert changes[..k + 1][k] == changes[k];
  }

  predicate Grantable(change: Change, previews: seq<FilePreview>, limits: Limits) {
    && Covered(change, previews)
    && (!change.changeType.Delete? ==>
          && Trim(Target(change)) != "" && change.proposedContent.Some?
          && ValidatePatchPlan([PlanChange(Target(change), TextOf(change))], APPROVED, limits).None?)
  }

  predicate AllReadable(changes: seq<Change>, files: Fs) {
    forall k :: 0 <= k < |changes| ==> Readable(files, Target(changes[k]))
  }

  lemma NoneReadable(none: seq<Change>, files: Fs)
    requires none == []
    ensures AllReadable(none, files)
  {
  }

  lemma ReadableNext(changes: seq<Change>, k: nat, files: Fs)
    requires k < |changes|
    ensures AllReadable(changes[..k + 1], files) <==>
      AllReadable(changes[..k], files) && Readable(files, Target(changes[k]))
    ensures AllReadable(changes, files) ==> Readable(files, Target(changes[k]))
  {
    hide Readable, Target;
    assert forall j :: 0 <= j < k ==> changes[..k + 1][j] == changes[..k][j];
    assert changes[..k + 1][k] == changes[k];
  }

  lemma GrantableOne(changes: seq<Change>, k: nat, previews: seq<FilePreview>, limits: Limits)
    requires k < |changes|
    ensures AllGrantable(changes, previews, limits) ==> Grantable(changes[k], previews, limits)
  {
  }

  predicate AllGrantable(changes: seq<Change>, previews: seq<FilePreview>, limits: Limits) {
    forall k :: 0 <= k < |changes| ==> Grantable(changes[k], previews, limits)
  }

  /** No target is binary now, every text is written to a file with a name, and the limits allow a first iteration. */
  predicate Applicable(files: Fs, changes: seq<Change>, limits: Limits) {
    && limits.maxIterations >= 1 && limits.maxCommandCount >= 0
    && forall k :: 0 <= k < |changes| ==>
         Readable(files, Target(changes[k])) && (!changes[k].changeType.Delete? ==> Trim(Target(changes[k])) != "")
  }

  /** A proposal of plain paths is applicable unless one of its targets is binary now. */
  lemma PlainIsApplicable(stored: Stored, limits: Limits, files: Fs)
    requires WellStored(stored, limits) && AllPlain(stored.proposal.changes)
    requires limits.maxIterations >= 1 && limits.maxCommandCount >= 0
    ensures Applicable(files, stored.proposal.changes, limits) <==>
      forall k :: 0 <= k < |stored.proposal.changes| ==>
        stored.proposal.changes[k].filePath in files ==> '\0' !in files[stored.proposal.changes[k].filePath]
  {
    hide Covered, Sound, Different, Inside, Plain, Resolve, Trim;
    var changes := stored.proposal.changes;
    forall k | 0 <= k < |changes|
      ensures Target(changes[k]) == changes[k].filePath && Trim(Target(changes[k])) != ""
    {
      PlainNamesItself(changes[k].filePath);
    }
  }

  lemma StoredGrantable(stored: Stored, limits: Limits, files: Fs)
    requires WellStored(stored, limits) && Applicable(files, stored.proposal.changes, limits)
    ensures AllGrantable(stored.proposal.changes, stored.previews, limits)
    ensures AllReadable(stored.proposal.changes, files)
  {
    hide Covered, Target, Trim, ValidatePatchPlan, ByteLength;
    var changes := stored.proposal.changes;
    forall k | 0 <= k < |changes|
      ensures Grantable(changes[k], stored.previews, limits)
    {
      assert Sound(changes[k], limits);
      OneChangePasses(Target(changes[k]), TextOf(changes[k]), limits);
    }
  }

  lemma AppliedAsStored(stored: Stored, limits: Limits, start: Fs, now: Fs, points: map<Id, PointFile>,
                        fates: DiskFates, log: seq<WorkspaceDisk.Call>, from: nat, r: ApplyResult, max: nat, batch: Id)
    requires WellStored(stored, limits)
    requires Ended(start, now, points, fates, log, from, stored.proposal.changes, r, max, batch)
    ensures r.WasApplied? && AllPlain(stored.proposal.changes) ==> InPlace(start, now, stored.proposal.changes)
  {
    hide Different, Inside, Covered, ByteLength, AppliedTo, Named, PointHolds, AllPlain, InPlace, TrimmedPaths;
    var changes := stored.proposal.changes;
    if r.WasApplied? && AllPlain(changes) {
      assert forall k :: 0 <= k < |changes| ==> Sound(changes[k], limits);
      AppliedInPlace(start, changes);
    }
  }

  lemma NamesThere(stored: Stored, limits: Limits)
    requires WellStored(stored, limits)
    ensures Unique(FilePaths(stored.proposal.changes)) != []
  {
    hide Trim, Unique, Covered, Sound;
    var paths := FilePaths(stored.proposal.changes);
    UniqueExactly(paths);
    assert Trim(paths[0]) == paths[0] != "";
    assert Names(paths, paths[0]);
  }

  lemma TrimmedStored(stored: Stored, limits: Limits)
    requires WellStored(stored, limits)
    ensures TrimmedPaths(stored.proposal.changes)
  {
  }

  // Steps of the proofs

  /** A proposal can be applied exactly when it was approved since its last preview. */
  ghost predicate ApprovalsHold(proposals: map<string, Stored>, history: seq<Request>) {
    && (forall id :: id in proposals ==> (ReadyToApply(proposals[id]) <==> ApprovedSincePreview(history, id)))
    && (forall id :: ApprovedSincePreview(history, id) ==> id in proposals)
  }

  lemma ApprovalOf(proposals: map<string, Stored>, limits: Limits, history: seq<Request>, id: string)
    requires ApprovalsHold(proposals, history) && StoredWell(proposals, limits)
    ensures id in proposals ==> (ReadyToApply(proposals[id]) <==> ApprovedSincePreview(history, id))
    ensures id in proposals ==> WellStored(proposals[id], limits)
  {
  }

  lemma StoredOneMore(proposals: map<string, Stored>, limits: Limits, id: string, stored: Stored, proposal: Proposal,
                      held: FileChanges.Snapshots, files: Fs)
    requires StoredWell(proposals, limits)
    requires Validated(proposal, limits.maxFilesChanged, limits.maxPatchSize) == Accepted(stored.proposal)
    requires Shown(stored.proposal.changes, stored.previews, held, files)
    ensures StoredWell(proposals[id := stored], limits)
  {
    hide WellStored;
    StoredFresh(limits, stored, proposal, held, files);
  }

  lemma StoredFresh(limits: Limits, stored: Stored, proposal: Proposal, held: FileChanges.Snapshots, files: Fs)
    requires Validated(proposal, limits.maxFilesChanged, limits.maxPatchSize) == Accepted(stored.proposal)
    requires Shown(stored.proposal.changes, stored.previews, held, files)
    ensures WellStored(stored, limits)
  {
    AcceptedExactly(proposal, limits.maxFilesChanged, limits.maxPatchSize);
    AcceptedTrimmed(proposal, limits.maxFilesChanged, limits.maxPatchSize);
    AcceptedChanges(proposal, limits.maxFilesChanged, limits.maxPatchSize);
    hide Different, Inside;
    hide TrimmedPaths, Validated, ByteLength, TotalSize, NormalPath, Normalize, FileChanges.SnapshotOf, Target;
    var changes := stored.proposal.changes;
    forall k | 0 <= k < |changes|
      ensures Sound(changes[k], limits) && Covered(changes[k], stored.previews)
    {
      SizeOfOne(proposal.changes, k);
      assert ShownOne(changes[k], stored.previews[k], held, files);
    }
  }

  lemma ReadyStays(proposals: map<string, Stored>, limits: Limits, history: seq<Request>, id: string, state: PatchState)
    requires ApprovalsHold(proposals, history) && StoredWell(proposals, limits) && id in proposals
    ensures var after := proposals[id := proposals[id].(state := state)];
      ApprovalsHold(after, history) && StoredWell(after, limits)
  {
    hide ApprovedSincePreview, TrimmedPaths, Sound, Covered;
  }

  lemma CallKeeps(before: map<string, Stored>, after: map<string, Stored>, history: seq<Request>, call: Request)
    requires ApprovalsHold(before, history) && call.id in after
    requires before.Keys + {call.id} == after.Keys
    requires forall id :: id in before && id != call.id ==> after[id] == before[id]
    requires call.Previewed? ==> !ReadyToApply(after[call.id])
    requires call.ApprovedBy? ==> ReadyToApply(after[call.id])
    requires call.RejectedBy? || call.AppliedBy? ==>
      call.id in before && (ReadyToApply(after[call.id]) <==> ReadyToApply(before[call.id]))
    ensures ApprovalsHold(after, history + [call])
  {
    hide ReadyToApply;
    forall id
      ensures ApprovedSincePreview(history + [call], id) ==
        (if call.Previewed? && call.id == id then false
         else if call.ApprovedBy? && call.id == id then true
         else ApprovedSincePreview(history, id))
    {
      HistoryStep(history, call, id);
    }
    hide ApprovedSincePreview;
    forall id | id in after
      ensures ReadyToApply(after[id]) <==> ApprovedSincePreview(history + [call], id)
    {
      if id != call.id {
        assert id in before.Keys + {call.id};
      }
    }
  }

  lemma NamedNext(changes: seq<Change>, k: nat, changed: seq<string>, deleted: seq<string>)
    requires k < |changes| && Named(changes[..k], changed, deleted)
    ensures changes[k].changeType.Delete? ==> Named(changes[..k + 1], changed, deleted + [changes[k].filePath])
    ensures !changes[k].changeType.Delete? ==> Named(changes[..k + 1], changed + [changes[k].filePath], deleted)
  {
    assert forall j :: 0 <= j < k ==> changes[..k + 1][j] == changes[..k][j];
  }

  lemma NothingApplied(start: Fs, shelf: Store, bound: Id, none: seq<Change>, max: nat)
    requires none == []
    ensures AppliedTo(start, none) == start && WriteCount(none) == 0 && Named(none, [], [])
    ensures RestorePointService.Moves(shelf, shelf, bound, 0, max)
  {
    RestorePointService.NewPointMoves(shelf, shelf, bound, bound, max);
  }

  lemma AppliedNext(start: Fs, before: Fs, now: Fs, changes: seq<Change>, k: nat, ok: bool)
    requires k < |changes| && before == AppliedTo(start, changes[..k])
    requires AgreeOutside(now, before, {Target(changes[k])})
    requires ok ==> now == Put(before, Target(changes[k]), Desired(changes[k]))
    ensures ok ==> now == AppliedTo(start, changes[..k + 1])
    ensures AgreeOutside(now, start, Targets(changes))
  {
    assert Front(changes[..k + 1]) == changes[..k];
    AppliedFrame(start, changes[..k]);
    forall path | path !in Targets(changes)
      ensures Lookup(now, path) == Lookup(start, path)
    {
      assert Target(changes[k]) in Targets(changes);
      assert path !in Targets(changes[..k]) by {
        assert forall j :: 0 <= j < k ==> changes[..k][j] == changes[j];
      }
    }
  }

  lemma {:induction false} WritesGrow(changes: seq<Change>, k: nat)
    requires k <= |changes|
    ensures WriteCount(changes[..k]) <= WriteCount(changes)
    decreases |changes| - k
  {
    if k == |changes| {
      assert changes[..k] == changes;
    } else {
      assert Front(changes[..k + 1]) == changes[..k];
      WritesGrow(changes, k + 1);
    }
  }

  lemma WritesNext(changes: seq<Change>, k: nat)
    requires k < |changes|
    ensures WriteCount(changes[..k + 1]) == WriteCount(changes[..k]) + if changes[k].changeType.Delete? then 0 else 1
  {
    assert Front(changes[..k + 1]) == changes[..k];
  }

  lemma MovesNext(shelf: Store, middle: Store, now: Store, bound: Id, minted: Id, changes: seq<Change>, k: nat,
                  max: nat)
    requires k < |changes| && bound <= minted
    requires RestorePointService.Moves(shelf, middle, bound, WriteCount(changes[..k]), max)
    requires RestorePointService.Moves(middle, now, minted, if changes[k].changeType.Delete? then 0 else 1, max)
    ensures RestorePointService.Moves(shelf, now, bound, WriteCount(changes[..k + 1]), max)
    ensures RestorePointService.Moves(shelf, now, bound, WriteCount(changes), max)
  {
    WritesNext(changes, k);
    hide RestorePointService.Moves, WriteCount;
    var more := if changes[k].changeType.Delete? then 0 else 1;
    RestorePointService.BoundLess(middle, now, bound, minted, more, max);
    RestorePointService.MovesThen(shelf, middle, now, bound, WriteCount(changes[..k]), more, max);
    WritesGrow(changes, k + 1);
    RestorePointService.MovesFurther(shelf, now, bound, WriteCount(changes[..k + 1]), WriteCount(changes), max);
  }

  lemma BatchIsSafe(before: Store, minted: Id, batch: Point, max: nat)
    requires max >= 1 && FreshFrom(before, minted) && minted <= batch.id
    ensures RestorePointService.Safe(Created(before, batch, max), batch.id, Whole(batch), 0)
  {
    CreatedIsFirst(before, batch, max);
    var listed, after := Listed(Added(before, batch).index), Listed(Created(before, batch, max).index);
    forall k | 1 <= k < |after|
      ensures after[k].id != batch.id
    {
      assert after[k] == listed[k] == Listed(before.index)[k - 1];
    }
  }

  lemma BatchStillThere(shelf: Store, now: Store, bound: Id, batch: Point, writes: nat, max: nat)
    requires RestorePointService.Safe(shelf, batch.id, Whole(batch), 0) && batch.id < bound
    requires RestorePointService.Moves(shelf, now, bound, writes, max)
    ensures Kept(now.points, batch, writes, max)
  {
    if writes < max {
      assert RestorePointService.Safe(now, batch.id, Whole(batch), 0 + writes);
    }
  }

  /** The point is on disk as it was made, unless as many files were written as points are kept. */
  ghost predicate Kept(points: map<Id, PointFile>, batch: Point, writes: nat, max: nat) {
    (writes < max ==> batch.id in points) && (batch.id in points ==> points[batch.id] == Whole(batch))
  }

  /** Restoring the batch point gives back the start, except where restoring failed. */
  lemma RolledBackTo(start: Fs, broken: Fs, now: Fs, changes: seq<Change>, saved: seq<Saved>, errors: seq<Path>)
    requires saved == Capture(start, Resolved(Unique(FilePaths(changes))))
    requires AgreeOutside(broken, start, Targets(changes))
    requires RestorePointService.Restoration(broken, now, saved, errors)
    requires TrimmedPaths(changes)
    ensures AgreeOutside(now, start, Elements(errors))
    ensures Elements(errors) <= Targets(changes)
  {
    hide Unique, FilePaths, Targets, Restored, TrimmedPaths;
    var targets := Resolved(Unique(FilePaths(changes)));
    TargetsCaptured(changes);
    assert (set path | path in targets) == Targets(changes);
    hide Resolved;
    RestoreUndoes(broken, start, targets);
    CapturedPaths(start, targets);
  }

  lemma CapturedPaths(files: Fs, targets: seq<Path>)
    ensures PathsOf(Capture(files, targets)) == set path | path in targets
  {
    var saved := Capture(files, targets);
    forall path
      ensures path in PathsOf(saved) <==> path in targets
    {
      if path in targets {
        var k :| 0 <= k < |targets| && targets[k] == path;
        assert saved[k].path == path;
      }
    }
  }

  lemma NothingLost(start: Fs, now: Fs, errors: seq<Path>)
    requires errors == [] && AgreeOutside(now, start, Elements(errors))
    ensures now == start
  {
    SameLookups(now, start);
  }

  /** The batch point covers exactly the files of the proposal. */
  lemma TargetsCaptured(changes: seq<Change>)
    requires TrimmedPaths(changes)
    ensures (set path | path in Resolved(Unique(FilePaths(changes)))) == Targets(changes)
  {
    var paths := FilePaths(changes);
    var names := Unique(paths);
    UniqueExactly(paths);
    forall path
      ensures path in Resolved(names) <==> path in Targets(changes)
    {
      if path in Resolved(names) {
        var k :| 0 <= k < |names| && Resolved(names)[k] == path;
        assert names[k] in names && Names(paths, names[k]);
        var j :| 0 <= j < |paths| && Trim(paths[j]) == names[k];
        assert Target(changes[j]) == path;
      }
      if path in Targets(changes) {
        var j :| 0 <= j < |changes| && Target(changes[j]) == path;
        assert Trim(paths[j]) == changes[j].filePath && Names(paths, changes[j].filePath);
        var k :| 0 <= k < |names| && names[k] == changes[j].filePath;
        assert Resolved(names)[k] == path;
      }
    }
  }
}
