/**
 * The older, single-file version of the commands (lib/crowdin-methods.js).
 * Its helpers for branch names, remote heads, dates, the merge check and the
 * skip test are the same as the commands' and share their definitions here;
 * its requests are the same as the API client's. It differs in two ways
 * modelled below: the last-update lookup has no "never updated" case, and
 * the auto-translation request is not returned, so nobody waits for it or
 * sees it fail. A third difference, that the purge does not wait for its
 * deletions, changes only when their log lines appear, so the purge issues
 * the same requests as the newer one.
 */
module CrowdinMethods {
  import opened Wrappers
  import opened Settings
  import opened CrowdinApi
  import opened AutoTranslate
  import opened DeleteOldBranches
  import UploadSources
  import CheckProgress
  import DownloadTranslations

  /**
   * `_getFileLastUpdated` without a fallback: it follows first children to
   * a file. For a directory without children it reads a property of
   * `undefined` and throws: `None`.
   */
  function LegacyLastUpdated(n: Node): Option<int>
    decreases n
  {
    if n.nodeType == "file" then Some(n.lastUpdated)
    else if |n.files| > 0 then LegacyLastUpdated(n.files[0])
    else None
  }

  /**
   * The two lookups agree wherever the older one returns; where it throws,
   * the newer one answers with the oldest possible date.
   */
  lemma {:induction false} LegacyLastUpdatedAgrees(n: Node)
    ensures LegacyLastUpdated(n).Some? ==> LegacyLastUpdated(n).value == LastUpdated(n)
    ensures LegacyLastUpdated(n).None? ==> LastUpdated(n) == OldestPossibleDate
    decreases n
  {
    if n.nodeType != "file" && |n.files| > 0 {
      LegacyLastUpdatedAgrees(n.files[0]);
    }
  }

  /** The older lookup throws exactly when the first-child path reaches no file. */
  lemma {:induction false} LegacyLastUpdatedThrows(n: Node)
    ensures LegacyLastUpdated(n).Some? <==> exists f :: OnFirstPath(n, f) && f.nodeType == "file"
    decreases n
  {
    if n.nodeType == "file" {
      assert OnFirstPath(n, n);
    } else if |n.files| > 0 {
      LegacyLastUpdatedThrows(n.files[0]);
      if exists f :: OnFirstPath(n, f) && f.nodeType == "file" {
        var f :| OnFirstPath(n, f) && f.nodeType == "file";
        assert OnFirstPath(n.files[0], f);
      }
    } else {
      forall f | OnFirstPath(n, f) ensures f.nodeType != "file" {
      }
    }
  }

  /** The number of branches handled before the first one whose lookup throws. */
  function FirstUndated(branches: seq<Node>): (k: nat)
    ensures k <= |branches|
    ensures forall i :: 0 <= i < k ==> LegacyLastUpdated(branches[i]).Some?
    ensures k < |branches| ==> LegacyLastUpdated(branches[k]).None?
  {
    if branches == [] then 0
    else if LegacyLastUpdated(branches[0]).None? then 0
    else 1 + FirstUndated(branches[1..])
  }

  /**
   * The older `deleteOldBranches`: `forEach` issues the deletions one by one
   * without waiting; at the first branch whose lookup throws, the loop stops
   * and the command rejects, with the earlier deletions already issued.
   */
  method LegacyDeleteOldBranches(cfg: Settings, lastMasterCommit: Option<int>, now: int,
                                 info: seq<Node>, lsRemote: string, deleteReply: string -> DeleteReply)
    returns (outcome: PurgeOutcome, trace: seq<Request>, events: seq<PurgeEvent>)
    ensures TooSoonToPurge(cfg, lastMasterCommit, now) ==> outcome == TooSoon && trace == [] && events == []
    ensures !TooSoonToPurge(cfg, lastMasterCommit, now) && RemoteHeads(lsRemote).None? ==>
              outcome == Crashed && trace == [GetInfo()] && events == []
    ensures !TooSoonToPurge(cfg, lastMasterCommit, now) && RemoteHeads(lsRemote).Some? ==>
              var branches := BranchNodes(info);
              var k := FirstUndated(branches);
              var stale := StaleBranches(cfg, now, ConvertedHeads(RemoteHeads(lsRemote).value), branches[..k]);
              outcome == (if k < |branches| then Crashed else Purged(stale == [])) &&
              trace == [GetInfo()] + DeleteRequests(stale) &&
              events == DeleteEvents(stale, deleteReply)
  {
    trace, events := [], [];
    var minutes := MinutesSinceMasterMerge(lastMasterCommit, now);
    var tooSoon := minutes.Some? && minutes.value < cfg.minutesSinceLastMasterMergeToPurgeSafely;
    assert tooSoon == TooSoonToPurge(cfg, lastMasterCommit, now);
    if tooSoon {
      return TooSoon, trace, events;
    }
    trace := trace + [GetInfo()];
    var branches := BranchNodes(info);
    var heads := RemoteHeads(lsRemote);
    if heads.None? {
      return Crashed, trace, events;
    }
    var converted := ConvertedHeads(heads.value);
    var deletions, someDeleted, crashed;
    deletions, events, someDeleted, crashed := LegacyIssueDeletions(cfg, now, converted, branches, deleteReply);
    ghost var k := FirstUndated(branches);
    ghost var stale := StaleBranches(cfg, now, converted, branches[..k]);
    assert stale == StaleBranches(cfg, now, ConvertedHeads(RemoteHeads(lsRemote).value), BranchNodes(info)[..k]);
    trace := trace + deletions;
    assert trace == [GetInfo()] + DeleteRequests(stale);
    outcome := if crashed then Crashed else Purged(!someDeleted);
  }

  /**
   * The older `forEach`: as `IssueDeletions`, but a branch whose lookup
   * throws ends the loop, after the deletions already issued.
   */
  method LegacyIssueDeletions(cfg: Settings, now: int, converted: seq<string>, branches: seq<Node>,
                              deleteReply: string -> DeleteReply)
    returns (deletions: seq<Request>, events: seq<PurgeEvent>, someDeleted: bool, crashed: bool)
    ensures var k := FirstUndated(branches);
            var stale := StaleBranches(cfg, now, converted, branches[..k]);
            deletions == DeleteRequests(stale) && events == DeleteEvents(stale, deleteReply)
            && (someDeleted <==> stale != []) && (crashed <==> k < |branches|)
  {
    deletions, events, someDeleted, crashed := [], [], false, false;
    ghost var k := FirstUndated(branches);
    ghost var done: seq<string> := [];
    var i := 0;
    while i < |branches|
      invariant 0 <= i <= k
      invariant done == StaleBranches(cfg, now, converted, branches[..i])
      invariant deletions == DeleteRequests(done)
      invariant events == DeleteEvents(done, deleteReply)
      invariant someDeleted <==> done != []
    {
      var branch := branches[i];
      var updated := LegacyLastUpdated(branch);
      if updated.None? {
        assert i == k;
        crashed := true;
        return;
      }
      assert i < k;
      LegacyLastUpdatedAgrees(branch);
      StaleBranchesStep(cfg, now, converted, branches, i);
      DeleteRequestsSnoc(done, branch.name);
      DeleteEventsSnoc(done, branch.name, deleteReply);
      var days := DiffInDays(updated.value, now);
      if branch.name !in converted && days > cfg.daysSinceLastUpdatedToDeleteBranchSafely {
        someDeleted := true;
        deletions := deletions + [DeleteBranch(branch.name)];
        events := events + [DeleteEvent(branch.name, deleteReply(branch.name))];
        done := done + [branch.name];
      }
      i := i + 1;
    }
    assert i == k == |branches|;
    assert branches[..i] == branches;
  }

  /**
   * An empty Crowdin branch listed first stops the older purge before any
   * deletion, while the newer one deletes it as never updated.
   */
  lemma EmptyBranchFirst(cfg: Settings, now: int, converted: seq<string>, e: Node, rest: seq<Node>)
    requires e.nodeType == "branch" && e.files == [] && e.name !in converted
    requires now >= 0 && cfg.daysSinceLastUpdatedToDeleteBranchSafely < 100000000
    ensures var branches := [e] + rest;
            FirstUndated(branches) == 0
            && StaleBranches(cfg, now, converted, branches[..FirstUndated(branches)]) == []
            && e.name in StaleBranches(cfg, now, converted, branches)
  {
    var branches := [e] + rest;
    assert branches[..0] == [];
    EmptyBranchIsAncient(e, now, cfg.daysSinceLastUpdatedToDeleteBranchSafely);
    StaleBranchesIff(cfg, now, converted, branches, e.name);
    assert e in branches;
  }

  /** When every branch has a dated file, the two purges issue the same deletions. */
  lemma DatedBranchesSamePurge(cfg: Settings, now: int, converted: seq<string>, branches: seq<Node>)
    requires forall i :: 0 <= i < |branches| ==> LegacyLastUpdated(branches[i]).Some?
    ensures FirstUndated(branches) == |branches| && branches[..FirstUndated(branches)] == branches
    ensures StaleBranches(cfg, now, converted, branches[..FirstUndated(branches)])
         == StaleBranches(cfg, now, converted, branches)
  {
    assert branches[..|branches|] == branches;
  }

  /**
   * The older `triggerAutoTranslation`: the same request, but not returned,
   * so a rejection never reaches the caller (its handler still throws,
   * unobserved).
   */
  function LegacyTriggerAutoTranslation(cfg: Settings, crowdinBranch: string, files: seq<string>,
                                        reply: PreTranslateReply): (r: AutoTranslation)
    ensures r.requests == TriggerAutoTranslation(cfg, crowdinBranch, files, reply).requests
    ensures r.reportedFailure == TriggerAutoTranslation(cfg, crowdinBranch, files, reply).reportedFailure
    ensures !r.crashed
  {
    var auto := TriggerAutoTranslation(cfg, crowdinBranch, files, reply);
    AutoTranslation(auto.requests, auto.reportedFailure, false)
  }

  /**
   * The older `uploadSources`: the same skip test as written, the same
   * branch, directory and file requests, so it shares the per-file loop;
   * only its auto-translation cannot fail.
   */
  method LegacyUploadSources(cfg: Settings, branch: string, files: seq<string>, skipIfUnchanged: bool,
                             diffOutput: string, addBranchReply: ApiReply,
                             firstReply: string -> ApiReply, fallbackReply: string -> ApiReply,
                             preTranslateReply: PreTranslateReply)
    returns (result: UploadSources.Upload)
    ensures skipIfUnchanged && UploadSources.EveryFileListedAsChanged(files, diffOutput) ==>
              result == UploadSources.Skipped
    ensures !(skipIfUnchanged && UploadSources.EveryFileListedAsChanged(files, diffOutput)) ==>
              var auto := LegacyTriggerAutoTranslation(cfg, branch, files, preTranslateReply);
              result == UploadSources.Uploaded(
                [AddBranch(branch)] + UploadSources.AllFileRequests(cfg, branch, addBranchReply.success, files, firstReply)
                + auto.requests,
                UploadSources.UploadedFiles(files, firstReply, fallbackReply),
                auto)
    ensures result.Uploaded? ==> !result.autoTranslation.crashed
  {
    var up := UploadSources.UploadSources(cfg, branch, files, skipIfUnchanged, diffOutput, addBranchReply,
                                          firstReply, fallbackReply, preTranslateReply);
    if up.Skipped? {
      return up;
    }
    var auto := LegacyTriggerAutoTranslation(cfg, branch, files, preTranslateReply);
    result := UploadSources.Uploaded(up.requests, up.uploaded, auto);
  }

  /**
   * The older `downloadTranslations`: as the newer one, except that the
   * upload never fails, so once the gate passes the build and the download
   * always follow.
   */
  method LegacyDownloadTranslations(cfg: Settings, gitBranch: string, crowdinBranch: string, force: bool,
                                    sourceFiles: seq<string>, logOutput: string -> string,
                                    containsOutput: string -> string,
                                    replies: DownloadTranslations.UploadReplies,
                                    archive: DownloadTranslations.Archive)
    returns (result: DownloadTranslations.Download)
    ensures !force && !DownloadTranslations.IsLastSourceFromMasterMerged(sourceFiles, gitBranch, logOutput, containsOutput) ==>
              result == DownloadTranslations.NotMerged
    ensures force || DownloadTranslations.IsLastSourceFromMasterMerged(sourceFiles, gitBranch, logOutput, containsOutput) ==>
              result == DownloadTranslations.Downloaded(
                DownloadTranslations.UploadStep(cfg, crowdinBranch, sourceFiles, replies).requests
                + [BuildBranch(crowdinBranch), GetAllTranslations(crowdinBranch)],
                DownloadTranslations.WrittenFiles(archive.entries, crowdinBranch),
                archive.broken)
  {
    if !force && !DownloadTranslations.IsLastSourceFromMasterMerged(sourceFiles, gitBranch, logOutput, containsOutput) {
      return DownloadTranslations.NotMerged;
    }
    var up := LegacyUploadSources(cfg, crowdinBranch, sourceFiles, false, "",
                                  replies.addBranchReply, replies.firstReply,
                                  replies.fallbackReply, replies.preTranslateReply);
    var requests := up.requests + [BuildBranch(crowdinBranch), GetAllTranslations(crowdinBranch)];
    var written := DownloadTranslations.ExtractArchive(archive.entries, crowdinBranch);
    result := DownloadTranslations.Downloaded(requests, written, archive.broken);
  }

  /**
   * The older `checkProgressOnBranch`: on master it does not wait for the
   * auto-translation, so it never fails there; elsewhere it is the newer one.
   */
  function LegacyCheckProgressOnBranch(cfg: Settings, crowdinBranch: string, sourceFiles: seq<string>,
                                       preTranslateReply: PreTranslateReply, statusFiles: seq<Node>)
    : (r: CheckProgress.Progress)
    ensures crowdinBranch == "master" ==>
              r.verdict == CheckProgress.MasterNotValidated
              && r.requests == CheckProgress.CheckProgressOnBranch(cfg, crowdinBranch, sourceFiles, preTranslateReply, statusFiles).requests
    ensures crowdinBranch != "master" ==>
              r == CheckProgress.CheckProgressOnBranch(cfg, crowdinBranch, sourceFiles, preTranslateReply, statusFiles)
  {
    if crowdinBranch == "master" then
      CheckProgress.Progress(LegacyTriggerAutoTranslation(cfg, crowdinBranch, sourceFiles, preTranslateReply).requests,
                             CheckProgress.MasterNotValidated)
    else CheckProgress.CheckProgressOnBranch(cfg, crowdinBranch, sourceFiles, preTranslateReply, statusFiles)
  }
}
