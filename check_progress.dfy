/**
 * The `progress` command (lib/commands/check-progress-on-branch.js). On
 * master it only triggers auto-translation. Elsewhere it asks Crowdin for
 * the status of the checked language and fails (exit code 1) when the
 * branch has phrases and not all of them are translated.
 */
module CheckProgress {
  import opened Wrappers
  import opened Settings
  import opened CrowdinApi
  import opened AutoTranslate

  /** `node_type === 'branch' && name === crowdinBranchName`. */
  predicate IsBranchNamed(n: Node, name: string) {
    n.nodeType == "branch" && n.name == name
  }

  /** `files.filter(...)[0]`: the first branch node of that name, if any. */
  function FindBranch(files: seq<Node>, name: string): (r: Option<Node>)
    ensures r.None? <==> forall i :: 0 <= i < |files| ==> !IsBranchNamed(files[i], name)
    ensures r.Some? ==> exists i :: 0 <= i < |files| && files[i] == r.value && IsBranchNamed(r.value, name)
                                    && forall j :: 0 <= j < i ==> !IsBranchNamed(files[j], name)
  {
    if files == [] then None
    else if IsBranchNamed(files[0], name) then Some(files[0])
    else
      var r := FindBranch(files[1..], name);
      assert forall j :: 1 <= j < |files| ==> files[j] == files[1..][j - 1];
      if r.Some? then
        var i :| 0 <= i < |files[1..]| && files[1..][i] == r.value && IsBranchNamed(r.value, name)
                 && forall j :: 0 <= j < i ==> !IsBranchNamed(files[1..][j], name);
        assert files[i + 1] == r.value;
        r
      else r
  }

  /** What the command concluded; only `MissingTranslations` exits with code 1. */
  datatype Verdict =
    | MasterNotValidated
    | NoSuchBranch
    | NoNewPhrases
    | TranslationsReady
    | MissingTranslations
    | Crashed

  datatype Progress = Progress(requests: seq<Request>, verdict: Verdict)

  /** The checks on the branch found in the language status, in the source's order. */
  function BranchVerdict(found: Option<Node>): (v: Verdict)
    ensures v != MasterNotValidated && v != Crashed
  {
    match found
    case None => NoSuchBranch
    case Some(b) =>
      if b.phrases == 0 then NoNewPhrases
      else if b.translated == b.phrases then TranslationsReady
      else MissingTranslations
  }

  /**
   * `checkProgressOnBranch`. `sourceFiles` and `preTranslateReply` feed the
   * auto-translation on master; `statusFiles` is the reply's `files`
   * elsewhere. A crash of the auto-translation propagates, as it is awaited.
   */
  function CheckProgressOnBranch(cfg: Settings, crowdinBranch: string, sourceFiles: seq<string>,
                                 preTranslateReply: PreTranslateReply, statusFiles: seq<Node>): (r: Progress)
    ensures crowdinBranch == "master" ==>
              r.requests == TriggerAutoTranslation(cfg, "master", sourceFiles, preTranslateReply).requests
    ensures crowdinBranch != "master" ==> r.requests == [GetLanguageStatus(cfg)]
  {
    if crowdinBranch == "master" then
      var auto := TriggerAutoTranslation(cfg, crowdinBranch, sourceFiles, preTranslateReply);
      Progress(auto.requests, if auto.crashed then Crashed else MasterNotValidated)
    else
      Progress([GetLanguageStatus(cfg)], BranchVerdict(FindBranch(statusFiles, crowdinBranch)))
  }

  /**
   * The command fails exactly when the branch is not master, appears in the
   * language status, and its first entry has phrases that are not all
   * translated.
   */
  lemma FailsIffIncomplete(cfg: Settings, crowdinBranch: string, sourceFiles: seq<string>,
                           preTranslateReply: PreTranslateReply, statusFiles: seq<Node>)
    ensures CheckProgressOnBranch(cfg, crowdinBranch, sourceFiles, preTranslateReply, statusFiles).verdict == MissingTranslations
        <==> crowdinBranch != "master" &&
             exists i :: 0 <= i < |statusFiles| && IsBranchNamed(statusFiles[i], crowdinBranch)
                         && (forall j :: 0 <= j < i ==> !IsBranchNamed(statusFiles[j], crowdinBranch))
                         && statusFiles[i].phrases != 0 && statusFiles[i].translated != statusFiles[i].phrases
  {
    if crowdinBranch != "master" {
      var found := FindBranch(statusFiles, crowdinBranch);
      if exists i :: 0 <= i < |statusFiles| && IsBranchNamed(statusFiles[i], crowdinBranch)
                     && (forall j :: 0 <= j < i ==> !IsBranchNamed(statusFiles[j], crowdinBranch))
                     && statusFiles[i].phrases != 0 && statusFiles[i].translated != statusFiles[i].phrases {
        var i :| 0 <= i < |statusFiles| && IsBranchNamed(statusFiles[i], crowdinBranch)
                 && (forall j :: 0 <= j < i ==> !IsBranchNamed(statusFiles[j], crowdinBranch))
                 && statusFiles[i].phrases != 0 && statusFiles[i].translated != statusFiles[i].phrases;
        var k :| 0 <= k < |statusFiles| && statusFiles[k] == found.value && IsBranchNamed(found.value, crowdinBranch)
                 && forall j :: 0 <= j < k ==> !IsBranchNamed(statusFiles[j], crowdinBranch);
        assert k == i;
      }
    }
  }

  /** Master is never validated, so on master the command never fails. */
  lemma MasterNeverFails(cfg: Settings, sourceFiles: seq<string>, preTranslateReply: PreTranslateReply, statusFiles: seq<Node>)
    ensures var r := CheckProgressOnBranch(cfg, "master", sourceFiles, preTranslateReply, statusFiles);
            r.verdict != MissingTranslations
            && (r.verdict == Crashed <==> !cfg.disableAutoTranslation && preTranslateReply.Rejected?)
  {
  }

  /**
   * The test suite's first case: a branch listed with no phrases passes,
   * after one `language-status` request.
   */
  lemma NoPhrasesPasses(cfg: Settings, b: Node, sourceFiles: seq<string>, preTranslateReply: PreTranslateReply)
    requires b.nodeType == "branch" && b.name != "master" && b.phrases == 0
    ensures CheckProgressOnBranch(cfg, b.name, sourceFiles, preTranslateReply, [b])
         == Progress([GetLanguageStatus(cfg)], NoNewPhrases)
  {
  }
}
