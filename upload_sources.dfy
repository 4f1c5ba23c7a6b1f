/**
 * The `up` and `pre-push` commands (lib/commands/upload-sources.js): create
 * the Crowdin branch, then for every source file its directory and the file
 * itself (added to a new branch, updated in an existing one, added after all
 * when the update reports that the file is unknown), then auto-translation.
 */
module UploadSources {
  import opened Wrappers
  import opened Strings
  import opened Settings
  import opened CrowdinApi
  import opened AutoTranslate

  /**
   * `filePath.match(/(.+?)\/[^\/]+$/)[1]`: the text before the last `/`, when
   * a non-empty name follows it, starting after the last line terminator
   * before it (`.` does not cross lines); `None` when there is no match.
   */
  function DirName(path: string): (r: Option<string>)
    ensures '/' !in path ==> r.None?
    ensures r.Some? ==> r.value != [] && NoLineTerminators(r.value)
    ensures r.Some? ==> exists L :: 0 < L < |path| - 1 && path[L] == '/' && |r.value| <= L && path[L - |r.value|..L] == r.value
                                    && forall k :: L < k < |path| ==> path[k] != '/'
  {
    var L := LastIndexOf(path, '/');
    if L < 1 || L == |path| - 1 then None
    else
      var p := LastLineTerminator(path[..L]) + 1;
      if p < L then
        var d := path[p..L];
        assert forall k :: 0 <= k < |d| ==> d[k] == path[..L][p + k];
        assert |d| <= L && path[L - |d|..L] == d;
        Some(d)
      else None
  }

  /** A one-line path `dir/name` with a slash-free `name` lies in `dir`; no slash, no directory. */
  lemma DirNameOfPath(dir: string, name: string)
    requires dir != [] && NoLineTerminators(dir)
    requires name != [] && '/' !in name
    ensures DirName(dir + "/" + name) == Some(dir)
  {
    var path := dir + "/" + name;
    var L := |dir|;
    assert path[L] == '/';
    assert forall k :: L < k < |path| ==> path[k] == name[k - L - 1];
    assert LastIndexOf(path, '/') == L;
    assert path[..L] == dir;
    assert LastLineTerminator(dir) == -1;
    assert path[0..L] == dir;
  }

  /**
   * `_isEverySourceFileSameAsInMaster` as written: `files.every(f =>
   * changedFiles.indexOf(f) !== -1)`, true when EVERY file name occurs in the
   * output of `git diff --name-only`, that is when every file has changed.
   */
  predicate EveryFileListedAsChanged(files: seq<string>, diffOutput: string) {
    forall i :: 0 <= i < |files| ==> Contains(diffOutput, files[i])
  }

  /**
   * The test that the function's name, the message it guards and the
   * `pre-push` hook promise: no file name occurs in the diff.
   */
  predicate NoSourceFileInDiff(files: seq<string>, diffOutput: string) {
    forall i :: 0 <= i < |files| ==> !Contains(diffOutput, files[i])
  }

  /** The source as written skips the upload of a changed file, and uploads when nothing changed. */
  lemma SkipTestInverted(f: string)
    requires f != []
    ensures EveryFileListedAsChanged([f], f + "\n") && !NoSourceFileInDiff([f], f + "\n")
    ensures !EveryFileListedAsChanged([f], "") && NoSourceFileInDiff([f], "")
  {
    assert [f][0] == f;
    assert OccursAt(f + "\n", f, 0) by { assert (f + "\n")[..|f|] == f; }
    ContainsIff(f + "\n", f);
    ContainsIff("", f);
  }

  /**
   * For a non-empty file list the two tests never hold together: when every
   * name is found, the first one is, so not every name is absent.
   */
  lemma SkipTestsDisagree(files: seq<string>, diffOutput: string)
    requires files != []
    ensures !(EveryFileListedAsChanged(files, diffOutput) && NoSourceFileInDiff(files, diffOutput))
  {
    if EveryFileListedAsChanged(files, diffOutput) {
      assert Contains(diffOutput, files[0]);
    }
  }

  /** The intended test holds exactly when no source file name occurs anywhere in the diff. */
  lemma SkipIffNoFileChanged(files: seq<string>, diffOutput: string)
    ensures NoSourceFileInDiff(files, diffOutput)
        <==> forall i, p: nat :: 0 <= i < |files| ==> !OccursAt(diffOutput, files[i], p)
  {
    forall i | 0 <= i < |files| {
      ContainsIff(diffOutput, files[i]);
    }
  }

  /** The reply of the first upload call that means "file not found": error code 8. */
  predicate FileNotFound(reply: ApiReply) {
    reply.errorCode == Some(8)
  }

  /**
   * The requests for one file: its directory when it has one, then
   * `add-file` on a new branch or `update-file` on an existing one, then
   * `add-file` if that first call answered "file not found".
   */
  function FileRequests(cfg: Settings, branch: string, isNew: bool, path: string, firstReply: ApiReply): (r: seq<Request>)
    ensures 1 <= |r| <= 3
    ensures r[|r| - 1] == AddFile(cfg, path, branch) || r[|r| - 1] == UpdateFile(cfg, path, branch)
  {
    (match DirName(path) case Some(dir) => [AddDirectory(dir, branch)] case None => [])
    + [if isNew then AddFile(cfg, path, branch) else UpdateFile(cfg, path, branch)]
    + (if FileNotFound(firstReply) then [AddFile(cfg, path, branch)] else [])
  }

  /** The reply that decides whether the file counts as uploaded. */
  function FinalReply(firstReply: ApiReply, fallbackReply: ApiReply): ApiReply {
    if FileNotFound(firstReply) then fallbackReply else firstReply
  }

  /**
   * The rules for one file: `add-directory` comes first exactly when the
   * path has a directory, and only there; then one upload call, which is
   * `update-file` exactly when the branch already existed; then a second
   * `add-file` exactly when that call answered code 8, whose reply is then
   * the final one; otherwise the first reply is final.
   */
  lemma FileRequestsRules(cfg: Settings, branch: string, isNew: bool, path: string,
                          firstReply: ApiReply, fallbackReply: ApiReply)
    ensures var r := FileRequests(cfg, branch, isNew, path, firstReply);
            var k := if DirName(path).Some? then 1 else 0;
            && |r| == k + 1 + (if FileNotFound(firstReply) then 1 else 0)
            && (DirName(path).Some? ==> r[0] == AddDirectory(DirName(path).value, branch))
            && (forall j :: 0 <= j < |r| ==> (r[j].apiMethod == "add-directory" <==> j < k))
            && r[k] == (if isNew then AddFile(cfg, path, branch) else UpdateFile(cfg, path, branch))
            && (r[k].apiMethod == "update-file" <==> !isNew)
            && (FileNotFound(firstReply) ==> r[k + 1] == AddFile(cfg, path, branch))
    ensures FileNotFound(firstReply) ==> FinalReply(firstReply, fallbackReply) == fallbackReply
    ensures !FileNotFound(firstReply) ==> FinalReply(firstReply, fallbackReply) == firstReply
  {
  }

  function AllFileRequests(cfg: Settings, branch: string, isNew: bool, files: seq<string>,
                           firstReply: string -> ApiReply): seq<Request> {
    if files == [] then []
    else
      var last := files[|files| - 1];
      AllFileRequests(cfg, branch, isNew, files[..|files| - 1], firstReply)
      + FileRequests(cfg, branch, isNew, last, firstReply(last))
  }

  /** The files whose final reply has `success`, in order: those printed as uploaded. */
  function UploadedFiles(files: seq<string>, firstReply: string -> ApiReply, fallbackReply: string -> ApiReply)
    : seq<string> {
    if files == [] then []
    else
      var last := files[|files| - 1];
      UploadedFiles(files[..|files| - 1], firstReply, fallbackReply)
      + (if FinalReply(firstReply(last), fallbackReply(last)).success then [last] else [])
  }

  /** A file is reported as uploaded exactly when it is listed and its final reply succeeded. */
  lemma {:induction false} UploadedFilesIff(files: seq<string>, firstReply: string -> ApiReply,
                                            fallbackReply: string -> ApiReply, f: string)
    ensures f in UploadedFiles(files, firstReply, fallbackReply)
        <==> f in files && FinalReply(firstReply(f), fallbackReply(f)).success
  {
    if files != [] {
      var init, last := files[..|files| - 1], files[|files| - 1];
      UploadedFilesIff(init, firstReply, fallbackReply, f);
      assert files == init + [last];
    }
  }

  /** The number of files whose path has a directory. */
  function WithDirectory(files: seq<string>): nat {
    if files == [] then 0
    else WithDirectory(files[..|files| - 1]) + (if DirName(files[|files| - 1]).Some? then 1 else 0)
  }

  /** The number of files whose first upload call answers code 8. */
  function Retried(files: seq<string>, firstReply: string -> ApiReply): nat {
    if files == [] then 0
    else Retried(files[..|files| - 1], firstReply) + (if FileNotFound(firstReply(files[|files| - 1])) then 1 else 0)
  }

  /**
   * One first upload call per file, one `add-directory` per file with a
   * directory and one more `add-file` per file answered with code 8: between
   * one and three requests per file.
   */
  lemma {:induction false} AllFileRequestsCount(cfg: Settings, branch: string, isNew: bool, files: seq<string>,
                                                firstReply: string -> ApiReply)
    ensures |AllFileRequests(cfg, branch, isNew, files, firstReply)|
         == |files| + WithDirectory(files) + Retried(files, firstReply)
    ensures WithDirectory(files) <= |files| && Retried(files, firstReply) <= |files|
  {
    if files != [] {
      var last := files[|files| - 1];
      AllFileRequestsCount(cfg, branch, isNew, files[..|files| - 1], firstReply);
      FileRequestsRules(cfg, branch, isNew, last, firstReply(last), firstReply(last));
    }
  }

  /** The requests for two lists one after the other are those of the first list, then of the second. */
  lemma {:induction false} AllFileRequestsAppend(cfg: Settings, branch: string, isNew: bool,
                                                 a: seq<string>, b: seq<string>, firstReply: string -> ApiReply)
    ensures AllFileRequests(cfg, branch, isNew, a + b, firstReply)
         == AllFileRequests(cfg, branch, isNew, a, firstReply) + AllFileRequests(cfg, branch, isNew, b, firstReply)
  {
    if b == [] {
      assert a + b == a;
    } else {
      var init, ab, last := b[..|b| - 1], a + b, b[|b| - 1];
      assert ab[..|ab| - 1] == a + init && ab[|ab| - 1] == last;
      var block := FileRequests(cfg, branch, isNew, last, firstReply(last));
      AllFileRequestsLast(cfg, branch, isNew, ab, firstReply);
      AllFileRequestsLast(cfg, branch, isNew, b, firstReply);
      AllFileRequestsAppend(cfg, branch, isNew, a, init, firstReply);
      calc {
        AllFileRequests(cfg, branch, isNew, ab, firstReply);
        AllFileRequests(cfg, branch, isNew, a + init, firstReply) + block;
        AllFileRequests(cfg, branch, isNew, a, firstReply) + AllFileRequests(cfg, branch, isNew, init, firstReply) + block;
        { AppendAssociative(AllFileRequests(cfg, branch, isNew, a, firstReply),
                            AllFileRequests(cfg, branch, isNew, init, firstReply), block); }
        AllFileRequests(cfg, branch, isNew, a, firstReply) + (AllFileRequests(cfg, branch, isNew, init, firstReply) + block);
        AllFileRequests(cfg, branch, isNew, a, firstReply) + AllFileRequests(cfg, branch, isNew, b, firstReply);
      }
    }
  }

  lemma AppendAssociative(x: seq<Request>, y: seq<Request>, z: seq<Request>)
    ensures x + y + z == x + (y + z)
  {
  }

  /** The requests for a non-empty list end with its last file's. */
  lemma AllFileRequestsLast(cfg: Settings, branch: string, isNew: bool, files: seq<string>,
                            firstReply: string -> ApiReply)
    requires files != []
    ensures AllFileRequests(cfg, branch, isNew, files, firstReply)
         == AllFileRequests(cfg, branch, isNew, files[..|files| - 1], firstReply)
            + FileRequests(cfg, branch, isNew, files[|files| - 1], firstReply(files[|files| - 1]))
  {
  }

  /**
   * Each file's requests form one block, in the order of the list: those of
   * the files before it, then its own, then those of the files after it.
   */
  lemma FileBlock(cfg: Settings, branch: string, isNew: bool, files: seq<string>, i: nat,
                  firstReply: string -> ApiReply)
    requires i < |files|
    ensures AllFileRequests(cfg, branch, isNew, files, firstReply)
         == AllFileRequests(cfg, branch, isNew, files[..i], firstReply)
            + FileRequests(cfg, branch, isNew, files[i], firstReply(files[i]))
            + AllFileRequests(cfg, branch, isNew, files[i + 1..], firstReply)
  {
    assert files == files[..i] + [files[i]] + files[i + 1..];
    AllFileRequestsAppend(cfg, branch, isNew, files[..i] + [files[i]], files[i + 1..], firstReply);
    AllFileRequestsAppend(cfg, branch, isNew, files[..i], [files[i]], firstReply);
    SingleFile(cfg, branch, isNew, files[i], firstReply);
  }

  /** On a newly created branch no file is ever updated, only added. */
  lemma {:induction false} NewBranchNeverUpdates(cfg: Settings, branch: string, files: seq<string>,
                                                 firstReply: string -> ApiReply)
    ensures forall r :: r in AllFileRequests(cfg, branch, true, files, firstReply) ==> r.apiMethod != "update-file"
  {
    if files != [] {
      NewBranchNeverUpdates(cfg, branch, files[..|files| - 1], firstReply);
    }
  }

  lemma FilesStep(cfg: Settings, branch: string, isNew: bool, files: seq<string>, i: nat,
                  firstReply: string -> ApiReply, fallbackReply: string -> ApiReply)
    requires i < |files|
    ensures AllFileRequests(cfg, branch, isNew, files[..i + 1], firstReply)
         == AllFileRequests(cfg, branch, isNew, files[..i], firstReply)
            + FileRequests(cfg, branch, isNew, files[i], firstReply(files[i]))
    ensures UploadedFiles(files[..i + 1], firstReply, fallbackReply)
         == UploadedFiles(files[..i], firstReply, fallbackReply)
            + (if FinalReply(firstReply(files[i]), fallbackReply(files[i])).success then [files[i]] else [])
  {
    assert files[..i + 1][..i] == files[..i];
  }

  /**
   * The work for one file: its directory, the first upload call, and the
   * fallback `add-file` when that call reports code 8; `ok` is whether the
   * final reply has `success`.
   */
  method UploadFile(cfg: Settings, branch: string, isNew: bool, path: string,
                    firstReply: ApiReply, fallbackReply: ApiReply)
    returns (calls: seq<Request>, ok: bool)
    ensures calls == FileRequests(cfg, branch, isNew, path, firstReply)
    ensures ok == FinalReply(firstReply, fallbackReply).success
  {
    calls := [];
    match DirName(path) {
      case Some(dir) => calls := [AddDirectory(dir, branch)];
      case None =>
    }
    calls := calls + [if isNew then AddFile(cfg, path, branch) else UpdateFile(cfg, path, branch)];
    var response := firstReply;
    if firstReply.errorCode == Some(8) {
      calls := calls + [AddFile(cfg, path, branch)];
      response := fallbackReply;
    }
    ok := response.success;
  }

  /** The outcome of a run: skipped, or the requests, the uploaded files and the auto-translation. */
  datatype Upload = Skipped | Uploaded(requests: seq<Request>, uploaded: seq<string>, autoTranslation: AutoTranslation)

  /**
   * The outcome once the skip test has been evaluated: nothing, or the
   * branch, each file's requests in list order and the auto-translation,
   * with the files reported as uploaded.
   */
  function UploadPlan(cfg: Settings, branch: string, files: seq<string>, skip: bool, addBranchReply: ApiReply,
                      firstReply: string -> ApiReply, fallbackReply: string -> ApiReply,
                      preTranslateReply: PreTranslateReply): Upload {
    if skip then Skipped
    else
      var auto := TriggerAutoTranslation(cfg, branch, files, preTranslateReply);
      Uploaded([AddBranch(branch)] + AllFileRequests(cfg, branch, addBranchReply.success, files, firstReply)
               + auto.requests,
               UploadedFiles(files, firstReply, fallbackReply),
               auto)
  }

  /**
   * `uploadSources(shouldExitIfSourceFileWasNotChanged)`, with the skip test
   * as the code writes it. The replies are inputs: to `add-directory` for
   * the branch, to the first upload call of each file, to the fallback
   * `add-file`, and to `pre-translate`. The per-file calls run concurrently
   * in the source; here they are issued one file after the other.
   */
  method UploadSources(cfg: Settings, branch: string, files: seq<string>, skipIfUnchanged: bool,
                       diffOutput: string, addBranchReply: ApiReply,
                       firstReply: string -> ApiReply, fallbackReply: string -> ApiReply,
                       preTranslateReply: PreTranslateReply)
    returns (result: Upload)
    ensures result == UploadPlan(cfg, branch, files, skipIfUnchanged && EveryFileListedAsChanged(files, diffOutput),
                                 addBranchReply, firstReply, fallbackReply, preTranslateReply)
  {
    if skipIfUnchanged && EveryFileListedAsChanged(files, diffOutput) {
      return Skipped;
    }
    var isNew := addBranchReply.success;
    var fileCalls, uploaded := [], [];
    var i := 0;
    while i < |files|
      invariant 0 <= i <= |files|
      invariant fileCalls == AllFileRequests(cfg, branch, isNew, files[..i], firstReply)
      invariant uploaded == UploadedFiles(files[..i], firstReply, fallbackReply)
    {
      var path := files[i];
      FilesStep(cfg, branch, isNew, files, i, firstReply, fallbackReply);
      var calls, ok := UploadFile(cfg, branch, isNew, path, firstReply(path), fallbackReply(path));
      fileCalls := fileCalls + calls;
      if ok {
        uploaded := uploaded + [path];
      }
      i := i + 1;
    }
    assert files[..i] == files;
    var auto := TriggerAutoTranslation(cfg, branch, files, preTranslateReply);
    result := Uploaded([AddBranch(branch)] + fileCalls + auto.requests, uploaded, auto);
  }

  /**
   * `uploadSources` with the intended skip test: nothing is uploaded exactly
   * when skipping is asked for and no source file name occurs in the diff;
   * otherwise the upload is the one the code performs.
   */
  function IntendedUploadSources(cfg: Settings, branch: string, files: seq<string>, skipIfUnchanged: bool,
                                 diffOutput: string, addBranchReply: ApiReply,
                                 firstReply: string -> ApiReply, fallbackReply: string -> ApiReply,
                                 preTranslateReply: PreTranslateReply): (r: Upload)
    ensures r.Skipped? <==> skipIfUnchanged && forall i, p: nat :: 0 <= i < |files| ==> !OccursAt(diffOutput, files[i], p)
    ensures r.Uploaded? ==> r == UploadPlan(cfg, branch, files, false, addBranchReply, firstReply, fallbackReply,
                                            preTranslateReply)
  {
    SkipIffNoFileChanged(files, diffOutput);
    UploadPlan(cfg, branch, files, skipIfUnchanged && NoSourceFileInDiff(files, diffOutput),
               addBranchReply, firstReply, fallbackReply, preTranslateReply)
  }

  /**
   * The pre-push hook with one changed file: the code skips the upload and
   * the intended test uploads it; with an empty diff it is the other way.
   */
  lemma ChangedFileSkipped(cfg: Settings, branch: string, f: string, addBranchReply: ApiReply,
                           firstReply: string -> ApiReply, fallbackReply: string -> ApiReply,
                           preTranslateReply: PreTranslateReply)
    requires f != []
    ensures UploadPlan(cfg, branch, [f], true && EveryFileListedAsChanged([f], f + "\n"),
                       addBranchReply, firstReply, fallbackReply, preTranslateReply) == Skipped
    ensures IntendedUploadSources(cfg, branch, [f], true, f + "\n",
                                  addBranchReply, firstReply, fallbackReply, preTranslateReply).Uploaded?
    ensures UploadPlan(cfg, branch, [f], true && EveryFileListedAsChanged([f], ""),
                       addBranchReply, firstReply, fallbackReply, preTranslateReply).Uploaded?
    ensures IntendedUploadSources(cfg, branch, [f], true, "",
                                  addBranchReply, firstReply, fallbackReply, preTranslateReply) == Skipped
  {
    SkipTestInverted(f);
    SkipIffNoFileChanged([f], f + "\n");
    SkipIffNoFileChanged([f], "");
  }

  /**
   * The upload of the test suite: one file `dir/name` on a new branch is
   * `add-directory` for the branch, `add-directory` for `dir`, `add-file`,
   * and then `pre-translate`.
   */
  lemma SingleFileOnNewBranch(cfg: Settings, branch: string, dir: string, name: string,
                              firstReply: string -> ApiReply)
    requires dir != [] && NoLineTerminators(dir) && name != [] && '/' !in name
    requires !FileNotFound(firstReply(dir + "/" + name))
    ensures var path := dir + "/" + name;
            [AddBranch(branch)] + AllFileRequests(cfg, branch, true, [path], firstReply)
              == [AddBranch(branch), AddDirectory(dir, branch), AddFile(cfg, path, branch)]
  {
    var path := dir + "/" + name;
    NewFileInDirectory(cfg, branch, dir, name, firstReply(path));
    SingleFile(cfg, branch, true, path, firstReply);
  }

  /** A file `dir/name` on a new branch: the directory, then `add-file`. */
  lemma NewFileInDirectory(cfg: Settings, branch: string, dir: string, name: string, reply: ApiReply)
    requires dir != [] && NoLineTerminators(dir) && name != [] && '/' !in name
    requires !FileNotFound(reply)
    ensures var path := dir + "/" + name;
            FileRequests(cfg, branch, true, path, reply) == [AddDirectory(dir, branch), AddFile(cfg, path, branch)]
  {
    DirNameOfPath(dir, name);
    NewFileWithDirectory(cfg, branch, dir + "/" + name, dir, reply);
  }

  /** A new file whose path has directory `dir` asks for that directory, then `add-file`. */
  lemma NewFileWithDirectory(cfg: Settings, branch: string, path: string, dir: string, reply: ApiReply)
    requires DirName(path) == Some(dir) && !FileNotFound(reply)
    ensures FileRequests(cfg, branch, true, path, reply) == [AddDirectory(dir, branch), AddFile(cfg, path, branch)]
  {
  }

  /** A list of one file asks for that file's requests only. */
  lemma SingleFile(cfg: Settings, branch: string, isNew: bool, path: string, firstReply: string -> ApiReply)
    ensures AllFileRequests(cfg, branch, isNew, [path], firstReply) == FileRequests(cfg, branch, isNew, path, firstReply(path))
  {
    assert [path][..0] == [];
  }
}
