/**
 * The `down` command (lib/commands/download-translations.js): unless forced,
 * check that the last master commit of every source file is merged into the
 * current branch; then upload the sources, build the Crowdin branch,
 * download its archive and write every file entry without the branch
 * folder at its front.
 */
module DownloadTranslations {
  import opened Strings
  import opened Settings
  import opened CrowdinApi
  import opened AutoTranslate
  import UploadSources

  // The merge check, over the output of `git log` and `git branch --contains`.

  /** `.replace(/"/g, '')` on `git log -1 --pretty=format:"%H"`: the hash without its quotes. */
  function CommitId(logOutput: string): (r: string)
    ensures '"' !in r
  {
    RemoveChars(logOutput, {'"'})
  }

  /** `.replace(/[\* ]/g, '').split('\n')`: the branch names of `git branch --contains`. */
  function BranchList(containsOutput: string): (r: seq<string>)
    ensures forall i :: 0 <= i < |r| ==> ' ' !in r[i] && '*' !in r[i] && '\n' !in r[i]
  {
    Split(RemoveChars(containsOutput, {'*', ' '}), '\n')
  }

  /**
   * `_isLastSourceFilesFromMasterMergedIntoCurrent`: for every source file,
   * the commit that last changed it on master is contained in a branch
   * listed under the git branch name. `logOutput` gives the `git log`
   * output per file and `containsOutput` the `git branch --contains`
   * output per commit.
   */
  predicate IsLastSourceFromMasterMerged(sourceFiles: seq<string>, gitBranch: string,
                                         logOutput: string -> string, containsOutput: string -> string) {
    forall i :: 0 <= i < |sourceFiles| ==>
      gitBranch in BranchList(containsOutput(CommitId(logOutput(sourceFiles[i]))))
  }

  /** With no source files there is nothing to check. */
  lemma NoSourcesMerged(gitBranch: string, logOutput: string -> string, containsOutput: string -> string)
    ensures IsLastSourceFromMasterMerged([], gitBranch, logOutput, containsOutput)
  {
  }

  /** A line of `git branch` output: the marker (`* ` or spaces), then the name. */
  predicate IsMarker(pad: string) {
    forall i :: 0 <= i < |pad| ==> pad[i] == ' ' || pad[i] == '*'
  }

  predicate IsCleanName(name: string) {
    ' ' !in name && '*' !in name && '\n' !in name
  }

  lemma {:induction false} RemoveCharsMarker(pad: string)
    requires IsMarker(pad)
    ensures RemoveChars(pad, {'*', ' '}) == []
  {
    if pad != [] {
      RemoveCharsMarker(pad[1..]);
    }
  }

  lemma CleanLine(pad: string, name: string)
    requires IsMarker(pad) && IsCleanName(name)
    ensures RemoveChars(pad + name, {'*', ' '}) == name
  {
    RemoveCharsAppend(pad, name, {'*', ' '});
    RemoveCharsMarker(pad);
    RemoveCharsAbsent(name, {'*', ' '});
  }

  /**
   * `git branch --contains` output, one marked name per line, with no newline
   * after the last line; `BranchListOfTerminatedOutput` covers the newline
   * git prints there.
   */
  function BranchOutput(pads: seq<string>, names: seq<string>): string
    requires |pads| == |names|
  {
    if names == [] then []
    else if |names| == 1 then pads[0] + names[0]
    else pads[0] + names[0] + "\n" + BranchOutput(pads[1..], names[1..])
  }

  /**
   * The branch names are read back exactly from well-formed `git branch`
   * output without a final newline, whatever the markers: the current-branch
   * star is dropped.
   */
  lemma {:induction false} BranchListOfOutput(pads: seq<string>, names: seq<string>)
    requires |pads| == |names| && names != []
    requires forall i :: 0 <= i < |pads| ==> IsMarker(pads[i])
    requires forall i :: 0 <= i < |names| ==> IsCleanName(names[i])
    ensures BranchList(BranchOutput(pads, names)) == names
  {
    CleanOutput(pads, names);
    forall i | 0 <= i < |names| ensures '\n' !in names[i] {
      assert IsCleanName(names[i]);
    }
    SplitJoin(names, '\n');
  }

  /**
   * Output as git prints it, with a newline after every line, reads back as
   * the names followed by one empty line.
   */
  lemma BranchListOfTerminatedOutput(pads: seq<string>, names: seq<string>)
    requires |pads| == |names| && names != []
    requires forall i :: 0 <= i < |pads| ==> IsMarker(pads[i])
    requires forall i :: 0 <= i < |names| ==> IsCleanName(names[i])
    ensures BranchList(BranchOutput(pads, names) + "\n") == names + [""]
  {
    CleanTerminatedOutput(pads, names);
    forall i | 0 <= i < |names + [""]| ensures '\n' !in (names + [""])[i] {
      if i < |names| {
        assert IsCleanName(names[i]);
      }
    }
    SplitJoin(names + [""], '\n');
  }

  /** Removing the markers from terminated output leaves the names and a final empty line. */
  lemma CleanTerminatedOutput(pads: seq<string>, names: seq<string>)
    requires |pads| == |names| && names != []
    requires forall i :: 0 <= i < |pads| ==> IsMarker(pads[i])
    requires forall i :: 0 <= i < |names| ==> IsCleanName(names[i])
    ensures RemoveChars(BranchOutput(pads, names) + "\n", {'*', ' '}) == Join(names + [""], '\n')
  {
    var out := BranchOutput(pads, names);
    CleanOutput(pads, names);
    RemoveCharsAround(out, '\n', "", {'*', ' '});
    assert out + "\n" == out + ['\n'] + "";
    JoinSnocEmpty(names, '\n');
  }

  /**
   * On newline-terminated output, a non-empty branch name is listed exactly
   * when it is one of the names; the empty name that `git rev-parse` prints
   * outside a repository is always listed.
   */
  lemma TerminatedOutputListed(pads: seq<string>, names: seq<string>, gitBranch: string)
    requires |pads| == |names| && names != []
    requires forall i :: 0 <= i < |pads| ==> IsMarker(pads[i])
    requires forall i :: 0 <= i < |names| ==> IsCleanName(names[i])
    ensures gitBranch != "" ==> (gitBranch in BranchList(BranchOutput(pads, names) + "\n") <==> gitBranch in names)
    ensures "" in BranchList(BranchOutput(pads, names) + "\n")
  {
    BranchListOfTerminatedOutput(pads, names);
  }

  /** Removing the markers leaves the names, one per line. */
  lemma {:induction false} CleanOutput(pads: seq<string>, names: seq<string>)
    requires |pads| == |names| && names != []
    requires forall i :: 0 <= i < |pads| ==> IsMarker(pads[i])
    requires forall i :: 0 <= i < |names| ==> IsCleanName(names[i])
    ensures RemoveChars(BranchOutput(pads, names), {'*', ' '}) == Join(names, '\n')
  {
    CleanLine(pads[0], names[0]);
    if |names| > 1 {
      assert forall i :: 0 <= i < |pads| - 1 ==> pads[1..][i] == pads[i + 1];
      assert forall i :: 0 <= i < |names| - 1 ==> names[1..][i] == names[i + 1];
      CleanOutput(pads[1..], names[1..]);
      RemoveCharsAround(pads[0] + names[0], '\n', BranchOutput(pads[1..], names[1..]), {'*', ' '});
    }
  }

  /**
   * The first test of the command: the hash's branches are `master` and
   * another feature branch, so the current feature branch is not merged.
   */
  lemma NotMergedWhenUnlisted(sourceFile: string, gitBranch: string, pads: seq<string>, names: seq<string>,
                              logOutput: string -> string, containsOutput: string -> string)
    requires |pads| == |names| && names != []
    requires forall i :: 0 <= i < |pads| ==> IsMarker(pads[i])
    requires forall i :: 0 <= i < |names| ==> IsCleanName(names[i])
    requires containsOutput(CommitId(logOutput(sourceFile))) == BranchOutput(pads, names)
    requires gitBranch !in names
    ensures !IsLastSourceFromMasterMerged([sourceFile], gitBranch, logOutput, containsOutput)
  {
    BranchListOfOutput(pads, names);
    assert [sourceFile][0] == sourceFile;
  }

  // Writing the archive.

  /** An archive entry: its type (`File`, `Directory`, ...) and its path. */
  datatype Entry = Entry(entryType: string, path: string)

  /** The local name of an entry: the branch name's first occurrence removed, then a leading `/`. */
  function OutputPath(entryPath: string, crowdinBranch: string): string {
    StripLeadingSlash(ReplaceFirst(entryPath, crowdinBranch, ""))
  }

  /** An entry under the branch folder is written at its path inside that folder. */
  lemma OutputPathInBranch(crowdinBranch: string, rest: string)
    ensures OutputPath(crowdinBranch + "/" + rest, crowdinBranch) == rest
  {
    var tail := "/" + rest;
    assert crowdinBranch + "/" + rest == crowdinBranch + tail;
    ReplaceFirstPrefix(crowdinBranch, tail);
    assert tail[0] == '/' && tail[1..] == rest;
  }

  /** What one entry writes: a `File` its output path, anything else nothing. */
  function EntryFiles(e: Entry, crowdinBranch: string): (r: seq<string>)
    ensures |r| <= 1
  {
    if e.entryType == "File" then [OutputPath(e.path, crowdinBranch)] else []
  }

  /** The files written for a list of entries, in order; other entries are drained. */
  function WrittenFiles(entries: seq<Entry>, crowdinBranch: string): (r: seq<string>)
    ensures |r| <= |entries|
  {
    if entries == [] then []
    else EntryFiles(entries[0], crowdinBranch) + WrittenFiles(entries[1..], crowdinBranch)
  }

  /** Exactly the `File` entries are written, each at its output path. */
  lemma {:induction false} WrittenFilesIff(entries: seq<Entry>, crowdinBranch: string, f: string)
    ensures f in WrittenFiles(entries, crowdinBranch)
        <==> exists i :: 0 <= i < |entries| && IsWrittenAs(entries[i], crowdinBranch, f)
  {
    if entries != [] {
      var rest := entries[1..];
      WrittenFilesIff(rest, crowdinBranch, f);
      if f in WrittenFiles(rest, crowdinBranch) {
        var i :| 0 <= i < |rest| && IsWrittenAs(rest[i], crowdinBranch, f);
        assert entries[i + 1] == rest[i];
      }
      if exists i :: 0 <= i < |entries| && IsWrittenAs(entries[i], crowdinBranch, f) {
        var i :| 0 <= i < |entries| && IsWrittenAs(entries[i], crowdinBranch, f);
        if i > 0 {
          assert rest[i - 1] == entries[i];
        }
      }
    }
  }

  /** The files of `a + b` are those of `a`, then those of `b`. */
  lemma {:induction false} WrittenFilesAppend(a: seq<Entry>, b: seq<Entry>, crowdinBranch: string)
    ensures WrittenFiles(a + b, crowdinBranch) == WrittenFiles(a, crowdinBranch) + WrittenFiles(b, crowdinBranch)
  {
    if a == [] {
      assert a + b == b;
    } else {
      assert (a + b)[0] == a[0] && (a + b)[1..] == a[1..] + b;
      WrittenFilesAppend(a[1..], b, crowdinBranch);
      var h := EntryFiles(a[0], crowdinBranch);
      assert WrittenFiles(a + b, crowdinBranch) == h + (WrittenFiles(a[1..], crowdinBranch) + WrittenFiles(b, crowdinBranch));
    }
  }

  /** One more entry at the end writes its file, if any, last. */
  lemma WrittenFilesSnoc(entries: seq<Entry>, e: Entry, crowdinBranch: string)
    ensures WrittenFiles(entries + [e], crowdinBranch) == WrittenFiles(entries, crowdinBranch) + EntryFiles(e, crowdinBranch)
  {
    WrittenFilesAppend(entries, [e], crowdinBranch);
    assert [e][1..] == [];
  }

  predicate IsWrittenAs(e: Entry, crowdinBranch: string, f: string) {
    e.entryType == "File" && OutputPath(e.path, crowdinBranch) == f
  }

  /**
   * The `entry` handler, once per entry the unzipper reports: a `File` is
   * written at its output path, anything else is drained.
   */
  method ExtractArchive(entries: seq<Entry>, crowdinBranch: string) returns (written: seq<string>)
    ensures written == WrittenFiles(entries, crowdinBranch)
  {
    written := [];
    var i := 0;
    while i < |entries|
      invariant 0 <= i <= |entries|
      invariant written == WrittenFiles(entries[..i], crowdinBranch)
    {
      var entry := entries[i];
      assert entries[..i + 1] == entries[..i] + [entry];
      WrittenFilesSnoc(entries[..i], entry, crowdinBranch);
      if entry.entryType == "File" {
        written := written + [OutputPath(entry.path, crowdinBranch)];
      }
      i := i + 1;
    }
    assert entries[..i] == entries;
  }

  // The command.

  /**
   * The downloaded archive: the entries read, and whether reading stopped on
   * a broken ZIP file, which is reported and otherwise ignored.
   */
  datatype Archive = Archive(entries: seq<Entry>, broken: bool)

  /**
   * `NotMerged`: exit code 1 before any request. `Crashed`: the awaited
   * upload threw. `Downloaded`: every request issued, the files written and
   * whether unzipping failed.
   */
  datatype Download =
    | NotMerged
    | Crashed(requests: seq<Request>)
    | Downloaded(requests: seq<Request>, written: seq<string>, unzipFailed: bool)

  /** The inputs of the upload that runs first: its replies and the source files. */
  datatype UploadReplies = UploadReplies(
    addBranchReply: ApiReply,
    firstReply: string -> ApiReply,
    fallbackReply: string -> ApiReply,
    preTranslateReply: PreTranslateReply)

  /** The upload as a value, with the skip test off, as `down` runs it. */
  function UploadStep(cfg: Settings, crowdinBranch: string, sourceFiles: seq<string>, replies: UploadReplies)
    : UploadSources.Upload {
    UploadSources.UploadPlan(cfg, crowdinBranch, sourceFiles, false, replies.addBranchReply,
                             replies.firstReply, replies.fallbackReply, replies.preTranslateReply)
  }

  /**
   * `downloadTranslations(shouldIgnoreUnmergedMaster)`: the merge gate, the
   * upload, then `export` and `download/all.zip` for the branch, then the
   * archive's files.
   */
  method DownloadTranslations(cfg: Settings, gitBranch: string, crowdinBranch: string, force: bool,
                              sourceFiles: seq<string>, logOutput: string -> string,
                              containsOutput: string -> string, replies: UploadReplies, archive: Archive)
    returns (result: Download)
    ensures !force && !IsLastSourceFromMasterMerged(sourceFiles, gitBranch, logOutput, containsOutput) ==>
              result == NotMerged
    ensures force || IsLastSourceFromMasterMerged(sourceFiles, gitBranch, logOutput, containsOutput) ==>
              var up := UploadStep(cfg, crowdinBranch, sourceFiles, replies);
              if up.autoTranslation.crashed then result == Crashed(up.requests)
              else result == Downloaded(
                     up.requests + [BuildBranch(crowdinBranch), GetAllTranslations(crowdinBranch)],
                     WrittenFiles(archive.entries, crowdinBranch),
                     archive.broken)
  {
    if !force && !IsLastSourceFromMasterMerged(sourceFiles, gitBranch, logOutput, containsOutput) {
      return NotMerged;
    }
    var up := UploadSources.UploadSources(cfg, crowdinBranch, sourceFiles, false, "",
                                          replies.addBranchReply, replies.firstReply,
                                          replies.fallbackReply, replies.preTranslateReply);
    if up.autoTranslation.crashed {
      return Crashed(up.requests);
    }
    var requests := up.requests + [BuildBranch(crowdinBranch), GetAllTranslations(crowdinBranch)];
    var written := ExtractArchive(archive.entries, crowdinBranch);
    result := Downloaded(requests, written, archive.broken);
  }

  /** When the download goes ahead, it starts by creating the branch and ends with the build and the archive. */
  lemma DownloadOrder(cfg: Settings, crowdinBranch: string, sourceFiles: seq<string>, replies: UploadReplies)
    requires !UploadStep(cfg, crowdinBranch, sourceFiles, replies).autoTranslation.crashed
    ensures var rs := UploadStep(cfg, crowdinBranch, sourceFiles, replies).requests
                      + [BuildBranch(crowdinBranch), GetAllTranslations(crowdinBranch)];
            |rs| >= 3 && rs[0] == AddBranch(crowdinBranch)
            && rs[|rs| - 2] == BuildBranch(crowdinBranch) && rs[|rs| - 1] == GetAllTranslations(crowdinBranch)
            && !rs[|rs| - 1].isJsonResponse
  {
  }
}
