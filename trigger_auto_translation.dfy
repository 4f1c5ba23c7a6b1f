/**
 * The `auto-translate` command (lib/commands/trigger-auto-translation.js):
 * unless the configuration disables it, one `pre-translate` request for all
 * source files of the current branch, addressed as `<branch>/<file>`.
 */
module AutoTranslate {
  import opened Settings
  import opened CrowdinApi

  /** `files.map(fileName => crowdinBranchName + '/' + fileName)`. */
  function PrefixAll(branch: string, files: seq<string>): (r: seq<string>)
    ensures |r| == |files|
    ensures forall i :: 0 <= i < |files| ==> r[i] == branch + "/" + files[i]
  {
    seq(|files|, i requires 0 <= i < |files| => branch + "/" + files[i])
  }

  /** The branch prefix can be cut off again: each file path is recovered. */
  lemma PrefixAllStrip(branch: string, files: seq<string>)
    ensures var r := PrefixAll(branch, files);
            forall i :: 0 <= i < |files| ==> r[i][..|branch|] == branch && r[i][|branch|] == '/' && r[i][|branch| + 1..] == files[i]
  {
    var r := PrefixAll(branch, files);
    forall i | 0 <= i < |files|
      ensures r[i][..|branch|] == branch && r[i][|branch|] == '/' && r[i][|branch| + 1..] == files[i]
    {
      assert r[i] == branch + "/" + files[i];
    }
  }

  /** How the `pre-translate` call settles: a JSON reply, or a rejection. */
  datatype PreTranslateReply = Replied(reply: ApiReply) | Rejected

  /**
   * What a run did: the requests it issued, whether it printed the reply as an
   * error (`success` false), and whether it threw. A rejection reaches the
   * `catch` handler, whose message names `branch`, a variable that does not
   * exist there, so the handler itself throws.
   */
  datatype AutoTranslation = AutoTranslation(requests: seq<Request>, reportedFailure: bool, crashed: bool)

  function TriggerAutoTranslation(cfg: Settings, crowdinBranch: string, files: seq<string>, reply: PreTranslateReply)
    : (r: AutoTranslation)
    ensures cfg.disableAutoTranslation ==> r == AutoTranslation([], false, false)
    ensures !cfg.disableAutoTranslation ==> r.requests == [PreTranslate(cfg, PrefixAll(crowdinBranch, files))]
    ensures r.crashed <==> !cfg.disableAutoTranslation && reply.Rejected?
    ensures r.reportedFailure <==> !cfg.disableAutoTranslation && reply.Replied? && !reply.reply.success
    ensures !(r.crashed && r.reportedFailure)
  {
    if cfg.disableAutoTranslation then AutoTranslation([], false, false)
    else
      var req := PreTranslate(cfg, PrefixAll(crowdinBranch, files));
      match reply
      case Rejected => AutoTranslation([req], false, true)
      case Replied(json) => AutoTranslation([req], !json.success, false)
  }

  /**
   * The body of the request: after the key, `json` and the languages, one
   * `files[]` field per source file, holding `<branch>/<file>`, in order;
   * then translation memory, untranslated strings only, perfect matches only.
   */
  lemma TriggeredForm(cfg: Settings, crowdinBranch: string, files: seq<string>)
    ensures var form := Form(cfg.projectKey, PreTranslate(cfg, PrefixAll(crowdinBranch, files)).params);
            var k := 2 + |cfg.languagesToAutoTranslate|;
            |form| == k + |files| + 3
            && (forall i :: 0 <= i < |cfg.languagesToAutoTranslate| ==>
                  form[2 + i] == FormField("languages[]", Text(cfg.languagesToAutoTranslate[i])))
            && (forall i :: 0 <= i < |files| ==>
                  form[k + i] == FormField("files[]", Text(crowdinBranch + "/" + files[i])))
            && form[k + |files|..] == [ FormField("method", Text("tm")),
                                        FormField("apply_untranslated_strings_only", Number(1)),
                                        FormField("perfect_match", Number(1)) ]
  {
    var langs := cfg.languagesToAutoTranslate;
    var paths := PrefixAll(crowdinBranch, files);
    PreTranslateForm(cfg, paths);
    var head := [FormField("key", Text(cfg.projectKey)), FormField("json", Text(""))];
    var ls, fs := ArrayFields("languages", Texts(langs)), ArrayFields("files", Texts(paths));
    var tail := [ FormField("method", Text("tm")),
                  FormField("apply_untranslated_strings_only", Number(1)),
                  FormField("perfect_match", Number(1)) ];
    assert "languages" + "[]" == "languages[]" && "files" + "[]" == "files[]";
    PreTranslateLayout(Form(cfg.projectKey, PreTranslate(cfg, paths).params), head, ls, fs, tail,
                       langs, crowdinBranch, files);
  }

  /** Where the languages, the file paths and the closing fields of such a body lie. */
  lemma PreTranslateLayout(form: seq<FormField>, head: seq<FormField>, ls: seq<FormField>, fs: seq<FormField>,
                           tail: seq<FormField>, langs: seq<string>, crowdinBranch: string, files: seq<string>)
    requires form == head + ls + fs + tail && |head| == 2
    requires |ls| == |langs| && forall i :: 0 <= i < |langs| ==> ls[i] == FormField("languages[]", Text(langs[i]))
    requires |fs| == |files|
    requires forall i :: 0 <= i < |files| ==> fs[i] == FormField("files[]", Text(crowdinBranch + "/" + files[i]))
    ensures |form| == 2 + |langs| + |files| + |tail|
    ensures forall i :: 0 <= i < |langs| ==> form[2 + i] == FormField("languages[]", Text(langs[i]))
    ensures forall i :: 0 <= i < |files| ==>
              form[2 + |langs| + i] == FormField("files[]", Text(crowdinBranch + "/" + files[i]))
    ensures form[2 + |langs| + |files|..] == tail
  {
    Layout(form, head, ls, fs, tail);
  }

  /** Where the four parts of `head + ls + fs + tail` lie. */
  lemma Layout(form: seq<FormField>, head: seq<FormField>, ls: seq<FormField>, fs: seq<FormField>, tail: seq<FormField>)
    requires form == head + ls + fs + tail
    ensures |form| == |head| + |ls| + |fs| + |tail|
    ensures forall i :: 0 <= i < |ls| ==> form[|head| + i] == ls[i]
    ensures forall i :: 0 <= i < |fs| ==> form[|head| + |ls| + i] == fs[i]
    ensures form[|head| + |ls| + |fs|..] == tail
  {
  }
}
