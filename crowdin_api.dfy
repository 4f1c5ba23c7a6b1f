/**
 * The Crowdin API client (lib/utilities/crowdin-api.js): the table of API
 * methods the commands call, and `_crowdinFetch`, which turns a method and
 * its parameters into a POST request whose body is a list of form fields.
 * Requests are values; the commands append them to a call trace.
 */
module CrowdinApi {
  import opened Wrappers
  import opened Settings

  /** A single form value: text, a number, or a read stream of a local file. */
  datatype Scalar = Text(text: string) | Number(n: int) | Stream(path: string)

  /** A parameter value: a scalar, or an array that expands to one field per element. */
  datatype ParamValue = One(v: Scalar) | Many(vs: seq<Scalar>)

  /** One entry of `rawParams`, in insertion order. */
  datatype Param = Param(key: string, value: ParamValue)

  /** A call `_crowdinFetch(apiMethod, rawParams, isJsonResponse)`. */
  datatype Request = Request(apiMethod: string, params: seq<Param>, isJsonResponse: bool)

  /** One `formData.append(name, value)`. */
  datatype FormField = FormField(name: string, value: Scalar)

  /** What `fetch` is given. */
  datatype HttpRequest = HttpRequest(verb: string, url: string, body: seq<FormField>)

  /** The part of a JSON reply the commands look at: `success` and `error.code`. */
  datatype ApiReply = ApiReply(success: bool, errorCode: Option<int>)

  /**
   * A node of the project tree that `info` and `language-status` return:
   * `node_type`, `name`, a file's `last_updated` (milliseconds since the
   * epoch), a branch's `phrases` and `translated` counts, and the children.
   */
  datatype Node = Node(
    nodeType: string,
    name: string,
    lastUpdated: int,
    phrases: int,
    translated: int,
    files: seq<Node>)

  // The API methods, as the static methods of `CrowdinApi` define them.

  function BuildBranch(branch: string): Request {
    Request("export", [Param("branch", One(Text(branch)))], true)
  }

  function GetAllTranslations(branch: string): Request {
    Request("download/all.zip", [Param("branch", One(Text(branch)))], false)
  }

  function AddBranch(branch: string): Request {
    Request("add-directory", [Param("name", One(Text(branch))), Param("is_branch", One(Text("1")))], true)
  }

  function DeleteBranch(branch: string): Request {
    Request("delete-directory", [Param("name", One(Text(branch)))], true)
  }

  function AddDirectory(name: string, branch: string): Request {
    Request("add-directory",
      [Param("name", One(Text(name))), Param("branch", One(Text(branch))), Param("recursive", One(Text("1")))],
      true)
  }

  /** The parameters `add-file` and `update-file` share: the file's stream under `files[path]`. */
  function FileParams(cfg: Settings, path: string, branch: string): seq<Param> {
    [ Param("files[" + path + "]", One(Stream(path))),
      Param("export_patterns[" + path + "]", One(Text(cfg.translationPattern))),
      Param("branch", One(Text(branch))) ]
  }

  function AddFile(cfg: Settings, path: string, branch: string): Request {
    Request("add-file", FileParams(cfg, path, branch), true)
  }

  function UpdateFile(cfg: Settings, path: string, branch: string): Request {
    Request("update-file", FileParams(cfg, path, branch), true)
  }

  function GetLanguageStatus(cfg: Settings): Request {
    Request("language-status", [Param("language", One(Text(cfg.languageToCheck)))], true)
  }

  function Texts(ss: seq<string>): (r: seq<Scalar>)
    ensures |r| == |ss| && forall i :: 0 <= i < |ss| ==> r[i] == Text(ss[i])
  {
    if ss == [] then [] else [Text(ss[0])] + Texts(ss[1..])
  }

  /** Pre-translation from translation memory, untranslated strings only, perfect matches only. */
  function PreTranslate(cfg: Settings, files: seq<string>): Request {
    Request("pre-translate",
      [ Param("languages", Many(Texts(cfg.languagesToAutoTranslate))),
        Param("files", Many(Texts(files))),
        Param("method", One(Text("tm"))),
        Param("apply_untranslated_strings_only", One(Number(1))),
        Param("perfect_match", One(Number(1))) ],
      true)
  }

  function GetInfo(): Request {
    Request("info", [], true)
  }

  // The form body of `_crowdinFetch`.

  /** The fields one array parameter expands to: `name[]` once per element, in order. */
  function ArrayFields(name: string, vs: seq<Scalar>): (r: seq<FormField>)
    ensures |r| == |vs|
    ensures forall i :: 0 <= i < |vs| ==> r[i] == FormField(name + "[]", vs[i])
  {
    seq(|vs|, i requires 0 <= i < |vs| => FormField(name + "[]", vs[i]))
  }

  /** The fields one parameter contributes. */
  function ParamFields(p: Param): seq<FormField> {
    match p.value
    case One(v) => [FormField(p.key, v)]
    case Many(vs) => ArrayFields(p.key, vs)
  }

  /** The fields all parameters contribute, in order. */
  function AllParamFields(params: seq<Param>): seq<FormField> {
    if params == [] then [] else ParamFields(params[0]) + AllParamFields(params[1..])
  }

  /** The whole body: `key`, then an empty `json`, then the parameters' fields. */
  function Form(projectKey: string, params: seq<Param>): seq<FormField> {
    [FormField("key", Text(projectKey)), FormField("json", Text(""))] + AllParamFields(params)
  }

  /** How many fields a parameter contributes: the array's length, or one. */
  function Width(p: Param): nat {
    match p.value
    case One(_) => 1
    case Many(vs) => |vs|
  }

  function TotalWidth(params: seq<Param>): nat {
    if params == [] then 0 else Width(params[0]) + TotalWidth(params[1..])
  }

  /**
   * The body always starts with the project key and an empty `json`, and it
   * has two fields more than the parameters' widths add up to.
   */
  lemma {:induction false} FormShape(projectKey: string, params: seq<Param>)
    ensures |Form(projectKey, params)| == 2 + TotalWidth(params)
    ensures Form(projectKey, params)[0] == FormField("key", Text(projectKey))
    ensures Form(projectKey, params)[1] == FormField("json", Text(""))
  {
    AllParamFieldsWidth(params);
  }

  lemma {:induction false} AllParamFieldsWidth(params: seq<Param>)
    ensures |AllParamFields(params)| == TotalWidth(params)
  {
    if params != [] {
      AllParamFieldsWidth(params[1..]);
    }
  }

  lemma {:induction false} AllParamFieldsAppend(a: seq<Param>, b: seq<Param>)
    ensures AllParamFields(a + b) == AllParamFields(a) + AllParamFields(b)
  {
    if a == [] {
      assert a + b == b;
    } else {
      assert (a + b)[0] == a[0] && (a + b)[1..] == a[1..] + b;
      AllParamFieldsAppend(a[1..], b);
    }
  }

  /** Adding one parameter at the end adds its fields at the end. */
  lemma AllParamFieldsSnoc(ps: seq<Param>, p: Param)
    ensures AllParamFields(ps + [p]) == AllParamFields(ps) + ParamFields(p)
  {
    AllParamFieldsAppend(ps, [p]);
    assert [p][1..] == [];
  }

  /**
   * The fields of parameter `j` sit right after those of the parameters
   * before it, at offset `2 + TotalWidth(params[..j])` of the body.
   */
  lemma ParamFieldsAt(projectKey: string, params: seq<Param>, j: nat)
    requires j < |params|
    ensures var start := 2 + TotalWidth(params[..j]);
            var fs := ParamFields(params[j]);
            start + |fs| <= |Form(projectKey, params)| &&
            Form(projectKey, params)[start..start + |fs|] == fs
  {
    var before, p, after := params[..j], params[j], params[j + 1..];
    var from := [p] + after;
    assert params == before + from;
    assert from[0] == p && from[1..] == after;
    AllParamFieldsAppend(before, from);
    AllParamFieldsWidth(before);
    var key := [FormField("key", Text(projectKey)), FormField("json", Text(""))];
    var fs, rest := ParamFields(p), AllParamFields(after);
    assert AllParamFields(from) == fs + rest;
    SliceMiddle(key, AllParamFields(before), fs, rest);
  }

  /** The middle part of `x + (w + (y + z))` is `y`, right after `x + w`. */
  lemma SliceMiddle(x: seq<FormField>, w: seq<FormField>, y: seq<FormField>, z: seq<FormField>)
    ensures var s := x + (w + (y + z));
            |x + w| + |y| <= |s| && s[|x + w|..|x + w| + |y|] == y
  {
    assert x + (w + (y + z)) == ((x + w) + y) + z;
  }

  /**
   * `_crowdinFetch`'s loop: append `key` and `json`, then for each parameter
   * either one field or, for an array, one `name[]` field per element.
   */
  method BuildForm(projectKey: string, params: seq<Param>) returns (form: seq<FormField>)
    ensures form == Form(projectKey, params)
  {
    form := [FormField("key", Text(projectKey))];
    form := form + [FormField("json", Text(""))];
    var i := 0;
    while i < |params|
      invariant 0 <= i <= |params|
      invariant form == Form(projectKey, params[..i])
    {
      var p := params[i];
      FormSnoc(projectKey, params[..i], p);
      match p.value {
        case One(v) =>
          form := form + [FormField(p.key, v)];
        case Many(vs) =>
          form := AppendArray(form, p.key, vs);
      }
      assert params[..i + 1] == params[..i] + [p];
      i := i + 1;
    }
    assert params[..i] == params;
  }

  /** The inner loop of `_crowdinFetch`: one `name[]` field per array element, in order. */
  method AppendArray(form: seq<FormField>, name: string, vs: seq<Scalar>) returns (r: seq<FormField>)
    ensures r == form + ArrayFields(name, vs)
  {
    r := form;
    var k := 0;
    while k < |vs|
      invariant 0 <= k <= |vs|
      invariant r == form + ArrayFields(name, vs[..k])
    {
      r := r + [FormField(name + "[]", vs[k])];
      k := k + 1;
    }
    assert vs[..k] == vs;
  }

  /** One more parameter appends its fields to the body. */
  lemma FormSnoc(projectKey: string, ps: seq<Param>, p: Param)
    ensures Form(projectKey, ps + [p]) == Form(projectKey, ps) + ParamFields(p)
  {
    AllParamFieldsSnoc(ps, p);
  }

  /** The endpoint URL for a project and an API method. */
  function Url(projectIdentifier: string, apiMethod: string): string {
    "https://api.crowdin.com/api/project/" + projectIdentifier + "/" + apiMethod
  }

  /** The request `_crowdinFetch` hands to `fetch`: always a POST to the method's URL. */
  method Fetch(cfg: Settings, req: Request) returns (http: HttpRequest)
    ensures http.verb == "POST"
    ensures http.url == Url(cfg.projectIdentifier, req.apiMethod)
    ensures http.body == Form(cfg.projectKey, req.params)
  {
    var body := BuildForm(cfg.projectKey, req.params);
    http := HttpRequest("POST", Url(cfg.projectIdentifier, req.apiMethod), body);
  }

  /** An HTTP response: the status and the raw body. */
  datatype HttpResponse = HttpResponse(status: int, body: string)

  /** What `_crowdinFetch` resolves to: the body to be parsed as JSON, or the response itself. */
  datatype FetchResult = JsonBody(text: string) | RawResponse(response: HttpResponse)

  function Resolve(isJsonResponse: bool, response: HttpResponse): (r: FetchResult)
    ensures r.RawResponse? <==> !isJsonResponse
    ensures r.RawResponse? ==> r.response == response
    ensures r.JsonBody? ==> r.text == response.body
  {
    if isJsonResponse then JsonBody(response.body) else RawResponse(response)
  }

  /** Of all API methods the helper calls, only the archive download is read raw. */
  lemma OnlyDownloadIsRaw(cfg: Settings, branch: string, name: string, path: string, files: seq<string>)
    ensures !GetAllTranslations(branch).isJsonResponse
    ensures BuildBranch(branch).isJsonResponse && AddBranch(branch).isJsonResponse
    ensures DeleteBranch(branch).isJsonResponse && AddDirectory(name, branch).isJsonResponse
    ensures AddFile(cfg, path, branch).isJsonResponse && UpdateFile(cfg, path, branch).isJsonResponse
    ensures GetLanguageStatus(cfg).isJsonResponse && PreTranslate(cfg, files).isJsonResponse
    ensures GetInfo().isJsonResponse
  {
  }

  /**
   * The body of a pre-translate request: the languages as `languages[]`,
   * then the files as `files[]`, then `method`, `apply_untranslated_strings_only`
   * and `perfect_match`.
   */
  lemma PreTranslateForm(cfg: Settings, files: seq<string>)
    ensures var langs := cfg.languagesToAutoTranslate;
            Form(cfg.projectKey, PreTranslate(cfg, files).params) ==
              [FormField("key", Text(cfg.projectKey)), FormField("json", Text(""))]
              + ArrayFields("languages", Texts(langs))
              + ArrayFields("files", Texts(files))
              + [ FormField("method", Text("tm")),
                  FormField("apply_untranslated_strings_only", Number(1)),
                  FormField("perfect_match", Number(1)) ]
  {
    var ps := PreTranslate(cfg, files).params;
    var p0, p1, p2, p3, p4 := ps[0], ps[1], ps[2], ps[3], ps[4];
    var q1 := [p0];
    var q2 := q1 + [p1];
    var q3 := q2 + [p2];
    var q4 := q3 + [p3];
    var q5 := q4 + [p4];
    assert ps == q5;
    assert AllParamFields(q1) == ParamFields(p0) by { assert q1[1..] == []; }
    AllParamFieldsSnoc(q1, p1);
    AllParamFieldsSnoc(q2, p2);
    AllParamFieldsSnoc(q3, p3);
    AllParamFieldsSnoc(q4, p4);
    var head := [FormField("key", Text(cfg.projectKey)), FormField("json", Text(""))];
    Regroup(head, ParamFields(p0), ParamFields(p1), ParamFields(p2), ParamFields(p3), ParamFields(p4));
  }

  lemma Regroup(x: seq<FormField>, a: seq<FormField>, b: seq<FormField>,
                c: seq<FormField>, d: seq<FormField>, e: seq<FormField>)
    ensures x + ((((a + b) + c) + d) + e) == ((x + a) + b) + (c + d + e)
  {
  }
}
