/**
 * The configuration loader lib/config.js: it reads `crowdin-helper.json`
 * once, at load time, and fills in defaults with `||`.
 */
module Config {
  import opened Wrappers
  import opened Json
  import opened Strings

  /** What reading the file gives: no file, text that is not JSON, or a parsed value. */
  datatype ConfigFile = NoFile | Unparsable | Parsed(json: Value)

  /** `value[key]` on a value that is not `null` (a property of a primitive or array is `undefined` here). */
  function Field(v: Value, key: string): Option<Value>
    requires !v.Null?
  {
    if v.Object? then Get(v.fields, key) else None
  }

  /** The exported configuration; `None` stands for a field the file does not define. */
  datatype Config = Config(
    projectIdentifier: Option<Value>,
    projectKey: Option<Value>,
    sourceFilesPattern: string,
    translationPattern: Option<Value>,
    languageToCheck: Value,
    languagesToAutoTranslate: Value,
    daysSinceLastUpdatedToDeleteBranchSafely: Value,
    minutesSinceLastMasterMergeToPurgeSafely: Value,
    disableAutoTranslation: bool)

  /**
   * Why loading failed. The messages of the first two name a colour constant
   * that this file never defines, so both throw a `ReferenceError` instead of
   * exiting with code 1. A `null` file throws on the first property read, and
   * a `source` that is not a string throws on `replace`.
   */
  datatype LoadError = MissingFile | InvalidFile | NullConfig | SourceNotAString

  datatype LoadResult = Loaded(config: Config) | Failed(error: LoadError)

  function LoadConfig(file: ConfigFile): (r: LoadResult)
    ensures file.NoFile? ==> r == Failed(MissingFile)
    ensures file.Unparsable? ==> r == Failed(InvalidFile)
    ensures r.Loaded? <==> file.Parsed? && !file.json.Null? && Field(file.json, "source").Some?
                           && Field(file.json, "source").value.Str?
    ensures r.Loaded? ==> r.config.projectIdentifier == Field(file.json, "projectIdentifier")
                          && r.config.projectKey == Field(file.json, "projectKey")
                          && r.config.translationPattern == Field(file.json, "translation")
    ensures r.Loaded? ==> "/" + r.config.sourceFilesPattern == Field(file.json, "source").value.s
                          || r.config.sourceFilesPattern == Field(file.json, "source").value.s
  {
    match file
    case NoFile => Failed(MissingFile)
    case Unparsable => Failed(InvalidFile)
    case Parsed(json) =>
      if json.Null? then Failed(NullConfig)
      else
        var source := Field(json, "source");
        if source.None? || !source.value.Str? then Failed(SourceNotAString)
        else Loaded(Config(
          Field(json, "projectIdentifier"),
          Field(json, "projectKey"),
          StripLeadingSlash(source.value.s),
          Field(json, "translation"),
          Or(Field(json, "languageToCheck"), Str("nl")),
          Or(Field(json, "languagesToAutoTranslate"), Array([Str("nl")])),
          Or(Field(json, "daysSinceLastUpdatedToDeleteBranchSafely"), Number(3)),
          Or(Field(json, "minutesSinceLastMasterMergeToPurgeSafely"), Number(20)),
          Field(json, "disableAutoTranslation") == Some(Bool(true))))
  }

  /**
   * A file holding only `source` gets every default: check `nl`,
   * auto-translate into `nl`, delete after 3 days, purge 20 minutes after
   * the last merge, auto-translation on.
   */
  lemma Defaults(source: string)
    ensures var r := LoadConfig(Parsed(Object(map["source" := Str(source)])));
            r.Loaded? && r.config.languageToCheck == Str("nl")
            && r.config.languagesToAutoTranslate == Array([Str("nl")])
            && r.config.daysSinceLastUpdatedToDeleteBranchSafely == Number(3)
            && r.config.minutesSinceLastMasterMergeToPurgeSafely == Number(20)
            && !r.config.disableAutoTranslation
            && r.config.projectIdentifier.None? && r.config.projectKey.None?
  {
  }

  /** The defaults come from `||`, so a configured `0`, `""` or `false` is replaced as well. */
  lemma FalsyMeansDefault(fields: map<string, Value>)
    requires "source" in fields && fields["source"].Str?
    requires Get(fields, "minutesSinceLastMasterMergeToPurgeSafely") == Some(Number(0))
    requires Get(fields, "languageToCheck") == Some(Str(""))
    ensures var r := LoadConfig(Parsed(Object(fields)));
            r.Loaded? && r.config.minutesSinceLastMasterMergeToPurgeSafely == Number(20)
            && r.config.languageToCheck == Str("nl")
  {
  }

  /** Truthy settings are taken as they are. */
  lemma TruthyIsKept(fields: map<string, Value>, key: string)
    requires "source" in fields && fields["source"].Str?
    requires key in fields && Truthy(Some(fields[key]))
    ensures var c := LoadConfig(Parsed(Object(fields))).config;
            (key == "languageToCheck" ==> c.languageToCheck == fields[key])
            && (key == "languagesToAutoTranslate" ==> c.languagesToAutoTranslate == fields[key])
            && (key == "daysSinceLastUpdatedToDeleteBranchSafely" ==> c.daysSinceLastUpdatedToDeleteBranchSafely == fields[key])
            && (key == "minutesSinceLastMasterMergeToPurgeSafely" ==> c.minutesSinceLastMasterMergeToPurgeSafely == fields[key])
  {
  }

  /** Auto-translation is disabled only by the JSON value `true`, not by `"true"` or `1`. */
  lemma DisabledOnlyByTrue(fields: map<string, Value>)
    requires "source" in fields && fields["source"].Str?
    ensures LoadConfig(Parsed(Object(fields))).config.disableAutoTranslation
        <==> "disableAutoTranslation" in fields && fields["disableAutoTranslation"] == Bool(true)
  {
  }

  // The source pattern loses one leading `/`, so that `/**/en.json` becomes `**/en.json`.
  lemma SourcePatternRelative(fields: map<string, Value>, pattern: string)
    requires Get(fields, "source") == Some(Str("/" + pattern))
    ensures LoadConfig(Parsed(Object(fields))).config.sourceFilesPattern == pattern
  {
    assert ("/" + pattern)[1..] == pattern;
  }
}
