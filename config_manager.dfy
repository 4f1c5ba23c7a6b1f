/**
 * The configuration manager (lib/utilities/config-manager.js): an object
 * whose `init` reads a configuration file, reports every missing required
 * property, and stores the settings with their defaults; `get` reads one.
 */
module ConfigManager {
  import opened Wrappers
  import opened Json
  import opened Strings
  import Config

  const DefaultPath: string := "crowdin-helper.json"

  /** The properties a configuration must define, in the order they are checked. */
  const RequiredProperties: seq<string> := ["projectId", "token", "source", "translation"]

  /** `pathToFile || 'crowdin-helper.json'`. */
  function ConfigPath(pathToFile: Option<string>): (r: string)
    ensures pathToFile.Some? && pathToFile.value != [] ==> r == pathToFile.value
    ensures pathToFile.None? || pathToFile.value == [] ==> r == DefaultPath
  {
    if pathToFile.Some? && pathToFile.value != [] then pathToFile.value else DefaultPath
  }

  /** `crowdinHelperJson[property]` on a parsed value that is not `null`. */
  function Property(json: Value, key: string): Option<Value>
    requires !json.Null?
  {
    if json.Object? then Get(json.fields, key) else None
  }

  /**
   * A property copied as it is. It is read only for required properties,
   * which are present whenever the settings are stored; `Null` fills the
   * absent case, which cannot arise there.
   */
  function Lookup(json: Value, key: string): Value
    requires !json.Null?
  {
    match Property(json, key)
    case Some(v) => v
    case None => Null
  }

  /** The required properties that are falsy, in order: one error line each. */
  function MissingProperties(json: Value, props: seq<string>): (r: seq<string>)
    requires !json.Null?
    ensures forall p :: p in r <==> p in props && !Truthy(Property(json, p))
  {
    if props == [] then []
    else
      var last := props[|props| - 1];
      MissingProperties(json, props[..|props| - 1])
      + (if Truthy(Property(json, last)) then [] else [last])
  }

  /** The stored settings, with the defaults `[]`, `[]`, `20` and `master`. */
  function StoredConfig(json: Value, source: string): (m: map<string, Value>)
    requires !json.Null?
    ensures m.Keys == {"projectId", "token", "sourceFilesPattern", "translationPattern", "languagesToCheck",
                       "languagesToAutoTranslate", "minutesSinceLastMasterMergeToPurgeSafely",
                       "disableAutoTranslation", "masterBranchName"}
  {
    map[
      "projectId" := Lookup(json, "projectId"),
      "token" := Lookup(json, "token"),
      "sourceFilesPattern" := Str(StripLeadingSlash(source)),
      "translationPattern" := Lookup(json, "translation"),
      "languagesToCheck" := Or(Property(json, "languagesToCheck"), Array([])),
      "languagesToAutoTranslate" := Or(Property(json, "languagesToAutoTranslate"), Array([])),
      "minutesSinceLastMasterMergeToPurgeSafely" := Or(Property(json, "minutesSinceLastMasterMergeToPurgeSafely"), Number(20)),
      "disableAutoTranslation" := Bool(Property(json, "disableAutoTranslation") == Some(Bool(true))),
      "masterBranchName" := Or(Property(json, "masterBranchName"), Str("master"))
    ]
  }

  /**
   * How `init` ended: settings stored; exit code 1 after the "invalid or
   * missing" message; or a throw when `source` is truthy but not a string.
   */
  datatype InitOutcome = Initialized | Exited | Crashed

  class ConfigManager {
    var config: map<string, Value>

    /** The object starts with an empty `_config`. */
    constructor ()
      ensures config == map[]
    {
      config := map[];
    }

    /**
     * `init(pathToFile)`, where `readFile` gives the file found at each path.
     * `missing` holds the required properties reported as missing. A file that
     * cannot be read or parsed, and the value `null`, exit at once, without
     * reporting any property.
     */
    method Init(pathToFile: Option<string>, readFile: string -> Config.ConfigFile)
      returns (outcome: InitOutcome, missing: seq<string>)
      modifies this
      ensures var file := readFile(ConfigPath(pathToFile));
              if !file.Parsed? || file.json.Null? then
                outcome == Exited && missing == [] && config == old(config)
              else
                var json := file.json;
                missing == MissingProperties(json, RequiredProperties)
                && (missing != [] ==> outcome == Exited && config == old(config))
                && (missing == [] && !Property(json, "source").value.Str? ==> outcome == Crashed && config == old(config))
                && (missing == [] && Property(json, "source").value.Str? ==>
                      outcome == Initialized && config == StoredConfig(json, Property(json, "source").value.s))
    {
      missing := [];
      var file := readFile(ConfigPath(pathToFile));
      if !file.Parsed? || file.json.Null? {
        return Exited, missing;
      }
      var json := file.json;
      var someAbsent := false;
      var i := 0;
      while i < |RequiredProperties|
        invariant 0 <= i <= |RequiredProperties|
        invariant missing == MissingProperties(json, RequiredProperties[..i])
        invariant someAbsent <==> missing != []
      {
        var property := RequiredProperties[i];
        assert RequiredProperties[..i + 1][..i] == RequiredProperties[..i];
        if !Truthy(Property(json, property)) {
          missing := missing + [property];
          someAbsent := true;
        }
        i := i + 1;
      }
      assert RequiredProperties[..i] == RequiredProperties;
      if someAbsent {
        return Exited, missing;
      }
      var source := Property(json, "source").value;
      if !source.Str? {
        return Crashed, missing;
      }
      config := StoredConfig(json, source.s);
      outcome := Initialized;
    }

    /** `get(propName)`: the stored value, `None` for `undefined`. */
    function Get(propName: string): (r: Option<Value>)
      reads this
      ensures r.Some? <==> propName in config
      ensures r.Some? ==> r.value == config[propName]
    {
      if propName in config then Some(config[propName]) else None
    }
  }

  /** An empty object reports all four required properties, as the test suite expects. */
  lemma EmptyReportsAll()
    ensures MissingProperties(Object(map[]), RequiredProperties) == RequiredProperties
  {
    AllFalsyAllReported(Object(map[]), RequiredProperties);
  }

  /** When every property is falsy, every one is reported, in order. */
  lemma {:induction false} AllFalsyAllReported(json: Value, props: seq<string>)
    requires !json.Null?
    requires forall i :: 0 <= i < |props| ==> !Truthy(Property(json, props[i]))
    ensures MissingProperties(json, props) == props
  {
    if props != [] {
      var init := props[..|props| - 1];
      AllFalsyAllReported(json, init);
      assert init + [props[|props| - 1]] == props;
    }
  }

  /** No property is reported exactly when the file defines all four required properties. */
  lemma NoneReportedIffComplete(json: Value)
    requires !json.Null?
    ensures MissingProperties(json, RequiredProperties) == []
        <==> forall p :: p in RequiredProperties ==> Truthy(Property(json, p))
  {
    var ms := MissingProperties(json, RequiredProperties);
    if ms != [] {
      assert ms[0] in ms;
    }
  }

  /**
   * The two loaders agree where they overlap: the same source pattern with
   * one leading `/` removed, and the same default of 20 minutes.
   */
  lemma AgreesWithConfigModule(fields: map<string, Value>, source: string)
    requires Get(fields, "source") == Some(Str(source))
    ensures var c := Config.LoadConfig(Config.Parsed(Object(fields)));
            var m := StoredConfig(Object(fields), source);
            c.Loaded?
            && m["sourceFilesPattern"] == Str(c.config.sourceFilesPattern)
            && m["minutesSinceLastMasterMergeToPurgeSafely"] == c.config.minutesSinceLastMasterMergeToPurgeSafely
  {
    var json := Object(fields);
    var minutes := Or(Property(json, "minutesSinceLastMasterMergeToPurgeSafely"), Number(20));
    var c := Config.LoadConfig(Config.Parsed(json));
    assert Config.Field(json, "source") == Some(Str(source));
    assert c.config.sourceFilesPattern == StripLeadingSlash(source);
    assert c.config.minutesSinceLastMasterMergeToPurgeSafely == minutes;
    StoredSourceAndMinutes(json, source);
  }

  lemma StoredSourceAndMinutes(json: Value, source: string)
    requires !json.Null?
    ensures var m := StoredConfig(json, source);
            m["sourceFilesPattern"] == Str(StripLeadingSlash(source))
            && m["minutesSinceLastMasterMergeToPurgeSafely"]
               == Or(Property(json, "minutesSinceLastMasterMergeToPurgeSafely"), Number(20))
  {
  }

  /**
   * After a successful `init`, the required properties are stored as they
   * are, the source pattern without its leading `/`, and auto-translation is
   * disabled only by the JSON value `true`.
   */
  lemma StoredCopies(json: Value, source: string)
    requires !json.Null?
    ensures var m := StoredConfig(json, source);
            && (Property(json, "projectId").Some? ==> m["projectId"] == Property(json, "projectId").value)
            && (Property(json, "token").Some? ==> m["token"] == Property(json, "token").value)
            && (Property(json, "translation").Some? ==> m["translationPattern"] == Property(json, "translation").value)
            && m["sourceFilesPattern"] == Str(StripLeadingSlash(source))
            && m["disableAutoTranslation"].Bool?
            && (m["disableAutoTranslation"] == Bool(true) <==> Property(json, "disableAutoTranslation") == Some(Bool(true)))
  {
  }

  /**
   * After a successful `init`, a truthy optional setting is kept, and a falsy
   * or absent one takes its default: `[]` for both language lists, `20`
   * minutes and `master`.
   */
  lemma StoredDefaults(json: Value, source: string)
    requires !json.Null?
    ensures var m := StoredConfig(json, source);
            && (Truthy(Property(json, "languagesToCheck")) ==> Some(m["languagesToCheck"]) == Property(json, "languagesToCheck"))
            && (!Truthy(Property(json, "languagesToCheck")) ==> m["languagesToCheck"] == Array([]))
            && (Truthy(Property(json, "languagesToAutoTranslate")) ==>
                  Some(m["languagesToAutoTranslate"]) == Property(json, "languagesToAutoTranslate"))
            && (!Truthy(Property(json, "languagesToAutoTranslate")) ==> m["languagesToAutoTranslate"] == Array([]))
            && (Truthy(Property(json, "minutesSinceLastMasterMergeToPurgeSafely")) ==>
                  Some(m["minutesSinceLastMasterMergeToPurgeSafely"]) == Property(json, "minutesSinceLastMasterMergeToPurgeSafely"))
            && (!Truthy(Property(json, "minutesSinceLastMasterMergeToPurgeSafely")) ==>
                  m["minutesSinceLastMasterMergeToPurgeSafely"] == Number(20))
            && (Truthy(Property(json, "masterBranchName")) ==> Some(m["masterBranchName"]) == Property(json, "masterBranchName"))
            && (!Truthy(Property(json, "masterBranchName")) ==> m["masterBranchName"] == Str("master"))
  {
  }
}
