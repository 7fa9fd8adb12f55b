/** Toggle configuration (`pipeline_config.py`): built-in defaults deep-merged
    with an optional JSON file, and key-path lookup with a default. */
module PipelineConfig {
  import opened Wrappers

  /** A JSON document; an object is a map from keys to documents. */
  datatype Json =
    | JNull
    | JBool(b: bool)
    | JNum(x: real)
    | JStr(s: string)
    | JArr(items: seq<Json>)
    | JObj(fields: map<string, Json>)

  /** The built-in defaults: three sections whose toggles are all off. */
  function Defaults(): Json {
    JObj(map[
      "pipeline" := JObj(map["debug_mode" := JBool(false), "cleanup_processed" := JBool(false)]),
      "etapa14" := JObj(map["usar_gemini_api" := JBool(false)]),
      "anvisa" := JObj(map["usar_mes_anterior" := JBool(false)])
    ])
  }

  /** `_deep_merge(base, override)`: keys of either side; where both sides
      hold an object the two are merged recursively, otherwise the override
      value wins and a key only the base has keeps its value. */
  function DeepMerge(base: map<string, Json>, over: map<string, Json>): (r: map<string, Json>)
    ensures r.Keys == base.Keys + over.Keys
    ensures forall k :: k in base && k !in over ==> r[k] == base[k]
    ensures forall k :: k in over && !(k in base && base[k].JObj? && over[k].JObj?) ==> r[k] == over[k]
    ensures forall k :: k in base && k in over && base[k].JObj? && over[k].JObj? ==> r[k].JObj?
    decreases JObj(over)
  {
    map k | k in base.Keys + over.Keys ::
      if k !in over then base[k]
      else if k in base && base[k].JObj? && over[k].JObj? then
        assert over[k] < JObj(over);
        JObj(DeepMerge(base[k].fields, over[k].fields))
      else over[k]
  }

  /** `get_toggle(*keys, default=default)` on a loaded configuration: walks
      the key path, answering `default` as soon as a key is missing or the
      current value is not an object. */
  function GetToggle(config: Json, keys: seq<string>, default: Json): (r: Json)
    ensures |keys| == 0 ==> r == config
    ensures |keys| > 0 && (!config.JObj? || keys[0] !in config.fields) ==> r == default
  {
    if |keys| == 0 then config
    else if !config.JObj? || keys[0] !in config.fields then default
    else GetToggle(config.fields[keys[0]], keys[1..], default)
  }

  /** The path exists: every step lands on an object holding the next key. */
  predicate HasPath(config: Json, keys: seq<string>) {
    |keys| == 0 || (config.JObj? && keys[0] in config.fields && HasPath(config.fields[keys[0]], keys[1..]))
  }

  /** A lookup along an existing path never answers the default, whatever it
      is; along a missing path it always does. */
  lemma {:induction false} GetToggleDefault(config: Json, keys: seq<string>, d1: Json, d2: Json)
    ensures HasPath(config, keys) ==> GetToggle(config, keys, d1) == GetToggle(config, keys, d2)
    ensures !HasPath(config, keys) ==> GetToggle(config, keys, d1) == d1
  {
    if |keys| > 0 && config.JObj? && keys[0] in config.fields {
      GetToggleDefault(config.fields[keys[0]], keys[1..], d1, d2);
    }
  }

  /** The override wins: a value the override file sets along a path is what
      the merged configuration answers there, unless that value is an object
      (objects are merged rather than replaced). */
  lemma {:induction false} OverrideWins(base: map<string, Json>, over: map<string, Json>, keys: seq<string>, d: Json)
    requires |keys| > 0 && HasPath(JObj(over), keys)
    requires !GetToggle(JObj(over), keys, d).JObj?
    ensures GetToggle(JObj(DeepMerge(base, over)), keys, d) == GetToggle(JObj(over), keys, d)
    decreases |keys|
  {
    var k := keys[0];
    var m := DeepMerge(base, over);
    if |keys| > 1 && k in base && base[k].JObj? && over[k].JObj? {
      OverrideWins(base[k].fields, over[k].fields, keys[1..], d);
      assert m[k] == JObj(DeepMerge(base[k].fields, over[k].fields));
    } else if |keys| == 1 {
      assert !over[k].JObj?;
    } else {
      assert m[k] == over[k];
    }
  }

  /** Merging a configuration with itself changes nothing. */
  lemma {:induction false} DeepMergeSelf(m: map<string, Json>)
    ensures DeepMerge(m, m) == m
    decreases JObj(m)
  {
    forall k | k in m && m[k].JObj?
      ensures DeepMerge(m[k].fields, m[k].fields) == m[k].fields
    {
      assert m[k] < JObj(m);
      DeepMergeSelf(m[k].fields);
    }
    var r := DeepMerge(m, m);
    forall k | k in m ensures r[k] == m[k] {
      if m[k].JObj? {
        assert r[k] == JObj(DeepMerge(m[k].fields, m[k].fields));
      }
    }
  }

  /** What reading `pipeline_config.json` can yield. */
  datatype ConfigFile =
    | Missing
    | Invalid                  // `json.JSONDecodeError`
    | Unreadable(why: string)  // any other error while opening or decoding
    | Parsed(doc: Json)

  /** `load_pipeline_config()`: the defaults, deep-merged with the file when
      it holds a JSON object. A missing file, invalid JSON or a non-object
      document yield the defaults; any other read error propagates. */
  function LoadPipelineConfig(file: ConfigFile): (r: Result<Json>)
    ensures file.Unreadable? <==> r.Err?
    ensures (file.Missing? || file.Invalid? || (file.Parsed? && !file.doc.JObj?)) ==> r == Ok(Defaults())
    ensures file.Parsed? && file.doc.JObj? ==>
              r.Ok? && r.value.JObj? && r.value.fields.Keys == Defaults().fields.Keys + file.doc.fields.Keys
  {
    match file
    case Missing => Ok(Defaults())
    case Invalid => Ok(Defaults())
    case Unreadable(why) => Err(LoadError(why))
    case Parsed(doc) =>
      if doc.JObj? then Ok(JObj(DeepMerge(Defaults().fields, doc.fields))) else Ok(Defaults())
  }

  /** With no usable file every toggle reads as off. */
  lemma DefaultsAllOff(file: ConfigFile, section: string, toggle: string)
    requires file.Missing? || file.Invalid? || (file.Parsed? && !file.doc.JObj?)
    ensures GetToggle(LoadPipelineConfig(file).value, [section, toggle], JBool(false)) == JBool(false)
  {
    var d := Defaults();
    if section in d.fields {
      assert d.fields[section].JObj?;
      assert forall t :: t in d.fields[section].fields ==> d.fields[section].fields[t] == JBool(false);
    }
  }
}
