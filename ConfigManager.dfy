/**
 * The local configuration manager (`config_manager.py`): the defaults, the
 * merge of the user's file over them, the typed conversion `set` applies,
 * and the masking of `bridge_key` for display. The file's contents are an
 * input (missing, unreadable, or a parsed JSON object) and what `set` saves
 * is an output.
 */
module ConfigManager {

  import opened Wrappers
  import opened Text

  /** A JSON value as stored in the configuration. */
  datatype Value = Str(s: string) | Int(i: int) | Bool(b: bool)

  type Config = map<string, Value>

  /** What reading `config.json` gives. */
  datatype ConfigFile = Missing | Unreadable | Parsed(user: Config)

  /** Python truthiness of a stored value. */
  predicate Truthy(v: Value) {
    match v
    case Str(s) => s != ""
    case Int(i) => i != 0
    case Bool(b) => b
  }

  /** `f"{v}"`. */
  function Render(v: Value): string {
    match v
    case Str(s) => s
    case Int(i) => IntToString(i)
    case Bool(b) => if b then "True" else "False"
  }

  /** `DEFAULT_CONFIG`; `modelsDir` is `~/.priority-living/models` on this machine. */
  function DefaultConfig(modelsDir: string): Config {
    map[
      "bridge_key" := Str(""),
      "backend_url" := Str(""),
      "anon_key" := Str(""),
      "default_model_path" := Str(modelsDir),
      "poll_interval" := Int(3),
      "auto_restart" := Bool(true),
      "machine_name" := Str("")
    ]
  }

  /**
   * `load_config`: a copy of the defaults when the file is missing or cannot
   * be read; otherwise the user's entries over the defaults.
   */
  function LoadConfig(file: ConfigFile, modelsDir: string): (c: Config)
    ensures !file.Parsed? ==> c == DefaultConfig(modelsDir)
    ensures file.Parsed? ==> c.Keys == DefaultConfig(modelsDir).Keys + file.user.Keys
    ensures file.Parsed? ==> forall k :: k in file.user ==> c[k] == file.user[k]
    ensures file.Parsed? ==> forall k :: k in DefaultConfig(modelsDir) && k !in file.user ==> c[k] == DefaultConfig(modelsDir)[k]
  {
    match file
    case Parsed(user) => DefaultConfig(modelsDir) + user
    case _ => DefaultConfig(modelsDir)
  }

  /** Every default key is present in a loaded configuration. */
  lemma LoadedHasDefaults(file: ConfigFile, modelsDir: string)
    ensures DefaultConfig(modelsDir).Keys <= LoadConfig(file, modelsDir).Keys
  {
  }

  /** Loading what `set` saved gives it back: saving and loading are inverse. */
  lemma SaveLoadRoundTrip(cfg: Config, modelsDir: string)
    requires DefaultConfig(modelsDir).Keys <= cfg.Keys
    ensures LoadConfig(Parsed(cfg), modelsDir) == cfg
  {
    var c := LoadConfig(Parsed(cfg), modelsDir);
    assert c.Keys == cfg.Keys;
    assert forall k :: k in c ==> c[k] == cfg[k];
  }

  /**
   * `value.lower() in ("true", "1", "yes")`: the value is one of the three
   * keywords, in any letter case.
   */
  function ParseFlag(raw: string): (b: bool)
    ensures b <==> SameUpToCase(raw, "true") || SameUpToCase(raw, "1") || SameUpToCase(raw, "yes")
    ensures b ==> 1 <= |raw| <= 4
  {
    LowerOfNoUpper("true");
    LowerOfNoUpper("1");
    LowerOfNoUpper("yes");
    LowerEqualsIff(raw, "true");
    LowerEqualsIff(raw, "1");
    LowerEqualsIff(raw, "yes");
    var l := Lower(raw);
    l == "true" || l == "1" || l == "yes"
  }

  /**
   * The typed conversion of `set`: an integer for `poll_interval` (None when
   * `int()` would raise), a boolean for `auto_restart`, the raw string otherwise.
   */
  function TypedValue(key: string, raw: string): (r: Option<Value>)
    ensures r.None? <==> key == "poll_interval" && ParseInt(raw).None?
    ensures r.Some? && key == "poll_interval" ==> r.value.Int? && ParseInt(raw) == Some(r.value.i)
    ensures key == "auto_restart" ==> r.Some? && r.value.Bool? && (r.value.b <==> ParseFlag(raw))
    ensures key != "poll_interval" && key != "auto_restart" ==> r == Some(Str(raw))
  {
    if key == "poll_interval" then
      match ParseInt(raw)
      case Some(n) => Some(Int(n))
      case None => None
    else if key == "auto_restart" then Some(Bool(ParseFlag(raw)))
    else Some(Str(raw))
  }

  /** A keyword is recognised whatever its letter case. */
  lemma FlagIgnoresCase(a: string, b: string)
    requires SameUpToCase(a, b)
    ensures ParseFlag(a) <==> ParseFlag(b)
  {
    SameUpToCaseLower(a, b);
  }

  /** The truthy spellings, and two that are not. */
  lemma FlagExamples(yes: string, one: string, off: string, no: string)
    requires yes == "Yes" && one == "1" && off == "on" && no == "false"
    ensures ParseFlag(yes) && ParseFlag(one) && !ParseFlag(off) && !ParseFlag(no)
  {
    assert Lower(yes) == "yes";
    assert Lower(one) == "1";
    assert Lower(off) == "on";
    assert Lower(no) == "false";
  }

  /** The outcome of `config set`: what is saved and the value echoed, or a failed `int()`. */
  datatype SetOutcome = Saved(config: Config, shown: string) | ConversionFailed

  /** The value echoed after `set`: `bridge_key` is cut to six characters and `...`. */
  function SetEcho(key: string, raw: string): (shown: string)
    ensures key != "bridge_key" ==> shown == raw
    ensures key == "bridge_key" && |raw| > 6 ==> |shown| == 9 && shown[..6] == raw[..6] && shown[6..] == "..."
    ensures key == "bridge_key" && |raw| <= 6 ==> shown == "***"
  {
    if key == "bridge_key" then (if |raw| > 6 then Take(raw, 6) + "..." else "***") else raw
  }

  /** `config set <key> <value>`. */
  function ConfigSet(file: ConfigFile, modelsDir: string, key: string, raw: string): (r: SetOutcome)
    ensures r.ConversionFailed? <==> key == "poll_interval" && ParseInt(raw).None?
    ensures r.Saved? ==> r.config.Keys == LoadConfig(file, modelsDir).Keys + {key}
    ensures r.Saved? ==> forall k :: k in r.config && k != key ==> r.config[k] == LoadConfig(file, modelsDir)[k]
    ensures r.Saved? && key == "poll_interval" ==> r.config[key] == Int(ParseInt(raw).value)
    ensures r.Saved? && key == "auto_restart" ==> r.config[key] == Bool(ParseFlag(raw))
    ensures r.Saved? && key != "poll_interval" && key != "auto_restart" ==> r.config[key] == Str(raw)
  {
    var cfg := LoadConfig(file, modelsDir);
    match TypedValue(key, raw)
    case None => ConversionFailed
    case Some(v) => Saved(cfg[key := v], SetEcho(key, raw))
  }

  /** `v[:6] + "..." + v[-4:]` for a key longer than ten characters, `"***"` otherwise. */
  function MaskKey(v: string): (m: string)
    ensures |v| > 10 ==> |m| == 13 && m[..6] == v[..6] && m[6..9] == "..." && m[9..] == v[|v| - 4..]
    ensures |v| <= 10 ==> m == "***"
  {
    if |v| > 10 then Take(v, 6) + "..." + TakeLast(v, 4) else "***"
  }

  /**
   * The mask shows at most the first six and the last four characters; it
   * equals the key itself only for a 13-character key that already has
   * `...` in the middle, or for the key `***` itself.
   */
  lemma MaskHidesKey(v: string)
    requires v != ""
    ensures |MaskKey(v)| <= 13
    ensures MaskKey(v) == "***" || (|v| > 10 && MaskKey(v)[..6] == v[..6] && MaskKey(v)[9..] == v[|v| - 4..])
    ensures MaskKey(v) == v ==> v == "***" || (|v| == 13 && v[6..9] == "...")
  {
    var m := MaskKey(v);
    if |v| > 10 {
      assert |m| == 13;
      assert m[..6] == v[..6];
      assert m[6..9] == "...";
      assert m[9..] == v[|v| - 4..];
    } else {
      assert |m| == 3;
    }
  }

  /** The echo after setting `bridge_key` never shows more than its first six characters. */
  lemma SetEchoHidesKey(raw: string)
    ensures var e := SetEcho("bridge_key", raw);
      e == "***" || (|raw| > 6 && e[..6] == raw[..6] && |e| == 9)
  {
  }

  /** How `show` and `get` display one entry; None when `len()` raises on a non-string key. */
  function DisplayValue(key: string, v: Value): (r: Option<string>)
    ensures r.None? <==> key == "bridge_key" && Truthy(v) && !v.Str?
    ensures key == "bridge_key" && v.Str? && v.s != "" ==> r == Some(MaskKey(v.s))
    ensures !(key == "bridge_key" && Truthy(v)) ==> r == Some(Render(v))
  {
    if key == "bridge_key" && Truthy(v) then
      if v.Str? then Some(MaskKey(v.s)) else None
    else Some(Render(v))
  }

  /** `config get <key>`: the displayed value, `[not set]` for an absent key. */
  function ConfigGet(file: ConfigFile, modelsDir: string, key: string): (r: Option<string>)
    ensures key in LoadConfig(file, modelsDir) ==> r == DisplayValue(key, LoadConfig(file, modelsDir)[key])
    ensures key !in LoadConfig(file, modelsDir) ==> r == Some("[not set]")
  {
    var cfg := LoadConfig(file, modelsDir);
    LoadedHasDefaults(file, modelsDir);
    DisplayValue(key, if key in cfg then cfg[key] else Str("[not set]"))
  }

  /** `config` with no action: every entry as displayed; None when displaying one raises. */
  function ConfigShow(file: ConfigFile, modelsDir: string): (r: Option<map<string, string>>)
    ensures r.None? <==> DisplayValue("bridge_key", LoadConfig(file, modelsDir)["bridge_key"]).None?
    ensures r.Some? ==> r.value.Keys == LoadConfig(file, modelsDir).Keys
    ensures r.Some? ==> forall k :: k in r.value ==> DisplayValue(k, LoadConfig(file, modelsDir)[k]) == Some(r.value[k])
  {
    var cfg := LoadConfig(file, modelsDir);
    LoadedHasDefaults(file, modelsDir);
    if "bridge_key" in cfg && DisplayValue("bridge_key", cfg["bridge_key"]).None? then None
    else Some(map k | k in cfg :: DisplayValue(k, cfg[k]).GetOr(""))
  }

  /** `get` of a key that is neither set nor a default shows `[not set]`. */
  lemma GetAbsentKey(file: ConfigFile, modelsDir: string, key: string)
    requires key !in LoadConfig(file, modelsDir)
    ensures ConfigGet(file, modelsDir, key) == Some("[not set]")
  {
    LoadedHasDefaults(file, modelsDir);
    assert key != "bridge_key";
  }

  /** `show` and `get` agree on every key, and a non-empty string key is shown masked. */
  lemma ShowAgreesWithGet(file: ConfigFile, modelsDir: string, key: string)
    requires ConfigShow(file, modelsDir).Some?
    requires key in LoadConfig(file, modelsDir)
    ensures key in ConfigShow(file, modelsDir).value
    ensures ConfigGet(file, modelsDir, key) == Some(ConfigShow(file, modelsDir).value[key])
    ensures key == "bridge_key" ==>
      var v := LoadConfig(file, modelsDir)[key];
      v.Str? && v.s != "" ==> ConfigShow(file, modelsDir).value[key] == MaskKey(v.s)
  {
  }

  /** Setting `poll_interval` to a rendered integer and reading it back gives that integer. */
  lemma SetThenGetPollInterval(file: ConfigFile, modelsDir: string, n: int)
    ensures var r := ConfigSet(file, modelsDir, "poll_interval", IntToString(n));
      && r.Saved? && r.config["poll_interval"] == Int(n)
      && ConfigGet(Parsed(r.config), modelsDir, "poll_interval") == Some(IntToString(n))
  {
    IntToStringRoundTrip(n);
    var r := ConfigSet(file, modelsDir, "poll_interval", IntToString(n));
    LoadedHasDefaults(file, modelsDir);
    SaveLoadRoundTrip(r.config, modelsDir);
  }

  /** A `bridge_key` set and then read back is shown masked, in full only for the two degenerate shapes. */
  lemma SetThenGetBridgeKey(file: ConfigFile, modelsDir: string, v: string)
    requires v != ""
    ensures var r := ConfigSet(file, modelsDir, "bridge_key", v);
      && r.Saved?
      && ConfigGet(Parsed(r.config), modelsDir, "bridge_key") == Some(MaskKey(v))
      && (MaskKey(v) == v ==> v == "***" || (|v| == 13 && v[6..9] == "..."))
  {
    var r := ConfigSet(file, modelsDir, "bridge_key", v);
    LoadedHasDefaults(file, modelsDir);
    SaveLoadRoundTrip(r.config, modelsDir);
    MaskHidesKey(v);
  }
}
