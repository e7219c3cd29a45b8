/**
 * The bridge's own settings file (`.gitops/config.yaml`): a flat `key: value` text parsed
 * line by line into a dict, turned into typed options with defaults, and written back with
 * quoted strings. Reading and writing the file are left to the caller: the loader takes the
 * file's text (`None` when it does not exist) and the renderer returns the text to write.
 */
module ConfigStore {
  import opened Wrappers
  import opened Text
  import opened Yaml

  /** A loaded config: `dict[str, Any]` in insertion order. */
  type Data = seq<(string, Value)>

  // The setting names, as named constants.
  const RemoteUrlKey: string := "remote_url"
  const RemoteBranchKey: string := "remote_branch"
  const NotificationKey: string := "notification_enabled"
  const WebhookKey: string := "webhook_enabled"
  const WebhookPathKey: string := "webhook_path"
  const PollKey: string := "poll_interval_minutes"
  const YamlModulesKey: string := "yaml_modules_enabled"
  const ThemeKey: string := "ui_theme"
  const LegacyYamlModulesKey: string := "merge_automations"

  /** `CONFIG_KEYS`: the keys an update may set. */
  const ConfigKeys: set<string> := {
    RemoteUrlKey, RemoteBranchKey, NotificationKey, WebhookKey,
    WebhookPathKey, PollKey, YamlModulesKey, ThemeKey
  }

  const FlagKeys: set<string> := {NotificationKey, WebhookKey, YamlModulesKey}
  const StringKeys: set<string> := {RemoteUrlKey, RemoteBranchKey, WebhookPathKey}
  const Themes: set<string> := {"light", "dark", "system"}

  // ------------------------------------------------------------------ reading lines

  /** `_parse_bool`: the boolean words, in any letter case. */
  function ParseBool(value: string): Option<bool>
  {
    var lowered := Lower(value);
    if lowered in {"true", "yes", "on"} then Some(true)
    else if lowered in {"false", "no", "off"} then Some(false)
    else None
  }

  /** The boolean words are recognised whatever their letter case. */
  lemma ParseBoolIgnoresCase(value: string)
    ensures ParseBool(Lower(value)) == ParseBool(value)
  {
    LowerIdempotent(value);
  }

  /** What the renderer writes for a flag. */
  function BoolWord(b: bool): string { if b then "true" else "false" }

  /** The words the renderer writes for a flag read back as that flag. */
  lemma ParseBoolWord(b: bool)
    ensures ParseBool(BoolWord(b)) == Some(b)
  {
    assert Lower("true") == "true";
    assert Lower("false") == "false";
  }

  /** The typed value of a config line's text: null/none, a boolean word, digits, or a string. */
  function ParseScalar(value: string): (r: Value)
    ensures r.Null? || r.Bool? || r.Int? || r.Str?
  {
    if Lower(value) in {"null", "none"} then Null
    else
      match ParseBool(value)
      case Some(b) => Bool(b)
      case None => if IsDigits(value) then Int(ParseDigits(value)) else Str(value)
  }

  /** Only the words `null` and `none` read as None, and only they. */
  lemma ParseScalarNull(value: string)
    ensures ParseScalar(value) == Null <==> Lower(value) in {"null", "none"}
  {
  }

  /** Text of digits reads as the number it spells. */
  lemma ParseScalarDigits(n: nat)
    ensures ParseScalar(NatToString(n)) == Int(n)
  {
    var v := NatToString(n);
    assert Lower(v) == v;
    assert v[0] != 'n' && v[0] != 't' && v[0] != 'y' && v[0] != 'o' && v[0] != 'f';
    assert Lower(v) !in {"null", "none"};
    assert ParseBool(v) == None;
    ParseNatToString(n);
  }

  /** A flag word reads as the flag. */
  lemma ParseScalarWord(b: bool)
    ensures ParseScalar(BoolWord(b)) == Bool(b)
  {
    ParseBoolWord(b);
    assert Lower("true") == "true";
    assert Lower("false") == "false";
  }

  /** `raw.strip().strip('"').strip("'")`. */
  function Unquote(raw: string): string
  {
    StripSet(StripSet(Strip(raw), {'"'}), {'\''})
  }

  /**
   * One line of the file: skipped (None) when blank, a `#` comment, without `:`, or with an
   * empty key; otherwise the stripped text before the first `:` and the value after it.
   */
  function ConfigLine(line: string): (r: Option<(string, Value)>)
    ensures r.Some? ==> r.value.0 != [] && Strip(r.value.0) == r.value.0
  {
    var stripped := Strip(line);
    if stripped == [] || stripped[0] == '#' then None
    else
      match SplitFirst(stripped, ':')
      case None => None
      case Some((k, raw)) =>
        var key := Strip(k);
        StripIdempotent(k);
        if key == [] then None else Some((key, ParseScalar(Unquote(raw))))
  }

  /** What one line sets, if anything. */
  type Setting = Option<(string, Value)>

  /** What each line of the file sets. */
  function ParsedOf(lines: seq<string>): seq<Setting>
  {
    seq(|lines|, i requires 0 <= i < |lines| => ConfigLine(lines[i]))
  }

  /** The dict after applying the settings in order: a later setting of a key replaces its value. */
  function Apply(parsed: seq<Setting>): (r: Data)
    ensures UniqueKeys(r)
  {
    if parsed == [] then []
    else
      var d := Apply(parsed[..|parsed| - 1]);
      match parsed[|parsed| - 1]
      case None => d
      case Some((k, v)) => PutUnique(d, k, v); Put(d, k, v)
  }

  /** The dict read from the lines of the file, before the legacy fallback. */
  function ConfigOf(lines: seq<string>): (r: Data)
    ensures UniqueKeys(r)
  {
    Apply(ParsedOf(lines))
  }

  /** The value of the last setting of `k`, searching from the end. */
  function LastSetting(parsed: seq<Setting>, k: string): Option<Value>
  {
    if parsed == [] then None
    else
      match parsed[|parsed| - 1]
      case Some((k', v)) => if k' == k then Some(v) else LastSetting(parsed[..|parsed| - 1], k)
      case None => LastSetting(parsed[..|parsed| - 1], k)
  }

  /** Every key reads as the value of the last line that sets it, and only set keys are present. */
  lemma {:induction false} ApplyLastWins(parsed: seq<Setting>, k: string)
    ensures Get(Apply(parsed), k) == LastSetting(parsed, k)
  {
    if parsed != [] {
      ApplyLastWins(parsed[..|parsed| - 1], k);
      match parsed[|parsed| - 1]
      case None =>
      case Some((k', v)) => PutGet(Apply(parsed[..|parsed| - 1]), k', v, k);
    }
  }

  /** The legacy key `merge_automations` stands in for a missing `yaml_modules_enabled`. */
  function WithFallback(d: Data): (r: Data)
    requires UniqueKeys(d)
    ensures UniqueKeys(r)
    ensures Get(r, YamlModulesKey) ==
      if HasKey(d, YamlModulesKey) then Get(d, YamlModulesKey) else Get(d, LegacyYamlModulesKey)
    ensures forall k :: k != YamlModulesKey ==> Get(r, k) == Get(d, k)
  {
    if !HasKey(d, YamlModulesKey) && HasKey(d, LegacyYamlModulesKey) then
      var v := Get(d, LegacyYamlModulesKey).value;
      PutUnique(d, YamlModulesKey, v);
      forall k { PutGet(d, YamlModulesKey, v, k); }
      Put(d, YamlModulesKey, v)
    else d
  }

  /** `load_gitops_config()` on the file's text, `None` when the file does not exist. */
  function LoadedConfig(text: Option<string>): (r: Data)
    ensures UniqueKeys(r)
  {
    match text
    case None => []
    case Some(t) => WithFallback(ConfigOf(SplitLines(t)))
  }

  /** `load_gitops_config`: the dict is filled line by line. */
  method LoadGitopsConfig(text: Option<string>) returns (data: Data)
    ensures data == LoadedConfig(text)
  {
    if text.None? {
      return [];
    }
    var lines := SplitLines(text.value);
    ghost var parsed := ParsedOf(lines);
    data := [];
    for i := 0 to |lines|
      invariant data == Apply(parsed[..i])
    {
      assert parsed[..i + 1][..i] == parsed[..i];
      match ConfigLine(lines[i]) {
        case None =>
        case Some((k, v)) => data := Put(data, k, v);
      }
    }
    assert parsed[..|lines|] == parsed;
    if !HasKey(data, YamlModulesKey) && HasKey(data, LegacyYamlModulesKey) {
      data := Put(data, YamlModulesKey, Get(data, LegacyYamlModulesKey).value);
    }
  }

  // ------------------------------------------------------------------ quoting

  /** The escape a YAML double-quoted scalar needs for one character: `\` and `"` get a backslash. */
  function EscapeChar(c: char): string
  {
    if c == '\\' || c == '"' then ['\\', c] else [c]
  }

  function Escape(s: string): string
  {
    if s == [] then [] else EscapeChar(s[0]) + Escape(s[1..])
  }

  /** Reading the escapes of a YAML double-quoted scalar back: `\x` stands for `x`. */
  function Unescape(t: string): string
  {
    if t == [] then []
    else if t[0] == '\\' && |t| >= 2 then [t[1]] + Unescape(t[2..])
    else [t[0]] + Unescape(t[1..])
  }

  /** `_quote_yaml`: backslashes are doubled first, then quotes are escaped, and all is quoted. */
  function QuoteYaml(s: string): string
  {
    "\"" + ReplaceChar(ReplaceChar(s, '\\', "\\\\"), '"', "\\\"") + "\""
  }

  /** `_quote_yaml` writes the YAML double-quoted form of the string. */
  lemma QuoteYamlEscapes(s: string)
    ensures QuoteYaml(s) == "\"" + Escape(s) + "\""
  {
    QuoteEscapes(s);
  }

  lemma {:induction false} ReplaceAppend(a: string, b: string, c: char, w: string)
    ensures ReplaceChar(a + b, c, w) == ReplaceChar(a, c, w) + ReplaceChar(b, c, w)
    decreases |a|
  {
    if a == [] {
      assert a + b == b;
    } else {
      assert (a + b)[1..] == a[1..] + b;
      ReplaceAppend(a[1..], b, c, w);
    }
  }

  /** Replacing `\` first and `"` second escapes each character exactly once. */
  lemma {:induction false} QuoteEscapes(s: string)
    ensures ReplaceChar(ReplaceChar(s, '\\', "\\\\"), '"', "\\\"") == Escape(s)
    decreases |s|
  {
    if s != [] {
      var head := if s[0] == '\\' then "\\\\" else [s[0]];
      assert ReplaceChar(s, '\\', "\\\\") == head + ReplaceChar(s[1..], '\\', "\\\\");
      ReplaceAppend(head, ReplaceChar(s[1..], '\\', "\\\\"), '"', "\\\"");
      QuoteEscapes(s[1..]);
      if s[0] == '"' {
        assert ReplaceChar(head, '"', "\\\"") == "\\\"" + ReplaceChar([], '"', "\\\"");
      }
    }
  }

  /** A YAML reader that honours the escapes gets the original string back. */
  lemma {:induction false} UnescapeEscape(s: string)
    ensures Unescape(Escape(s)) == s
    decreases |s|
  {
    if s != [] {
      var rest := Escape(s[1..]);
      UnescapeEscape(s[1..]);
      if s[0] == '\\' || s[0] == '"' {
        assert (['\\', s[0]] + rest)[2..] == rest;
      } else {
        assert ([s[0]] + rest)[1..] == rest;
      }
    }
  }

  /** Escaping adds one character for every `\` and every `"`. */
  lemma {:induction false} EscapeLength(s: string)
    ensures |Escape(s)| == |s| + Count(s, '\\') + Count(s, '"')
    decreases |s|
  {
    if s != [] {
      EscapeLength(s[1..]);
    }
  }

  // ------------------------------------------------------------------ options

  /** `Options`: the typed settings. Fields the source types as `str` may hold any loaded value. */
  datatype Options = Options(
    remoteUrl: Value,
    remoteBranch: Value,
    notificationEnabled: bool,
    webhookEnabled: bool,
    webhookPath: Value,
    pollIntervalMinutes: Value,
    yamlModulesEnabled: bool,
    uiTheme: string)

  /** `type(v).__name__`. */
  function TypeName(v: Value): string
  {
    match v
    case Null => "NoneType"
    case Bool(_) => "bool"
    case Int(_) => "int"
    case Str(_) => "str"
    case Seq(_) => "list"
    case Map(_) => "dict"
    case Tagged(_, _, _) => "TaggedValue"
  }

  /** `_quote_yaml(v)` on a loaded value: only a string has `.replace`. */
  function QuoteValue(v: Value): (r: Result<string>)
    ensures r.Ok? <==> v.Str?
    ensures r.Ok? ==> r.value == QuoteYaml(v.s)
  {
    if v.Str? then Ok(QuoteYaml(v.s))
    else Err("'" + TypeName(v) + "' object has no attribute 'replace'")
  }

  /** The poll interval as the f-string prints it: `null` for None, `str(v)` otherwise. */
  function PollText(v: Value): string
  {
    if v.Null? then "null" else PyStr(v)
  }

  const Header: string := "# Home Assistant GitOps Bridge configuration"

  /** The nine lines of the file, with the three string settings already quoted. */
  function RenderLines(url: string, branch: string, path: string, o: Options): seq<string>
  {
    [Header,
     RemoteUrlKey + ": " + url,
     RemoteBranchKey + ": " + branch,
     NotificationKey + ": " + BoolWord(o.notificationEnabled),
     WebhookKey + ": " + BoolWord(o.webhookEnabled),
     WebhookPathKey + ": " + path,
     PollKey + ": " + PollText(o.pollIntervalMinutes),
     YamlModulesKey + ": " + BoolWord(o.yamlModulesEnabled),
     ThemeKey + ": " + QuoteYaml(o.uiTheme)]
  }

  /** The rendered lines one by one. */
  lemma RenderLinesAt(url: string, branch: string, path: string, o: Options, lines: seq<string>)
    requires lines == RenderLines(url, branch, path, o)
    ensures |lines| == 9 && lines[0] == Header
    ensures lines[1] == RemoteUrlKey + ": " + url && lines[2] == RemoteBranchKey + ": " + branch
    ensures lines[3] == NotificationKey + ": " + BoolWord(o.notificationEnabled)
    ensures lines[4] == WebhookKey + ": " + BoolWord(o.webhookEnabled)
    ensures lines[5] == WebhookPathKey + ": " + path
    ensures lines[6] == PollKey + ": " + PollText(o.pollIntervalMinutes)
    ensures lines[7] == YamlModulesKey + ": " + BoolWord(o.yamlModulesEnabled)
    ensures lines[8] == ThemeKey + ": " + QuoteYaml(o.uiTheme)
  {
  }

  /**
   * `render_gitops_config`: fails, as `_quote_yaml` does, when a string setting holds a
   * non-string (an empty or missing remote URL is written as `""`).
   */
  function RenderGitopsConfig(o: Options): (r: Result<string>)
    ensures r.Ok? <==> (!Truthy(o.remoteUrl) || o.remoteUrl.Str?) && o.remoteBranch.Str? && o.webhookPath.Str?
  {
    match QuoteValue(if Truthy(o.remoteUrl) then o.remoteUrl else Str(""))
    case Err(e) => Err(e)
    case Ok(url) =>
      match QuoteValue(o.remoteBranch)
      case Err(e) => Err(e)
      case Ok(branch) =>
        match QuoteValue(o.webhookPath)
        case Err(e) => Err(e)
        case Ok(path) => Ok(Join(RenderLines(url, branch, path, o), "\n") + "\n")
  }

  /** `_build_options`: the documented defaults, a theme forced into light/dark/system. */
  function BuildOptions(d: Data): (r: Options)
    ensures r.uiTheme in Themes
    ensures r.remoteUrl.Null? || Truthy(r.remoteUrl)
  {
    var m := Map(d);
    var t0 := LookupOr(m, ThemeKey, Str("system"));
    var t := Lower(PyStr(if Truthy(t0) then t0 else Str("system")));
    var y0 := Get(d, YamlModulesKey);
    var y := if y0.None? || y0.value.Null? then LookupOr(m, LegacyYamlModulesKey, Bool(true)) else y0.value;
    var url := LookupOr(m, RemoteUrlKey, Null);
    Options(
      if Truthy(url) then url else Null,
      LookupOr(m, RemoteBranchKey, Str("main")),
      Truthy(LookupOr(m, NotificationKey, Bool(true))),
      Truthy(LookupOr(m, WebhookKey, Bool(false))),
      LookupOr(m, WebhookPathKey, Str("pull")),
      LookupOr(m, PollKey, Int(15)),
      Truthy(y),
      if t in Themes then t else "system")
  }

  /** With nothing configured, every setting takes its documented default. */
  lemma BuildDefaults()
    ensures BuildOptions([]) == Options(Null, Str("main"), true, false, Str("pull"), Int(15), true, "system")
  {
    assert Lower("system") == "system";
  }

  /**
   * The theme is the lower-cased `ui_theme` string when that is light, dark or system, and
   * `system` in every other case, non-string values included.
   */
  lemma BuildTheme(d: Data)
    ensures var v := LookupOr(Map(d), ThemeKey, Str("system"));
      BuildOptions(d).uiTheme == if v.Str? && Lower(v.s) in Themes then Lower(v.s) else "system"
  {
    var v := LookupOr(Map(d), ThemeKey, Str("system"));
    var t := Lower(PyStr(if Truthy(v) then v else Str("system")));
    assert BuildOptions(d).uiTheme == if t in Themes then t else "system";
    ThemeLower("system");
    if !Truthy(v) {
      assert t == "system";
    } else if !v.Str? {
      ReprNotTheme(v);
    }
  }

  /** No lower-cased `repr` of a non-string is a theme name. */
  lemma ReprNotTheme(v: Value)
    requires !v.Str?
    ensures Lower(Repr(v)) !in Themes
  {
    ReprStart(v);
    var t := Lower(Repr(v));
    assert t[0] != 'l' && t[0] != 'd' && t[0] != 's';
    assert t != "light" && t != "dark" && t != "system";
  }

  /**
   * The parser's fallback to `merge_automations` and the builder's agree: building from the
   * dict before or after the parser's fallback gives the same `yaml_modules_enabled`.
   */
  lemma YamlModulesFallback(d: Data)
    requires UniqueKeys(d)
    ensures BuildOptions(WithFallback(d)).yamlModulesEnabled == BuildOptions(d).yamlModulesEnabled
  {
  }

  // ------------------------------------------------------------------ updates

  /** `_coerce_config_value`: the type each key accepts, with the source's error messages. */
  function CoerceConfigValue(key: string, value: Value): (r: Result<Value>)
    ensures r.Ok? ==> key in ConfigKeys
    ensures key in FlagKeys ==> (r.Ok? <==> value.Bool?) && (r.Ok? ==> r.value == value)
    ensures key in StringKeys ==> (r.Ok? <==> value.Null? || value.Str?)
    ensures key in StringKeys && r.Ok? ==> r.value == if value.Null? then Str("") else value
    ensures key == ThemeKey ==> (r.Ok? <==> value.Str? && Lower(value.s) in Themes)
    ensures key == ThemeKey && r.Ok? ==> r.value == Str(Lower(value.s)) && r.value.s in Themes
    ensures key == PollKey ==> (r.Ok? <==> value.Null? || value.Int? || value.Bool?)
    ensures key == PollKey && r.Ok? ==> r.value == value
    ensures key !in ConfigKeys ==> r == Err("Unsupported config key: " + key)
  {
    if key in FlagKeys then
      if value.Bool? then Ok(value) else Err(key + " must be true or false")
    else if key in StringKeys then
      if value.Null? then Ok(Str(""))
      else if value.Str? then Ok(value)
      else Err(key + " must be a string")
    else if key == ThemeKey then
      if value.Str? && Lower(value.s) in Themes then Ok(Str(Lower(value.s)))
      else Err("ui_theme must be light, dark, or system")
    else if key == PollKey then
      // `isinstance(True, int)` holds in Python, so a bool passes as an interval.
      if value.Null? || value.Int? || value.Bool? then Ok(value)
      else Err("poll_interval_minutes must be an integer or null")
    else Err("Unsupported config key: " + key)
  }

  /** The dict after applying the payload in order, or the first rejected key's error. */
  function UpdatedData(data: Data, payload: Data): Result<Data>
    decreases |payload|
  {
    if payload == [] then Ok(data)
    else
      var (k, v) := payload[0];
      if k !in ConfigKeys then Err("Unsupported config key: " + k)
      else
        match CoerceConfigValue(k, v)
        case Err(e) => Err(e)
        case Ok(c) => UpdatedData(Put(data, k, c), payload[1..])
  }

  /** An update is accepted exactly when every key is supported and every value coerces. */
  lemma {:induction false} UpdateAccepted(data: Data, payload: Data)
    ensures UpdatedData(data, payload).Ok? <==>
      forall i :: 0 <= i < |payload| ==> CoerceConfigValue(payload[i].0, payload[i].1).Ok?
    decreases |payload|
  {
    if payload != [] {
      var (k, v) := payload[0];
      if CoerceConfigValue(k, v).Ok? {
        UpdateAccepted(Put(data, k, CoerceConfigValue(k, v).value), payload[1..]);
        assert forall i :: 1 <= i < |payload| ==> payload[i] == payload[1..][i - 1];
      }
    }
  }

  /** A payload key outside `CONFIG_KEYS` makes the whole update fail. */
  lemma UnknownKeyRejected(data: Data, payload: Data, i: nat)
    requires i < |payload| && payload[i].0 !in ConfigKeys
    ensures UpdatedData(data, payload).Err?
  {
    UpdateAccepted(data, payload);
  }

  /**
   * After an accepted update, each payload key holds its coerced value and every other key
   * keeps the value it had.
   */
  lemma {:induction false} UpdateGet(data: Data, payload: Data, k: string)
    requires UniqueKeys(payload) && UpdatedData(data, payload).Ok?
    ensures HasKey(payload, k) ==> CoerceConfigValue(k, Get(payload, k).value).Ok?
    ensures Get(UpdatedData(data, payload).value, k) ==
      if HasKey(payload, k) then Some(CoerceConfigValue(k, Get(payload, k).value).value) else Get(data, k)
    decreases |payload|
  {
    if payload != [] {
      var (k0, v0) := payload[0];
      var c := CoerceConfigValue(k0, v0).value;
      assert Keys(payload[1..]) == Keys(payload)[1..];
      UniqueKeysPrefix(payload);
      UpdateGet(Put(data, k0, c), payload[1..], k);
      PutGet(data, k0, c, k);
      if k0 != k {
        HasKeyTail(payload, k);
      } else {
        assert k !in Keys(payload[1..]);
        HasKeyKeys(payload[1..], k);
      }
    }
  }

  /** `apply_config_update`: the reloaded dict after writing the updated options. */
  function ApplyUpdate(data: Data, payload: Data): Result<Data>
  {
    match UpdatedData(data, payload)
    case Err(e) => Err(e)
    case Ok(d) =>
      match RenderGitopsConfig(BuildOptions(d))
      case Err(e) => Err(e)
      case Ok(text) => Ok(LoadedConfig(Some(text)))
  }

  /**
   * `apply_config_update` on the loaded `data`: the payload is applied key by key, the result
   * is rendered (the text that is written) and read back.
   */
  method ApplyConfigUpdate(data: Data, payload: Data) returns (r: Result<Data>)
    ensures r == ApplyUpdate(data, payload)
  {
    var d := data;
    var i := 0;
    while i < |payload|
      invariant 0 <= i <= |payload|
      invariant UpdatedData(data, payload) == UpdatedData(d, payload[i..])
    {
      var (k, v) := payload[i];
      assert payload[i..][1..] == payload[i + 1..];
      if k !in ConfigKeys {
        return Err("Unsupported config key: " + k);
      }
      var c := CoerceConfigValue(k, v);
      if c.Err? {
        return Err(c.error);
      }
      d := Put(d, k, c.value);
      i := i + 1;
    }
    assert payload[i..] == [];
    var text := RenderGitopsConfig(BuildOptions(d));
    if text.Err? {
      return Err(text.error);
    }
    r := Ok(LoadedConfig(Some(text.value)));
  }

  // ------------------------------------------------------------------ round trip

  /**
   * A string the file keeps as it is: nothing to escape, no line break, no single quote at
   * either end for the loader to strip, and text the loader reads as a string.
   */
  predicate Plain(s: string)
  {
    '"' !in s && '\\' !in s && '\n' !in s
    && (s != [] ==> s[0] != '\'' && s[|s| - 1] != '\'')
    && ParseScalar(s) == Str(s)
  }

  /** Options whose every setting survives being written and read back. */
  predicate Renderable(o: Options)
  {
    (o.remoteUrl.Null? || (o.remoteUrl.Str? && o.remoteUrl.s != [] && Plain(o.remoteUrl.s)))
    && o.remoteBranch.Str? && Plain(o.remoteBranch.s)
    && o.webhookPath.Str? && Plain(o.webhookPath.s)
    && (o.pollIntervalMinutes.Null? || (o.pollIntervalMinutes.Int? && o.pollIntervalMinutes.i >= 0))
    && o.uiTheme in Themes
  }

  /** The dict the loader reads from the rendered file. */
  function WrittenData(o: Options): Data
  {
    [(RemoteUrlKey, if o.remoteUrl.Null? then Str("") else o.remoteUrl),
     (RemoteBranchKey, o.remoteBranch),
     (NotificationKey, Bool(o.notificationEnabled)),
     (WebhookKey, Bool(o.webhookEnabled)),
     (WebhookPathKey, o.webhookPath),
     (PollKey, o.pollIntervalMinutes),
     (YamlModulesKey, Bool(o.yamlModulesEnabled)),
     (ThemeKey, Str(o.uiTheme))]
  }

  /** A key a config line can carry unchanged. */
  predicate LineKey(key: string)
  {
    key != [] && ':' !in key && '\n' !in key
    && key[0] !in Whitespace && key[0] != '#' && key[|key| - 1] !in Whitespace
  }

  /** A `key: text` line has a line break only if the text has one. */
  lemma LineOneLine(key: string, text: string)
    requires LineKey(key) && '\n' !in text
    ensures '\n' !in key + ": " + text
  {
    assert '\n' !in ": ";
  }

  /** A rendered `key: text` line reads as the key and the value of ` text`. */
  lemma ConfigLineOf(key: string, text: string)
    requires LineKey(key)
    requires text != [] && text[|text| - 1] !in Whitespace
    ensures ConfigLine(key + ": " + text) == Some((key, ParseScalar(Unquote(" " + text))))
  {
    var line := key + ": " + text;
    assert line[0] == key[0] && line[|line| - 1] == text[|text| - 1];
    StripUnchanged(line);
    assert line == key + [':'] + (" " + text);
    SplitFirstUnique(line, ':', key, " " + text);
    StripUnchanged(key);
  }

  lemma AlnumNotSpecial(c: char)
    requires IsAlnumChar(c)
    ensures c !in Whitespace && c != '"' && c != '\''
  {
  }

  lemma QuoteNotWhitespace()
    ensures '"' !in Whitespace && '\'' !in Whitespace
  {
  }

  /** A plain string is written quoted and read back as itself. */
  lemma QuotedReadsBack(s: string)
    requires Plain(s)
    ensures QuoteYaml(s) == "\"" + s + "\""
    ensures QuoteYaml(s) != [] && QuoteYaml(s)[|QuoteYaml(s)| - 1] == '"'
    ensures ParseScalar(Unquote(" " + QuoteYaml(s))) == Str(s)
  {
    assert ReplaceChar(s, '\\', "\\\\") == s;
    assert ReplaceChar(s, '"', "\\\"") == s;
    var q := "\"" + s + "\"";
    assert QuoteYaml(s) == q;
    assert q[|q| - 1] == '"';
    EnclosedUnquote(s);
    assert Unquote(" " + QuoteYaml(s)) == s;
  }

  /** Text in double quotes, holding none itself and no single quote at either end, unquotes to itself. */
  lemma EnclosedUnquote(e: string)
    requires '"' !in e && (e != [] ==> e[0] != '\'' && e[|e| - 1] != '\'')
    ensures Unquote(" " + ("\"" + e + "\"")) == e
  {
    var q := "\"" + e + "\"";
    assert q[0] == '"' && q[|q| - 1] == '"';
    QuoteNotWhitespace();
    StripSpaced(q);
    assert q == ['"'] + e + ['"'];
    StripSetEnclosed(e, '"');
    StripSetUnchanged(e, {'\''});
  }

  /** A quoted plain string stays on one line. */
  lemma QuotedOneLine(s: string)
    requires Plain(s)
    ensures '\n' !in QuoteYaml(s)
  {
    QuotedReadsBack(s);
    NotInWrapped(s, '\n', '"');
  }

  lemma NotInWrapped(s: string, c: char, d: char)
    requires c != d && c !in s
    ensures c !in [d] + s + [d]
  {
    var w := [d] + s + [d];
    forall i | 0 <= i < |w| ensures w[i] != c {
      if 0 < i < |w| - 1 { assert w[i] == s[i - 1]; }
    }
  }

  /** A bare word (a flag, a number, `null`) is read back as written. */
  lemma BareReadsBack(t: string)
    requires t != [] && forall i :: 0 <= i < |t| ==> IsAlnumChar(t[i])
    ensures Unquote(" " + t) == t
  {
    AlnumNotSpecial(t[0]);
    AlnumNotSpecial(t[|t| - 1]);
    StripSpaced(t);
    StripSetUnchanged(t, {'"'});
    StripSetUnchanged(t, {'\''});
  }

  lemma StringLine(key: string, s: string)
    requires LineKey(key) && Plain(s)
    ensures ConfigLine(key + ": " + QuoteYaml(s)) == Some((key, Str(s)))
  {
    var q := QuoteYaml(s);
    QuotedReadsBack(s);
    QuoteNotWhitespace();
    ConfigLineOf(key, q);
  }

  /** A `key: word` line reads as the key and the word's value. */
  lemma BareLine(key: string, t: string)
    requires LineKey(key)
    requires t != [] && forall i :: 0 <= i < |t| ==> IsAlnumChar(t[i])
    ensures ConfigLine(key + ": " + t) == Some((key, ParseScalar(t)))
  {
    BareReadsBack(t);
    AlnumNotSpecial(t[|t| - 1]);
    ConfigLineOf(key, t);
  }

  lemma WordsAlnum(t: string)
    requires t in {"true", "false", "null"}
    ensures t != [] && forall i :: 0 <= i < |t| ==> IsAlnumChar(t[i])
  {
  }

  lemma FlagLine(key: string, b: bool)
    requires LineKey(key)
    ensures ConfigLine(key + ": " + BoolWord(b)) == Some((key, Bool(b)))
  {
    WordsAlnum(BoolWord(b));
    BareLine(key, BoolWord(b));
    ParseScalarWord(b);
  }

  lemma PollLine(key: string, v: Value)
    requires LineKey(key)
    requires v.Null? || (v.Int? && v.i >= 0)
    ensures ConfigLine(key + ": " + PollText(v)) == Some((key, v))
  {
    var t := PollText(v);
    if v.Int? {
      assert t == NatToString(v.i);
      ParseScalarDigits(v.i);
    } else {
      WordsAlnum(t);
      assert Lower("null") == "null";
    }
    BareLine(key, t);
  }

  /** Settings of distinct keys, after one line that sets nothing, give those entries in order. */
  lemma {:induction false} ApplyEntries(parsed: seq<Setting>, es: Data)
    requires |parsed| == |es| + 1 && parsed[0].None?
    requires forall i :: 0 <= i < |es| ==> parsed[i + 1] == Some(es[i])
    requires UniqueKeys(es)
    ensures Apply(parsed) == es
    decreases |es|
  {
    if es != [] {
      var n := |es|;
      var init := es[..n - 1];
      assert Keys(init) == Keys(es)[..n - 1];
      ApplyEntries(parsed[..n], init);
      assert es[n - 1].0 !in Keys(init);
      HasKeyKeys(init, es[n - 1].0);
      PutAbsent(init, es[n - 1].0, es[n - 1].1);
      LastSplit(es);
    }
  }

  lemma KeysAreLineKeys()
    ensures LineKey(RemoteUrlKey) && LineKey(RemoteBranchKey) && LineKey(NotificationKey)
    ensures LineKey(WebhookKey) && LineKey(WebhookPathKey) && LineKey(PollKey)
    ensures LineKey(YamlModulesKey) && LineKey(ThemeKey)
  {
    RemoteUrlKeyValid();
    RemoteBranchKeyValid();
    NotificationKeyValid();
    WebhookKeyValid();
    WebhookPathKeyValid();
    PollKeyValid();
    YamlModulesKeyValid();
    ThemeKeyValid();
  }

  lemma RemoteUrlKeyValid() ensures LineKey(RemoteUrlKey) {}
  lemma RemoteBranchKeyValid() ensures LineKey(RemoteBranchKey) {}
  lemma NotificationKeyValid() ensures LineKey(NotificationKey) {}
  lemma WebhookKeyValid() ensures LineKey(WebhookKey) {}
  lemma WebhookPathKeyValid() ensures LineKey(WebhookPathKey) {}
  lemma PollKeyValid() ensures LineKey(PollKey) {}
  lemma YamlModulesKeyValid() ensures LineKey(YamlModulesKey) {}
  lemma ThemeKeyValid() ensures LineKey(ThemeKey) {}

  lemma HeaderSkipped()
    ensures ConfigLine(Header) == None
  {
    StripUnchanged(Header);
  }

  /** The remote URL as it is written: an unset URL is written as the empty string. */
  function UrlText(o: Options): string
  {
    if o.remoteUrl.Str? then o.remoteUrl.s else ""
  }

  /** The lines rendered for renderable options, one by one. */
  predicate RenderedAs(o: Options, lines: seq<string>)
    requires Renderable(o)
  {
    |lines| == 9 && lines[0] == Header
    && lines[1] == RemoteUrlKey + ": " + QuoteYaml(UrlText(o))
    && lines[2] == RemoteBranchKey + ": " + QuoteYaml(o.remoteBranch.s)
    && lines[3] == NotificationKey + ": " + BoolWord(o.notificationEnabled)
    && lines[4] == WebhookKey + ": " + BoolWord(o.webhookEnabled)
    && lines[5] == WebhookPathKey + ": " + QuoteYaml(o.webhookPath.s)
    && lines[6] == PollKey + ": " + PollText(o.pollIntervalMinutes)
    && lines[7] == YamlModulesKey + ": " + BoolWord(o.yamlModulesEnabled)
    && lines[8] == ThemeKey + ": " + QuoteYaml(o.uiTheme)
  }

  /** The rendered lines of renderable options set the entries of `WrittenData`, after the header. */
  lemma RenderedLines(o: Options, lines: seq<string>)
    requires Renderable(o)
    requires RenderedAs(o, lines)
    ensures |ParsedOf(lines)| == |WrittenData(o)| + 1 && ParsedOf(lines)[0].None?
    ensures forall i :: 0 <= i < |WrittenData(o)| ==> ParsedOf(lines)[i + 1] == Some(WrittenData(o)[i])
  {
    var url := UrlText(o);
    var parsed := ParsedOf(lines);
    var w := WrittenData(o);
    HeaderSkipped();
    KeysAreLineKeys();
    EmptyPlain();
    ThemePlain(o.uiTheme);
    StringParsed(lines, 1, RemoteUrlKey, url);
    StringParsed(lines, 2, RemoteBranchKey, o.remoteBranch.s);
    FlagParsed(lines, 3, NotificationKey, o.notificationEnabled);
    FlagParsed(lines, 4, WebhookKey, o.webhookEnabled);
    StringParsed(lines, 5, WebhookPathKey, o.webhookPath.s);
    PollParsed(lines, 6, PollKey, o.pollIntervalMinutes);
    FlagParsed(lines, 7, YamlModulesKey, o.yamlModulesEnabled);
    StringParsed(lines, 8, ThemeKey, o.uiTheme);
    EightEntries(o, parsed);
  }

  lemma StringParsed(lines: seq<string>, k: nat, key: string, s: string)
    requires k < |lines| && LineKey(key) && Plain(s) && lines[k] == key + ": " + QuoteYaml(s)
    ensures ParsedOf(lines)[k] == Some((key, Str(s)))
  {
    StringLine(key, s);
  }

  lemma FlagParsed(lines: seq<string>, k: nat, key: string, b: bool)
    requires k < |lines| && LineKey(key) && lines[k] == key + ": " + BoolWord(b)
    ensures ParsedOf(lines)[k] == Some((key, Bool(b)))
  {
    FlagLine(key, b);
  }

  lemma PollParsed(lines: seq<string>, k: nat, key: string, v: Value)
    requires k < |lines| && LineKey(key) && (v.Null? || (v.Int? && v.i >= 0))
    requires lines[k] == key + ": " + PollText(v)
    ensures ParsedOf(lines)[k] == Some((key, v))
  {
    PollLine(key, v);
  }

  lemma EightEntries(o: Options, parsed: seq<Setting>)
    requires Renderable(o) && |parsed| == 9
    requires parsed[1] == Some((RemoteUrlKey, Str(UrlText(o))))
    requires parsed[2] == Some((RemoteBranchKey, Str(o.remoteBranch.s)))
    requires parsed[3] == Some((NotificationKey, Bool(o.notificationEnabled)))
    requires parsed[4] == Some((WebhookKey, Bool(o.webhookEnabled)))
    requires parsed[5] == Some((WebhookPathKey, Str(o.webhookPath.s)))
    requires parsed[6] == Some((PollKey, o.pollIntervalMinutes))
    requires parsed[7] == Some((YamlModulesKey, Bool(o.yamlModulesEnabled)))
    requires parsed[8] == Some((ThemeKey, Str(o.uiTheme)))
    ensures forall i :: 0 <= i < |WrittenData(o)| ==> parsed[i + 1] == Some(WrittenData(o)[i])
  {
    var w := WrittenData(o);
    forall i | 0 <= i < |w| ensures parsed[i + 1] == Some(w[i]) {
      if i == 0 {} else if i == 1 {} else if i == 2 {} else if i == 3 {}
      else if i == 4 {} else if i == 5 {} else if i == 6 {} else {}
    }
  }

  lemma EmptyPlain()
    ensures Plain("")
  {
    assert Lower("") == "";
  }

  lemma {:induction false} ThemePlain(t: string)
    requires t in Themes
    ensures Plain(t)
  {
    assert Lower("light") == "light" && Lower("dark") == "dark" && Lower("system") == "system";
  }

  lemma WrittenKeys(o: Options)
    ensures UniqueKeys(WrittenData(o))
    ensures HasKey(WrittenData(o), YamlModulesKey)
  {
    assert WrittenData(o)[6].0 == YamlModulesKey;
  }

  /** No rendered line holds a line break. */
  lemma RenderedOneLine(o: Options, lines: seq<string>)
    requires Renderable(o)
    requires RenderedAs(o, lines)
    ensures forall i :: 0 <= i < |lines| ==> '\n' !in lines[i]
  {
    KeysAreLineKeys();
    EmptyPlain();
    ThemePlain(o.uiTheme);
    HeaderOneLine();
    QuotedOneLine(UrlText(o));
    QuotedOneLine(o.remoteBranch.s);
    QuotedOneLine(o.webhookPath.s);
    QuotedOneLine(o.uiTheme);
    FlagOneLine(o.notificationEnabled);
    FlagOneLine(o.webhookEnabled);
    FlagOneLine(o.yamlModulesEnabled);
    PollOneLine(o.pollIntervalMinutes);
    OneLineAt(lines, 1, RemoteUrlKey, QuoteYaml(UrlText(o)));
    OneLineAt(lines, 2, RemoteBranchKey, QuoteYaml(o.remoteBranch.s));
    OneLineAt(lines, 3, NotificationKey, BoolWord(o.notificationEnabled));
    OneLineAt(lines, 4, WebhookKey, BoolWord(o.webhookEnabled));
    OneLineAt(lines, 5, WebhookPathKey, QuoteYaml(o.webhookPath.s));
    OneLineAt(lines, 6, PollKey, PollText(o.pollIntervalMinutes));
    OneLineAt(lines, 7, YamlModulesKey, BoolWord(o.yamlModulesEnabled));
    OneLineAt(lines, 8, ThemeKey, QuoteYaml(o.uiTheme));
    NineLines(lines);
  }

  lemma NineLines(lines: seq<string>)
    requires |lines| == 9 && '\n' !in lines[0] && '\n' !in lines[1] && '\n' !in lines[2]
    requires '\n' !in lines[3] && '\n' !in lines[4] && '\n' !in lines[5]
    requires '\n' !in lines[6] && '\n' !in lines[7] && '\n' !in lines[8]
    ensures forall i :: 0 <= i < |lines| ==> '\n' !in lines[i]
  {
    forall i | 0 <= i < |lines| ensures '\n' !in lines[i] {
      if i == 0 {} else if i == 1 {} else if i == 2 {} else if i == 3 {} else if i == 4 {}
      else if i == 5 {} else if i == 6 {} else if i == 7 {} else {}
    }
  }

  lemma OneLineAt(lines: seq<string>, i: nat, key: string, text: string)
    requires i < |lines| && lines[i] == key + ": " + text
    requires LineKey(key) && '\n' !in text
    ensures '\n' !in lines[i]
  {
    LineOneLine(key, text);
  }

  lemma HeaderOneLine()
    ensures '\n' !in Header
  {
  }

  /** The flag words hold no line break. */
  lemma FlagOneLine(b: bool)
    ensures '\n' !in BoolWord(b)
  {
    WordsAlnum(BoolWord(b));
    assert !IsAlnumChar('\n');
  }

  /** The poll interval's text holds no line break. */
  lemma PollOneLine(v: Value)
    requires v.Null? || (v.Int? && v.i >= 0)
    ensures '\n' !in PollText(v)
  {
    var t := PollText(v);
    if v.Int? {
      assert t == NatToString(v.i);
      assert forall i :: 0 <= i < |t| ==> IsDigitChar(t[i]);
    } else {
      WordsAlnum(t);
    }
    assert !IsAlnumChar('\n');
  }

  /** Renderable options are written and read back as `WrittenData`. */
  lemma LoadRendered(o: Options)
    requires Renderable(o)
    ensures RenderGitopsConfig(o).Ok?
    ensures LoadedConfig(Some(RenderGitopsConfig(o).value)) == WrittenData(o)
  {
    var url := QuoteYaml(UrlText(o));
    var lines := RenderLines(url, QuoteYaml(o.remoteBranch.s), QuoteYaml(o.webhookPath.s), o);
    RenderedText(o);
    RenderLinesAt(url, QuoteYaml(o.remoteBranch.s), QuoteYaml(o.webhookPath.s), o, lines);
    ReadRendered(o, lines);
    WrittenKeys(o);
    FallbackPresent(WrittenData(o));
  }

  lemma RenderedText(o: Options)
    requires (o.remoteUrl.Null? || o.remoteUrl.Str?) && o.remoteBranch.Str? && o.webhookPath.Str?
    ensures RenderGitopsConfig(o) == Ok(Join(RenderLines(QuoteYaml(UrlText(o)),
      QuoteYaml(o.remoteBranch.s), QuoteYaml(o.webhookPath.s), o), "\n") + "\n")
  {
  }

  /** The text of rendered lines reads back as `WrittenData`. */
  lemma ReadRendered(o: Options, lines: seq<string>)
    requires Renderable(o) && RenderedAs(o, lines)
    ensures ConfigOf(SplitLines(Join(lines, "\n") + "\n")) == WrittenData(o)
  {
    RenderedOneLine(o, lines);
    JoinedLines(lines);
    RenderedLines(o, lines);
    WrittenKeys(o);
    ApplyEntries(ParsedOf(lines), WrittenData(o));
  }

  /** The `merge_automations` fallback leaves a dict that has `yaml_modules_enabled` alone. */
  lemma FallbackPresent(d: Data)
    requires UniqueKeys(d) && HasKey(d, YamlModulesKey)
    ensures WithFallback(d) == d
  {
  }

  /** Building options from the written dict gives back the options that were written. */
  lemma BuildWritten(o: Options)
    requires Renderable(o)
    ensures BuildOptions(WrittenData(o)) == o
  {
    var d := WrittenData(o);
    WrittenKeys(o);
    GetUnique(d, 0);
    GetUnique(d, 1);
    GetUnique(d, 2);
    GetUnique(d, 3);
    GetUnique(d, 4);
    GetUnique(d, 5);
    GetUnique(d, 6);
    GetUnique(d, 7);
    BuildFrom(d, o);
  }

  lemma BuildFrom(d: Data, o: Options)
    requires o.remoteUrl.Null? || (o.remoteUrl.Str? && o.remoteUrl.s != [])
    requires o.uiTheme in Themes
    requires Get(d, RemoteUrlKey) == Some(if o.remoteUrl.Null? then Str("") else o.remoteUrl)
    requires Get(d, RemoteBranchKey) == Some(o.remoteBranch)
    requires Get(d, NotificationKey) == Some(Bool(o.notificationEnabled))
    requires Get(d, WebhookKey) == Some(Bool(o.webhookEnabled))
    requires Get(d, WebhookPathKey) == Some(o.webhookPath)
    requires Get(d, PollKey) == Some(o.pollIntervalMinutes)
    requires Get(d, YamlModulesKey) == Some(Bool(o.yamlModulesEnabled))
    requires Get(d, ThemeKey) == Some(Str(o.uiTheme))
    ensures BuildOptions(d) == o
  {
    var r := BuildOptions(d);
    ThemeLower(o.uiTheme);
    ThemeNonEmpty(o.uiTheme);
    assert LookupOr(Map(d), ThemeKey, Str("system")) == Str(o.uiTheme);
    assert r.uiTheme == o.uiTheme;
    assert r.remoteUrl == o.remoteUrl;
    assert r.yamlModulesEnabled == o.yamlModulesEnabled;
  }

  lemma ThemeNonEmpty(t: string)
    requires t in Themes
    ensures t != []
  {
  }

  lemma ThemeLower(t: string)
    requires t in Themes
    ensures Lower(t) == t
  {
    assert Lower("light") == "light" && Lower("dark") == "dark" && Lower("system") == "system";
  }

  /**
   * Writing renderable options and loading the file again gives the same options: the
   * settings file round-trips everything it can represent.
   */
  lemma RenderRoundTrip(o: Options)
    requires Renderable(o)
    ensures RenderGitopsConfig(o).Ok?
    ensures BuildOptions(LoadedConfig(Some(RenderGitopsConfig(o).value))) == o
  {
    LoadRendered(o);
    BuildWritten(o);
  }

  /**
   * A backslash does not survive: the renderer doubles it but the loader does not undo the
   * escape, so every save of a string holding `\` makes it longer.
   */
  lemma BackslashGrows(s: string)
    requires '"' !in s && '\\' in s && s[0] != '\'' && s[|s| - 1] != '\''
    ensures ConfigLine(RemoteBranchKey + ": " + QuoteYaml(s)) == Some((RemoteBranchKey, Str(Escape(s))))
    ensures |Escape(s)| > |s|
  {
    EscapeLength(s);
    QuoteYamlEscapes(s);
    var e := Escape(s);
    EscapeFree(s, '"');
    EscapeEnds(s);
    EnclosedUnquote(e);
    EscapeKeepsBackslash(s);
    BackslashIsString(e);
    QuotedEnd(e);
    RemoteBranchKeyValid();
    ConfigLineOf(RemoteBranchKey, "\"" + e + "\"");
  }

  lemma QuotedEnd(e: string)
    ensures var q := "\"" + e + "\""; q != [] && q[|q| - 1] !in Whitespace
  {
    QuoteNotWhitespace();
  }

  /** Text holding a backslash is neither null, a boolean word nor a number. */
  lemma BackslashIsString(e: string)
    requires '\\' in e
    ensures ParseScalar(e) == Str(e)
  {
    var l := Lower(e);
    var k :| 0 <= k < |e| && e[k] == '\\';
    assert l[k] == '\\';
    assert l != "null" && l != "none" && l != "true" && l != "yes" && l != "on";
    assert l != "false" && l != "no" && l != "off";
    assert !IsDigitChar(e[k]);
  }

  lemma {:induction false} EscapeFree(s: string, c: char)
    requires c != '\\' && c !in s
    ensures c !in Escape(s)
    decreases |s|
  {
    if s != [] {
      EscapeFree(s[1..], c);
    }
  }

  lemma {:induction false} EscapeAppend(a: string, c: char)
    ensures Escape(a + [c]) == Escape(a) + EscapeChar(c)
    decreases |a|
  {
    if a == [] {
      assert [] + [c] == [c];
    } else {
      assert (a + [c])[1..] == a[1..] + [c];
      EscapeAppend(a[1..], c);
    }
  }

  lemma EscapeEnds(s: string)
    requires s != [] && s[0] != '\'' && s[|s| - 1] != '\''
    ensures Escape(s) != [] && Escape(s)[0] != '\'' && Escape(s)[|Escape(s)| - 1] != '\''
  {
    assert s == s[..|s| - 1] + [s[|s| - 1]];
    EscapeAppend(s[..|s| - 1], s[|s| - 1]);
  }

  lemma {:induction false} EscapeKeepsBackslash(s: string)
    requires '\\' in s
    ensures '\\' in Escape(s)
    decreases |s|
  {
    if s[0] != '\\' {
      EscapeKeepsBackslash(s[1..]);
    }
  }
}
