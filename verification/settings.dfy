/** The settings record (controller/settings.py): the configuration dict read from and written
    to the `.config` JSON file, its repair on load, the save path and the save-prompt type. The
    configuration file is part of the state; whether the application runs frozen, the user's
    Downloads directory and whether the file can be written are the environment; dialog
    answers and the widgets' acceptance of the loaded values are inputs. */
module Settings {
  import opened Wrappers
  import opened Dicts

  /** A JSON value as `json.load` returns it, to the extent the settings look at it (floats
      are not distinguished from integers). */
  datatype Json = JNull | JBool(b: bool) | JInt(n: int) | JStr(s: string) | JList(items: seq<Json>) | JObject(size: nat)

  /** Python truthiness: `None`, `False`, `0`, "" and empty containers are false. */
  predicate Falsy(v: Json) {
    match v
    case JNull => true
    case JBool(b) => !b
    case JInt(n) => n == 0
    case JStr(s) => s == ""
    case JList(items) => |items| == 0
    case JObject(size) => size == 0
  }

  type Config = seq<(string, Json)>

  /** What `json.load` made of the configuration file: a dict, or a failure (unreadable, not
      JSON, or a JSON value that is not an object, which makes the repair raise). */
  datatype ConfigFile = JsonDict(config: Config) | Malformed

  /** `frozen`: running from a packaged build; `downloads`: `~/Downloads`, never empty;
      `writable`: whether opening the file for writing succeeds. */
  datatype Env = Env(frozen: bool, downloads: string, writable: bool)

  /** The instance state: the two attributes, the in-memory dict, and the file on disk. */
  datatype SettingsState = SettingsState(savePath: Json, promptType: Json, config: Config, file: Option<ConfigFile>)

  const SavePathKey := "save_path"
  const PromptTypeKey := "save_prompt_type"

  lemma KeysDiffer()
    ensures SavePathKey != PromptTypeKey
  {
    assert |SavePathKey| != |PromptTypeKey|;
  }

  /** Two assignments to different keys: each key holds its value and the rest is as it was. */
  lemma PutTwo<V>(c: seq<(string, V)>, k1: string, v1: V, k2: string, v2: V)
    requires k1 != k2
    ensures var r := Put(Put(c, k1, v1), k2, v2);
            && Get(r, k1) == Some(v1) && Get(r, k2) == Some(v2)
            && forall k :: k != k1 && k != k2 ==> Get(r, k) == Get(c, k)
  {
    var c1 := Put(c, k1, v1);
    PutGet(c, k1, v1, k2);
    PutGet(c1, k2, v2, k1);
    forall k | k != k1 && k != k2 ensures Get(Put(c1, k2, v2), k) == Get(c, k) {
      PutGet(c, k1, v1, k);
      PutGet(c1, k2, v2, k);
    }
  }

  const SaveToConfiguredPath := 0
  const SaveWithPrompt := 1

  /** `default_config`. */
  function DefaultConfig(env: Env): Config {
    [(SavePathKey, JStr(env.downloads)), (PromptTypeKey, JInt(SaveToConfiguredPath))]
  }

  lemma DefaultConfigKeys(env: Env)
    ensures Get(DefaultConfig(env), SavePathKey) == Some(JStr(env.downloads))
    ensures Get(DefaultConfig(env), PromptTypeKey) == Some(JInt(SaveToConfiguredPath))
  {
    KeysDiffer();
    var d := DefaultConfig(env);
    assert d[..|d| - 1] == [(SavePathKey, JStr(env.downloads))];
    assert IndexOf(d, SavePathKey) == IndexOf(d[..|d| - 1], SavePathKey) == 0;
  }

  /** The state `__init__` sets up before loading: the attributes at their defaults. */
  function Initial(env: Env, file: Option<ConfigFile>): SettingsState {
    SettingsState(JStr(env.downloads), JInt(SaveToConfiguredPath), [], file)
  }

  // ---------------------------------------------------------------------------------------
  // Saving.
  // ---------------------------------------------------------------------------------------

  /** `save_config`: nothing when frozen; otherwise the two known keys of the dict take the
      attributes' values and the dict is written (the write failing leaves the file as it was). */
  function SaveConfig(env: Env, s: SettingsState): (r: SettingsState)
    ensures env.frozen ==> r == s
    ensures !env.frozen ==>
              && Get(r.config, SavePathKey) == Some(s.savePath)
              && Get(r.config, PromptTypeKey) == Some(s.promptType)
              && (forall k :: k != SavePathKey && k != PromptTypeKey ==> Get(r.config, k) == Get(s.config, k))
              && r.file == (if env.writable then Some(JsonDict(r.config)) else s.file)
              && r.savePath == s.savePath && r.promptType == s.promptType
  {
    if env.frozen then s
    else
      var c1 := Put(s.config, SavePathKey, s.savePath);
      var c2 := Put(c1, PromptTypeKey, s.promptType);
      KeysDiffer();
      PutTwo(s.config, SavePathKey, s.savePath, PromptTypeKey, s.promptType);
      s.(config := c2, file := if env.writable then Some(JsonDict(c2)) else s.file)
  }

  // ---------------------------------------------------------------------------------------
  // Repair.
  // ---------------------------------------------------------------------------------------

  /** The loop of `validate_config` over the default keys: a missing key receives its default,
      and a present but falsy `save_path` is replaced by the Downloads directory; the flag
      says whether anything changed. */
  function RepairConfig(env: Env, c: Config): (Config, bool) {
    var path := Get(c, SavePathKey);
    var (c1, changed1) := if path.None? || Falsy(path.value) then (Put(c, SavePathKey, JStr(env.downloads)), true)
                          else (c, false);
    if Get(c1, PromptTypeKey).None? then (Put(c1, PromptTypeKey, JInt(SaveToConfiguredPath)), true)
    else (c1, changed1)
  }

  /** After the repair both default keys are present: `save_path` keeps a truthy value and
      becomes the Downloads directory otherwise, `save_prompt_type` keeps its value and
      becomes 0 when missing, every other key is untouched, and the flag is raised exactly
      when one of the two was missing or `save_path` was falsy. */
  lemma RepairConfigCorrect(env: Env, c: Config)
    ensures var (r, changed) := RepairConfig(env, c);
            var path := Get(c, SavePathKey);
            && Get(r, SavePathKey) == (if path.None? || Falsy(path.value) then Some(JStr(env.downloads)) else path)
            && Get(r, PromptTypeKey) == (if Get(c, PromptTypeKey).None? then Some(JInt(SaveToConfiguredPath))
                                              else Get(c, PromptTypeKey))
            && (forall k :: k != SavePathKey && k != PromptTypeKey ==> Get(r, k) == Get(c, k))
            && (changed <==> path.None? || Falsy(path.value) || Get(c, PromptTypeKey).None?)
  {
    var path := Get(c, SavePathKey);
    var c1 := if path.None? || Falsy(path.value) then Put(c, SavePathKey, JStr(env.downloads)) else c;
    KeysDiffer();
    forall k ensures Get(c1, k) == (if k == SavePathKey && (path.None? || Falsy(path.value)) then Some(JStr(env.downloads)) else Get(c, k)) {
      PutGet(c, SavePathKey, JStr(env.downloads), k);
    }
    forall k ensures Get(Put(c1, PromptTypeKey, JInt(SaveToConfiguredPath)), k) == (if k == PromptTypeKey then Some(JInt(SaveToConfiguredPath)) else Get(c1, k)) {
      PutGet(c1, PromptTypeKey, JInt(SaveToConfiguredPath), k);
    }
  }

  /** Repairing twice is repairing once: the second pass finds nothing to change (the
      Downloads directory is never an empty path). */
  lemma RepairConfigIdempotent(env: Env, c: Config)
    requires env.downloads != ""
    ensures RepairConfig(env, RepairConfig(env, c).0) == (RepairConfig(env, c).0, false)
  {
    RepairConfigCorrect(env, c);
    RepairConfigCorrect(env, RepairConfig(env, c).0);
  }

  /** `validate_config` as written: the repaired dict is saved through `save_config` when it
      changed and the build is not frozen, which also writes the attributes over the two
      known keys. */
  function ValidateAsWritten(env: Env, s: SettingsState): (r: SettingsState)
    ensures !RepairConfig(env, s.config).1 || env.frozen ==> r == s.(config := RepairConfig(env, s.config).0)
  {
    var (c, changed) := RepairConfig(env, s.config);
    var s1 := s.(config := c);
    if changed && !env.frozen then SaveConfig(env, s1) else s1
  }

  /** `validate_config` as intended: the repaired dict itself is written when it changed and the
      build is not frozen; the attributes are not written over it. */
  function Validate(env: Env, s: SettingsState): (r: SettingsState)
    ensures r.config == RepairConfig(env, s.config).0
    ensures r.savePath == s.savePath && r.promptType == s.promptType
    ensures r.file == (if RepairConfig(env, s.config).1 && !env.frozen && env.writable then Some(JsonDict(r.config)) else s.file)
  {
    var (c, changed) := RepairConfig(env, s.config);
    s.(config := c, file := if changed && !env.frozen && env.writable then Some(JsonDict(c)) else s.file)
  }

  /** Validating a validated state changes nothing. */
  lemma ValidateIdempotent(env: Env, s: SettingsState)
    requires env.downloads != ""
    ensures Validate(env, Validate(env, s)) == Validate(env, s)
  {
    RepairConfigIdempotent(env, s.config);
  }

  // ---------------------------------------------------------------------------------------
  // Loading.
  // ---------------------------------------------------------------------------------------

  /** `dict.get(k, default)`. */
  function GetOrDefault(c: Config, k: string, default: Json): Json {
    Get(c, k).GetOr(default)
  }

  /** The fallback of `load_config`, taken for a missing file and after an exception: the
      attributes and the dict at their defaults, saved unless frozen. */
  function LoadDefaults(env: Env, s: SettingsState): SettingsState {
    var s1 := s.(savePath := JStr(env.downloads), promptType := JInt(SaveToConfiguredPath), config := DefaultConfig(env));
    SaveConfig(env, s1)
  }

  /** `load_config` over a given validation step: an existing dict is validated and the
      attributes read from it; the widgets then receive the attributes (`uiRaises`: they
      refuse them, which raises); a missing file gives the defaults; any raise falls back to
      the defaults. */
  function LoadWith(env: Env, s: SettingsState, uiRaises: bool, validate: (Env, SettingsState) -> SettingsState): SettingsState {
    match s.file
    case None => LoadDefaults(env, s)
    case Some(Malformed) => LoadDefaults(env, s)
    case Some(JsonDict(c)) =>
      var s1 := validate(env, s.(config := c));
      var s2 := s1.(savePath := GetOrDefault(s1.config, SavePathKey, JStr(env.downloads)),
                    promptType := GetOrDefault(s1.config, PromptTypeKey, JInt(SaveToConfiguredPath)));
      if uiRaises then LoadDefaults(env, s2) else s2
  }

  /** `load_config` as written. */
  function LoadAsWritten(env: Env, s: SettingsState, uiRaises: bool): SettingsState {
    LoadWith(env, s, uiRaises, ValidateAsWritten)
  }

  /** `load_config` with the intended validation. */
  function Load(env: Env, s: SettingsState, uiRaises: bool): SettingsState {
    LoadWith(env, s, uiRaises, Validate)
  }

  /** With no file, an unreadable one, or widgets that refuse the values, loading ends with
      the default attributes and dict, written back unless frozen. */
  lemma LoadFallsBackToDefaults(env: Env, s: SettingsState, uiRaises: bool)
    requires s.file.None? || s.file == Some(Malformed) || uiRaises
    ensures var r := Load(env, s, uiRaises);
            && r.savePath == JStr(env.downloads) && r.promptType == JInt(SaveToConfiguredPath)
            && Get(r.config, SavePathKey) == Some(JStr(env.downloads))
            && Get(r.config, PromptTypeKey) == Some(JInt(SaveToConfiguredPath))
            && (!env.frozen && env.writable ==> r.file == Some(JsonDict(r.config)))
            && (env.frozen ==> r.config == DefaultConfig(env))
  {
    DefaultConfigKeys(env);
  }

  /** Loading a readable file keeps its values: the save path is the file's truthy save path
      (the Downloads directory when it is missing or falsy), the prompt type is the file's
      (0 when missing), and the dict is the repaired file. */
  lemma LoadKeepsFileValues(env: Env, s: SettingsState, c: Config)
    requires s.file == Some(JsonDict(c))
    ensures var r := Load(env, s, false);
            var path := Get(c, SavePathKey);
            && r.savePath == (if path.None? || Falsy(path.value) then JStr(env.downloads) else path.value)
            && r.promptType == Get(c, PromptTypeKey).GetOr(JInt(SaveToConfiguredPath))
            && r.config == RepairConfig(env, c).0
  {
    RepairConfigCorrect(env, c);
  }

  /** As written, a file holding only a custom save path loses it on load: the repair adds
      the missing prompt type, the save that follows writes the attribute (still the Downloads
      default) over the save path, and that is the value read back and written to disk. */
  lemma LoadAsWrittenLosesSavePath(env: Env, custom: string)
    requires !env.frozen && env.writable && custom != "" && custom != env.downloads
    ensures var r := LoadAsWritten(env, Initial(env, Some(JsonDict([(SavePathKey, JStr(custom))]))), false);
            && r.savePath == JStr(env.downloads)
            && r.file.Some? && r.file.value.JsonDict? && Get(r.file.value.config, SavePathKey) == Some(JStr(env.downloads))
  {
    var c: Config := [(SavePathKey, JStr(custom))];
    RepairConfigCorrect(env, c);
    var s := Initial(env, Some(JsonDict(c)));
    var s1 := s.(config := RepairConfig(env, c).0);
    assert ValidateAsWritten(env, s.(config := c)) == SaveConfig(env, s1);
  }

  /** With the intended validation the same file keeps its save path. */
  lemma LoadKeepsCustomSavePath(env: Env, custom: string)
    requires custom != ""
    ensures Load(env, Initial(env, Some(JsonDict([(SavePathKey, JStr(custom))]))), false).savePath == JStr(custom)
  {
    LoadKeepsFileValues(env, Initial(env, Some(JsonDict([(SavePathKey, JStr(custom))]))), [(SavePathKey, JStr(custom))]);
  }

  // ---------------------------------------------------------------------------------------
  // The user's actions.
  // ---------------------------------------------------------------------------------------

  /** `select_save_path`: a chosen directory becomes the save path and the text of the path
      field (`uiPath` before, the second component after); a cancelled dialog ("") changes
      neither. The configuration is not written: that waits for `save_settings`. */
  function SelectSavePath(s: SettingsState, uiPath: string, chosen: string): (r: (SettingsState, string))
    ensures r.0.config == s.config && r.0.file == s.file && r.0.promptType == s.promptType
  {
    if chosen == "" then (s, uiPath) else (s.(savePath := JStr(chosen)), chosen)
  }

  /** Choosing a directory and then pressing Save stores that directory under `save_path` in
      the configuration (unless frozen, when nothing is saved); cancelling the dialog and then
      saving stores what the path field already showed. Until Save is pressed the stored
      configuration is the one from before. */
  lemma SelectThenSaveStoresPath(env: Env, s: SettingsState, uiPath: string, chosen: string, uiIndex: int)
    ensures var (s1, field) := SelectSavePath(s, uiPath, chosen);
            var saved := SaveSettings(env, s1, field, uiIndex);
            && s1.config == s.config && s1.file == s.file
            && (chosen != "" ==> s1.savePath == JStr(chosen) && saved.savePath == JStr(chosen))
            && (chosen == "" ==> s1 == s && saved.savePath == JStr(uiPath))
            && (!env.frozen && chosen != "" ==> Get(saved.config, SavePathKey) == Some(JStr(chosen)))
            && (!env.frozen && chosen == "" ==> Get(saved.config, SavePathKey) == Some(JStr(uiPath)))
            && (env.frozen ==> saved.config == s.config && saved.file == s.file)
  {
  }

  /** `save_settings`: the widgets' path and index become the attributes, which are saved. */
  function SaveSettings(env: Env, s: SettingsState, uiPath: string, uiIndex: int): (r: SettingsState)
    ensures r.savePath == JStr(uiPath) && r.promptType == JInt(uiIndex)
    ensures !env.frozen ==> Get(r.config, SavePathKey) == Some(JStr(uiPath))
                            && Get(r.config, PromptTypeKey) == Some(JInt(uiIndex))
  {
    SaveConfig(env, s.(savePath := JStr(uiPath), promptType := JInt(uiIndex)))
  }

  /** `should_prompt_for_save_location`: Python's `== 1`, which `True` also satisfies. */
  predicate ShouldPrompt(s: SettingsState) {
    s.promptType == JInt(SaveWithPrompt) || s.promptType == JBool(true)
  }

  /** The prompt is asked for exactly when the prompt type saved by `save_settings` is 1. */
  lemma ShouldPromptAfterSave(env: Env, s: SettingsState, uiPath: string, uiIndex: int)
    ensures ShouldPrompt(SaveSettings(env, s, uiPath, uiIndex)) <==> uiIndex == SaveWithPrompt
  {
  }
}
