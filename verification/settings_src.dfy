/** The other revision of the settings record (src/controller/settings.py): an empty default
    save path, a repair that only fills missing keys, no frozen-build check, and a load failure
    that falls back to the defaults without saving them. The JSON values, the state and the
    prompt predicate are shared with the first revision. */
module SettingsSrc {
  import opened Wrappers
  import opened Dicts
  import S = Settings

  /** `default_config`: an empty save path and prompt type 0. */
  function DefaultConfig(): S.Config {
    [(S.SavePathKey, S.JStr("")), (S.PromptTypeKey, S.JInt(S.SaveToConfiguredPath))]
  }

  lemma DefaultConfigKeys()
    ensures Get(DefaultConfig(), S.SavePathKey) == Some(S.JStr(""))
    ensures Get(DefaultConfig(), S.PromptTypeKey) == Some(S.JInt(S.SaveToConfiguredPath))
  {
    S.KeysDiffer();
    var d := DefaultConfig();
    assert d[..|d| - 1] == [(S.SavePathKey, S.JStr(""))];
    assert IndexOf(d, S.SavePathKey) == IndexOf(d[..|d| - 1], S.SavePathKey) == 0;
  }

  /** The state `__init__` sets up before loading. */
  function Initial(file: Option<S.ConfigFile>): S.SettingsState {
    S.SettingsState(S.JStr(""), S.JInt(S.SaveToConfiguredPath), [], file)
  }

  /** `save_config`: always attempted; the two known keys take the attributes' values and the
      dict is written when the file can be opened. */
  function SaveConfig(writable: bool, s: S.SettingsState): (r: S.SettingsState)
    ensures Get(r.config, S.SavePathKey) == Some(s.savePath)
    ensures Get(r.config, S.PromptTypeKey) == Some(s.promptType)
    ensures forall k :: k != S.SavePathKey && k != S.PromptTypeKey ==> Get(r.config, k) == Get(s.config, k)
    ensures r.file == (if writable then Some(S.JsonDict(r.config)) else s.file)
    ensures r.savePath == s.savePath && r.promptType == s.promptType
  {
    S.SaveConfig(S.Env(false, "", writable), s)
  }

  /** The loop of `validate_config`: a missing key receives its default; present values,
      empty or not, are kept. */
  function FillMissing(c: S.Config): (S.Config, bool) {
    var (c1, changed1) := if Get(c, S.SavePathKey).None? then (Put(c, S.SavePathKey, S.JStr("")), true) else (c, false);
    if Get(c1, S.PromptTypeKey).None? then (Put(c1, S.PromptTypeKey, S.JInt(S.SaveToConfiguredPath)), true)
    else (c1, changed1)
  }

  /** After filling, both default keys are present, every present value is kept (an empty save
      path included), and the flag is raised exactly when a key was missing. */
  lemma FillMissingCorrect(c: S.Config)
    ensures var (r, changed) := FillMissing(c);
            && Get(r, S.SavePathKey) == (if Get(c, S.SavePathKey).None? then Some(S.JStr("")) else Get(c, S.SavePathKey))
            && Get(r, S.PromptTypeKey) == (if Get(c, S.PromptTypeKey).None? then Some(S.JInt(S.SaveToConfiguredPath))
                                            else Get(c, S.PromptTypeKey))
            && (forall k :: k != S.SavePathKey && k != S.PromptTypeKey ==> Get(r, k) == Get(c, k))
            && (changed <==> Get(c, S.SavePathKey).None? || Get(c, S.PromptTypeKey).None?)
  {
    var c1 := if Get(c, S.SavePathKey).None? then Put(c, S.SavePathKey, S.JStr("")) else c;
    S.KeysDiffer();
    forall k ensures Get(c1, k) == (if k == S.SavePathKey && Get(c, S.SavePathKey).None? then Some(S.JStr("")) else Get(c, k)) {
      PutGet(c, S.SavePathKey, S.JStr(""), k);
    }
    forall k ensures Get(Put(c1, S.PromptTypeKey, S.JInt(S.SaveToConfiguredPath)), k)
                     == (if k == S.PromptTypeKey then Some(S.JInt(S.SaveToConfiguredPath)) else Get(c1, k)) {
      PutGet(c1, S.PromptTypeKey, S.JInt(S.SaveToConfiguredPath), k);
    }
  }

  /** Filling twice is filling once. */
  lemma FillMissingIdempotent(c: S.Config)
    ensures FillMissing(FillMissing(c).0) == (FillMissing(c).0, false)
  {
    FillMissingCorrect(c);
    FillMissingCorrect(FillMissing(c).0);
  }

  /** The revisions part on an empty save path: the first replaces it by the Downloads
      directory and saves, this one keeps it and saves nothing. */
  lemma RepairRevisionsDiverge(env: S.Env, c: S.Config)
    requires Get(c, S.SavePathKey) == Some(S.JStr("")) && Get(c, S.PromptTypeKey).Some?
    ensures Get(S.RepairConfig(env, c).0, S.SavePathKey) == Some(S.JStr(env.downloads)) && S.RepairConfig(env, c).1
    ensures FillMissing(c) == (c, false)
  {
    S.RepairConfigCorrect(env, c);
  }

  /** `validate_config` as written: the filled dict is saved through `save_config` when it
      changed, which also writes the attributes over the two known keys. */
  function ValidateAsWritten(writable: bool, s: S.SettingsState): (r: S.SettingsState)
    ensures !FillMissing(s.config).1 ==> r == s.(config := FillMissing(s.config).0)
  {
    var (c, changed) := FillMissing(s.config);
    var s1 := s.(config := c);
    if changed then SaveConfig(writable, s1) else s1
  }

  /** `validate_config` as intended: the filled dict itself is written when it changed. */
  function Validate(writable: bool, s: S.SettingsState): (r: S.SettingsState)
    ensures r.config == FillMissing(s.config).0
    ensures r.savePath == s.savePath && r.promptType == s.promptType
    ensures r.file == (if FillMissing(s.config).1 && writable then Some(S.JsonDict(r.config)) else s.file)
  {
    var (c, changed) := FillMissing(s.config);
    s.(config := c, file := if changed && writable then Some(S.JsonDict(c)) else s.file)
  }

  /** `load_config` over a given validation step: an existing dict is validated, the attributes
      read from it and handed to the widgets (`uiRaises`: they refuse them); a missing file
      gives the defaults, which are saved; a raise gives the defaults without saving. */
  function LoadWith(writable: bool, s: S.SettingsState, uiRaises: bool,
                    validate: (bool, S.SettingsState) -> S.SettingsState): S.SettingsState {
    var fallback := s.(savePath := S.JStr(""), promptType := S.JInt(S.SaveToConfiguredPath), config := DefaultConfig());
    match s.file
    case None => SaveConfig(writable, fallback)
    case Some(Malformed) => fallback
    case Some(JsonDict(c)) =>
      var s1 := validate(writable, s.(config := c));
      var s2 := s1.(savePath := S.GetOrDefault(s1.config, S.SavePathKey, S.JStr("")),
                    promptType := S.GetOrDefault(s1.config, S.PromptTypeKey, S.JInt(S.SaveToConfiguredPath)));
      if uiRaises then s2.(savePath := S.JStr(""), promptType := S.JInt(S.SaveToConfiguredPath), config := DefaultConfig())
      else s2
  }

  function LoadAsWritten(writable: bool, s: S.SettingsState, uiRaises: bool): S.SettingsState {
    LoadWith(writable, s, uiRaises, ValidateAsWritten)
  }

  function Load(writable: bool, s: S.SettingsState, uiRaises: bool): S.SettingsState {
    LoadWith(writable, s, uiRaises, Validate)
  }

  /** A missing file gives the defaults and writes them; an unreadable file gives the defaults
      and leaves the file alone; a readable file whose values the widgets then refuse also
      gives the defaults, but the fill that `validate_config` wrote before the raise stays on
      disk. */
  lemma LoadFallsBackToDefaults(writable: bool, s: S.SettingsState, uiRaises: bool)
    requires s.file.None? || s.file == Some(S.Malformed) || uiRaises
    ensures var r := Load(writable, s, uiRaises);
            && r.savePath == S.JStr("") && r.promptType == S.JInt(S.SaveToConfiguredPath)
            && Get(r.config, S.SavePathKey) == Some(S.JStr(""))
            && Get(r.config, S.PromptTypeKey) == Some(S.JInt(S.SaveToConfiguredPath))
            && (s.file.None? && writable ==> r.file == Some(S.JsonDict(r.config)))
            && (s.file == Some(S.Malformed) ==> r.file == s.file && r.config == DefaultConfig())
            && (s.file.Some? && s.file.value.JsonDict? ==>
                  var c := s.file.value.config;
                  && r.config == DefaultConfig()
                  && r.file == (if FillMissing(c).1 && writable then Some(S.JsonDict(FillMissing(c).0)) else s.file))
  {
    DefaultConfigKeys();
  }

  /** Loading a readable file keeps its values: each attribute is the file's value, or the
      default when the key is missing, and the dict is the filled file. */
  lemma LoadKeepsFileValues(writable: bool, s: S.SettingsState, c: S.Config)
    requires s.file == Some(S.JsonDict(c))
    ensures var r := Load(writable, s, false);
            && r.savePath == Get(c, S.SavePathKey).GetOr(S.JStr(""))
            && r.promptType == Get(c, S.PromptTypeKey).GetOr(S.JInt(S.SaveToConfiguredPath))
            && r.config == FillMissing(c).0
  {
    FillMissingCorrect(c);
  }

  /** As written, a file holding only prompt type 1 loses it on load: the fill adds the missing
      save path, the save that follows writes the attribute (still 0) over the prompt type,
      and 0 is what is read back and written to disk. */
  lemma LoadAsWrittenLosesPromptType(writable: bool)
    requires writable
    ensures var r := LoadAsWritten(writable, Initial(Some(S.JsonDict([(S.PromptTypeKey, S.JInt(S.SaveWithPrompt))]))), false);
            && r.promptType == S.JInt(S.SaveToConfiguredPath)
            && !S.ShouldPrompt(r)
            && r.file == Some(S.JsonDict(r.config)) && Get(r.config, S.PromptTypeKey) == Some(S.JInt(S.SaveToConfiguredPath))
  {
    var c: S.Config := [(S.PromptTypeKey, S.JInt(S.SaveWithPrompt))];
    FillMissingCorrect(c);
    var s := Initial(Some(S.JsonDict(c)));
    assert ValidateAsWritten(writable, s.(config := c)) == SaveConfig(writable, s.(config := FillMissing(c).0));
  }

  /** With the intended validation the same file keeps prompt type 1, so saving prompts. */
  lemma LoadKeepsPromptType(writable: bool)
    ensures S.ShouldPrompt(Load(writable, Initial(Some(S.JsonDict([(S.PromptTypeKey, S.JInt(S.SaveWithPrompt))]))), false))
  {
    var c: S.Config := [(S.PromptTypeKey, S.JInt(S.SaveWithPrompt))];
    LoadKeepsFileValues(writable, Initial(Some(S.JsonDict(c))), c);
  }
}
