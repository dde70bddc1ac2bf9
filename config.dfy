/**
 * The settings of src-tauri/src/config/mod.rs: the configuration and secrets files, held as an
 * in-memory store, and the session-wide model override that lets a chosen model live for the
 * session without being written to disk.
 */
module Config {
  import opened Wrappers
  import opened Strings
  import opened Ai

  const DEFAULT_GEMINI_MODEL := "gemini-2.5-flash"
  const DEFAULT_CLAUDE_MODEL := "claude-haiku-4-5-20251001"
  const DEFAULT_OPENAI_MODEL := "gpt-5-nano-2025-08-07"

  /** `default_model_for_provider`: a fixed model for the hosted providers, none for Ollama. */
  function DefaultModelFor(p: Provider): (r: Option<string>)
    ensures r.None? <==> p == Ollama
    ensures p == Gemini ==> r == Some(DEFAULT_GEMINI_MODEL)
    ensures p == Claude ==> r == Some(DEFAULT_CLAUDE_MODEL)
    ensures p == OpenAI ==> r == Some(DEFAULT_OPENAI_MODEL)
  {
    match p
    case Gemini => Some(DEFAULT_GEMINI_MODEL)
    case Claude => Some(DEFAULT_CLAUDE_MODEL)
    case OpenAI => Some(DEFAULT_OPENAI_MODEL)
    case Ollama => None
  }

  /** Every default model passes the allowlist check, so a persisted default is always usable. */
  lemma DefaultModelAllowed(p: Provider)
    requires DefaultModelFor(p).Some?
    ensures DefaultModelFor(p).value in Allowlist(p)
    ensures ValidateModel(p, DefaultModelFor(p).value).Ok?
  {
    assert Allowlist(p)[if p == Gemini then 1 else 0] == DefaultModelFor(p).value;
  }

  /** A file of the configuration directory: missing, holding a value, or not parseable. */
  datatype StoredFile<T> = Absent | Stored(value: T) | Unparsable

  datatype AppConfig = AppConfig(schemaVersion: nat, ai: AiConfig, commitPreferences: CommitPreferences,
                                 lastRepoPath: Option<string>, theme: string)

  /** `AppConfig::default`. */
  const DEFAULT_CONFIG := AppConfig(1, AiConfig(Gemini, None, DEFAULT_GEMINI_MODEL, None, false),
                                    CommitPreferences("English", "conventional", 72), None, "dark")

  const CONFIG_PARSE_ERROR := "Failed to parse config file"
  const CONFIG_WRITE_ERROR := "Failed to write config file"

  /** `load_config_raw`: the stored configuration, or the default when there is no file. */
  function LoadConfigRaw(file: StoredFile<AppConfig>): (r: Result<AppConfig, string>)
    ensures r.Ok? <==> !file.Unparsable?
    ensures file.Absent? ==> r == Ok(DEFAULT_CONFIG)
    ensures file.Stored? ==> r == Ok(file.value)
    ensures r.Err? ==> r.error == CONFIG_PARSE_ERROR
  {
    match file
    case Absent => Ok(DEFAULT_CONFIG)
    case Stored(c) => Ok(c)
    case Unparsable => Err(CONFIG_PARSE_ERROR)
  }

  function WithModel(config: AppConfig, model: string): AppConfig {
    config.(ai := config.ai.(model := model))
  }

  /** `load_config`: what is stored, with the session's model in place of the stored one. */
  function LoadConfig(file: StoredFile<AppConfig>, sessionOverride: Option<string>): (r: Result<AppConfig, string>)
    ensures r.Ok? <==> LoadConfigRaw(file).Ok?
    ensures r.Err? ==> r.error == CONFIG_PARSE_ERROR
    ensures r.Ok? && sessionOverride.None? ==> r.value == LoadConfigRaw(file).value
    ensures r.Ok? && sessionOverride.Some? ==>
      r.value.ai.model == sessionOverride.value && r.value == WithModel(LoadConfigRaw(file).value, sessionOverride.value)
  {
    match LoadConfigRaw(file)
    case Err(e) => Err(e)
    case Ok(c) => Ok(if sessionOverride.Some? then WithModel(c, sessionOverride.value) else c)
  }

  /** The session override `save_config_with_model_preference` leaves behind. */
  function OverrideAfterSave(ai: AiConfig): (r: Option<string>)
    ensures ai.saveModelAsDefault ==> r.None?
    ensures !ai.saveModelAsDefault ==> r == Some(ai.model)
  {
    if ai.saveModelAsDefault then None else Some(ai.model)
  }

  /** The configuration `save_config_with_model_preference` writes. */
  function Persisted(config: AppConfig): (r: AppConfig)
    ensures config.ai.saveModelAsDefault ==> r == config
    ensures !config.ai.saveModelAsDefault ==>
      r == WithModel(config, DefaultModelFor(config.ai.provider).GetOr(""))
  {
    if config.ai.saveModelAsDefault then config
    else WithModel(config, DefaultModelFor(config.ai.provider).GetOr(""))
  }

  /**
   * Either way the user reads back the configuration they saved: the chosen model is on disk, or
   * the disk holds the provider default and the session override restores the chosen model.
   */
  lemma ModelPreferenceRoundTrip(config: AppConfig)
    ensures LoadConfig(Stored(Persisted(config)), OverrideAfterSave(config.ai)) == Ok(config)
  {
    if !config.ai.saveModelAsDefault {
      var p := Persisted(config);
      assert WithModel(p, config.ai.model) == config;
    }
  }

  /** Only a model saved as default reaches the file; otherwise the file holds one a fresh session can use. */
  lemma PersistedModel(config: AppConfig)
    ensures Persisted(config).ai.model == config.ai.model || !config.ai.saveModelAsDefault
    ensures !config.ai.saveModelAsDefault && config.ai.provider != Ollama ==>
      ValidateModel(config.ai.provider, Persisted(config).ai.model).Ok?
    ensures !config.ai.saveModelAsDefault && config.ai.provider == Ollama ==> Persisted(config).ai.model == ""
    ensures Persisted(config).(ai := config.ai) == config
  {
    if !config.ai.saveModelAsDefault && config.ai.provider != Ollama {
      DefaultModelAllowed(config.ai.provider);
    }
  }

  // ---------------------------------------------------------------- secrets

  datatype ProviderSecret = ProviderSecret(apiKey: string)
  datatype ProvidersSecrets = ProvidersSecrets(claude: Option<ProviderSecret>, openai: Option<ProviderSecret>,
                                               gemini: Option<ProviderSecret>)
  datatype SecretsFile = SecretsFile(schemaVersion: nat, providers: ProvidersSecrets)

  /** `SecretsFile::default`: every provider present with an empty key. */
  const DEFAULT_SECRETS := SecretsFile(1, ProvidersSecrets(Some(ProviderSecret("")), Some(ProviderSecret("")),
                                                           Some(ProviderSecret(""))))

  const NO_KEYS_ERROR := "No API keys configured. Please open Settings and configure your API keys in the 'Configurar API Keys' section."
  const SECRETS_PARSE_ERROR := "Failed to parse secrets file"
  const SECRETS_WRITE_ERROR := "Failed to write secrets file"
  const EMPTY_KEY_ERROR := "API key cannot be empty"

  /** The three providers that keep a key in the secrets file. */
  datatype KeySlot = ClaudeKey | OpenAiKey | GeminiKey

  function SlotName(slot: KeySlot): string {
    match slot
    case ClaudeKey => "claude"
    case OpenAiKey => "openai"
    case GeminiKey => "gemini"
  }

  /** The provider name, matched in any letter case. */
  function SlotNamed(provider: string): (r: Option<KeySlot>)
    ensures r.Some? <==> ToLower(provider) in {"claude", "openai", "gemini"}
    ensures r.Some? ==> SlotName(r.value) == ToLower(provider)
  {
    match ToLower(provider)
    case "claude" => Some(ClaudeKey)
    case "openai" => Some(OpenAiKey)
    case "gemini" => Some(GeminiKey)
    case _ => None
  }

  function SecretIn(p: ProvidersSecrets, slot: KeySlot): Option<ProviderSecret> {
    match slot
    case ClaudeKey => p.claude
    case OpenAiKey => p.openai
    case GeminiKey => p.gemini
  }

  /** One provider's entry replaced; the other two untouched. */
  function WithSecret(p: ProvidersSecrets, slot: KeySlot, s: ProviderSecret): (r: ProvidersSecrets)
    ensures SecretIn(r, slot) == Some(s)
    ensures forall o: KeySlot :: o != slot ==> SecretIn(r, o) == SecretIn(p, o)
  {
    match slot
    case ClaudeKey => p.(claude := Some(s))
    case OpenAiKey => p.(openai := Some(s))
    case GeminiKey => p.(gemini := Some(s))
  }

  /** `load_secrets_optional`: a missing file is no secrets at all. */
  function LoadSecretsOptional(file: StoredFile<SecretsFile>): (r: Result<Option<SecretsFile>, string>)
    ensures r.Ok? <==> !file.Unparsable?
    ensures file.Absent? ==> r == Ok(None)
    ensures file.Stored? ==> r == Ok(Some(file.value))
    ensures r.Err? ==> r.error == SECRETS_PARSE_ERROR
  {
    match file
    case Absent => Ok(None)
    case Stored(s) => Ok(Some(s))
    case Unparsable => Err(SECRETS_PARSE_ERROR)
  }

  /** `load_secrets`: a missing file is an error that points the user at the settings screen. */
  function LoadSecrets(file: StoredFile<SecretsFile>): (r: Result<SecretsFile, string>)
    ensures r.Ok? <==> file.Stored?
    ensures r.Ok? ==> r.value == file.value
    ensures file.Absent? ==> r == Err(NO_KEYS_ERROR)
    ensures file.Unparsable? ==> r == Err(SECRETS_PARSE_ERROR)
  {
    match file
    case Absent => Err(NO_KEYS_ERROR)
    case Stored(s) => Ok(s)
    case Unparsable => Err(SECRETS_PARSE_ERROR)
  }

  function NotConfiguredError(provider: string, secretsPath: string): string {
    "API key not configured for provider '" + provider + "'. Please add it to your secrets file at: " + secretsPath
  }

  /**
   * `get_api_key`: the key stored for the provider. Only an empty key counts as missing; a key of
   * blanks is handed out as it is.
   */
  function GetApiKey(file: StoredFile<SecretsFile>, provider: string, secretsPath: string): (r: Result<string, string>)
    ensures LoadSecrets(file).Err? ==> r == Err(LoadSecrets(file).error)
    ensures LoadSecrets(file).Ok? && SlotNamed(provider).None? ==> r == Err("Unknown provider: " + provider)
    ensures r.Ok? <==>
      file.Stored? && SlotNamed(provider).Some?
      && SecretIn(file.value.providers, SlotNamed(provider).value).Some?
      && SecretIn(file.value.providers, SlotNamed(provider).value).value.apiKey != ""
    ensures r.Ok? ==> r.value == SecretIn(file.value.providers, SlotNamed(provider).value).value.apiKey
    ensures r.Err? && file.Stored? && SlotNamed(provider).Some? ==> r.error == NotConfiguredError(provider, secretsPath)
  {
    match LoadSecrets(file)
    case Err(e) => Err(e)
    case Ok(s) =>
      match SlotNamed(provider)
      case None => Err("Unknown provider: " + provider)
      case Some(slot) =>
        match SecretIn(s.providers, slot)
        case Some(ProviderSecret(k)) => if k != "" then Ok(k) else Err(NotConfiguredError(provider, secretsPath))
        case None => Err(NotConfiguredError(provider, secretsPath))
  }

  /** The settings screen's notion of a configured key: present and not blank. */
  predicate IsConfigured(s: Option<ProviderSecret>) {
    s.Some? && Trim(s.value.apiKey) != ""
  }

  /** `get_api_key_status`: one flag per provider; without a file, all three are unconfigured. */
  function GetApiKeyStatus(file: StoredFile<SecretsFile>): (r: Result<map<string, bool>, string>)
    ensures r.Ok? <==> !file.Unparsable?
    ensures r.Err? ==> r.error == SECRETS_PARSE_ERROR
    ensures r.Ok? ==> r.value.Keys == {"claude", "openai", "gemini"}
    ensures r.Ok? && file.Absent? ==> forall slot: KeySlot :: !r.value[SlotName(slot)]
    ensures r.Ok? && file.Stored? ==>
      forall slot: KeySlot :: r.value[SlotName(slot)] == IsConfigured(SecretIn(file.value.providers, slot))
  {
    match LoadSecretsOptional(file)
    case Err(e) => Err(e)
    case Ok(s) =>
      var p := (if s.Some? then s.value else DEFAULT_SECRETS).providers;
      assert forall slot: KeySlot :: s.None? ==> !IsConfigured(SecretIn(p, slot));
      Ok(map["claude" := IsConfigured(p.claude), "openai" := IsConfigured(p.openai), "gemini" := IsConfigured(p.gemini)])
  }

  /** The two checks disagree on a key of blanks: the status says missing, the lookup hands it out. */
  lemma BlankKeyDisagreement(s: SecretsFile, secretsPath: string)
    requires s.providers.claude == Some(ProviderSecret(" "))
    ensures GetApiKey(Stored(s), "claude", secretsPath) == Ok(" ")
    ensures GetApiKeyStatus(Stored(s)) == Ok(GetApiKeyStatus(Stored(s)).value) && !GetApiKeyStatus(Stored(s)).value["claude"]
  {
    assert ToLower("claude") == "claude" by {
      assert forall i :: 0 <= i < 6 ==> ToLower("claude")[i] == "claude"[i];
    }
    assert Trim(" ") == "" by {
      assert TrimStart(" ") == TrimStart(" "[1..]);
      assert " "[1..] == "";
    }
    assert SlotName(ClaudeKey) == "claude";
  }

  /** Every key the file holds is already trimmed, as `save_api_key` leaves them. */
  predicate KeysTrimmed(p: ProvidersSecrets) {
    forall slot: KeySlot :: SecretIn(p, slot).Some? ==> Trim(SecretIn(p, slot).value.apiKey) == SecretIn(p, slot).value.apiKey
  }

  /** On trimmed keys the lookup and the status agree, provider by provider. */
  lemma TrimmedKeysAgree(s: SecretsFile, slot: KeySlot, secretsPath: string)
    requires KeysTrimmed(s.providers)
    ensures GetApiKeyStatus(Stored(s)).Ok?
    ensures GetApiKey(Stored(s), SlotName(slot), secretsPath).Ok? <==> GetApiKeyStatus(Stored(s)).value[SlotName(slot)]
  {
    assert ToLower(SlotName(slot)) == SlotName(slot);
    assert SlotNamed(SlotName(slot)) == Some(slot);
  }

  /**
   * The secrets `save_api_key` would write: the key must have a non-blank trimmed form and the
   * provider must be known; the existing file, or the default one, gets that provider's trimmed key.
   */
  function SecretsAfterSave(file: StoredFile<SecretsFile>, provider: string, apiKey: string): (r: Result<SecretsFile, string>)
    ensures Trim(apiKey) == "" ==> r == Err(EMPTY_KEY_ERROR)
    ensures Trim(apiKey) != "" && file.Unparsable? ==> r == Err(SECRETS_PARSE_ERROR)
    ensures Trim(apiKey) != "" && !file.Unparsable? && SlotNamed(provider).None? ==> r == Err("Unknown provider: " + provider)
    ensures r.Ok? <==> Trim(apiKey) != "" && !file.Unparsable? && SlotNamed(provider).Some?
    ensures r.Ok? ==>
      var base := if file.Stored? then file.value else DEFAULT_SECRETS;
      r.value == base.(providers := WithSecret(base.providers, SlotNamed(provider).value, ProviderSecret(Trim(apiKey))))
  {
    var trimmed := Trim(apiKey);
    if trimmed == "" then Err(EMPTY_KEY_ERROR)
    else
      match LoadSecretsOptional(file)
      case Err(e) => Err(e)
      case Ok(s) =>
        var base := s.GetOr(DEFAULT_SECRETS);
        match SlotNamed(provider)
        case None => Err("Unknown provider: " + provider)
        case Some(slot) => Ok(base.(providers := WithSecret(base.providers, slot, ProviderSecret(trimmed))))
  }

  /** Saving keeps every key of the file trimmed, starting from no file at all. */
  lemma SaveKeepsKeysTrimmed(file: StoredFile<SecretsFile>, provider: string, apiKey: string)
    requires file.Stored? ==> KeysTrimmed(file.value.providers)
    requires SecretsAfterSave(file, provider, apiKey).Ok?
    ensures KeysTrimmed(SecretsAfterSave(file, provider, apiKey).value.providers)
  {
    TrimIdempotent(apiKey);
    var base := if file.Stored? then file.value else DEFAULT_SECRETS;
    assert Trim("") == "";
    assert KeysTrimmed(base.providers);
  }

  /** A saved key reads back trimmed, for that provider under any spelling of its name. */
  lemma SaveThenGet(file: StoredFile<SecretsFile>, provider: string, apiKey: string, secretsPath: string)
    requires SecretsAfterSave(file, provider, apiKey).Ok?
    ensures GetApiKey(Stored(SecretsAfterSave(file, provider, apiKey).value), provider, secretsPath) == Ok(Trim(apiKey))
    ensures forall other: string :: SlotNamed(other).Some? && SlotNamed(other) != SlotNamed(provider) ==>
      SecretIn(SecretsAfterSave(file, provider, apiKey).value.providers, SlotNamed(other).value)
        == SecretIn((if file.Stored? then file.value else DEFAULT_SECRETS).providers, SlotNamed(other).value)
  {
  }

  /**
   * The configuration directory. The files are values; `writable` says whether writing into the
   * directory succeeds, and `secretsPath` is where error messages say the secrets live.
   */
  class ConfigStore {
    var configFile: StoredFile<AppConfig>
    var secretsFile: StoredFile<SecretsFile>
    var sessionOverride: Option<string>
    var writable: bool
    const secretsPath: string

    /** A new session: the files as found, and no override yet. */
    constructor(configFile: StoredFile<AppConfig>, secretsFile: StoredFile<SecretsFile>, writable: bool, secretsPath: string)
      ensures this.configFile == configFile && this.secretsFile == secretsFile
      ensures this.writable == writable && this.secretsPath == secretsPath
      ensures sessionOverride.None?
    {
      this.configFile := configFile;
      this.secretsFile := secretsFile;
      this.writable := writable;
      this.secretsPath := secretsPath;
      sessionOverride := None;
    }

    /** `set_session_ai_model_override`. */
    method SetSessionOverride(model: Option<string>)
      modifies this
      ensures sessionOverride == model
      ensures configFile == old(configFile) && secretsFile == old(secretsFile) && writable == old(writable)
    {
      sessionOverride := model;
    }

    /** `save_config`: the whole configuration replaces the file, or nothing changes. */
    method SaveConfig(config: AppConfig) returns (r: Result<(), string>)
      modifies this
      ensures writable == old(writable) && secretsFile == old(secretsFile) && sessionOverride == old(sessionOverride)
      ensures writable ==> r == Ok(()) && configFile == Stored(config)
      ensures !writable ==> r == Err(CONFIG_WRITE_ERROR) && configFile == old(configFile)
      ensures r.Ok? ==> LoadConfigRaw(configFile) == Ok(config)
    {
      if !writable {
        return Err(CONFIG_WRITE_ERROR);
      }
      configFile := Stored(config);
      r := Ok(());
    }

    /**
     * `save_config_with_model_preference`: the override is set first, so it changes even when the
     * write then fails; after a successful write the session reads back exactly `config`.
     */
    method SaveConfigWithModelPreference(config: AppConfig) returns (r: Result<(), string>)
      modifies this
      ensures sessionOverride == OverrideAfterSave(config.ai)
      ensures writable == old(writable) && secretsFile == old(secretsFile)
      ensures writable ==> r == Ok(()) && configFile == Stored(Persisted(config))
      ensures !writable ==> r == Err(CONFIG_WRITE_ERROR) && configFile == old(configFile)
      ensures r.Ok? ==> LoadConfig(configFile, sessionOverride) == Ok(config)
    {
      var next := config;
      if config.ai.saveModelAsDefault {
        SetSessionOverride(None);
      } else {
        SetSessionOverride(Some(config.ai.model));
        match DefaultModelFor(config.ai.provider)
        case Some(m) => next := WithModel(config, m);
        case None => next := WithModel(config, "");
      }
      r := SaveConfig(next);
      ModelPreferenceRoundTrip(config);
    }

    /** `update_ai_config`: read the stored file (without the override), replace the AI part, save. */
    method UpdateAiConfig(ai: AiConfig) returns (r: Result<(), string>)
      modifies this
      ensures writable == old(writable) && secretsFile == old(secretsFile)
      ensures LoadConfigRaw(old(configFile)).Err? ==>
        r == Err(CONFIG_PARSE_ERROR) && configFile == old(configFile) && sessionOverride == old(sessionOverride)
      ensures LoadConfigRaw(old(configFile)).Ok? ==> sessionOverride == OverrideAfterSave(ai)
      ensures LoadConfigRaw(old(configFile)).Ok? && writable ==>
        r == Ok(()) && configFile == Stored(Persisted(LoadConfigRaw(old(configFile)).value.(ai := ai)))
      ensures LoadConfigRaw(old(configFile)).Ok? && !writable ==> r == Err(CONFIG_WRITE_ERROR) && configFile == old(configFile)
    {
      match LoadConfigRaw(configFile)
      case Err(e) => return Err(e);
      case Ok(c) => r := SaveConfigWithModelPreference(c.(ai := ai));
    }

    /** `update_commit_preferences`: the preferences replaced, the override left alone. */
    method UpdateCommitPreferences(prefs: CommitPreferences) returns (r: Result<(), string>)
      modifies this
      ensures writable == old(writable) && secretsFile == old(secretsFile) && sessionOverride == old(sessionOverride)
      ensures LoadConfigRaw(old(configFile)).Err? ==> r == Err(CONFIG_PARSE_ERROR) && configFile == old(configFile)
      ensures LoadConfigRaw(old(configFile)).Ok? && writable ==>
        r == Ok(()) && configFile == Stored(LoadConfigRaw(old(configFile)).value.(commitPreferences := prefs))
      ensures LoadConfigRaw(old(configFile)).Ok? && !writable ==> r == Err(CONFIG_WRITE_ERROR) && configFile == old(configFile)
    {
      match LoadConfigRaw(configFile)
      case Err(e) => return Err(e);
      case Ok(c) => r := SaveConfig(c.(commitPreferences := prefs));
    }

    /** `update_last_repo`: only the last repository path changes, starting from the default if there was no file. */
    method UpdateLastRepo(path: string) returns (r: Result<(), string>)
      modifies this
      ensures writable == old(writable) && secretsFile == old(secretsFile) && sessionOverride == old(sessionOverride)
      ensures LoadConfigRaw(old(configFile)).Err? ==> r == Err(CONFIG_PARSE_ERROR) && configFile == old(configFile)
      ensures LoadConfigRaw(old(configFile)).Ok? && writable ==>
        r == Ok(()) && configFile == Stored(LoadConfigRaw(old(configFile)).value.(lastRepoPath := Some(path)))
      ensures LoadConfigRaw(old(configFile)).Ok? && !writable ==> r == Err(CONFIG_WRITE_ERROR) && configFile == old(configFile)
    {
      match LoadConfigRaw(configFile)
      case Err(e) => return Err(e);
      case Ok(c) => r := SaveConfig(c.(lastRepoPath := Some(path)));
    }

    /** `save_api_key`: validate, update one provider's key, write the whole file. */
    method SaveApiKey(provider: string, apiKey: string) returns (r: Result<(), string>)
      modifies this
      ensures writable == old(writable) && configFile == old(configFile) && sessionOverride == old(sessionOverride)
      ensures SecretsAfterSave(old(secretsFile), provider, apiKey).Err? ==>
        r == Err(SecretsAfterSave(old(secretsFile), provider, apiKey).error) && secretsFile == old(secretsFile)
      ensures SecretsAfterSave(old(secretsFile), provider, apiKey).Ok? && !writable ==>
        r == Err(SECRETS_WRITE_ERROR) && secretsFile == old(secretsFile)
      ensures SecretsAfterSave(old(secretsFile), provider, apiKey).Ok? && writable ==>
        r == Ok(()) && secretsFile == Stored(SecretsAfterSave(old(secretsFile), provider, apiKey).value)
      ensures r.Ok? ==> GetApiKey(secretsFile, provider, secretsPath) == Ok(Trim(apiKey))
    {
      var next := SecretsAfterSave(secretsFile, provider, apiKey);
      if next.Err? {
        return Err(next.error);
      }
      if !writable {
        return Err(SECRETS_WRITE_ERROR);
      }
      SaveThenGet(secretsFile, provider, apiKey, secretsPath);
      secretsFile := Stored(next.value);
      r := Ok(());
    }
  }
}
