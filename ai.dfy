/**
 * The model allowlists of src-tauri/src/ai/mod.rs, the check every request passes before it
 * is sent, and the commit-message prompt. The HTTP calls themselves are a `Backend`
 * parameter: whatever answer it gives, the model only records which prompts reached it.
 */
module Ai {
  import opened Wrappers
  import opened Strings

  datatype Provider = Claude | OpenAI | Ollama | Gemini

  const GEMINI_MODELS: seq<string> := ["gemini-3-flash-preview", "gemini-2.5-flash", "gemini-2.5-flash-lite"]
  const CLAUDE_MODELS: seq<string> := ["claude-haiku-4-5-20251001"]
  const OPENAI_MODELS: seq<string> := ["gpt-5-nano-2025-08-07", "gpt-5-mini-2025-08-07", "gpt-4.1-2025-04-14"]

  /** The allowlist of a provider; Ollama has none, because it accepts any model. */
  function Allowlist(p: Provider): seq<string> {
    match p
    case Gemini => GEMINI_MODELS
    case Claude => CLAUDE_MODELS
    case OpenAI => OPENAI_MODELS
    case Ollama => []
  }

  /** The provider a lowercased name denotes, as serde spells them. */
  function ProviderNamed(name: string): Option<Provider> {
    match ToLower(name)
    case "gemini" => Some(Gemini)
    case "claude" => Some(Claude)
    case "openai" => Some(OpenAI)
    case "ollama" => Some(Ollama)
    case _ => None
  }

  /** `get_allowed_models`: the provider is matched in any letter case; unknown names get none. */
  function AllowedModels(provider: string): (r: seq<string>)
    ensures ProviderNamed(provider).Some? ==> r == Allowlist(ProviderNamed(provider).value)
    ensures ProviderNamed(provider).None? ==> r == []
  {
    match ToLower(provider)
    case "gemini" => GEMINI_MODELS
    case "claude" => CLAUDE_MODELS
    case "openai" => OPENAI_MODELS
    case "ollama" => []
    case _ => []
  }

  /** Only the letters of the name matter, not their case. */
  lemma AllowedModelsCaseBlind(a: string, b: string)
    requires ToLower(a) == ToLower(b)
    ensures AllowedModels(a) == AllowedModels(b)
  {
  }

  /** Ollama and unknown names both get an empty list. */
  lemma AllowedModelsEmpty(provider: string)
    ensures AllowedModels(provider) == [] <==> ProviderNamed(provider) == Some(Ollama) || ProviderNamed(provider).None?
  {
  }

  function ProviderTitle(p: Provider): string {
    match p
    case Claude => "Claude"
    case OpenAI => "OpenAI"
    case Ollama => "Ollama"
    case Gemini => "Gemini"
  }

  /** `validate_model`: Ollama takes any model; the others only the models of their allowlist. */
  function ValidateModel(p: Provider, model: string): (r: Result<(), string>)
    ensures p == Ollama ==> r.Ok?
    ensures p != Ollama ==> (r.Ok? <==> model in Allowlist(p))
    ensures r.Err? ==> r.error == "Model '" + model + "' is not in the allowed list for " + ProviderTitle(p)
                                  + ". Allowed: " + DebugList(Allowlist(p))
  {
    if p == Ollama || model in Allowlist(p) then Ok(())
    else Err("Model '" + model + "' is not in the allowed list for " + ProviderTitle(p) + ". Allowed: " + DebugList(Allowlist(p)))
  }

  /** The AI part of the configuration. */
  datatype AiConfig = AiConfig(provider: Provider, apiKey: Option<string>, model: string, baseUrl: Option<string>, saveModelAsDefault: bool)

  datatype CommitPreferences = CommitPreferences(language: string, style: string, maxLength: nat)

  datatype ChatMessage = ChatMessage(role: string, content: string)

  /** `build_commit_prompt`'s instructions, up to the fence that opens the diff. */
  function CommitPromptIntro(prefs: CommitPreferences): string {
    COMMIT_PROMPT_OPENING + CommitPromptSettings(prefs)
  }

  /** The line the prompt opens with. */
  const COMMIT_PROMPT_OPENING := "You are a helpful assistant that generates clear, concise git commit messages.\n\n"

  /** The preferences, stated once as settings and once as instructions. */
  function CommitPromptSettings(prefs: CommitPreferences): string {
    "Language: " + prefs.language + "\n"
      + "Style: " + prefs.style + "\n"
      + "Max length: " + NatToString(prefs.maxLength) + " characters\n\n"
      + "Based on the following git diff, generate a commit message that:\n"
      + "1. Clearly describes what changed\n"
      + "2. Follows the " + prefs.style + " style\n"
      + "3. Is written in " + prefs.language + "\n"
      + "4. Does not exceed " + NatToString(prefs.maxLength) + " characters\n\n"
      + "Git diff:\n"
  }

  /** The closing line after the fenced diff. */
  const COMMIT_PROMPT_CLOSING := "\n\nGenerate only the commit message, without any additional explanation or formatting."

  /** The diff as it sits in the prompt, between two fences. */
  function Fenced(diff: string): string {
    "```\n" + diff + "\n```"
  }

  /** `build_commit_prompt`: the instructions, then the diff inside a fenced block, then the closing line. */
  function BuildCommitPrompt(diff: string, prefs: CommitPreferences): (r: string)
    ensures StartsWith(r, COMMIT_PROMPT_OPENING)
    ensures Contains(r, Fenced(diff))
  {
    var r := CommitPromptIntro(prefs) + Fenced(diff) + COMMIT_PROMPT_CLOSING;
    FrontOfFour(COMMIT_PROMPT_OPENING, CommitPromptSettings(prefs), Fenced(diff), COMMIT_PROMPT_CLOSING);
    ContainsMiddle(CommitPromptIntro(prefs), Fenced(diff), COMMIT_PROMPT_CLOSING);
    r
  }

  lemma FrontOfFour(p: string, s: string, f: string, c: string)
    ensures StartsWith(p + s + f + c, p)
  {
    assert (p + s + f + c)[..|p|] == p;
  }

  /** The diff comes back out of the prompt: it is what lies between the two fences. */
  lemma PromptCarriesDiff(diff: string, prefs: CommitPreferences)
    ensures var r := BuildCommitPrompt(diff, prefs);
      var h := |CommitPromptIntro(prefs)| + 4;
      h + |diff| + 4 + |COMMIT_PROMPT_CLOSING| == |r| && r[h..h + |diff|] == diff
  {
    FenceAround(BuildCommitPrompt(diff, prefs), CommitPromptIntro(prefs), Fenced(diff), diff, COMMIT_PROMPT_CLOSING);
  }

  lemma FenceAround(r: string, a: string, f: string, d: string, c: string)
    requires f == "```\n" + d + "\n```" && r == a + f + c
    ensures var h := |a| + 4; h + |d| + 4 + |c| == |r| && r[h..h + |d|] == d
  {
    assert r == a + "```\n" + d + ("\n```" + c);
  }

  /** A request as the provider's HTTP call receives it. */
  datatype Request = Prompt(text: string) | Chat(messages: seq<ChatMessage>)

  /** The provider's HTTP endpoint, as the model sees it: a request gets an answer or an error. */
  type Backend = (Provider, Request) -> Result<string, string>

  /** A reply or error, and the requests that were actually sent. */
  datatype AiRun = AiRun(result: Result<string, string>, sent: seq<Request>)

  /** `generate_commit_message`: the model is checked before the prompt is even built. */
  function GenerateCommitMessage(config: AiConfig, diff: string, prefs: CommitPreferences, backend: Backend): (r: AiRun)
    ensures ValidateModel(config.provider, config.model).Err? ==>
      r == AiRun(Err(ValidateModel(config.provider, config.model).error), [])
    ensures ValidateModel(config.provider, config.model).Ok? ==>
      var req := Prompt(BuildCommitPrompt(diff, prefs));
      r == AiRun(backend(config.provider, req), [req])
  {
    match ValidateModel(config.provider, config.model)
    case Err(e) => AiRun(Err(e), [])
    case Ok(_) =>
      var req := Prompt(BuildCommitPrompt(diff, prefs));
      AiRun(backend(config.provider, req), [req])
  }

  /** `chat_with_ai`: the same check guards the conversation. */
  function ChatWithAi(config: AiConfig, messages: seq<ChatMessage>, backend: Backend): (r: AiRun)
    ensures ValidateModel(config.provider, config.model).Err? ==>
      r == AiRun(Err(ValidateModel(config.provider, config.model).error), [])
    ensures ValidateModel(config.provider, config.model).Ok? ==>
      r == AiRun(backend(config.provider, Chat(messages)), [Chat(messages)])
  {
    match ValidateModel(config.provider, config.model)
    case Err(e) => AiRun(Err(e), [])
    case Ok(_) => AiRun(backend(config.provider, Chat(messages)), [Chat(messages)])
  }

  /** Nothing leaves the machine for a model outside the allowlist, whichever the call. */
  lemma NoRequestForDisallowedModel(config: AiConfig, diff: string, prefs: CommitPreferences,
                                    messages: seq<ChatMessage>, backend: Backend)
    requires config.provider != Ollama && config.model !in Allowlist(config.provider)
    ensures GenerateCommitMessage(config, diff, prefs, backend).sent == []
    ensures ChatWithAi(config, messages, backend).sent == []
    ensures GenerateCommitMessage(config, diff, prefs, backend).result.Err?
  {
  }
}
