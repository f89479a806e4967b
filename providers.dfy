/**
 * The provider side of the AI service: the mutable store of provider settings, the
 * secret-free summary of it, and the order of checks `generateSqlQuery` makes before it
 * asks a completion endpoint for SQL. The endpoints themselves are an oracle: a
 * function from the request to the reply text or to the error the call raised.
 */
module Providers {
  import opened Wrappers
  import opened Text
  import opened SchemaModel
  import opened OrderedDict
  import Prompt
  import SqlValidator

  const DefaultOpenAiModel: string := "gpt-3.5-turbo"
  const DefaultClaudeModel: string := "claude-3-opus-20240229"
  /** `max_tokens` of both completion requests. */
  const MaxTokens: nat := 1000
  /** `temperature` of both completion requests; recorded, never reasoned about. */
  const Temperature: real := 0.1
  /** The `anthropic-version` header of the Claude request. */
  const AnthropicVersion: string := "2023-06-01"

  /** One provider's record; `None` is a field the record does not have. */
  datatype Config = Config(apiKey: Option<string>, model: Option<string>)

  /** The `config` argument of `updateModelConfig`: the fields it carries. */
  datatype ConfigPatch = ConfigPatch(apiKey: Option<string>, model: Option<string>)

  /** JavaScript truthiness of an optional string: present and non-empty. */
  predicate Truthy(s: Option<string>)
  {
    s.Some? && s.value != ""
  }

  /**
   * `{ ...old, ...patch }`: the fields the patch carries override, the others are
   * the old record's. Spreading a missing record contributes no field.
   */
  function Merge(prior: Option<Config>, patch: ConfigPatch): Config
  {
    var base := prior.GetOr(Config(None, None));
    Config(if patch.apiKey.Some? then patch.apiKey else base.apiKey,
           if patch.model.Some? then patch.model else base.model)
  }

  /** A patch carrying both fields replaces the record whatever it was. */
  lemma MergeFullPatch(prior: Option<Config>, patch: ConfigPatch)
    requires patch.apiKey.Some? && patch.model.Some?
    ensures Merge(prior, patch) == Config(patch.apiKey, patch.model)
  {
  }

  /** A field the patch does not carry keeps its old value; one it carries takes the new one. */
  lemma MergeFields(c: Config, patch: ConfigPatch)
    ensures patch.apiKey.None? ==> Merge(Some(c), patch).apiKey == c.apiKey
    ensures patch.model.None? ==> Merge(Some(c), patch).model == c.model
    ensures patch.apiKey.Some? ==> Merge(Some(c), patch).apiKey == patch.apiKey
    ensures patch.model.Some? ==> Merge(Some(c), patch).model == patch.model
  {
  }

  /** Applying the same patch twice is applying it once. */
  lemma MergeIdempotent(prior: Option<Config>, patch: ConfigPatch)
    ensures Merge(Some(Merge(prior, patch)), patch) == Merge(prior, patch)
  {
  }

  /** Two patches in a row act as one patch in which the second one's fields win. */
  function Then(first: ConfigPatch, second: ConfigPatch): ConfigPatch
  {
    ConfigPatch(if second.apiKey.Some? then second.apiKey else first.apiKey,
                if second.model.Some? then second.model else first.model)
  }

  lemma MergeThen(prior: Option<Config>, first: ConfigPatch, second: ConfigPatch)
    ensures Merge(Some(Merge(prior, first)), second) == Merge(prior, Then(first, second))
  {
  }

  /** What `getModelConfigs` reports for one provider. */
  datatype Summary = Summary(model: Option<string>, hasApiKey: bool)

  function Summarize(c: Config): Summary
  {
    Summary(c.model, Truthy(c.apiKey))
  }

  /**
   * `getModelConfigs()`: the two built-in providers, `openai` first, each with its model
   * and whether its key is set; providers added later are not reported.
   */
  function Summaries(configs: map<string, Config>): (r: Dict<Summary>)
    requires "openai" in configs && "claude" in configs
    ensures Keys(r) == ["openai", "claude"]
    ensures forall p :: p in configs && (p == "openai" || p == "claude") ==>
      Get(r, p) == Some(Summary(configs[p].model, Truthy(configs[p].apiKey)))
    ensures forall p :: p != "openai" && p != "claude" ==> Get(r, p).None?
  {
    var r := [("openai", Summarize(configs["openai"])), ("claude", Summarize(configs["claude"]))];
    assert Keys(r) == ["openai", "claude"];
    r
  }

  /**
   * The summary hides the keys: stores whose built-in providers agree on the model and
   * on whether a key is set give the same summary, whatever the keys are.
   */
  lemma SummariesHideKeys(a: map<string, Config>, b: map<string, Config>)
    requires "openai" in a && "claude" in a && "openai" in b && "claude" in b
    requires a["openai"].model == b["openai"].model && a["claude"].model == b["claude"].model
    requires Truthy(a["openai"].apiKey) == Truthy(b["openai"].apiKey)
    requires Truthy(a["claude"].apiKey) == Truthy(b["claude"].apiKey)
    ensures Summaries(a) == Summaries(b)
  {
  }

  /** The two completion services the code can call. */
  datatype Service = OpenAi | Claude

  /**
   * One completion request: service, model, key, the prompt as the one user message,
   * limits, and the `anthropic-version` header, which only the Claude request has.
   */
  datatype Request = Request(
    service: Service, model: Option<string>, apiKey: Option<string>,
    prompt: string, maxTokens: nat, temperature: real, version: Option<string>)

  /** The errors `generateSqlQuery` raises; `RequestFailed` is whatever the call threw. */
  datatype GenError =
    | NoSchema
    | MissingApiKey(service: Service)
    | UnsupportedProvider(provider: string)
    | RequestFailed(reason: string)

  /** The message of the `Error` thrown for `e`; a failed call rethrows its own error. */
  function ErrorMessage(e: GenError): string
  {
    match e
    case NoSchema => "No database schema information available"
    case MissingApiKey(OpenAi) => "OpenAI API key not configured"
    case MissingApiKey(Claude) => "Claude API key not configured"
    case UnsupportedProvider(p) => UnsupportedPrefix + p
    case RequestFailed(reason) => reason
  }

  const UnsupportedPrefix: string := "Unsupported AI provider: "

  /**
   * The message of an error raised before any request tells which check failed, and for
   * an unsupported provider which name was refused.
   */
  lemma ErrorMessageIdentifies(e1: GenError, e2: GenError)
    requires !e1.RequestFailed? && !e2.RequestFailed?
    requires ErrorMessage(e1) == ErrorMessage(e2)
    ensures e1 == e2
  {
    var m := ErrorMessage(e1);
    if e1.UnsupportedProvider? && e2.UnsupportedProvider? {
      assert m[|UnsupportedPrefix|..] == e1.provider;
      assert m[|UnsupportedPrefix|..] == e2.provider;
    } else {
      assert m[0] == ErrorMessage(e2)[0];
      assert m[1] == ErrorMessage(e2)[1];
    }
  }

  /** `!databaseSchema || Object.keys(databaseSchema).length === 0`. */
  predicate NoTables(schema: Option<Schema>)
  {
    schema.None? || |schema.value| == 0
  }

  /** `provider = 'openai'` for a missing argument. */
  function ProviderName(provider: Option<string>): string
  {
    provider.GetOr("openai")
  }

  /**
   * The checks of `generateSqlQuery` up to the network call: the request it sends, or the
   * error it raises before sending anything. The OpenAI request carries the key the
   * OpenAI client was created with; the Claude request the stored key.
   */
  function Plan(configs: map<string, Config>, clientKey: Option<string>, question: string,
                schema: Option<Schema>, provider: Option<string>): Result<Request, GenError>
  {
    if NoTables(schema) then Err(NoSchema)
    else
      var prompt := Prompt.BuildPrompt(schema.value, question);
      var name := ProviderName(provider);
      if name == "openai" then
        var c := if "openai" in configs then configs["openai"] else Config(None, None);
        if !Truthy(c.apiKey) then Err(MissingApiKey(OpenAi))
        else Ok(Request(OpenAi, c.model, clientKey, prompt, MaxTokens, Temperature, None))
      else if name == "claude" then
        var c := if "claude" in configs then configs["claude"] else Config(None, None);
        if !Truthy(c.apiKey) then Err(MissingApiKey(Claude))
        else Ok(Request(Claude, c.model, c.apiKey, prompt, MaxTokens, Temperature, Some(AnthropicVersion)))
      else Err(UnsupportedProvider(name))
  }

  /** The outcome: the planned request's reply, trimmed, or the error. */
  function Generate(configs: map<string, Config>, clientKey: Option<string>, question: string,
                    schema: Option<Schema>, provider: Option<string>,
                    complete: Request -> Result<string, string>): Result<string, GenError>
  {
    match Plan(configs, clientKey, question, schema, provider)
    case Err(e) => Err(e)
    case Ok(request) =>
      match complete(request)
      case Err(reason) => Err(RequestFailed(reason))
      case Ok(text) => Ok(Trim(text))
  }

  /** Without a table the call fails first, whatever the provider and its settings. */
  lemma NoSchemaFirst(configs: map<string, Config>, clientKey: Option<string>, question: string,
                      schema: Option<Schema>, provider: Option<string>)
    ensures Plan(configs, clientKey, question, schema, provider) == Err(NoSchema) <==> NoTables(schema)
  {
  }

  /**
   * With tables, a provider other than the two built-in ones is refused by name even
   * when the store has settings for it.
   */
  lemma UnsupportedIff(configs: map<string, Config>, clientKey: Option<string>, question: string,
                       schema: Option<Schema>, provider: Option<string>)
    requires !NoTables(schema)
    ensures Plan(configs, clientKey, question, schema, provider).Err?
      && Plan(configs, clientKey, question, schema, provider).error.UnsupportedProvider?
      <==> ProviderName(provider) != "openai" && ProviderName(provider) != "claude"
    ensures ProviderName(provider) != "openai" && ProviderName(provider) != "claude" ==>
      Plan(configs, clientKey, question, schema, provider) == Err(UnsupportedProvider(ProviderName(provider)))
  {
  }

  /** With tables, a built-in provider whose key is missing or empty is refused before any request. */
  lemma MissingKeyIff(configs: map<string, Config>, clientKey: Option<string>, question: string,
                      schema: Option<Schema>, provider: Option<string>, service: Service)
    requires !NoTables(schema) && "openai" in configs && "claude" in configs
    requires ProviderName(provider) == (if service == OpenAi then "openai" else "claude")
    ensures Plan(configs, clientKey, question, schema, provider) == Err(MissingApiKey(service))
      <==> !Truthy(configs[ProviderName(provider)].apiKey)
  {
  }

  /**
   * A request is only planned for a built-in provider with a key, and it carries that
   * provider's model, the prompt for the schema and question, and the fixed limits.
   */
  lemma PlannedRequest(configs: map<string, Config>, clientKey: Option<string>, question: string,
                       schema: Option<Schema>, provider: Option<string>)
    requires "openai" in configs && "claude" in configs
    requires Plan(configs, clientKey, question, schema, provider).Ok?
    ensures var r := Plan(configs, clientKey, question, schema, provider).value;
      var name := ProviderName(provider);
      && !NoTables(schema)
      && (name == "openai" || name == "claude")
      && r.service == (if name == "openai" then OpenAi else Claude)
      && Truthy(configs[name].apiKey)
      && r.model == configs[name].model
      && r.apiKey == (if name == "openai" then clientKey else configs[name].apiKey)
      && r.prompt == Prompt.BuildPrompt(schema.value, question)
      && r.maxTokens == MaxTokens && r.temperature == Temperature
      && r.version == (if name == "claude" then Some(AnthropicVersion) else None)
  {
  }

  /** The SQL handed back is the reply without surrounding whitespace. */
  lemma GeneratedIsTrimmed(configs: map<string, Config>, clientKey: Option<string>, question: string,
                           schema: Option<Schema>, provider: Option<string>,
                           complete: Request -> Result<string, string>)
    requires Generate(configs, clientKey, question, schema, provider, complete).Ok?
    ensures var sql := Generate(configs, clientKey, question, schema, provider, complete).value;
      Trim(sql) == sql && (sql == [] || (!IsSpace(sql[0]) && !IsSpace(sql[|sql| - 1])))
  {
    var request := Plan(configs, clientKey, question, schema, provider).value;
    TrimIdempotent(complete(request).value);
  }

  /**
   * The module-level `modelConfigs` object and the OpenAI client built from it. The
   * client is rebuilt with the stored OpenAI key whenever the OpenAI settings change,
   * so it always holds that key.
   */
  class ConfigStore {
    var configs: map<string, Config>
    var openAiClientKey: Option<string>

    predicate Valid()
      reads this
    {
      && "openai" in configs && "claude" in configs
      && openAiClientKey == configs["openai"].apiKey
    }

    /** The initial store: each key from the environment or empty, and the default models. */
    constructor(openAiEnvKey: Option<string>, claudeEnvKey: Option<string>)
      ensures Valid()
      ensures configs == map[
        "openai" := Config(Some(if Truthy(openAiEnvKey) then openAiEnvKey.value else ""), Some(DefaultOpenAiModel)),
        "claude" := Config(Some(if Truthy(claudeEnvKey) then claudeEnvKey.value else ""), Some(DefaultClaudeModel))]
    {
      var openAiKey := if Truthy(openAiEnvKey) then openAiEnvKey.value else "";
      var claudeKey := if Truthy(claudeEnvKey) then claudeEnvKey.value else "";
      configs := map["openai" := Config(Some(openAiKey), Some(DefaultOpenAiModel)),
                     "claude" := Config(Some(claudeKey), Some(DefaultClaudeModel))];
      openAiClientKey := Some(openAiKey);
    }

    /**
     * `updateModelConfig(provider, config)`: refuses a falsy provider or config and
     * changes nothing; otherwise merges the patch into that provider's record, which it
     * creates when missing, and leaves every other provider as it was.
     */
    method UpdateModelConfig(provider: string, config: Option<ConfigPatch>) returns (ok: bool)
      requires Valid()
      modifies this
      ensures Valid()
      ensures ok <==> provider != "" && config.Some?
      ensures !ok ==> configs == old(configs) && openAiClientKey == old(openAiClientKey)
      ensures ok ==> configs == old(configs)[provider :=
        Merge(if provider in old(configs) then Some(old(configs)[provider]) else None, config.value)]
    {
      if provider == "" || config.None? {
        return false;
      }
      var current := if provider in configs then Some(configs[provider]) else None;
      configs := configs[provider := Merge(current, config.value)];
      if provider == "openai" {
        openAiClientKey := configs["openai"].apiKey;
      }
      return true;
    }

    /** `getModelConfigs()`. */
    function GetModelConfigs(): (r: Dict<Summary>)
      reads this
      requires Valid()
      ensures r == Summaries(configs)
    {
      Summaries(configs)
    }

    /**
     * `generateSqlQuery(question, schema, provider)`: the checks, at most one request to
     * the oracle, the trimmed reply, and a validation of it whose report is only logged.
     */
    method GenerateSql(question: string, schema: Option<Schema>, provider: Option<string>,
                       complete: Request -> Result<string, string>)
      returns (result: Result<string, GenError>, sent: seq<Request>)
      requires Valid()
      ensures result == Generate(configs, openAiClientKey, question, schema, provider, complete)
      ensures sent == if Plan(configs, openAiClientKey, question, schema, provider).Ok?
        then [Plan(configs, openAiClientKey, question, schema, provider).value] else []
    {
      sent := [];
      if schema.None? || |schema.value| == 0 {
        return Err(NoSchema), sent;
      }
      var prompt := Prompt.BuildPrompt(schema.value, question);
      var name := if provider.Some? then provider.value else "openai";
      var request;
      if name == "openai" {
        var c := configs["openai"];
        if !Truthy(c.apiKey) {
          return Err(MissingApiKey(OpenAi)), sent;
        }
        request := Request(OpenAi, c.model, openAiClientKey, prompt, MaxTokens, Temperature, None);
      } else if name == "claude" {
        var c := configs["claude"];
        if !Truthy(c.apiKey) {
          return Err(MissingApiKey(Claude)), sent;
        }
        request := Request(Claude, c.model, c.apiKey, prompt, MaxTokens, Temperature, Some(AnthropicVersion));
      } else {
        return Err(UnsupportedProvider(name)), sent;
      }
      sent := [request];
      match complete(request) {
        case Err(reason) =>
          return Err(RequestFailed(reason)), sent;
        case Ok(text) =>
          var sql := Trim(text);
          var report := SqlValidator.ValidateGeneratedSql(sql, schema.value);
          return Ok(sql), sent;
      }
    }
  }

  /** Under the store's invariant, the OpenAI request carries the stored OpenAI key. */
  lemma OpenAiRequestUsesStoredKey(configs: map<string, Config>, clientKey: Option<string>, question: string,
                                   schema: Option<Schema>, provider: Option<string>)
    requires "openai" in configs && clientKey == configs["openai"].apiKey
    requires Plan(configs, clientKey, question, schema, provider).Ok?
    ensures Plan(configs, clientKey, question, schema, provider).value.apiKey == configs[ProviderName(provider)].apiKey
  {
  }
}
