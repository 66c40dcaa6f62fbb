/** The language-model provider registry: which providers are registered
    from the configured API keys, which provider owns a model name, what is
    available, the client request a model name resolves to, and how a chat
    log is mapped onto the client's message kinds. The clients themselves
    and the completion call are outside the model. */
module Providers {
  import opened Errors
  import opened Schema
  import opened Gateway
  import opened Base
  import opened Domain
  import opened Text

  /** The registry key of each provider. */
  function ProviderName(p: Provider): string {
    match p
    case OpenAI => "openai"
    case Anthropic => "anthropic"
    case Gemini => "gemini"
    case Mistral => "mistral"
    case Groq => "groq"
  }

  lemma ProviderNamesDistinct(p: Provider, q: Provider)
    ensures ProviderName(p) == ProviderName(q) <==> p == q
  {
  }

  /** The order in which providers are tried for registration. */
  const RegistrationOrder: seq<Provider> := [OpenAI, Anthropic, Gemini, Mistral, Groq]

  /** Each provider's fixed model catalogue. */
  function Catalogue(p: Provider): seq<string> {
    match p
    case OpenAI => ["gpt-4o", "gpt-4o-mini", "gpt-4-turbo", "gpt-4", "gpt-3.5-turbo"]
    case Anthropic =>
      ["claude-3-5-sonnet-20241022", "claude-3-5-haiku-20241022", "claude-3-opus-20240229",
       "claude-3-sonnet-20240229", "claude-3-haiku-20240307"]
    case Gemini => ["gemini-1.5-pro", "gemini-1.5-flash", "gemini-pro"]
    case Mistral =>
      ["mistral-large-latest", "mistral-medium-latest", "mistral-small-latest",
       "open-mistral-7b", "open-mixtral-8x7b", "open-mixtral-8x22b"]
    case Groq => ["mixtral-8x7b-32768", "llama2-70b-4096", "llama3-70b-8192", "llama3-8b-8192", "gemma-7b-it"]
  }

  /** No model name is offered by two providers, so the owner of a name does
      not depend on the order providers were registered in. */
  lemma CataloguesDisjoint(p: Provider, q: Provider, model: string)
    requires model in Catalogue(p) && model in Catalogue(q)
    ensures p == q
  {
    MakerOwns(p, model);
    MakerOwns(q, model);
  }

  /** The provider a catalogued model name belongs to, read off its first
      letters. */
  function Maker(model: string): Provider {
    if |model| < 4 || model[0] == 'c' then Anthropic
    else if model[0] == 'l' || (model[0] == 'm' && model[2] == 'x') then Groq
    else if model[0] == 'm' || model[0] == 'o' then Mistral
    else if model[1] == 'p' then OpenAI
    else if model[3] == 'i' then Gemini
    else Groq
  }

  lemma MakerOwns(p: Provider, model: string)
    requires model in Catalogue(p)
    ensures Maker(model) == p
  {
    match p
    case OpenAI => OpenAIMaker(model);
    case Anthropic => AnthropicMaker(model);
    case Gemini => GeminiMaker(model);
    case Mistral => MistralMaker(model);
    case Groq => GroqMaker(model);
  }

  lemma OpenAIMaker(model: string) requires model in Catalogue(OpenAI) ensures Maker(model) == OpenAI {}
  lemma AnthropicMaker(model: string) requires model in Catalogue(Anthropic) ensures Maker(model) == Anthropic {}
  lemma GeminiMaker(model: string) requires model in Catalogue(Gemini) ensures Maker(model) == Gemini {}
  lemma MistralMaker(model: string) requires model in Catalogue(Mistral) ensures Maker(model) == Mistral {}
  lemma GroqMaker(model: string) requires model in Catalogue(Groq) ensures Maker(model) == Groq {}

  /** A registered provider and the key it was built with. */
  datatype Registered = Registered(provider: Provider, apiKey: string)

  /** `is_configured()`: the key is truthy. */
  predicate IsConfigured(r: Registered) {
    r.apiKey != ""
  }

  /** The manager: the settings it loaded and its providers in registration
      order (a dictionary keyed by provider name keeps insertion order). */
  datatype Manager = Manager(settings: Settings, providers: seq<Registered>)

  /** The providers of `ps` holding a truthy key in `st`, in the order of `ps`. */
  function Register(st: Settings, ps: seq<Provider>): (rs: seq<Registered>)
    ensures |rs| <= |ps|
    ensures forall r <- rs :: r.provider in ps && KeyOf(st, r.provider) == Some(r.apiKey) && IsConfigured(r)
    ensures forall p <- ps :: Truthy(KeyOf(st, p)) ==> Registered(p, KeyOf(st, p).value) in rs
  {
    if |ps| == 0 then []
    else
      var rest := Register(st, ps[1..]);
      if Truthy(KeyOf(st, ps[0])) then [Registered(ps[0], KeyOf(st, ps[0]).value)] + rest else rest
  }

  /** `_initialize_providers()`: a provider is registered exactly when its
      key is truthy, with that key. */
  function InitializeProviders(st: Settings): (rs: seq<Registered>)
    ensures forall r <- rs :: KeyOf(st, r.provider) == Some(r.apiKey) && IsConfigured(r)
    ensures forall p :: Truthy(KeyOf(st, p)) ==> Registered(p, KeyOf(st, p).value) in rs
    ensures forall p :: Truthy(KeyOf(st, p)) <==> exists r <- rs :: r.provider == p
  {
    EveryProviderIsTried();
    Register(st, RegistrationOrder)
  }

  lemma EveryProviderIsTried()
    ensures forall p :: p in RegistrationOrder
  {
    forall p ensures p in RegistrationOrder {
      match p
      case OpenAI => assert RegistrationOrder[0] == p;
      case Anthropic => assert RegistrationOrder[1] == p;
      case Gemini => assert RegistrationOrder[2] == p;
      case Mistral => assert RegistrationOrder[3] == p;
      case Groq => assert RegistrationOrder[4] == p;
    }
  }

  /** Registration follows the fixed order and never registers a provider
      twice. */
  lemma {:induction false} RegisterKeepsOrder(st: Settings, ps: seq<Provider>)
    requires Distinct(ps)
    ensures Distinct(Providers(Register(st, ps)))
    ensures IsSubsequence(Providers(Register(st, ps)), ps)
  {
    if |ps| > 0 {
      assert Distinct(ps[1..]) by {
        forall i, j | 0 <= i < j < |ps[1..]| ensures ps[1..][i] != ps[1..][j] {
          assert ps[1..][i] == ps[i + 1] && ps[1..][j] == ps[j + 1];
        }
      }
      RegisterKeepsOrder(st, ps[1..]);
      var rest := Register(st, ps[1..]);
      if Truthy(KeyOf(st, ps[0])) {
        forall k | 0 <= k < |ps[1..]| ensures ps[1..][k] != ps[0] {
          assert ps[1..][k] == ps[k + 1];
        }
        forall k | 0 <= k < |rest| ensures Providers(rest)[k] != ps[0] {
          assert rest[k] in rest;
        }
        assert Providers(Register(st, ps)) == [ps[0]] + Providers(rest);
        assert ([ps[0]] + Providers(rest))[1..] == Providers(rest);
      } else {
        SubsequenceSkip(Providers(rest), ps);
      }
    }
  }

  function Providers(rs: seq<Registered>): (ps: seq<Provider>)
    ensures |ps| == |rs|
    ensures forall i :: 0 <= i < |rs| ==> ps[i] == rs[i].provider
  {
    seq(|rs|, i requires 0 <= i < |rs| => rs[i].provider)
  }

  /** `ModelManager()`: the settings loaded from the store, then the
      providers registered from them. */
  function NewManager(s: Store): (m: Manager)
    ensures m.settings == LoadRecord(s)
    ensures forall p :: Truthy(KeyOf(m.settings, p)) <==> exists r <- m.providers :: r.provider == p
  {
    var st := LoadRecord(s);
    Manager(st, InitializeProviders(st))
  }

  /** `refresh_settings()`: reload, drop every registered provider, register
      afresh; nothing of the old registry survives. */
  function Refresh(m: Manager, s: Store): (r: Manager)
    ensures r.settings == LoadRecord(s)
    ensures forall x <- r.providers :: KeyOf(r.settings, x.provider) == Some(x.apiKey)
    ensures forall p :: Truthy(KeyOf(r.settings, p)) <==> exists x <- r.providers :: x.provider == p
  {
    var st := LoadRecord(s);
    Manager(st, InitializeProviders(st))
  }

  /** A refresh yields the registry a fresh manager would build. */
  lemma RefreshForgetsOldProviders(m: Manager, m': Manager, s: Store)
    ensures Refresh(m, s) == Refresh(m', s) == NewManager(s)
  {
  }

  // ---------------------------------------------------------------------
  // Lookup

  /** Position of the first registered provider whose catalogue lists
      `model`, or the registry's length when none does. */
  function OwnerIndex(rs: seq<Registered>, model: string): (i: nat)
    ensures i <= |rs|
    ensures forall j :: 0 <= j < i ==> model !in Catalogue(rs[j].provider)
    ensures i < |rs| ==> model in Catalogue(rs[i].provider)
  {
    if |rs| == 0 || model in Catalogue(rs[0].provider) then 0
    else
      var k := OwnerIndex(rs[1..], model);
      assert forall j :: 1 <= j < 1 + k ==> rs[j] == rs[1..][j - 1];
      1 + k
  }

  /** `_get_provider_for_model()`: the first registered provider offering
      the model, if any. */
  function ProviderForModel(m: Manager, model: string): (r: Option<Registered>)
    ensures r.None? <==> forall x <- m.providers :: model !in Catalogue(x.provider)
    ensures r.Some? ==> r.value in m.providers && model in Catalogue(r.value.provider)
    ensures r.Some? ==> exists i :: (0 <= i < |m.providers| && m.providers[i] == r.value
      && forall j :: 0 <= j < i ==> model !in Catalogue(m.providers[j].provider))
  {
    var i := OwnerIndex(m.providers, model);
    if i < |m.providers| then Some(m.providers[i])
    else
      assert forall x <- m.providers :: model !in Catalogue(x.provider) by {
        forall x <- m.providers ensures model !in Catalogue(x.provider) {
          var j :| 0 <= j < |m.providers| && m.providers[j] == x;
        }
      }
      None
  }

  /** With disjoint catalogues the first match is the only match. */
  lemma OwnerIsUnique(m: Manager, model: string, x: Registered)
    requires x in m.providers && model in Catalogue(x.provider)
    ensures ProviderForModel(m, model).Some?
    ensures ProviderForModel(m, model).value.provider == x.provider
  {
    CataloguesDisjoint(ProviderForModel(m, model).value.provider, x.provider, model);
  }

  /** `is_model_available()`: some registered provider offers the model and
      is configured. */
  function IsModelAvailable(m: Manager, model: string): (b: bool)
    ensures b ==> exists x <- m.providers :: model in Catalogue(x.provider) && IsConfigured(x)
    ensures (forall x <- m.providers :: IsConfigured(x)) ==>
      (b <==> exists x <- m.providers :: model in Catalogue(x.provider))
  {
    var owner := ProviderForModel(m, model);
    owner.Some? && IsConfigured(owner.value)
  }

  /** For a manager built from settings, a model is available exactly when
      a provider holding a truthy key offers it. */
  lemma AvailableIffKeyed(s: Store, model: string)
    ensures var m := NewManager(s);
      IsModelAvailable(m, model) <==> exists p :: Truthy(KeyOf(m.settings, p)) && model in Catalogue(p)
  {
    var m := NewManager(s);
    if p :| Truthy(KeyOf(m.settings, p)) && model in Catalogue(p) {
      var x :| x in m.providers && x.provider == p;
      OwnerIsUnique(m, model, x);
    }
  }

  /** One provider's entry in `get_available_models()`. */
  datatype Offer = Offer(name: string, models: seq<string>)

  /** Every registered provider's name with its catalogue, in registration
      order. */
  function AllOffers(ps: seq<Registered>): (r: seq<Offer>)
    ensures |r| == |ps|
    ensures forall i :: 0 <= i < |ps| ==> r[i] == Offer(ProviderName(ps[i].provider), Catalogue(ps[i].provider))
  {
    seq(|ps|, i requires 0 <= i < |ps| => Offer(ProviderName(ps[i].provider), Catalogue(ps[i].provider)))
  }

  /** `get_available_models()`: each configured provider's name with its
      catalogue, in registration order. */
  function GetAvailableModels(m: Manager): (r: seq<Offer>)
    decreases |m.providers|
    ensures |r| <= |m.providers|
    ensures IsSubsequence(r, AllOffers(m.providers))
    ensures forall o <- r :: exists x <- m.providers ::
      (IsConfigured(x) && o == Offer(ProviderName(x.provider), Catalogue(x.provider)))
    ensures forall x <- m.providers :: IsConfigured(x) ==> Offer(ProviderName(x.provider), Catalogue(x.provider)) in r
  {
    if |m.providers| == 0 then []
    else
      var x := m.providers[0];
      var rest := GetAvailableModels(m.(providers := m.providers[1..]));
      assert AllOffers(m.providers)[1..] == AllOffers(m.providers[1..]);
      if IsConfigured(x) then
        assert ([Offer(ProviderName(x.provider), Catalogue(x.provider))] + rest)[1..] == rest;
        [Offer(ProviderName(x.provider), Catalogue(x.provider))] + rest
      else
        SubsequenceSkip(rest, AllOffers(m.providers));
        rest
  }

  /** `get_configured_providers()`: the names of the configured providers,
      in registration order. */
  function GetConfiguredProviders(m: Manager): (r: seq<string>)
    decreases |m.providers|
    ensures |r| <= |m.providers|
    ensures forall n <- r :: exists x <- m.providers :: IsConfigured(x) && n == ProviderName(x.provider)
    ensures forall x <- m.providers :: IsConfigured(x) ==> ProviderName(x.provider) in r
  {
    if |m.providers| == 0 then []
    else
      var x := m.providers[0];
      var rest := GetConfiguredProviders(m.(providers := m.providers[1..]));
      if IsConfigured(x) then [ProviderName(x.provider)] + rest else rest
  }

  /** Since only truthy keys are registered, every registered provider is
      configured and the configured names are all the registered names. */
  lemma {:induction false} ConfiguredAreRegistered(rs: seq<Registered>, st: Settings)
    requires forall r <- rs :: IsConfigured(r)
    ensures GetConfiguredProviders(Manager(st, rs)) == seq(|rs|, i requires 0 <= i < |rs| => ProviderName(rs[i].provider))
  {
    if |rs| > 0 {
      ConfiguredAreRegistered(rs[1..], st);
    }
  }

  // ---------------------------------------------------------------------
  // Client requests

  /** What a client is built from; the temperature is not modelled. */
  datatype Client = Client(provider: Provider, apiKey: string, model: string, maxTokens: int)

  /** `get_model_client()`: the owning provider must be registered and
      configured; the token limit is the argument when given, else the
      settings' limit. */
  function GetModelClient(m: Manager, model: string, maxTokens: Option<int>): (r: Result<Client>)
    ensures ProviderForModel(m, model).None? ==> r == Err(Configuration(NoProviderForModel(model)))
    ensures r.Ok? <==> IsModelAvailable(m, model)
    ensures r.Err? && ProviderForModel(m, model).Some? ==>
      r.error == Configuration(ProviderNotConfigured(ProviderName(ProviderForModel(m, model).value.provider)))
    ensures r.Ok? ==>
      && r.value.model == model
      && Registered(r.value.provider, r.value.apiKey) in m.providers
      && model in Catalogue(r.value.provider)
      && r.value.maxTokens == (if maxTokens.Some? then maxTokens.value else m.settings.maxTokens)
  {
    match ProviderForModel(m, model)
    case None => Err(Configuration(NoProviderForModel(model)))
    case Some(x) =>
      if !IsConfigured(x) then Err(Configuration(ProviderNotConfigured(ProviderName(x.provider))))
      else
        var tokens := if maxTokens.Some? then maxTokens.value else m.settings.maxTokens;
        Ok(Client(x.provider, x.apiKey, model, tokens))
  }

  // ---------------------------------------------------------------------
  // Chat messages

  datatype ChatMessage = SystemMessage(content: string) | HumanMessage(content: string) | AIMessage(content: string)

  /** `message.get(key, default)`. */
  function Field(msg: Message, key: string, default: string): (v: string)
    ensures key in msg ==> v == msg[key]
    ensures key !in msg ==> v == default
  {
    if key in msg then msg[key] else default
  }

  function ConvertMessage(msg: Message): ChatMessage {
    var role := Field(msg, "role", "user");
    var content := Field(msg, "content", "");
    if role == "system" then SystemMessage(content)
    else if role == "assistant" then AIMessage(content)
    else HumanMessage(content)
  }

  /** The role mapping of `chat_completion`: one message per entry, in
      order, carrying the entry's content (empty when missing); a system or
      assistant role keeps its kind and any other role, a missing one
      included, becomes a human message. */
  function ConvertMessages(msgs: seq<Message>): (r: seq<ChatMessage>)
    ensures |r| == |msgs|
    ensures forall i :: 0 <= i < |msgs| ==> r[i].content == Field(msgs[i], "content", "")
    ensures forall i :: 0 <= i < |msgs| ==>
      (r[i].SystemMessage? <==> "role" in msgs[i] && msgs[i]["role"] == "system")
    ensures forall i :: 0 <= i < |msgs| ==>
      (r[i].AIMessage? <==> "role" in msgs[i] && msgs[i]["role"] == "assistant")
    ensures forall i :: 0 <= i < |msgs| ==>
      (r[i].HumanMessage? <==> "role" !in msgs[i] || msgs[i]["role"] !in {"system", "assistant"})
  {
    seq(|msgs|, i requires 0 <= i < |msgs| => ConvertMessage(msgs[i]))
  }

  /** What `chat_completion` hands to the client. */
  datatype Request = Request(client: Client, messages: seq<ChatMessage>)

  /** `chat_completion()` up to the client call: the model is the argument
      when truthy, else the settings' default; a client error is raised
      unchanged. */
  function ChatRequest(m: Manager, msgs: seq<Message>, modelName: Option<string>, maxTokens: Option<int>): (r: Result<Request>)
    ensures var model := if Truthy(modelName) then modelName.value else m.settings.defaultModel;
      && (r.Ok? <==> IsModelAvailable(m, model))
      && (r.Ok? ==> r.value.client.model == model && r.value.messages == ConvertMessages(msgs))
      && (r.Err? ==> r.error.Configuration?)
  {
    var model := if Truthy(modelName) then modelName.value else m.settings.defaultModel;
    var client :- GetModelClient(m, model, maxTokens);
    Ok(Request(client, ConvertMessages(msgs)))
  }

  /** The settings' own key check agrees with the registry: Gemini is
      registered exactly when the settings report a Gemini key. */
  lemma GeminiRegisteredIffKeyed(st: Settings)
    ensures HasApiKey(st, "gemini") <==> exists x <- InitializeProviders(st) :: x.provider == Gemini
  {
    assert Lower("gemini") == "gemini";
    var rs := InitializeProviders(st);
    assert Truthy(KeyOf(st, Gemini)) <==> exists x <- rs :: x.provider == Gemini;
  }

  /** Of the default settings' keys, only Gemini's is set. */
  lemma DefaultKeys(st: Settings)
    requires st == DefaultSettings
    ensures forall p :: Truthy(KeyOf(st, p)) <==> p == Gemini
  {
  }

  /** The default settings make Gemini models usable and nothing else. */
  lemma DefaultsOfferGeminiOnly(s: Store, model: string)
    requires !s.online
    ensures IsModelAvailable(NewManager(s), model) <==> model in Catalogue(Gemini)
  {
    var m := NewManager(s);
    DefaultKeys(m.settings);
    AvailableIffKeyed(s, model);
  }

  /** Without a stored settings record, a chat with no model named goes to
      the default Gemini model and is accepted. */
  lemma DefaultsAcceptChat(s: Store)
    requires !s.online
    ensures ChatRequest(NewManager(s), [], None, None).Ok?
  {
    assert NewManager(s).settings.defaultModel == Catalogue(Gemini)[0];
    DefaultsOfferGeminiOnly(s, Catalogue(Gemini)[0]);
  }
}
