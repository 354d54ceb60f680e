/** src/router.ts: which branch of routeModelInternal a model id takes, before any redirect. */
module RouteDecision {

  datatype Option<+T> = None | Some(value: T)

  const OPENAI: string := "openai"
  const LEGACY_CHATGPT: string := "chatgpt"
  const LEGACY_OPENAI_MULTI: string := "openai-multi"
  const ANTHROPIC2: string := "anthropic2"

  datatype AuthMode = KeyAuth | OAuth | Forward | LocalAuth

  datatype Provider = Provider(
    disabled: bool, authMode: Option<AuthMode>, alias: Option<string>, defaultModel: Option<string>,
    models: seq<string>)

  datatype Target = Target(provider: string, model: string)

  datatype PolicyOutcome = NothingEligible | Selected(target: Target)

  datatype ComboOutcome = NoCombo | ComboFails | Picked(target: Target)

  /**
   * The routing configuration. What the router asks of other modules is an arbitrary function of the
   * question: registry facts, credentials, policy evaluation, combo picks and model codecs.
   */
  datatype Config = Config(
    names: seq<string>, rows: map<string, Provider>, defaultProvider: string,
    redirects: map<string, string>, accounts: map<string, string>, physicalCombos: bool,
    policyFor: string -> Option<string>, hasProfile: string -> bool, evaluate: string -> PolicyOutcome,
    eligible: (string, Target) -> bool, pick: string -> ComboOutcome,
    credentialed: string -> bool, canonicalForward: Provider -> bool, pool2Shape: Provider -> bool,
    known: string -> seq<string>, decode: (string, string) -> Option<string>,
    modelAlias: (string, string) -> Option<string>,
    encode: string -> string, lower: string -> string, trim: string -> string, registryAlias: string -> Option<string>,
    internalModels: set<string>)

  datatype RouteKind = PolicyKind | ComboKind | ExplicitProvider | ExplicitAccount | Native | DefaultProvider

  datatype RouteReason =
    | PolicySelected | ComboPick | AccountNamespace | ExplicitNamespace | NativeFamily | CompactionDefault
    | ConfiguredDefaultModel | ModelPattern | ConfiguredModelList | ModelAlias | DefaultReason | BlockedModelRedirect

  datatype RouteError =
    | UnknownPolicy | NoEligibleCandidate | OnlyNativeModels | NoEnabledOpenAi | RedirectLeavesAccount
    | ComboUnavailable | Pool2Unavailable | AmbiguousProviderAlias | NoProviderConfigured | ProviderDisabled
    | AmbiguousModelId | AmbiguousModelAlias | RedirectCycle | RedirectTooDeep

  /** Where one pass over the branches leads. */
  datatype Decision =
    | Refuse(error: RouteError)
    | ViaPolicy(policyId: string, target: Target)
    | ViaCombo(target: Target)
    | ToAccount(model: string, accountId: string)
    | ToProvider(provider: string, model: string, kind: RouteKind, reason: RouteReason)

  // ---------- small readers

  /** `id.indexOf("/")`; -1 when there is none. */
  function SlashAt(id: string): (i: int)
    ensures -1 <= i < |id|
    ensures i >= 0 ==> id[i] == '/' && '/' !in id[..i]
    ensures i == -1 ==> '/' !in id
  {
    if id == "" then -1
    else if id[0] == '/' then 0
    else
      var i := SlashAt(id[1..]);
      assert id == [id[0]] + id[1..];
      if i == -1 then -1 else (assert id[..i + 1] == [id[0]] + id[1..][..i]; i + 1)
  }

  function Qualified(t: Target): string {
    t.provider + "/" + t.model
  }

  predicate Enabled(c: Config, name: string) {
    name in c.rows && !c.rows[name].disabled
  }

  predicate IsPool2(c: Config, name: string) {
    name == ANTHROPIC2 && name in c.rows && c.pool2Shape(c.rows[name])
  }

  predicate BareOpenAiFamily(c: Config, id: string) {
    && '/' !in id
    && ("gpt-" <= id || "o1-" <= id || "o3-" <= id || "o4-" <= id || id in c.internalModels)
  }

  /** The rows, in insertion order, that satisfy `keep`. */
  function Rows(c: Config, names: seq<string>, keep: string -> bool): (r: seq<string>)
    ensures forall n :: n in r <==> n in names && n in c.rows && keep(n)
  {
    if names == [] then []
    else
      var rest := Rows(c, names[1..], keep);
      assert names == [names[0]] + names[1..];
      if names[0] in c.rows && keep(names[0]) then [names[0]] + rest else rest
  }

  /** A row that competes in the inference for plain ids. */
  predicate Active(c: Config, name: string) {
    name != LEGACY_CHATGPT && Enabled(c, name) && !IsPool2(c, name)
  }

  function ActiveProviders(c: Config): (r: seq<string>)
    ensures forall n :: n in r <==> n in c.names && Active(c, n)
  {
    Rows(c, c.names, n => Active(c, n))
  }

  /** The first listed model that is the id or encodes to it. */
  function ModelHit(c: Config, models: seq<string>, id: string): Option<string> {
    if models == [] then None
    else if models[0] == id || c.encode(models[0]) == id then Some(models[0])
    else ModelHit(c, models[1..], id)
  }

  // ---------- what a decision promises

  /** A provider a request may be sent to. */
  ghost predicate Routable(c: Config, name: string) {
    Enabled(c, name) && name != LEGACY_CHATGPT
  }

  /** A refusal, or a concrete destination that is configured, enabled and not the legacy provider. */
  ghost predicate Concrete(c: Config, d: Decision) {
    match d
    case Refuse(_) => true
    case ToProvider(name, _, _, _) => Routable(c, name)
    case ToAccount(_, _) => Routable(c, OPENAI)
    case _ => false
  }

  ghost predicate ConcreteIfSome(c: Config, d: Option<Decision>) {
    d.Some? ==> Concrete(c, d.value)
  }

  // ---------- the branches

  /** An enabled, credentialed, different provider named by a redirect value. */
  function CrossProviderTarget(c: Config, from: string, value: Option<string>): (r: Option<string>)
    ensures r.Some? ==> r == value
    ensures r.Some? <==>
      value.Some? && SlashAt(value.value) > 0 && MayTake(c, from, value.value[..SlashAt(value.value)])
  {
    if value.None? || SlashAt(value.value) <= 0 then None
    else
      var name := value.value[..SlashAt(value.value)];
      if name == from || !Enabled(c, name) || !c.credentialed(name) then None else value
  }

  /** A provider that may take over another's request. */
  ghost predicate MayTake(c: Config, from: string, name: string) {
    name != from && Enabled(c, name) && c.credentialed(name)
  }

  /** Keys of every JavaScript object, never taken as configured redirects. */
  const PROTOTYPE_KEYS := {"__proto__", "prototype", "constructor"}

  function Redirect(c: Config, id: string): Option<string> {
    if id in c.redirects && id !in PROTOTYPE_KEYS then Some(c.redirects[id]) else None
  }

  datatype Naming = Named(provider: string) | Unnamed | Misnamed(error: RouteError)

  /** Which configured provider an explicit `<name>/...` prefix means. */
  function ProviderNamed(c: Config, requested: string): Naming {
    if requested == ANTHROPIC2 && requested !in c.rows then Misnamed(Pool2Unavailable)
    else if requested in c.rows then Named(requested)
    else
      var lower := c.lower(requested);
      var configured := Rows(c, c.names, n => n in c.rows && c.rows[n].alias.Some? &&
        c.lower(c.trim(c.rows[n].alias.value)) == lower);
      if |configured| == 1 then Named(configured[0])
      else if |configured| > 1 then Misnamed(AmbiguousProviderAlias)
      else
        var registered := Rows(c, c.names, n =>
          n in c.rows && c.rows[n].alias.None? && c.registryAlias(n).Some? && c.lower(c.registryAlias(n).value) == lower
          && !ClaimedByOther(c, n, lower));
        if |registered| == 1 then Named(registered[0])
        else if |registered| > 1 then Misnamed(AmbiguousProviderAlias)
        else Unnamed
  }

  predicate ClaimedByOther(c: Config, name: string, lower: string) {
    exists n :: n in c.names && n in c.rows && n != name
      && (c.lower(n) == lower || (c.rows[n].alias.Some? && c.lower(c.trim(c.rows[n].alias.value)) == lower))
  }

  function NamespaceDecision(c: Config, id: string, slash: nat): (d: Option<Decision>)
    requires slash < |id|
    ensures ConcreteIfSome(c, d)
  {
    match ProviderNamed(c, id[..slash])
    case Misnamed(error) => Some(Refuse(error))
    case Unnamed => None
    case Named(name) =>
      if name == LEGACY_CHATGPT || name == LEGACY_OPENAI_MULTI then Some(Refuse(NoProviderConfigured))
      else if name !in c.rows then None
      else if c.rows[name].disabled then Some(Refuse(ProviderDisabled))
      else if id in c.known(name) then Some(ToProvider(name, id, ExplicitProvider, ExplicitNamespace))
      else
        var requested := id[slash + 1..];
        match c.decode(name, requested)
        case None => Some(Refuse(AmbiguousModelId))
        case Some(decoded) =>
          var native :=
            if decoded in c.known(name) then decoded
            else if c.modelAlias(name, requested).Some? then c.modelAlias(name, requested).value
            else decoded;
          Some(ToProvider(name, native, ExplicitProvider, ExplicitNamespace))
  }

  function AccountDecision(c: Config, id: string, slash: nat): (d: Option<Decision>)
    requires slash < |id|
    ensures ConcreteIfSome(c, d)
    ensures d.Some? <==> id[..slash] in c.accounts
    ensures d.Some? ==> d.value.Refuse? || d.value == ToAccount(id[slash + 1..], c.accounts[id[..slash]])
  {
    if id[..slash] !in c.accounts then None
    else
      var native := id[slash + 1..];
      if !BareOpenAiFamily(c, native) then Some(Refuse(OnlyNativeModels))
      else if !Enabled(c, OPENAI) then Some(Refuse(NoEnabledOpenAi))
      else if !c.canonicalForward(
        if c.rows[OPENAI].authMode.None? then c.rows[OPENAI].(authMode := Some(Forward)) else c.rows[OPENAI])
      then Some(Refuse(NoEnabledOpenAi))
      else if CrossProviderTarget(c, OPENAI, Redirect(c, id)).Some? then Some(Refuse(RedirectLeavesAccount))
      else Some(ToAccount(native, c.accounts[id[..slash]]))
  }

  /** The default provider may summarise for a compaction. */
  ghost predicate MaySummarise(c: Config) {
    c.defaultProvider !in {OPENAI, LEGACY_CHATGPT, LEGACY_OPENAI_MULTI} && Enabled(c, c.defaultProvider)
  }

  function BareFamilyDecision(c: Config, id: string, compaction: bool): (d: Decision)
    ensures Concrete(c, d)
    ensures d.ToProvider? <==> Enabled(c, OPENAI) || (compaction && MaySummarise(c))
    ensures d.ToProvider? ==> d.model == id && d.provider == if Enabled(c, OPENAI) then OPENAI else c.defaultProvider
    ensures !d.ToProvider? ==> d == Refuse(NoEnabledOpenAi)
  {
    if Enabled(c, OPENAI) then ToProvider(OPENAI, id, Native, NativeFamily)
    else if compaction && c.defaultProvider != OPENAI && c.defaultProvider != LEGACY_CHATGPT
      && c.defaultProvider != LEGACY_OPENAI_MULTI && Enabled(c, c.defaultProvider)
    then ToProvider(c.defaultProvider, id, DefaultProvider, CompactionDefault)
    else Refuse(NoEnabledOpenAi)
  }

  function ByDefaultModel(c: Config, names: seq<string>, id: string): (d: Option<Decision>)
    requires forall n :: n in names ==> Routable(c, n)
    ensures ConcreteIfSome(c, d)
  {
    if names == [] then None
    else
      assert names[0] in names && Routable(c, names[0]);
      var model := c.rows[names[0]].defaultModel;
      if model.Some? && (model.value == id || c.encode(model.value) == id)
      then Some(ToProvider(names[0], model.value, ExplicitProvider, ConfiguredDefaultModel))
      else ByDefaultModel(c, names[1..], id)
  }

  /** A provider family and the model-id prefixes it is known for. */
  datatype Pattern = Pattern(family: string, prefixes: seq<string>)

  const MODEL_PROVIDER_PATTERNS: seq<Pattern> := [
    Pattern("anthropic", ["claude-", "claude-sonnet-", "claude-opus-", "claude-haiku-"]),
    Pattern("groq", ["llama-", "mixtral-", "gemma-"])]

  predicate OfFamily(name: string, family: string) {
    name == family || family + "-" <= name
  }

  function ByPatterns(c: Config, patterns: seq<Pattern>, id: string): (d: Option<Decision>)
    requires forall p :: p in patterns ==> !OfFamily(LEGACY_CHATGPT, p.family)
    ensures ConcreteIfSome(c, d)
  {
    if patterns == [] then None
    else
      var hits := Rows(c, c.names, n => Enabled(c, n) && OfFamily(n, patterns[0].family));
      if (exists p :: p in patterns[0].prefixes && p <= id) && hits != [] then
        assert hits[0] in hits;
        Some(ToProvider(hits[0], id, ExplicitProvider, ModelPattern))
      else ByPatterns(c, patterns[1..], id)
  }

  lemma PatternsSpareLegacy()
    ensures forall p :: p in MODEL_PROVIDER_PATTERNS ==> !OfFamily(LEGACY_CHATGPT, p.family)
  {
    assert LEGACY_CHATGPT[0] == 'c';
    assert ("anthropic" + "-")[0] == 'a' && ("groq" + "-")[0] == 'g';
  }

  function ByModelList(c: Config, names: seq<string>, id: string): (d: Option<Decision>)
    requires forall n :: n in names ==> Routable(c, n)
    ensures ConcreteIfSome(c, d)
  {
    if names == [] then None
    else
      assert names[0] in names && Routable(c, names[0]);
      match ModelHit(c, c.rows[names[0]].models, id)
      case Some(model) => Some(ToProvider(names[0], model, ExplicitProvider, ConfiguredModelList))
      case None => ByModelList(c, names[1..], id)
  }

  function ByAlias(c: Config, id: string): (d: Option<Decision>)
    ensures ConcreteIfSome(c, d)
  {
    var hits := Rows(c, ActiveProviders(c), n => c.modelAlias(n, id).Some?);
    if |hits| > 1 then Some(Refuse(AmbiguousModelAlias))
    else if |hits| == 1 then
      assert hits[0] in hits;
      Some(ToProvider(hits[0], c.modelAlias(hits[0], id).value, ExplicitProvider, ModelAlias))
    else None
  }

  function DefaultDecision(c: Config, id: string): (d: Decision)
    ensures Concrete(c, d)
  {
    if c.defaultProvider == LEGACY_CHATGPT || c.defaultProvider !in c.rows then Refuse(NoProviderConfigured)
    else if c.rows[c.defaultProvider].disabled then Refuse(ProviderDisabled)
    else ToProvider(c.defaultProvider, id, DefaultProvider, DefaultReason)
  }

  function FirstSome(a: Option<Decision>, b: Option<Decision>): Option<Decision> {
    if a.Some? then a else b
  }

  /** Inference for a plain id: default models, patterns, model lists, aliases, the default provider. */
  function InferDecision(c: Config, id: string): (d: Decision)
    ensures Concrete(c, d)
  {
    var active := ActiveProviders(c);
    var hit :=
      FirstSome(ByDefaultModel(c, active, id),
      FirstSome((PatternsSpareLegacy(); ByPatterns(c, MODEL_PROVIDER_PATTERNS, id)),
      FirstSome(ByModelList(c, active, id), ByAlias(c, id))));
    if hit.Some? then hit.value else DefaultDecision(c, id)
  }

  function PolicyDecision(c: Config, id: string): (d: Option<Decision>)
    ensures d.Some? ==> d.value.Refuse? || d.value.ViaPolicy? || d.value.ViaCombo?
  {
    var policy := c.policyFor(id);
    if policy.Some? && c.hasProfile(policy.value) then
      match c.evaluate(policy.value)
      case NothingEligible => Some(Refuse(NoEligibleCandidate))
      case Selected(target) => Some(ViaPolicy(policy.value, target))
    else if policy.Some? || "policy/" <= id then Some(Refuse(UnknownPolicy))
    else None
  }

  function ComboDecision(c: Config, id: string): (d: Option<Decision>)
    ensures d.Some? ==> d.value.Refuse? || d.value.ViaPolicy? || d.value.ViaCombo?
  {
    if c.physicalCombos then None
    else
      match c.pick(id)
      case NoCombo => None
      case ComboFails => Some(Refuse(ComboUnavailable))
      case Picked(target) => Some(ViaCombo(target))
  }

  /**
   * One pass of routeModelInternal over its branches, in the order they are tried. Policies and combos
   * are never consulted for a concrete target.
   */
  function Resolve(c: Config, id: string, bypass: bool, compaction: bool): (d: Decision)
    ensures Concrete(c, d) || (!bypass && (d.ViaPolicy? || d.ViaCombo?))
  {
    var slash := SlashAt(id);
    var early :=
      FirstSome(if bypass then None else PolicyDecision(c, id),
      FirstSome(if slash > 0 then AccountDecision(c, id, slash) else None,
      FirstSome(if bypass then None else ComboDecision(c, id),
                if slash > 0 then NamespaceDecision(c, id, slash) else None)));
    if early.Some? then early.value
    else if BareOpenAiFamily(c, id) then BareFamilyDecision(c, id, compaction)
    else InferDecision(c, id)
  }

  // ---------- which branch wins

  /** An account namespace is never read as a combo or a provider: native models on openai, or a refusal. */
  lemma AccountNamespaceReserved(c: Config, account: string, model: string, bypass: bool, compaction: bool)
    requires account != "" && '/' !in account && account in c.accounts
    requires bypass || PolicyDecision(c, Qualified(Target(account, model))).None?
    ensures var d := Resolve(c, Qualified(Target(account, model)), bypass, compaction);
      d.Refuse? || (d == ToAccount(model, c.accounts[account]) && BareOpenAiFamily(c, model) && Enabled(c, OPENAI))
  {
    var id := Qualified(Target(account, model));
    SlashOfQualified(Target(account, model));
    assert id[..|account|] == account && id[|account| + 1..] == model;
    assert Resolve(c, id, bypass, compaction) == AccountDecision(c, id, |account|).value;
  }

  predicate DefaultMatches(c: Config, name: string, id: string) {
    && name in c.rows && c.rows[name].defaultModel.Some?
    && (c.rows[name].defaultModel.value == id || c.encode(c.rows[name].defaultModel.value) == id)
  }

  /** `name` is the first of the names that passes `test`. */
  ghost predicate FirstWith(names: seq<string>, test: string -> bool, name: string) {
    exists k :: 0 <= k < |names| && names[k] == name && test(name) && forall j :: 0 <= j < k ==> !test(names[j])
  }

  lemma {:induction false} ByDefaultModelFirst(c: Config, names: seq<string>, id: string)
    requires forall n :: n in names ==> Routable(c, n)
    ensures ByDefaultModel(c, names, id).None? <==> forall k :: 0 <= k < |names| ==> !DefaultMatches(c, names[k], id)
    ensures var d := ByDefaultModel(c, names, id);
      d.Some? ==>
        && d.value.ToProvider? && d.value.kind == ExplicitProvider && d.value.reason == ConfiguredDefaultModel
        && FirstWith(names, n => DefaultMatches(c, n, id), d.value.provider)
        && c.rows[d.value.provider].defaultModel == Some(d.value.model)
  {
    if names != [] && !DefaultMatches(c, names[0], id) {
      assert names[0] in names;
      var test := (n: string) => DefaultMatches(c, n, id);
      ByDefaultModelFirst(c, names[1..], id);
      var d := ByDefaultModel(c, names[1..], id);
      if d.Some? {
        var k :| 0 <= k < |names[1..]| && names[1..][k] == d.value.provider && test(names[1..][k])
                 && forall j :: 0 <= j < k ==> !test(names[1..][j]);
        forall j | 0 <= j < k + 1 ensures !test(names[j]) { if j > 0 { assert names[j] == names[1..][j - 1]; } }
        assert names[k + 1] == d.value.provider;
      }
    }
  }

  /**
   * A plain id that is some active provider's default model goes to the first such provider in
   * configuration order, before any pattern, model list, alias or default provider.
   */
  lemma DefaultModelWins(c: Config, id: string, compaction: bool, name: string)
    requires '/' !in id && !BareOpenAiFamily(c, id) && name in ActiveProviders(c) && DefaultMatches(c, name, id)
    ensures var d := Resolve(c, id, true, compaction);
      d.ToProvider? && d.reason == ConfiguredDefaultModel && c.rows[d.provider].defaultModel == Some(d.model)
      && FirstWith(ActiveProviders(c), n => DefaultMatches(c, n, id), d.provider)
  {
    var active := ActiveProviders(c);
    ByDefaultModelFirst(c, active, id);
    var k :| 0 <= k < |active| && active[k] == name;
    assert SlashAt(id) == -1;
  }

  /** A bare OpenAI-family id with no policy and no combo goes to openai, to the compaction default, or nowhere. */
  lemma BareFamilyStays(c: Config, id: string, bypass: bool, compaction: bool)
    requires BareOpenAiFamily(c, id)
    requires bypass || (PolicyDecision(c, id).None? && ComboDecision(c, id).None?)
    ensures Resolve(c, id, bypass, compaction) == BareFamilyDecision(c, id, compaction)
    ensures var d := Resolve(c, id, bypass, compaction);
      d.ToProvider? ==>
        || (d.provider == OPENAI && d.reason == NativeFamily)
        || (compaction && d.provider == c.defaultProvider && !Enabled(c, OPENAI))
  {
  }

  /** A target named by an enabled configured provider is resolved by the namespace branch, to that provider. */
  lemma ConcreteTargetStays(c: Config, t: Target, compaction: bool)
    requires t.provider != "" && '/' !in t.provider && t.provider in c.rows && t.provider !in c.accounts
    ensures var d := Resolve(c, Qualified(t), true, compaction);
      d.Refuse? || (d.ToProvider? && d.provider == t.provider && d.reason == ExplicitNamespace)
  {
    var id := Qualified(t);
    var slash := |t.provider|;
    SlashOfQualified(t);
    assert id[..slash] == t.provider;
    NamespaceKeepsProvider(c, id, slash);
    assert AccountDecision(c, id, slash) == None;
    assert Resolve(c, id, true, compaction) == NamespaceDecision(c, id, slash).value;
  }

  lemma NamespaceKeepsProvider(c: Config, id: string, slash: nat)
    requires slash < |id| && id[..slash] in c.rows
    ensures var d := NamespaceDecision(c, id, slash);
      d.Some? &&
      (d.value.Refuse? ||
        (d.value.ToProvider? && d.value.provider == id[..slash] && d.value.reason == ExplicitNamespace))
  {
    assert ProviderNamed(c, id[..slash]) == Named(id[..slash]);
  }

  lemma {:induction false} SlashOfQualified(t: Target)
    requires '/' !in t.provider
    ensures SlashAt(Qualified(t)) == |t.provider|
    decreases |t.provider|
  {
    var id := Qualified(t);
    if t.provider == "" {
      assert id[0] == '/';
    } else {
      assert id[1..] == Qualified(Target(t.provider[1..], t.model));
      assert id[0] == t.provider[0] && t.provider[0] in t.provider;
      SlashOfQualified(Target(t.provider[1..], t.model));
    }
  }
}
