/**
 * src/router.ts: every answer of one pass over the branches, with its exact condition on the configuration. An id is
 * either plain or a provider prefix, a slash and the rest.
 */
module RouteOutcomes {
  import opened RouteDecision
  import opened RouteOrder

  /** A prefix that ends at the first slash, and is not empty. */
  predicate IsPrefix(prefix: string) {
    prefix != "" && '/' !in prefix
  }

  predicate Plain(id: string) {
    '/' !in id || id[0] == '/'
  }

  lemma SlashAtPlain(id: string)
    requires Plain(id)
    ensures SlashAt(id) <= 0
  {
  }

  /** Every id is plain or has exactly one prefix and rest. */
  lemma PlainOrPrefixed(id: string) returns (prefix: string, rest: string)
    ensures Plain(id) || (IsPrefix(prefix) && id == Qualified(Target(prefix, rest)))
    ensures forall p, r :: IsPrefix(p) && id == Qualified(Target(p, r)) ==> !Plain(id) && p == prefix && r == rest
  {
    var slash := SlashAt(id);
    if slash > 0 { prefix, rest := id[..slash], id[slash + 1..]; } else { prefix, rest := "", ""; }
    forall p, r | IsPrefix(p) && id == Qualified(Target(p, r)) ensures !Plain(id) && p == prefix && r == rest {
      SlashOfQualified(Target(p, r));
      assert id[..slash] == p && id[slash + 1..] == r && id[0] == p[0] && id[slash] == '/';
    }
  }

  // ---------- policies

  /** A policy is asked about every id it is known by and about the whole policy namespace, but not for a target. */
  predicate PolicyAsked(c: Config, id: string, bypass: bool) {
    !bypass && (c.policyFor(id).Some? || "policy/" <= id)
  }

  /** When a policy is asked, it alone answers: its selected target, or a refusal. */
  lemma PolicyOutcome(c: Config, id: string, bypass: bool, compaction: bool)
    ensures
      var d := Resolve(c, id, bypass, compaction);
      && (d.ViaPolicy? ==> PolicyAsked(c, id, bypass))
      && (PolicyAsked(c, id, bypass) ==>
            var policy := c.policyFor(id);
            if policy.Some? && c.hasProfile(policy.value) then
              match c.evaluate(policy.value)
              case Selected(target) => d == ViaPolicy(policy.value, target)
              case NothingEligible => d == Refuse(NoEligibleCandidate)
            else d == Refuse(UnknownPolicy))
  {
  }

  // ---------- account namespaces

  /** The openai row takes pinned accounts; without a mode of its own it counts as a forwarding one. */
  predicate TakesAccounts(c: Config) {
    && OPENAI in c.rows && !c.rows[OPENAI].disabled
    && var row := c.rows[OPENAI];
       c.canonicalForward(if row.authMode == None then row.(authMode := Some(Forward)) else row)
  }

  /** A redirect is configured for this id, to a different provider that can take the request. */
  ghost predicate Leaves(c: Config, from: string, id: string) {
    exists t :: MapsAway(c, from, id, t)
  }

  /** The mapping of this id names a model of a different provider that can take the request. */
  ghost predicate MapsAway(c: Config, from: string, id: string, target: Target) {
    IsPrefix(target.provider) && RedirectsTo(c, id, Qualified(target)) && MayTake(c, from, target.provider)
  }

  predicate RedirectsTo(c: Config, id: string, value: string) {
    id in c.redirects && id !in {"__proto__", "prototype", "constructor"} && c.redirects[id] == value
  }

  lemma LeavesIff(c: Config, from: string, id: string)
    ensures Leaves(c, from, id) <==> CrossProviderTarget(c, from, Redirect(c, id)).Some?
    ensures forall t :: MapsAway(c, from, id, t) ==> CrossProviderTarget(c, from, Redirect(c, id)) == Some(Qualified(t))
  {
    var r := Redirect(c, id);
    if CrossProviderTarget(c, from, r).Some? {
      var slash := SlashAt(r.value);
      var t := Target(r.value[..slash], r.value[slash + 1..]);
      assert Qualified(t) == r.value && MapsAway(c, from, id, t);
    }
    forall t | MapsAway(c, from, id, t)
      ensures CrossProviderTarget(c, from, r) == Some(Qualified(t))
    {
      SlashOfQualified(t);
      assert Qualified(t)[..|t.provider|] == t.provider;
    }
  }

  /** An account prefix gives the bound account's route exactly when nothing stands against it. */
  lemma AccountOutcome(c: Config, account: string, model: string, bypass: bool, compaction: bool)
    requires IsPrefix(account) && account in c.accounts
    requires !PolicyAsked(c, Qualified(Target(account, model)), bypass)
    ensures
      var id := Qualified(Target(account, model));
      var d := Resolve(c, id, bypass, compaction);
      if !BareOpenAiFamily(c, model) then d == Refuse(OnlyNativeModels)
      else if !TakesAccounts(c) then d == Refuse(NoEnabledOpenAi)
      else if Leaves(c, OPENAI, id) then d == Refuse(RedirectLeavesAccount)
      else d == ToAccount(model, c.accounts[account])
  {
    var id := Qualified(Target(account, model));
    SlashOfQualified(Target(account, model));
    assert id[..|account|] == account && id[|account| + 1..] == model;
    LeavesIff(c, OPENAI, id);
    assert Resolve(c, id, bypass, compaction) == AccountDecision(c, id, |account|).value;
  }

  predicate AccountPrefixed(c: Config, id: string) {
    SlashAt(id) > 0 && id[..SlashAt(id)] in c.accounts
  }

  // ---------- combos

  /** Combos are asked when they are virtual and no policy or account namespace has the id. */
  ghost predicate ComboAsked(c: Config, id: string, bypass: bool) {
    && !bypass && !c.physicalCombos && !PolicyAsked(c, id, bypass)
    && forall p, r :: IsPrefix(p) && id == Qualified(Target(p, r)) ==> p !in c.accounts
  }

  /** A request goes by a combo exactly when it is asked and picks a target. */
  lemma ComboOutcome(c: Config, id: string, bypass: bool, compaction: bool)
    ensures
      var d := Resolve(c, id, bypass, compaction);
      && (d.ViaCombo? <==> ComboAsked(c, id, bypass) && c.pick(id).Picked?)
      && (d.ViaCombo? ==> d.target == c.pick(id).target)
      && (d == Refuse(ComboUnavailable) <==> ComboAsked(c, id, bypass) && c.pick(id).ComboFails?)
  {
    NoAccountPrefix(c, id);
    if ComboAsked(c, id, bypass) && c.pick(id) != NoCombo {
    } else if PolicyAsked(c, id, bypass) {
      PolicyOutcome(c, id, bypass, compaction);
    } else {
      PastCombos(c, id, bypass, compaction);
    }
  }

  lemma PastCombos(c: Config, id: string, bypass: bool, compaction: bool)
    requires !PolicyAsked(c, id, bypass)
    requires ComboAsked(c, id, bypass) ==> c.pick(id) == NoCombo
    ensures
      var d := Resolve(c, id, bypass, compaction);
      !d.ViaCombo? && d != Refuse(ComboUnavailable)
  {
    NoAccountPrefix(c, id);
    InferenceBlamesNoCombo(c, id);
    var slash := SlashAt(id);
    if slash > 0 {
      if id[..slash] !in c.accounts { PrefixBranch(c, id, slash, bypass, compaction); }
      NamespaceBlamesNoCombo(c, id, slash);
    }
  }

  lemma NoAccountPrefix(c: Config, id: string)
    ensures SlashAt(id) > 0 && id[..SlashAt(id)] in c.accounts <==>
      exists p, r :: IsPrefix(p) && id == Qualified(Target(p, r)) && p in c.accounts
  {
    var prefix, rest := PlainOrPrefixed(id);
    if !Plain(id) { SlashOfQualified(Target(prefix, rest)); assert id[..|prefix|] == prefix; }
    if SlashAt(id) > 0 {
      var slash := SlashAt(id);
      assert id == Qualified(Target(id[..slash], id[slash + 1..]));
    }
  }

  lemma InferredRefusal(c: Config, id: string, d: Decision)
    requires Inferred(c, id, d) && d.Refuse?
    ensures d.error in {AmbiguousModelAlias, NoProviderConfigured, ProviderDisabled}
  {
  }

  lemma InferenceBlamesNoCombo(c: Config, id: string)
    ensures InferDecision(c, id) != Refuse(ComboUnavailable)
  {
    InferTiers(c, id);
    if InferDecision(c, id).Refuse? { InferredRefusal(c, id, InferDecision(c, id)); }
  }

  lemma NamespaceBlamesNoCombo(c: Config, id: string, slash: nat)
    requires slash < |id|
    ensures NamespaceDecision(c, id, slash) != Some(Refuse(ComboUnavailable))
  {
    NamingOutcome(c, id[..slash]);
  }

  // ---------- provider prefixes

  /** The model an explicit id sends to a provider: all of it when the provider knows that, else what the rest means. */
  predicate SentModel(c: Config, name: string, id: string, rest: string, model: string) {
    if id in c.known(name) then model == id
    else
      && c.decode(name, rest).Some?
      && var decoded := c.decode(name, rest).value;
         if decoded in c.known(name) || c.modelAlias(name, rest).None? then model == decoded
         else c.modelAlias(name, rest) == Some(model)
  }

  /** What an explicit id gets from the provider its prefix means. */
  ghost predicate ExplicitAnswer(c: Config, name: string, id: string, rest: string, d: Decision) {
    if name == "chatgpt" || name == "openai-multi" || name !in c.rows then d == Refuse(NoProviderConfigured)
    else if c.rows[name].disabled then d == Refuse(ProviderDisabled)
    else if id !in c.known(name) && c.decode(name, rest).None? then d == Refuse(AmbiguousModelId)
    else
      && d.ToProvider? && d.provider == name && d.kind == ExplicitProvider && d.reason == ExplicitNamespace
      && SentModel(c, name, id, rest, d.model)
  }

  /** The prefix branch has the id: no policy, no account and no combo does. */
  ghost predicate PrefixAsked(c: Config, prefix: string, id: string, bypass: bool) {
    !PolicyAsked(c, id, bypass) && prefix !in c.accounts && (bypass || c.physicalCombos || c.pick(id).NoCombo?)
  }

  /** More than one row goes by the alias, or by the registry's alias when no row has it as its own. */
  ghost predicate AmbiguousPrefix(c: Config, prefix: string) {
    && prefix !in c.rows
    && (TwoPass(c.names, n => AliasedTo(c, c.lower(prefix), n)) ||
        ((forall n :: n in c.names ==> !AliasedTo(c, c.lower(prefix), n))
         && TwoPass(c.names, n => RegisteredAs(c, c.lower(prefix), n))))
  }

  /** The second Anthropic instance is reserved even before it has a row. */
  predicate ReservedPrefix(c: Config, prefix: string) {
    prefix == "anthropic2" && prefix !in c.rows
  }

  lemma NamingOutcome(c: Config, prefix: string)
    ensures ProviderNamed(c, prefix) == Misnamed(Pool2Unavailable) <==> ReservedPrefix(c, prefix)
    ensures ProviderNamed(c, prefix) == Misnamed(AmbiguousProviderAlias) ==> AmbiguousPrefix(c, prefix)
    ensures ProviderNamed(c, prefix).Misnamed? ==>
      ProviderNamed(c, prefix).error in {Pool2Unavailable, AmbiguousProviderAlias}
    ensures ProviderNamed(c, prefix).Named? ==>
      ProviderNamed(c, prefix).provider in c.rows && Means(c, prefix, ProviderNamed(c, prefix).provider)
    ensures ProviderNamed(c, prefix).Unnamed? ==> forall n :: !Means(c, prefix, n)
  {
    NamedMeans(c, prefix);
    if prefix !in c.rows && prefix != ANTHROPIC2 {
      AliasRows(c, c.lower(prefix));
      RegisteredRows(c, c.lower(prefix));
    }
  }

  lemma TwoKept(c: Config, keep: string -> bool, test: string -> bool)
    requires forall n :: n in c.rows && keep(n) ==> test(n)
    ensures |Rows(c, c.names, keep)| > 1 ==> TwoPass(c.names, test)
  {
    if |Rows(c, c.names, keep)| > 1 {
      TwoRows(c, c.names, keep);
      SameTwo(c.names, n => n in c.rows && keep(n), test);
    }
  }

  lemma AliasRows(c: Config, lower: string)
    ensures
      var rows := Rows(c, c.names, n => n in c.rows && c.rows[n].alias.Some? &&
        c.lower(c.trim(c.rows[n].alias.value)) == lower);
      && (|rows| > 1 ==> TwoPass(c.names, n => AliasedTo(c, lower, n)))
      && (rows == [] ==> forall n :: n in c.names ==> !AliasedTo(c, lower, n))
  {
    var own := n => n in c.rows && c.rows[n].alias.Some? && c.lower(c.trim(c.rows[n].alias.value)) == lower;
    TwoKept(c, own, n => AliasedTo(c, lower, n));
    forall n | n in c.names && AliasedTo(c, lower, n) ensures n in Rows(c, c.names, own) {}
  }

  lemma RegisteredRows(c: Config, lower: string)
    ensures
      var rows := Rows(c, c.names, n =>
        n in c.rows && c.rows[n].alias.None? && c.registryAlias(n).Some? && c.lower(c.registryAlias(n).value) == lower
        && !ClaimedByOther(c, n, lower));
      |rows| > 1 ==> TwoPass(c.names, n => RegisteredAs(c, lower, n))
  {
    var given := n =>
      n in c.rows && c.rows[n].alias.None? && c.registryAlias(n).Some? && c.lower(c.registryAlias(n).value) == lower
      && !ClaimedByOther(c, n, lower);
    TwoKept(c, given, n => RegisteredAs(c, lower, n));
  }

  /**
   * What an explicit id gets: the answer of the provider its prefix means, a refusal of a reserved or ambiguous
   * prefix, and the inference over the whole id when no provider is meant.
   */
  lemma PrefixOutcome(c: Config, prefix: string, rest: string, bypass: bool, compaction: bool)
    requires IsPrefix(prefix) && PrefixAsked(c, prefix, Qualified(Target(prefix, rest)), bypass)
    ensures
      var id := Qualified(Target(prefix, rest));
      var d := Resolve(c, id, bypass, compaction);
      if ReservedPrefix(c, prefix) then d == Refuse(Pool2Unavailable)
      else
        || (exists name :: name in c.rows && Means(c, prefix, name) && ExplicitAnswer(c, name, id, rest, d))
        || (AmbiguousPrefix(c, prefix) && d == Refuse(AmbiguousProviderAlias))
        || ((forall n :: !Means(c, prefix, n)) && Inferred(c, id, d))
  {
    var id := Qualified(Target(prefix, rest));
    SlashOfQualified(Target(prefix, rest));
    assert id[..|prefix|] == prefix && id[|prefix| + 1..] == rest && id[|prefix|] == '/';
    NamingOutcome(c, prefix);
    InferTiers(c, id);
    var d := Resolve(c, id, bypass, compaction);
    PrefixBranch(c, id, |prefix|, bypass, compaction);
    if ProviderNamed(c, prefix).Named? { NamedAnswer(c, id, |prefix|); }
  }

  lemma PrefixBranch(c: Config, id: string, slash: nat, bypass: bool, compaction: bool)
    requires slash == SlashAt(id) && slash > 0 && PrefixAsked(c, id[..slash], id, bypass)
    ensures
      var d := NamespaceDecision(c, id, slash);
      Resolve(c, id, bypass, compaction) == if d.Some? then d.value else InferDecision(c, id)
  {
    assert id[slash] == '/';
  }

  lemma NamedAnswer(c: Config, id: string, slash: nat)
    requires slash < |id| && ProviderNamed(c, id[..slash]).Named?
    requires ProviderNamed(c, id[..slash]).provider in c.rows
    ensures
      var d := NamespaceDecision(c, id, slash);
      d.Some? && ExplicitAnswer(c, ProviderNamed(c, id[..slash]).provider, id, id[slash + 1..], d.value)
  {
  }

  /** A prefix means at most one provider, and none when it is ambiguous. */
  lemma MeansOne(c: Config, prefix: string, a: string, b: string)
    requires Means(c, prefix, a) && Means(c, prefix, b)
    ensures a == b
  {
  }

  // ---------- plain ids

  /** The names OpenAI's own models go by. */
  predicate NativeName(c: Config, id: string) {
    id in c.internalModels || (|id| >= 4 && id[..4] == "gpt-") || (|id| >= 3 && id[..3] in {"o1-", "o3-", "o4-"})
  }

  /** A plain id of OpenAI's own family stays on openai, or is refused; for a compaction the default may take it. */
  lemma PlainOutcome(c: Config, id: string, bypass: bool, compaction: bool)
    requires Plain(id) && !PolicyAsked(c, id, bypass) && (bypass || c.physicalCombos || c.pick(id).NoCombo?)
    ensures
      var d := Resolve(c, id, bypass, compaction);
      if '/' in id || !NativeName(c, id) then Inferred(c, id, d)
      else if OPENAI in c.rows && !c.rows[OPENAI].disabled then d == ToProvider(OPENAI, id, Native, NativeFamily)
      else if compaction && MaySummarise(c) then
        d == ToProvider(c.defaultProvider, id, DefaultProvider, CompactionDefault)
      else d == Refuse(NoEnabledOpenAi)
  {
    SlashAtPlain(id);
    InferTiers(c, id);
    NativeIff(c, id);
  }

  lemma StartsIff(prefix: string, id: string, n: nat)
    requires |prefix| == n
    ensures prefix <= id <==> |id| >= n && id[..n] == prefix
  {
  }

  lemma NativeIff(c: Config, id: string)
    ensures BareOpenAiFamily(c, id) <==> '/' !in id && NativeName(c, id)
  {
    StartsIff("gpt-", id, 4);
    StartsIff("o1-", id, 3);
    StartsIff("o3-", id, 3);
    StartsIff("o4-", id, 3);
  }

  // ---------- the second Anthropic instance

  lemma FamilyOf(name: string, family: string)
    ensures OfFamily(name, family) <==> name == family || exists rest :: name == family + "-" + rest
  {
    if family + "-" <= name { assert name == family + "-" + name[|family| + 1..]; }
  }

  lemma HitOneOf(p: Pattern, id: string, x: string, y: string, z: string)
    requires p.prefixes == [x, y, z]
    ensures PrefixHit(p, id) <==> x <= id || y <= id || z <= id
  {
    assert p.prefixes[0] == x && p.prefixes[1] == y && p.prefixes[2] == z;
    assert x in p.prefixes && y in p.prefixes && z in p.prefixes;
  }

  lemma HitIff(p: Pattern, id: string, x: string)
    requires x in p.prefixes && forall y :: y in p.prefixes ==> x <= y
    ensures PrefixHit(p, id) <==> x <= id
  {
  }

  /** The prefixes that name a family: the longer Claude prefixes add nothing to the shortest. */
  lemma PatternFamilies(id: string)
    ensures |MODEL_PROVIDER_PATTERNS| == 2
    ensures MODEL_PROVIDER_PATTERNS[0].family == "anthropic" && MODEL_PROVIDER_PATTERNS[1].family == "groq"
    ensures PrefixHit(MODEL_PROVIDER_PATTERNS[0], id) <==> "claude-" <= id
    ensures PrefixHit(MODEL_PROVIDER_PATTERNS[1], id) <==> "llama-" <= id || "mixtral-" <= id || "gemma-" <= id
  {
    var claude, groq := MODEL_PROVIDER_PATTERNS[0], MODEL_PROVIDER_PATTERNS[1];
    assert claude.prefixes == ["claude-", "claude-sonnet-", "claude-opus-", "claude-haiku-"];
    assert groq.prefixes == ["llama-", "mixtral-", "gemma-"];
    assert claude.prefixes[0] == "claude-";
    HitIff(claude, id, "claude-");
    HitOneOf(groq, id, "llama-", "mixtral-", "gemma-");
  }

  lemma PatternsSpareSecond()
    ensures forall p :: p in MODEL_PROVIDER_PATTERNS ==> !OfFamily("anthropic2", p.family)
  {
    assert "anthropic2"[9] == '2' && ("anthropic" + "-")[9] == '-' && ("groq" + "-")[0] == 'g';
  }

  /** No inference moves a request onto the built-in second Anthropic instance unless it is the default provider. */
  lemma Pool2NeverInferred(c: Config, id: string, d: Decision)
    requires Inferred(c, id, d) && d.ToProvider? && d.provider == "anthropic2"
    requires d.provider in c.rows && c.pool2Shape(c.rows[d.provider])
    ensures c.defaultProvider == "anthropic2" && d.reason == DefaultReason
  {
    assert !Active(c, d.provider);
    PatternsSpareSecond();
  }
}
