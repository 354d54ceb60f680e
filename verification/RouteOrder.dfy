/** src/router.ts: which row and which tier of the inference wins, and which provider a prefix means. */
module RouteOrder {
  import opened RouteDecision

  lemma FirstCons(names: seq<string>, test: string -> bool, name: string)
    requires names != []
    ensures FirstWith(names, test, name) <==>
      if test(names[0]) then name == names[0] else FirstWith(names[1..], test, name)
  {
    if FirstWith(names, test, name) {
      var k :| 0 <= k < |names| && names[k] == name && test(name) && forall j :: 0 <= j < k ==> !test(names[j]);
      if k > 0 { FirstInRest(names, test, name, k); }
    }
    if !test(names[0]) && FirstWith(names[1..], test, name) {
      var k :| 0 <= k < |names[1..]| && names[1..][k] == name && test(name)
               && forall j :: 0 <= j < k ==> !test(names[1..][j]);
      assert names[k + 1] == name;
      forall j | 0 <= j < k + 1 ensures !test(names[j]) { if j > 0 { assert names[j] == names[1..][j - 1]; } }
    }
  }

  lemma FirstInRest(names: seq<string>, test: string -> bool, name: string, k: nat)
    requires 0 < k < |names| && names[k] == name && test(name) && forall j :: 0 <= j < k ==> !test(names[j])
    ensures FirstWith(names[1..], test, name)
  {
    assert names[1..][k - 1] == name;
    forall j | 0 <= j < k - 1 ensures !test(names[1..][j]) { assert names[1..][j] == names[j + 1]; }
  }

  lemma SameTest(names: seq<string>, test: string -> bool, other: string -> bool, name: string)
    requires forall n :: test(n) == other(n)
    ensures FirstWith(names, test, name) <==> FirstWith(names, other, name)
  {
  }

  /** The first kept row that passes is the first row, in insertion order, that is kept and passes. */
  lemma {:induction false} RowsFirst(c: Config, names: seq<string>, keep: string -> bool, test: string -> bool,
    name: string)
    ensures FirstWith(Rows(c, names, keep), test, name) <==>
      FirstWith(names, n => n in c.rows && keep(n) && test(n), name)
  {
    if names != [] {
      var both := n => n in c.rows && keep(n) && test(n);
      RowsFirst(c, names[1..], keep, test, name);
      FirstCons(names, both, name);
      if names[0] in c.rows && keep(names[0]) {
        var rows := Rows(c, names, keep);
        FirstCons(rows, test, name);
        assert rows[1..] == Rows(c, names[1..], keep);
      }
    }
  }

  /** The first active provider that passes a test is the first configured row that is active and passes it. */
  lemma FirstActiveIff(c: Config, test: string -> bool, name: string)
    ensures FirstWith(ActiveProviders(c), test, name) <==> FirstWith(c.names, n => Active(c, n) && test(n), name)
  {
    var keep := (n: string) => Active(c, n);
    RowsFirst(c, c.names, keep, test, name);
    var kept := (n: string) => n in c.rows && keep(n) && test(n);
    var active := (n: string) => Active(c, n) && test(n);
    forall n: string ensures kept(n) == active(n) { assert Active(c, n) <==> n in c.rows && keep(n); }
    SameTest(c.names, kept, active, name);
  }

  // ---------- patterns

  predicate PrefixHit(p: Pattern, id: string) {
    exists x :: x in p.prefixes && x <= id
  }

  /** One of the pattern's prefixes starts the id, and an enabled row belongs to its family. */
  predicate PatternHits(c: Config, p: Pattern, id: string) {
    PrefixHit(p, id) && exists n :: n in c.names && Enabled(c, n) && OfFamily(n, p.family)
  }

  ghost predicate PatternPicks(c: Config, patterns: seq<Pattern>, id: string, k: int, provider: string) {
    && 0 <= k < |patterns| && PatternHits(c, patterns[k], id)
    && (forall j :: 0 <= j < k ==> !PatternHits(c, patterns[j], id))
    && FirstWith(c.names, n => Enabled(c, n) && OfFamily(n, patterns[k].family), provider)
  }

  lemma FamilyRow(c: Config, family: string)
    ensures
      var hits := Rows(c, c.names, n => Enabled(c, n) && OfFamily(n, family));
      && (hits != [] <==> exists n :: n in c.names && Enabled(c, n) && OfFamily(n, family))
      && (hits != [] ==> FirstWith(c.names, n => Enabled(c, n) && OfFamily(n, family), hits[0]))
  {
    var keep := n => Enabled(c, n) && OfFamily(n, family);
    var hits := Rows(c, c.names, keep);
    if n :| n in c.names && Enabled(c, n) && OfFamily(n, family) { assert n in hits; }
    if hits != [] {
      assert hits[0] in hits;
      RowsFirst(c, c.names, keep, n => true, hits[0]);
      FirstCons(hits, n => true, hits[0]);
      SameTest(c.names, n => n in c.rows && keep(n) && true, n => Enabled(c, n) && OfFamily(n, family), hits[0]);
    }
  }

  /** The first pattern that hits decides, for the first row of its family. */
  lemma {:induction false} FirstPatternWins(c: Config, patterns: seq<Pattern>, id: string)
    requires forall p :: p in patterns ==> !OfFamily(LEGACY_CHATGPT, p.family)
    ensures ByPatterns(c, patterns, id).None? <==> forall k :: 0 <= k < |patterns| ==> !PatternHits(c, patterns[k], id)
    ensures
      var d := ByPatterns(c, patterns, id);
      d.Some? ==>
        && d.value.ToProvider? && d.value == ToProvider(d.value.provider, id, ExplicitProvider, ModelPattern)
        && exists k :: PatternPicks(c, patterns, id, k, d.value.provider)
  {
    if patterns != [] {
      FamilyRow(c, patterns[0].family);
      if PatternHits(c, patterns[0], id) {
        assert PatternPicks(c, patterns, id, 0, ByPatterns(c, patterns, id).value.provider);
      } else {
        var rest := patterns[1..];
        FirstPatternWins(c, rest, id);
        forall k | 1 <= k < |patterns| ensures patterns[k] == rest[k - 1] {}
        if ByPatterns(c, rest, id).Some? {
          var provider := ByPatterns(c, rest, id).value.provider;
          var k :| PatternPicks(c, rest, id, k, provider);
          assert PatternPicks(c, patterns, id, k + 1, provider);
        }
      }
    }
  }

  // ---------- the tiers of the inference

  predicate Lists(c: Config, name: string, id: string) {
    name in c.rows && exists m :: m in c.rows[name].models && (m == id || c.encode(m) == id)
  }

  /** The first listed model that is the id, or that the id encodes. */
  ghost predicate ListedAs(c: Config, models: seq<string>, id: string, model: string) {
    FirstWith(models, m => m == id || c.encode(m) == id, model)
  }

  lemma {:induction false} ModelHitFirst(c: Config, models: seq<string>, id: string)
    ensures ModelHit(c, models, id).None? <==> forall m :: m in models ==> m != id && c.encode(m) != id
    ensures ModelHit(c, models, id).Some? ==>
      ListedAs(c, models, id, ModelHit(c, models, id).value) && ModelHit(c, models, id).value in models
  {
    if models != [] {
      ModelHitFirst(c, models[1..], id);
      assert models == [models[0]] + models[1..];
      if ModelHit(c, models, id).Some? {
        FirstCons(models, m => m == id || c.encode(m) == id, ModelHit(c, models, id).value);
      }
    }
  }

  predicate Aliases(c: Config, name: string, id: string) {
    c.modelAlias(name, id).Some?
  }

  lemma {:induction false} ByModelListFirst(c: Config, names: seq<string>, id: string)
    requires forall n :: n in names ==> Routable(c, n)
    ensures ByModelList(c, names, id).None? <==> forall k :: 0 <= k < |names| ==> !Lists(c, names[k], id)
    ensures
      var d := ByModelList(c, names, id);
      d.Some? ==>
        && d.value.ToProvider? && d.value.kind == ExplicitProvider && d.value.reason == ConfiguredModelList
        && FirstWith(names, n => Lists(c, n, id), d.value.provider)
        && ListedAs(c, c.rows[d.value.provider].models, id, d.value.model)
  {
    if names != [] {
      assert names[0] in names && Routable(c, names[0]);
      var test := n => Lists(c, n, id);
      ModelHitFirst(c, c.rows[names[0]].models, id);
      if Lists(c, names[0], id) {
        FirstCons(names, test, names[0]);
      } else {
        ByModelListFirst(c, names[1..], id);
        forall k | 1 <= k < |names| ensures names[k] == names[1..][k - 1] {}
        if ByModelList(c, names, id).Some? { FirstCons(names, test, ByModelList(c, names, id).value.provider); }
      }
    }
  }

  /** The first active provider in configuration order that passes. */
  ghost predicate FirstActive(c: Config, test: string -> bool, name: string) {
    FirstWith(c.names, n => Active(c, n) && test(n), name)
  }

  ghost predicate SomeActive(c: Config, test: string -> bool) {
    exists n :: n in c.names && Active(c, n) && test(n)
  }

  ghost predicate TwoPass(names: seq<string>, test: string -> bool) {
    exists i, j :: 0 <= i < j < |names| && test(names[i]) && test(names[j])
  }

  ghost predicate TwoActive(c: Config, test: string -> bool) {
    TwoPass(c.names, n => Active(c, n) && test(n))
  }

  /** What the inference answers, tier by tier. */
  ghost predicate Inferred(c: Config, id: string, d: Decision) {
    if SomeActive(c, n => DefaultMatches(c, n, id)) then
      && d.ToProvider? && d.kind == ExplicitProvider && d.reason == ConfiguredDefaultModel
      && FirstActive(c, n => DefaultMatches(c, n, id), d.provider)
      && d.provider in c.rows && c.rows[d.provider].defaultModel == Some(d.model)
    else if exists p :: p in MODEL_PROVIDER_PATTERNS && PatternHits(c, p, id) then
      && d.ToProvider? && d.model == id && d.kind == ExplicitProvider && d.reason == ModelPattern
      && exists k :: PatternPicks(c, MODEL_PROVIDER_PATTERNS, id, k, d.provider)
    else if SomeActive(c, n => Lists(c, n, id)) then
      && d.ToProvider? && d.kind == ExplicitProvider && d.reason == ConfiguredModelList
      && FirstActive(c, n => Lists(c, n, id), d.provider)
      && d.provider in c.rows && ListedAs(c, c.rows[d.provider].models, id, d.model)
    else if SomeActive(c, n => Aliases(c, n, id)) then
      if d == Refuse(AmbiguousModelAlias) then TwoActive(c, n => Aliases(c, n, id)) else AliasDecided(c, id, d)
    else ByDefault(c, id, d)
  }

  /** The default provider takes the id as it is, unless it is missing, the legacy provider, or disabled. */
  ghost predicate ByDefault(c: Config, id: string, d: Decision) {
    && (d == ToProvider(c.defaultProvider, id, DefaultProvider, DefaultReason) <==>
          c.defaultProvider != "chatgpt" && c.defaultProvider in c.rows && !c.rows[c.defaultProvider].disabled)
    && (d == Refuse(ProviderDisabled) <==>
          c.defaultProvider != "chatgpt" && c.defaultProvider in c.rows && c.rows[c.defaultProvider].disabled)
    && (d == Refuse(NoProviderConfigured) <==> c.defaultProvider == "chatgpt" || c.defaultProvider !in c.rows)
  }

  /** The only active provider that resolves the alias. */
  ghost predicate AliasDecided(c: Config, id: string, d: Decision) {
    && d.ToProvider? && d.kind == ExplicitProvider && d.reason == ModelAlias && Active(c, d.provider)
    && c.modelAlias(d.provider, id) == Some(d.model)
    && forall n :: n in c.names && Active(c, n) && Aliases(c, n, id) ==> n == d.provider
  }

  lemma ActiveMembers(c: Config)
    ensures forall n :: n in ActiveProviders(c) <==> n in c.names && Active(c, n)
  {
  }

  lemma NoneActive(c: Config, test: string -> bool)
    requires forall k :: 0 <= k < |ActiveProviders(c)| ==> !test(ActiveProviders(c)[k])
    ensures !SomeActive(c, test)
  {
    ActiveMembers(c);
    forall n | n in c.names && Active(c, n) ensures !test(n) {
      var k :| 0 <= k < |ActiveProviders(c)| && ActiveProviders(c)[k] == n;
    }
  }

  lemma DefaultTier(c: Config, id: string)
    ensures
      var d := ByDefaultModel(c, ActiveProviders(c), id);
      && (d.Some? <==> SomeActive(c, n => DefaultMatches(c, n, id)))
      && (d.Some? ==>
            && d.value.ToProvider? && d.value.kind == ExplicitProvider && d.value.reason == ConfiguredDefaultModel
            && FirstActive(c, n => DefaultMatches(c, n, id), d.value.provider)
            && d.value.provider in c.rows && c.rows[d.value.provider].defaultModel == Some(d.value.model))
  {
    var active := ActiveProviders(c);
    ByDefaultModelFirst(c, active, id);
    var test := n => DefaultMatches(c, n, id);
    var d := ByDefaultModel(c, active, id);
    if d.None? {
      NoneActive(c, test);
    } else {
      FirstActiveIff(c, test, d.value.provider);
      var k :| 0 <= k < |active| && active[k] == d.value.provider && test(active[k]);
      assert active[k] in active;
    }
  }

  lemma ListTier(c: Config, id: string)
    ensures
      var d := ByModelList(c, ActiveProviders(c), id);
      && (d.Some? <==> SomeActive(c, n => Lists(c, n, id)))
      && (d.Some? ==>
            && d.value.ToProvider? && d.value.kind == ExplicitProvider && d.value.reason == ConfiguredModelList
            && FirstActive(c, n => Lists(c, n, id), d.value.provider)
            && d.value.provider in c.rows && ListedAs(c, c.rows[d.value.provider].models, id, d.value.model))
  {
    var active := ActiveProviders(c);
    ByModelListFirst(c, active, id);
    var test := n => Lists(c, n, id);
    var d := ByModelList(c, active, id);
    if d.None? {
      NoneActive(c, test);
    } else {
      FirstActiveIff(c, test, d.value.provider);
      var k :| 0 <= k < |active| && active[k] == d.value.provider && test(active[k]);
      assert active[k] in active;
    }
  }

  lemma TwoCons(names: seq<string>, test: string -> bool)
    requires names != [] && (TwoPass(names[1..], test) || (test(names[0]) && exists n :: n in names[1..] && test(n)))
    ensures TwoPass(names, test)
  {
    var rest := names[1..];
    if TwoPass(rest, test) {
      var i, j :| 0 <= i < j < |rest| && test(rest[i]) && test(rest[j]);
      assert names[i + 1] == rest[i] && names[j + 1] == rest[j];
    } else {
      var n :| n in rest && test(n);
      var j :| 0 <= j < |rest| && rest[j] == n;
      assert names[j + 1] == n;
    }
  }

  lemma {:induction false} TwoRows(c: Config, names: seq<string>, keep: string -> bool)
    requires |Rows(c, names, keep)| > 1
    ensures TwoPass(names, n => n in c.rows && keep(n))
  {
    var rest := Rows(c, names[1..], keep);
    if names[0] in c.rows && keep(names[0]) {
      assert rest[0] in rest;
    } else {
      TwoRows(c, names[1..], keep);
    }
    TwoCons(names, n => n in c.rows && keep(n));
  }

  lemma SameTwo(names: seq<string>, test: string -> bool, other: string -> bool)
    requires forall n :: test(n) ==> other(n)
    requires TwoPass(names, test)
    ensures TwoPass(names, other)
  {
    var i, j :| 0 <= i < j < |names| && test(names[i]) && test(names[j]);
    assert other(names[i]) && other(names[j]);
  }

  /** Filtering twice is filtering by both. */
  lemma {:induction false} RowsTwice(c: Config, names: seq<string>, keep: string -> bool, test: string -> bool)
    ensures Rows(c, Rows(c, names, keep), test) == Rows(c, names, n => keep(n) && test(n))
  {
    if names != [] {
      RowsTwice(c, names[1..], keep, test);
      if names[0] in c.rows && keep(names[0]) { assert Rows(c, names, keep)[1..] == Rows(c, names[1..], keep); }
    }
  }

  function AliasHits(c: Config, id: string): (r: seq<string>)
    ensures forall n :: n in r <==> n in ActiveProviders(c) && Aliases(c, n, id)
  {
    Rows(c, ActiveProviders(c), n => c.modelAlias(n, id).Some?)
  }

  lemma AliasHitMembers(c: Config, id: string)
    ensures forall n :: n in AliasHits(c, id) <==> n in c.names && Active(c, n) && Aliases(c, n, id)
  {
    ActiveMembers(c);
  }

  lemma SomeAlias(c: Config, id: string)
    ensures AliasHits(c, id) != [] <==> SomeActive(c, n => Aliases(c, n, id))
  {
    var hits := AliasHits(c, id);
    AliasHitMembers(c, id);
    if hits != [] { assert hits[0] in hits; }
  }

  lemma SingleAlias(c: Config, id: string)
    requires |AliasHits(c, id)| == 1
    ensures ByAlias(c, id).Some? && AliasDecided(c, id, ByAlias(c, id).value)
  {
    var hits := AliasHits(c, id);
    AliasHitMembers(c, id);
    assert hits[0] in hits && forall n :: n in hits ==> n == hits[0];
  }

  lemma TwoOfBoth(c: Config, names: seq<string>, keep: string -> bool, test: string -> bool)
    requires |Rows(c, Rows(c, names, keep), test)| > 1
    ensures TwoPass(names, n => n in c.rows && keep(n) && test(n))
  {
    var both := (n: string) => keep(n) && test(n);
    RowsTwice(c, names, keep, test);
    TwoRows(c, names, both);
    SameTwo(names, n => n in c.rows && both(n), n => n in c.rows && keep(n) && test(n));
  }

  lemma AmbiguousRows(c: Config, id: string)
    requires |AliasHits(c, id)| > 1
    ensures TwoActive(c, n => Aliases(c, n, id))
  {
    TwoOfBoth(c, c.names, n => Active(c, n), n => c.modelAlias(n, id).Some?);
    SameTwo(
      c.names, n => n in c.rows && Active(c, n) && c.modelAlias(n, id).Some?, n => Active(c, n) && Aliases(c, n, id));
  }

  lemma AliasTier(c: Config, id: string)
    ensures
      var d := ByAlias(c, id);
      && (d.Some? <==> SomeActive(c, n => Aliases(c, n, id)))
      && (d.Some? ==>
            if d.value == Refuse(AmbiguousModelAlias) then TwoActive(c, n => Aliases(c, n, id))
            else AliasDecided(c, id, d.value))
  {
    SomeAlias(c, id);
    if |AliasHits(c, id)| == 1 { SingleAlias(c, id); }
    if |AliasHits(c, id)| > 1 { AmbiguousRows(c, id); }
  }

  lemma PatternTier(c: Config, id: string)
    ensures forall p :: p in MODEL_PROVIDER_PATTERNS ==> !OfFamily(LEGACY_CHATGPT, p.family)
    ensures
      var d := ByPatterns(c, MODEL_PROVIDER_PATTERNS, id);
      && (d.Some? <==> exists p :: p in MODEL_PROVIDER_PATTERNS && PatternHits(c, p, id))
      && (d.Some? ==>
            && d.value.ToProvider? && d.value.model == id
            && d.value.kind == ExplicitProvider && d.value.reason == ModelPattern
            && exists k :: PatternPicks(c, MODEL_PROVIDER_PATTERNS, id, k, d.value.provider))
  {
    PatternsSpareLegacy();
    FirstPatternWins(c, MODEL_PROVIDER_PATTERNS, id);
  }

  /** Default models come before patterns, patterns before model lists, lists before aliases, the default last. */
  lemma InferTiers(c: Config, id: string)
    ensures Inferred(c, id, InferDecision(c, id))
  {
    DefaultTier(c, id);
    PatternTier(c, id);
    ListTier(c, id);
    AliasTier(c, id);
  }

  ghost predicate DistinctNames(c: Config) {
    forall i, j :: 0 <= i < j < |c.names| ==> c.names[i] != c.names[j]
  }

  /** The keys of a configuration are distinct, so an ambiguous alias is one that two different providers resolve. */
  lemma AmbiguousIsTwo(c: Config, id: string) returns (a: string, b: string)
    requires DistinctNames(c) && InferDecision(c, id) == Refuse(AmbiguousModelAlias)
    ensures a != b && Active(c, a) && Active(c, b) && Aliases(c, a, id) && Aliases(c, b, id)
  {
    InferTiers(c, id);
    assert TwoActive(c, n => Aliases(c, n, id));
    var i, j :| 0 <= i < j < |c.names| && Active(c, c.names[i]) && Aliases(c, c.names[i], id)
                && Active(c, c.names[j]) && Aliases(c, c.names[j], id);
    a, b := c.names[i], c.names[j];
  }

  // ---------- the provider a prefix means

  ghost predicate Only(c: Config, test: string -> bool, name: string) {
    name in c.names && name in c.rows && test(name) && forall n :: n in c.names && n in c.rows && test(n) ==> n == name
  }

  predicate AliasedTo(c: Config, lower: string, name: string) {
    name in c.rows && c.rows[name].alias.Some? && c.lower(c.trim(c.rows[name].alias.value)) == lower
  }

  /** The registry's alias of a row that has none of its own, and that no other row goes by. */
  predicate RegisteredAs(c: Config, lower: string, name: string) {
    && name in c.rows && c.rows[name].alias.None? && c.registryAlias(name).Some?
    && c.lower(c.registryAlias(name).value) == lower
    && forall n :: n in c.names && n in c.rows && n != name ==> c.lower(n) != lower && !AliasedTo(c, lower, n)
  }

  /** A row of that name, else the only row with that alias, else the only one the registry gives it to unclaimed. */
  ghost predicate Means(c: Config, prefix: string, name: string) {
    if prefix in c.rows then name == prefix
    else if exists n :: n in c.names && AliasedTo(c, c.lower(prefix), n) then
      Only(c, n => AliasedTo(c, c.lower(prefix), n), name)
    else Only(c, n => RegisteredAs(c, c.lower(prefix), n), name)
  }

  lemma OnlyRow(c: Config, keep: string -> bool)
    ensures
      var rows := Rows(c, c.names, keep);
      && (|rows| == 1 ==> Only(c, keep, rows[0]))
      && (rows == [] <==> forall n :: n in c.names && n in c.rows ==> !keep(n))
  {
    var rows := Rows(c, c.names, keep);
    if rows != [] { assert rows[0] in rows; }
    if |rows| == 1 { assert forall n :: n in rows ==> n == rows[0]; }
    if rows == [] { assert forall n :: n in c.names && n in c.rows ==> n !in rows; }
  }

  lemma NamedMeans(c: Config, prefix: string)
    ensures ProviderNamed(c, prefix).Named? ==> Means(c, prefix, ProviderNamed(c, prefix).provider)
    ensures ProviderNamed(c, prefix).Unnamed? ==> forall n :: n in c.names ==> !Means(c, prefix, n)
  {
    if prefix !in c.rows && prefix != ANTHROPIC2 {
      var lower := c.lower(prefix);
      OnlyRow(c, n => n in c.rows && c.rows[n].alias.Some? && c.lower(c.trim(c.rows[n].alias.value)) == lower);
      OnlyRow(c, n =>
        n in c.rows && c.rows[n].alias.None? && c.registryAlias(n).Some? && c.lower(c.registryAlias(n).value) == lower
        && !ClaimedByOther(c, n, lower));
    }
  }

  lemma NamespaceFollows(c: Config, id: string, slash: nat)
    requires slash < |id|
    ensures
      var d := NamespaceDecision(c, id, slash);
      && (d.Some? && d.value.ToProvider? ==>
            ProviderNamed(c, id[..slash]) == Named(d.value.provider) && d.value.reason == ExplicitNamespace)
      && (d.None? ==>
            var naming := ProviderNamed(c, id[..slash]);
            naming.Unnamed? || (naming.Named? && naming.provider !in c.rows))
  {
  }

  /** A prefix decision goes to the provider the prefix means; without a decision no provider is meant. */
  lemma NamespaceMeans(c: Config, id: string, slash: nat)
    requires slash < |id|
    ensures
      var d := NamespaceDecision(c, id, slash);
      && (d.Some? && d.value.ToProvider? ==>
        Means(c, id[..slash], d.value.provider) && d.value.reason == ExplicitNamespace)
      && (d.None? ==> forall n :: n in c.names ==> !Means(c, id[..slash], n))
  {
    NamespaceFollows(c, id, slash);
    NamedMeans(c, id[..slash]);
  }
}
