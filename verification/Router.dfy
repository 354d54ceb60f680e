/** src/router.ts: routeModelInternal and routeResult, recursive through policies, combos and redirects. */
module Router {
  import opened RouteDecision
  import opened RouteOrder
  import opened RouteOutcomes

  const MAX_BLOCKED_MODEL_REDIRECT_EDGES: nat := 5

  /** The resolved route, as far as the choice of destination goes. */
  datatype Route = Route(
    provider: string, model: string, kind: RouteKind, reason: RouteReason,
    accountId: Option<string>, credentialDomainRewrite: bool)

  datatype Result = Ok(route: Route) | Err(error: RouteError)

  /** The redirects taken so far on behalf of one request. */
  class RedirectState {
    var visited: set<string>
    var edges: nat

    constructor ()
      ensures Valid() && edges == 0
    {
      visited, edges := {}, 0;
    }

    /** Sources are pairwise distinct: as many of them as edges, and never more than the limit. */
    ghost predicate Valid()
      reads this
    {
      |visited| == edges <= MAX_BLOCKED_MODEL_REDIRECT_EDGES
    }

    /** Record a redirect away from `source`, unless it repeats or goes too deep. */
    method Take(source: string) returns (error: Option<RouteError>)
      requires Valid()
      modifies this
      ensures Valid()
      ensures error == (if source in old(visited) then Some(RedirectCycle)
                        else if old(edges) == MAX_BLOCKED_MODEL_REDIRECT_EDGES then Some(RedirectTooDeep) else None)
      ensures if error.None? then visited == old(visited) + {source} && edges == old(edges) + 1
              else visited == old(visited) && edges == old(edges)
    {
      if source in visited { return Some(RedirectCycle); }
      if edges >= MAX_BLOCKED_MODEL_REDIRECT_EDGES { return Some(RedirectTooDeep); }
      visited := visited + {source};
      edges := edges + 1;
      error := None;
    }
  }

  /** Where a request may end up, whatever mix of branches brought it there. */
  ghost predicate GoodRoute(c: Config, r: Route) {
    Routable(c, r.provider) && (r.accountId.Some? ==> r.provider == OPENAI)
  }

  /** The second Anthropic instance without its ownership evidence. */
  predicate UnownedPool2(c: Config, provider: string)
    requires provider in c.rows
  {
    provider == ANTHROPIC2 && c.rows[provider].authMode == Some(OAuth) && !c.pool2Shape(c.rows[provider])
  }

  /** The redirect that leaves `provider` for this model: the qualified mapping first, then the bare one. */
  function CrossTarget(c: Config, provider: string, model: string): Option<string> {
    var qualified := CrossProviderTarget(c, provider, Redirect(c, Qualified(Target(provider, model))));
    if qualified.Some? then qualified else CrossProviderTarget(c, provider, Redirect(c, model))
  }

  /** The route when nothing redirects it away: at most one same-provider substitution by a bare mapping. */
  function DirectRoute(c: Config, provider: string, model: string, kind: RouteKind, reason: RouteReason): (r: Route)
    ensures r.provider == provider && r.kind == kind && r.accountId == None && !r.credentialDomainRewrite
  {
    var bare := Redirect(c, model);
    if bare.Some? && bare.value != "" then Route(provider, bare.value, kind, BlockedModelRedirect, None, false)
    else Route(provider, if bare.Some? then bare.value else model, kind, reason, None, false)
  }

  /** What a route looks like once a cross-provider redirect led to it. */
  function Redirected(r: Result): Result {
    match r
    case Ok(route) => Ok(route.(reason := BlockedModelRedirect, credentialDomainRewrite := true))
    case Err(_) => r
  }

  function ForAccount(r: Result, accountId: string): Result {
    match r
    case Ok(route) => Ok(route.(accountId := Some(accountId)))
    case Err(_) => r
  }

  /** Where a chosen provider and model lead, `visited` being the redirects already taken. */
  function Settle(c: Config, provider: string, model: string, kind: RouteKind, reason: RouteReason,
    visited: set<string>): (r: Result)
    requires Routable(c, provider) && |visited| <= MAX_BLOCKED_MODEL_REDIRECT_EDGES
    decreases MAX_BLOCKED_MODEL_REDIRECT_EDGES - |visited|, 0
  {
    var target := CrossTarget(c, provider, model);
    var source := Qualified(Target(provider, model));
    if UnownedPool2(c, provider) then Err(Pool2Unavailable)
    else if target.None? then Ok(DirectRoute(c, provider, model, kind, reason))
    else if kind == ExplicitAccount then Err(RedirectLeavesAccount)
    else if source in visited then Err(RedirectCycle)
    else if |visited| == MAX_BLOCKED_MODEL_REDIRECT_EDGES then Err(RedirectTooDeep)
    else Redirected(Destination(c, Resolve(c, target.value, true, false), visited + {source}))
  }

  /** Where a decision for a concrete target leads. */
  function Destination(c: Config, d: Decision, visited: set<string>): (r: Result)
    requires Concrete(c, d) && |visited| <= MAX_BLOCKED_MODEL_REDIRECT_EDGES
    decreases MAX_BLOCKED_MODEL_REDIRECT_EDGES - |visited|, 1
  {
    match d
    case Refuse(error) => Err(error)
    case ToProvider(provider, model, kind, reason) => Settle(c, provider, model, kind, reason, visited)
    case ToAccount(model, accountId) =>
      ForAccount(Settle(c, OPENAI, model, ExplicitAccount, AccountNamespace, visited), accountId)
  }

  /** Where the target of a policy or a combo leads, under their own kind and, unless redirected, reason. */
  function Relabelled(c: Config, target: Target, kind: RouteKind, reason: RouteReason): Result {
    match Destination(c, Resolve(c, Qualified(target), true, false), {})
    case Ok(found) =>
      Ok(found.(kind := kind, reason := if found.reason == BlockedModelRedirect then found.reason else reason))
    case Err(error) => Err(error)
  }

  /** Where any first decision leads; a policy's candidate that was redirected must be eligible where it ends. */
  function Outcome(c: Config, d: Decision): Result
    requires Concrete(c, d) || d.ViaPolicy? || d.ViaCombo?
  {
    match d
    case ViaPolicy(policyId, target) =>
      var r := Relabelled(c, target, PolicyKind, PolicySelected);
      if r.Ok? && r.route.reason == BlockedModelRedirect
        && !c.eligible(policyId, Target(r.route.provider, r.route.model))
      then Err(NoEligibleCandidate) else r
    case ViaCombo(target) => Relabelled(c, target, ComboKind, ComboPick)
    case _ => Destination(c, d, {})
  }

  /** Take the redirect from `source` to `target` and route that. */
  method FollowRedirect(c: Config, source: string, target: string, state: RedirectState) returns (r: Result)
    requires state.Valid()
    modifies state
    ensures state.Valid() && state.visited >= old(state.visited) && state.edges >= old(state.edges)
    ensures r ==
      if source in old(state.visited) then Err(RedirectCycle)
      else if old(state.edges) == MAX_BLOCKED_MODEL_REDIRECT_EDGES then Err(RedirectTooDeep)
      else Redirected(Destination(c, Resolve(c, target, true, false), old(state.visited) + {source}))
    ensures r.Ok? ==> GoodRoute(c, r.route) && r.route.credentialDomainRewrite
    ensures r.Ok? ==> state.edges > old(state.edges) && source in state.visited - old(state.visited)
    decreases MAX_BLOCKED_MODEL_REDIRECT_EDGES - state.edges, 0
  {
    var refused := state.Take(source);
    if refused.Some? { return Err(refused.value); }
    r := RouteModelInternal(c, target, true, false, state);
    if r.Ok? { r := Ok(r.route.(reason := BlockedModelRedirect, credentialDomainRewrite := true)); }
  }

  method RouteResult(c: Config, provider: string, model: string, kind: RouteKind, reason: RouteReason,
    state: RedirectState)
    returns (r: Result)
    requires state.Valid() && Routable(c, provider)
    modifies state
    ensures state.Valid() && state.visited >= old(state.visited) && state.edges >= old(state.edges)
    ensures r == Settle(c, provider, model, kind, reason, old(state.visited))
    ensures r.Ok? ==> GoodRoute(c, r.route) && (r.route.credentialDomainRewrite <==> state.edges > old(state.edges))
    ensures r.Ok? && CrossTarget(c, provider, model).Some? ==>
      Qualified(Target(provider, model)) in state.visited - old(state.visited)
    decreases MAX_BLOCKED_MODEL_REDIRECT_EDGES - state.edges, 1
  {
    if UnownedPool2(c, provider) {
      return Err(Pool2Unavailable);
    }
    var target := CrossTarget(c, provider, model);
    if target.None? {
      return Ok(DirectRoute(c, provider, model, kind, reason));
    }
    if kind == ExplicitAccount { return Err(RedirectLeavesAccount); }
    r := FollowRedirect(c, Qualified(Target(provider, model)), target.value, state);
  }

  method FollowConcrete(c: Config, d: Decision, state: RedirectState) returns (r: Result)
    requires state.Valid() && Concrete(c, d)
    modifies state
    ensures state.Valid() && state.visited >= old(state.visited) && state.edges >= old(state.edges)
    ensures r == Destination(c, d, old(state.visited))
    ensures r.Ok? ==> GoodRoute(c, r.route) && (r.route.credentialDomainRewrite <==> state.edges > old(state.edges))
    decreases MAX_BLOCKED_MODEL_REDIRECT_EDGES - state.edges, 2
  {
    match d
    case Refuse(error) => r := Err(error);
    case ToProvider(provider, model, kind, reason) => r := RouteResult(c, provider, model, kind, reason, state);
    case ToAccount(model, accountId) =>
      r := RouteResult(c, OPENAI, model, ExplicitAccount, AccountNamespace, state);
      if r.Ok? { r := Ok(r.route.(accountId := Some(accountId))); }
  }

  /** The first decision of a request, no redirect taken yet. */
  method Follow(c: Config, d: Decision, state: RedirectState) returns (r: Result)
    requires state.Valid() && state.visited == {} && (Concrete(c, d) || d.ViaPolicy? || d.ViaCombo?)
    modifies state
    ensures r == Outcome(c, d)
    ensures r.Ok? ==> GoodRoute(c, r.route) && (r.route.credentialDomainRewrite <==> state.edges > 0)
    decreases MAX_BLOCKED_MODEL_REDIRECT_EDGES - state.edges, 5
  {
    if d.ViaPolicy? {
      r := RouteModelInternal(c, Qualified(d.target), true, false, state);
      if r.Ok? {
        var found := r.route;
        if found.reason == BlockedModelRedirect && !c.eligible(d.policyId, Target(found.provider, found.model)) {
          return Err(NoEligibleCandidate);
        }
        var reason := if found.reason == BlockedModelRedirect then BlockedModelRedirect else PolicySelected;
        r := Ok(found.(kind := PolicyKind, reason := reason));
      }
    } else if d.ViaCombo? {
      r := RouteModelInternal(c, Qualified(d.target), true, false, state);
      if r.Ok? {
        var found := r.route;
        var reason := if found.reason == BlockedModelRedirect then BlockedModelRedirect else ComboPick;
        r := Ok(found.(kind := ComboKind, reason := reason));
      }
    } else {
      r := FollowConcrete(c, d, state);
    }
  }

  method RouteModelInternal(c: Config, id: string, bypass: bool, compaction: bool,
                              state: RedirectState)
    returns (r: Result)
    requires state.Valid() && (!bypass ==> state.visited == {})
    modifies state
    ensures bypass ==> state.Valid() && state.visited >= old(state.visited) && state.edges >= old(state.edges)
    ensures r == if bypass then Destination(c, Resolve(c, id, true, compaction), old(state.visited))
                 else Outcome(c, Resolve(c, id, false, compaction))
    ensures r.Ok? ==> GoodRoute(c, r.route) && (r.route.credentialDomainRewrite <==> state.edges > old(state.edges))
    decreases MAX_BLOCKED_MODEL_REDIRECT_EDGES - state.edges, if bypass then 3 else 6
  {
    if bypass {
      r := FollowConcrete(c, Resolve(c, id, true, compaction), state);
    } else {
      r := Follow(c, Resolve(c, id, false, compaction), state);
    }
  }

  /** The model that is sent: a mapping of its own name replaces it. */
  function Substitute(c: Config, model: string): string {
    if model in c.redirects && model !in {"__proto__", "prototype", "constructor"} then c.redirects[model] else model
  }

  lemma SubstituteIs(c: Config, provider: string, model: string, kind: RouteKind, reason: RouteReason)
    ensures
      var r := DirectRoute(c, provider, model, kind, reason);
      && r.model == Substitute(c, model)
      && r.reason == if RedirectsTo(c, model, r.model) && r.model != "" then BlockedModelRedirect else reason
  {
  }

  /** Where no redirect leads away, the route is the one of the provider and model decided on. */
  lemma NotRedirected(c: Config, d: Decision)
    requires Concrete(c, d) && d.ToProvider?
    ensures
      var r := Destination(c, d, {});
      r.Ok? && !r.route.credentialDomainRewrite ==> r.route == DirectRoute(c, d.provider, d.model, d.kind, d.reason)
  {
  }

  lemma NamedDecision(c: Config, prefix: string, rest: string, name: string, compaction: bool)
    requires IsPrefix(prefix) && PrefixAsked(c, prefix, Qualified(Target(prefix, rest)), false)
    requires Means(c, prefix, name)
    ensures
      var id := Qualified(Target(prefix, rest));
      var d := Resolve(c, id, false, compaction);
      d.Refuse? || (d.ToProvider? && d.provider == name && SentModel(c, name, id, rest, d.model))
  {
    var id := Qualified(Target(prefix, rest));
    var d := Resolve(c, id, false, compaction);
    PrefixOutcome(c, prefix, rest, false, compaction);
    if n :| n in c.rows && Means(c, prefix, n) && ExplicitAnswer(c, n, id, rest, d) { MeansOne(c, prefix, n, name); }
  }


  /** An explicit id that is not redirected away goes to the provider its prefix means, as the model it names there. */
  ghost predicate GoesWhereNamed(c: Config, id: string, r: Route) {
    forall prefix, rest, name ::
      IsPrefix(prefix) && id == Qualified(Target(prefix, rest)) && PrefixAsked(c, prefix, id, false)
      && Means(c, prefix, name) && !r.credentialDomainRewrite ==>
        r.provider == name && exists model :: SentModel(c, name, id, rest, model) && r.model == Substitute(c, model)
  }

  lemma NamedRoute(c: Config, prefix: string, rest: string, name: string, compaction: bool)
    requires IsPrefix(prefix) && PrefixAsked(c, prefix, Qualified(Target(prefix, rest)), false)
    requires Means(c, prefix, name)
    ensures
      var id := Qualified(Target(prefix, rest));
      var r := Outcome(c, Resolve(c, id, false, compaction));
      r.Ok? && !r.route.credentialDomainRewrite ==>
        r.route.provider == name
        && exists model :: SentModel(c, name, id, rest, model) && r.route.model == Substitute(c, model)
  {
    var id := Qualified(Target(prefix, rest));
    var d := Resolve(c, id, false, compaction);
    NamedDecision(c, prefix, rest, name, compaction);
    if d.ToProvider? {
      NotRedirected(c, d);
      SubstituteIs(c, d.provider, d.model, d.kind, d.reason);
    }
  }

  /**
   * A whole request. It always ends, after at most five redirects; a route it returns is usable, an explicit id goes
   * where it says, and a bare OpenAI-family id with no policy or combo leaves openai only by redirect or for
   * compaction.
   */
  method RouteModel(c: Config, id: string, compaction: bool) returns (r: Result)
    ensures r == Outcome(c, Resolve(c, id, false, compaction))
    ensures r.Ok? ==> GoodRoute(c, r.route) && GoesWhereNamed(c, id, r.route)
    ensures r.Ok? && BareOpenAiFamily(c, id) && PolicyDecision(c, id).None? && ComboDecision(c, id).None? ==>
      || r.route.provider == OPENAI
      || r.route.credentialDomainRewrite
      || (compaction && !Enabled(c, OPENAI) && r.route.provider == c.defaultProvider)
    ensures Resolve(c, id, false, compaction).Refuse? ==> r == Err(Resolve(c, id, false, compaction).error)
  {
    if BareOpenAiFamily(c, id) && PolicyDecision(c, id).None? && ComboDecision(c, id).None? {
      BareFamilyStays(c, id, false, compaction);
    }
    var state := new RedirectState();
    r := RouteModelInternal(c, id, false, compaction, state);
    forall prefix, rest, name |
      IsPrefix(prefix) && id == Qualified(Target(prefix, rest)) && PrefixAsked(c, prefix, id, false)
      && Means(c, prefix, name) && r.Ok? && !r.route.credentialDomainRewrite
      ensures r.route.provider == name
      ensures exists model :: SentModel(c, name, id, rest, model) && r.route.model == Substitute(c, model)
    {
      NamedRoute(c, prefix, rest, name, compaction);
    }
  }
}
