/** src/router.ts: redirects between providers. A request is routed exactly when its chain of redirects ends in time. */
module RouteChain {
  import opened RouteDecision
  import opened RouteOutcomes
  import opened Router

  /** A provider and model on the way, with the label and the account a decision gave it. */
  datatype Hop = Hop(provider: string, model: string, kind: RouteKind, reason: RouteReason, account: Option<string>)

  ghost predicate Lands(d: Decision, h: Hop) {
    match d
    case ToProvider(provider, model, kind, reason) => h == Hop(provider, model, kind, reason, None)
    case ToAccount(model, account) => h == Hop(OPENAI, model, ExplicitAccount, AccountNamespace, Some(account))
    case _ => false
  }

  /** The redirect away from a provider: the mapping of its qualified id, or else of the bare model. */
  ghost predicate RedirectedTo(c: Config, h: Hop, target: Target) {
    var qualified := Qualified(Target(h.provider, h.model));
    MapsAway(c, h.provider, qualified, target) ||
    (!Leaves(c, h.provider, qualified) && MapsAway(c, h.provider, h.model, target))
  }

  ghost predicate Stays(c: Config, h: Hop) {
    forall t :: !RedirectedTo(c, h, t)
  }

  function Source(h: Hop): string {
    Qualified(Target(h.provider, h.model))
  }

  /** One redirect: from a hop that is not pinned to an account to where its target resolves. */
  ghost predicate Link(c: Config, h: Hop, next: Hop) {
    && h.kind != ExplicitAccount
    && exists t :: RedirectedTo(c, h, t) && Lands(Resolve(c, Qualified(t), true, false), next)
  }

  /** The hops of a decision, from where it points to where no redirect leads away. */
  ghost predicate Chain(c: Config, d: Decision, hops: seq<Hop>) {
    && hops != [] && Lands(d, hops[0]) && Stays(c, hops[|hops| - 1])
    && (forall i :: 0 <= i < |hops| - 1 ==> Link(c, hops[i], hops[i + 1]))
    && (forall h :: h in hops ==> h.provider in c.rows && !UnownedPool2(c, h.provider))
  }

  /** No redirect is taken twice, none of those taken before is taken again, and there are not too many. */
  ghost predicate Fits(hops: seq<Hop>, visited: set<string>) {
    && (forall i, j :: 0 <= i < j < |hops| - 1 ==> Source(hops[i]) != Source(hops[j]))
    && (forall i :: 0 <= i < |hops| - 1 ==> Source(hops[i]) !in visited)
    && |visited| + |hops| - 1 <= MAX_BLOCKED_MODEL_REDIRECT_EDGES
  }

  /** The route where the hops end. */
  function RouteAt(c: Config, hops: seq<Hop>): Route
    requires hops != []
  {
    var h := hops[|hops| - 1];
    var model := Substitute(c, h.model);
    var mapped := RedirectsTo(c, h.model, model) && model != "";
    Route(h.provider, model, h.kind, if |hops| > 1 || mapped then BlockedModelRedirect else h.reason, h.account,
          |hops| > 1)
  }

  lemma CrossTargetIs(c: Config, h: Hop)
    ensures CrossTarget(c, h.provider, h.model).None? <==> Stays(c, h)
    ensures forall t :: RedirectedTo(c, h, t) ==> CrossTarget(c, h.provider, h.model) == Some(Qualified(t))
  {
    LeavesIff(c, h.provider, Source(h));
    LeavesIff(c, h.provider, h.model);
    var target := CrossTarget(c, h.provider, h.model);
    if target.Some? {
      if Leaves(c, h.provider, Source(h)) {
        var t: Target :| MapsAway(c, h.provider, Source(h), t);
        assert RedirectedTo(c, h, t);
      } else {
        var t: Target :| MapsAway(c, h.provider, h.model, t);
        assert RedirectedTo(c, h, t);
      }
    }
  }

  lemma DestinationOf(c: Config, d: Decision, h: Hop, visited: set<string>)
    requires Concrete(c, d) && Lands(d, h) && |visited| <= MAX_BLOCKED_MODEL_REDIRECT_EDGES
    ensures Routable(c, h.provider)
    ensures
      var r := Settle(c, h.provider, h.model, h.kind, h.reason, visited);
      Destination(c, d, visited) == if h.account.Some? then ForAccount(r, h.account.value) else r
  {
  }

  /** A hop that stays is the route itself. */
  lemma LastHop(c: Config, d: Decision, h: Hop, visited: set<string>)
    requires Concrete(c, d) && Lands(d, h) && |visited| <= MAX_BLOCKED_MODEL_REDIRECT_EDGES
    requires Stays(c, h) && h.provider in c.rows && !UnownedPool2(c, h.provider)
    ensures Destination(c, d, visited) == Ok(RouteAt(c, [h]))
  {
    DestinationOf(c, d, h, visited);
    CrossTargetIs(c, h);
    SubstituteIs(c, h.provider, h.model, h.kind, h.reason);
  }

  /** A hop that is redirected is routed as its target is. */
  lemma NextHop(c: Config, d: Decision, h: Hop, t: Target, visited: set<string>)
    requires Concrete(c, d) && Lands(d, h) && |visited| < MAX_BLOCKED_MODEL_REDIRECT_EDGES
    requires h.kind != ExplicitAccount && RedirectedTo(c, h, t) && Source(h) !in visited
    requires h.provider in c.rows && !UnownedPool2(c, h.provider)
    ensures |visited + {Source(h)}| <= MAX_BLOCKED_MODEL_REDIRECT_EDGES
    ensures Destination(c, d, visited) ==
      Redirected(Destination(c, Resolve(c, Qualified(t), true, false), visited + {Source(h)}))
  {
    DestinationOf(c, d, h, visited);
    CrossTargetIs(c, h);
  }

  lemma RestOfChain(c: Config, d: Decision, hops: seq<Hop>, t: Target, visited: set<string>)
    requires Chain(c, d, hops) && Fits(hops, visited) && |hops| > 1 && RedirectedTo(c, hops[0], t)
    requires |visited| < MAX_BLOCKED_MODEL_REDIRECT_EDGES
    ensures Chain(c, Resolve(c, Qualified(t), true, false), hops[1..]) && Fits(hops[1..], visited + {Source(hops[0])})
  {
    var rest := hops[1..];
    assert Link(c, hops[0], hops[1]);
    CrossTargetIs(c, hops[0]);
    assert Lands(Resolve(c, Qualified(t), true, false), rest[0]);
    forall i | 0 <= i < |rest| - 1 ensures Link(c, rest[i], rest[i + 1]) && rest[i] == hops[i + 1] {
      assert Link(c, hops[i + 1], hops[i + 2]);
    }
    forall i, j | 0 <= i < j < |rest| - 1 ensures Source(rest[i]) != Source(rest[j]) {
      assert rest[i] == hops[i + 1] && rest[j] == hops[j + 1];
    }
  }

  /** A chain that ends in time is followed to its end. */
  lemma {:induction false} ChainRoutes(c: Config, d: Decision, hops: seq<Hop>, visited: set<string>)
    requires Concrete(c, d) && Chain(c, d, hops) && Fits(hops, visited)
    ensures |visited| <= MAX_BLOCKED_MODEL_REDIRECT_EDGES && Destination(c, d, visited) == Ok(RouteAt(c, hops))
    decreases |hops|
  {
    var h := hops[0];
    if |hops| == 1 {
      assert hops == [h];
      LastHop(c, d, h, visited);
    } else {
      assert Link(c, h, hops[1]);
      var t :| RedirectedTo(c, h, t) && Lands(Resolve(c, Qualified(t), true, false), hops[1]);
      RestOfChain(c, d, hops, t, visited);
      NextHop(c, d, h, t, visited);
      ChainRoutes(c, Resolve(c, Qualified(t), true, false), hops[1..], visited + {Source(h)});
    }
  }

  lemma LongerFits(h: Hop, rest: seq<Hop>, visited: set<string>)
    requires Source(h) !in visited && rest != [] && Fits(rest, visited + {Source(h)})
    ensures Fits([h] + rest, visited)
  {
    var hops := [h] + rest;
    forall i, j | 0 <= i < j < |hops| - 1 ensures Source(hops[i]) != Source(hops[j]) {
      assert hops[j] == rest[j - 1];
      if i > 0 { assert hops[i] == rest[i - 1]; }
    }
  }

  lemma LongerChain(c: Config, d: Decision, h: Hop, t: Target, rest: seq<Hop>)
    requires Lands(d, h) && h.kind != ExplicitAccount && RedirectedTo(c, h, t)
    requires h.provider in c.rows && !UnownedPool2(c, h.provider)
    requires Chain(c, Resolve(c, Qualified(t), true, false), rest)
    ensures Chain(c, d, [h] + rest)
  {
    var hops := [h] + rest;
    assert Link(c, h, rest[0]);
    forall i | 0 <= i < |hops| - 1 ensures Link(c, hops[i], hops[i + 1]) {
      if i > 0 { assert Link(c, rest[i - 1], rest[i]); }
    }
  }

  /** Whatever is routed was reached by a chain that ends in time. */
  lemma {:induction false} RoutedByChain(c: Config, d: Decision, visited: set<string>) returns (hops: seq<Hop>)
    requires Concrete(c, d) && |visited| <= MAX_BLOCKED_MODEL_REDIRECT_EDGES && Destination(c, d, visited).Ok?
    ensures Chain(c, d, hops) && Fits(hops, visited)
    decreases MAX_BLOCKED_MODEL_REDIRECT_EDGES - |visited|
  {
    var h := if d.ToProvider? then Hop(d.provider, d.model, d.kind, d.reason, None)
             else Hop(OPENAI, d.model, ExplicitAccount, AccountNamespace, Some(d.accountId));
    DestinationOf(c, d, h, visited);
    CrossTargetIs(c, h);
    if Stays(c, h) {
      hops := [h];
    } else {
      var t :| RedirectedTo(c, h, t);
      NextHop(c, d, h, t, visited);
      var rest := RoutedByChain(c, Resolve(c, Qualified(t), true, false), visited + {Source(h)});
      LongerChain(c, d, h, t, rest);
      LongerFits(h, rest, visited);
      hops := [h] + rest;
    }
  }

  /** The hops of a request whose chain ends within the limit and without repeating a redirect. */
  ghost predicate Ends(c: Config, d: Decision, hops: seq<Hop>) {
    Chain(c, d, hops) && Fits(hops, {})
  }

  /** A concrete target is routed exactly when its chain of at most five different redirects ends, and then there. */
  lemma RoutedIff(c: Config, d: Decision)
    requires Concrete(c, d)
    ensures Destination(c, d, {}).Ok? <==> exists hops :: Ends(c, d, hops)
    ensures forall hops :: Ends(c, d, hops) ==> |hops| <= 6 && Destination(c, d, {}) == Ok(RouteAt(c, hops))
  {
    if Destination(c, d, {}).Ok? {
      var hops := RoutedByChain(c, d, {});
      assert Ends(c, d, hops);
    }
    forall hops | Ends(c, d, hops) ensures |hops| <= 6 && Destination(c, d, {}) == Ok(RouteAt(c, hops)) {
      ChainRoutes(c, d, hops, {});
    }
  }

  /** The concrete decision that a request comes down to. */
  function Start(c: Config, d: Decision): Decision {
    if d.ViaPolicy? || d.ViaCombo? then Resolve(c, Qualified(d.target), true, false) else d
  }

  /** What a chain returns: its end, under the kind of a policy or a combo and, without a redirect, its reason. */
  function Labelled(c: Config, d: Decision, hops: seq<Hop>): Route
    requires hops != []
  {
    var r := RouteAt(c, hops);
    var kept := r.reason == BlockedModelRedirect;
    match d
    case ViaPolicy(_, _) => r.(kind := PolicyKind, reason := if kept then r.reason else PolicySelected)
    case ViaCombo(_) => r.(kind := ComboKind, reason := if kept then r.reason else ComboPick)
    case _ => r
  }

  /** The candidate that a policy selected may be replaced only by one that the policy found eligible too. */
  ghost predicate Admitted(c: Config, d: Decision, r: Route) {
    d.ViaPolicy? && r.reason == BlockedModelRedirect ==> c.eligible(d.policyId, Target(r.provider, r.model))
  }

  lemma OutcomeOfChain(c: Config, d: Decision, hops: seq<Hop>)
    requires (Concrete(c, d) || d.ViaPolicy? || d.ViaCombo?) && Ends(c, Start(c, d), hops)
    ensures
      var r := Labelled(c, d, hops);
      Outcome(c, d) == if Admitted(c, d, r) then Ok(r) else Err(NoEligibleCandidate)
  {
    ChainRoutes(c, Start(c, d), hops, {});
  }

  lemma OutcomeIff(c: Config, d: Decision)
    requires Concrete(c, d) || d.ViaPolicy? || d.ViaCombo?
    ensures
      var r := Outcome(c, d);
      && (r.Ok? <==> exists hops :: Ends(c, Start(c, d), hops) && Admitted(c, d, Labelled(c, d, hops)))
      && forall hops :: Ends(c, Start(c, d), hops) && r.Ok? ==> r.route == Labelled(c, d, hops)
  {
    forall hops | Ends(c, Start(c, d), hops)
      ensures Outcome(c, d).Ok? <==> Admitted(c, d, Labelled(c, d, hops))
      ensures Outcome(c, d).Ok? ==> Outcome(c, d).route == Labelled(c, d, hops)
    {
      OutcomeOfChain(c, d, hops);
    }
    if Outcome(c, d).Ok? {
      var hops := RoutedByChain(c, Start(c, d), {});
      assert Ends(c, Start(c, d), hops);
    }
  }

  /** A whole request is routed exactly when its chain ends in time, at a place its policy admits. */
  lemma RequestIff(c: Config, id: string, compaction: bool)
    ensures
      var d := Resolve(c, id, false, compaction);
      var r := Outcome(c, d);
      && (r.Ok? <==> exists hops :: Ends(c, Start(c, d), hops) && Admitted(c, d, Labelled(c, d, hops)))
      && forall hops :: Ends(c, Start(c, d), hops) && r.Ok? ==> r.route == Labelled(c, d, hops)
  {
    OutcomeIff(c, Resolve(c, id, false, compaction));
  }
}
