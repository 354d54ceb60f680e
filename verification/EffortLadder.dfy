/** src/reasoning-effort.ts: the request clamp, and when it agrees with the catalog's resolver. */
module EffortLadder {
  import opened Sorting

  datatype Option<+T> = None | Some(value: T)

  /** An effort label: a sentinel, a ladder rung, or some other text. */
  datatype Effort = NoEffort | Minimal | Low | Medium | High | XHigh | MaxEffort | Ultra | Unknown(text: string)

  /** Position on the ladder (low = 0 .. ultra = 5), -1 off it. */
  function Rank(e: Effort): (r: int)
    ensures -1 <= r <= 5
  {
    match e
    case Low => 0
    case Medium => 1
    case High => 2
    case XHigh => 3
    case MaxEffort => 4
    case Ultra => 5
    case _ => -1
  }

  predicate IsRung(e: Effort) {
    Rank(e) >= 0
  }

  predicate IsSentinel(e: Effort) {
    e == NoEffort || e == Minimal
  }

  predicate IsDeclared(e: Effort) {
    IsRung(e) || IsSentinel(e)
  }

  lemma RungsAreDistinct(a: Effort, b: Effort)
    requires IsRung(a) && Rank(a) == Rank(b)
    ensures a == b
  {
  }

  /** The rungs from the lowest to the highest, and nothing else on the ladder. */
  lemma LadderOrder(e: Effort)
    ensures Rank(NoEffort) < Rank(Low) < Rank(Medium) < Rank(High) < Rank(XHigh) < Rank(MaxEffort) < Rank(Ultra)
    ensures IsRung(e) <==> e in {Low, Medium, High, XHigh, MaxEffort, Ultra}
    ensures !IsRung(e) ==> Rank(e) == Rank(NoEffort)
  {
  }

  predicate RankLeq(a: Effort, b: Effort) {
    Rank(a) <= Rank(b)
  }

  lemma RankLeqIsTotal()
    ensures TotalPreorder(RankLeq)
  {
  }

  // ---------- sanitizeCodexReasoningEfforts

  /** Declared efforts at their first occurrence, in input order. */
  function FirstDeclared(efforts: seq<Effort>): seq<Effort> {
    if efforts == [] then []
    else
      var before := FirstDeclared(efforts[..|efforts| - 1]);
      var last := efforts[|efforts| - 1];
      if IsDeclared(last) && last !in before then before + [last] else before
  }

  function Sanitized(efforts: seq<Effort>): seq<Effort> {
    SortBy(RankLeq, FirstDeclared(efforts))
  }

  method SanitizeEfforts(efforts: seq<Effort>) returns (out: seq<Effort>)
    ensures out == Sanitized(efforts)
  {
    var seen: set<Effort> := {};
    out := [];
    for i := 0 to |efforts|
      invariant out == FirstDeclared(efforts[..i])
      invariant forall e :: e in seen <==> e in out
    {
      assert efforts[..i + 1][..i] == efforts[..i];
      var effort := efforts[i];
      if !IsDeclared(effort) || effort in seen { continue; }
      seen := seen + {effort};
      out := out + [effort];
    }
    assert efforts[..|efforts|] == efforts;
    out := SortBy(RankLeq, out);
  }

  /** The sanitised ladder: every declared effort once, sentinels first and rungs ascending. */
  ghost predicate IsLadder(ladder: seq<Effort>) {
    && Distinct(ladder) && (forall e :: e in ladder ==> IsDeclared(e)) && SortedBy(RankLeq, ladder)
  }

  lemma {:induction false} FirstDeclaredMembers(efforts: seq<Effort>)
    ensures Distinct(FirstDeclared(efforts))
    ensures forall e :: e in FirstDeclared(efforts) <==> e in efforts && IsDeclared(e)
  {
    if efforts != [] {
      var n := |efforts| - 1;
      FirstDeclaredMembers(efforts[..n]);
      assert efforts == efforts[..n] + [efforts[n]];
    }
  }

  lemma SanitizedIsLadder(efforts: seq<Effort>)
    ensures IsLadder(Sanitized(efforts))
    ensures forall e :: e in Sanitized(efforts) <==> e in efforts && IsDeclared(e)
  {
    FirstDeclaredMembers(efforts);
    SortByDistinct(RankLeq, FirstDeclared(efforts));
    SortByMembers(RankLeq, FirstDeclared(efforts));
    RankLeqIsTotal();
    SortBySorted(RankLeq, FirstDeclared(efforts));
  }

  /** Sanitising a sanitised ladder changes nothing. */
  lemma {:induction false} LadderIsFixed(ladder: seq<Effort>)
    requires IsLadder(ladder)
    ensures Sanitized(ladder) == ladder
  {
    FirstDeclaredFixed(ladder);
    SortedIsFixed(ladder);
  }

  lemma {:induction false} FirstDeclaredFixed(ladder: seq<Effort>)
    requires Distinct(ladder) && forall e :: e in ladder ==> IsDeclared(e)
    ensures FirstDeclared(ladder) == ladder
  {
    if ladder != [] {
      var n := |ladder| - 1;
      assert ladder == ladder[..n] + [ladder[n]];
      FirstDeclaredFixed(ladder[..n]);
      assert ladder[n] !in ladder[..n];
    }
  }

  lemma {:induction false} SortedIsFixed(s: seq<Effort>)
    requires SortedBy(RankLeq, s)
    ensures SortBy(RankLeq, s) == s
  {
    if s != [] {
      SortedIsFixed(s[1..]);
      assert s == [s[0]] + s[1..];
    }
  }

  // ---------- clampToSupportedCodexEffort

  /** The ladder rung a request asks for; `none` and unknown labels ask for nothing. */
  function RequestedRung(requested: Effort): (r: Option<Effort>)
    ensures r.Some? ==> IsRung(r.value)
  {
    if requested == Minimal then Some(Low) else if IsRung(requested) then Some(requested) else None
  }

  /** Entry `i` is at or below `rank`, and no other such entry is higher, or as high and later. */
  ghost predicate LastHighestAt(supported: seq<Effort>, rank: int, i: int) {
    && 0 <= i < |supported| && Rank(supported[i]) <= rank
    && forall j :: 0 <= j < |supported| && Rank(supported[j]) <= rank ==>
      Rank(supported[j]) < Rank(supported[i]) || (Rank(supported[j]) == Rank(supported[i]) && j <= i)
  }

  ghost predicate IsLastHighest(supported: seq<Effort>, rank: int, e: Effort) {
    exists i :: LastHighestAt(supported, rank, i) && supported[i] == e
  }

  /** What the clamp answers, for any list: a first entry above the request is never left again. */
  ghost predicate Clamped(supported: seq<Effort>, requested: Effort, r: Option<Effort>) {
    var codex := RequestedRung(requested);
    if supported == [] || codex.None? then r == None
    else if codex.value in supported then r == codex
    else if Rank(supported[0]) > Rank(codex.value) then r == Some(supported[0])
    else r.Some? && IsLastHighest(supported, Rank(codex.value), r.value)
  }

  method ClampToSupported(requested: Effort, supported: seq<Effort>) returns (r: Option<Effort>)
    ensures Clamped(supported, requested, r)
  {
    if supported == [] { return None; }
    var codex := RequestedRung(requested);
    if codex.None? { return None; }
    if codex.value in supported { return codex; }
    var requestedRank := Rank(codex.value);
    var best := supported[0];
    var bestRank := Rank(best);
    ghost var at := 0;
    for i := 0 to |supported|
      invariant 0 <= at < |supported| && best == supported[at] && bestRank == Rank(best) && (at == 0 || at < i)
      invariant Rank(supported[0]) > requestedRank ==> at == 0
      invariant Rank(supported[0]) <= requestedRank ==> bestRank <= requestedRank
      invariant Rank(supported[0]) <= requestedRank ==>
        forall j :: 0 <= j < i && Rank(supported[j]) <= requestedRank ==>
          Rank(supported[j]) < bestRank || (Rank(supported[j]) == bestRank && j <= at)
    {
      var effort := supported[i];
      var rank := Rank(effort);
      if rank <= requestedRank && rank >= bestRank {
        best, bestRank, at := effort, rank, i;
      }
    }
    assert Rank(supported[0]) <= requestedRank ==> LastHighestAt(supported, requestedRank, at);
    r := Some(best);
  }

  // ---------- resolveEffortAtOrBelow

  function Rungs(supported: seq<Effort>): (r: seq<Effort>)
    ensures forall e :: e in r <==> e in supported && IsRung(e)
  {
    if supported == [] then []
    else
      assert supported == [supported[0]] + supported[1..];
      (if IsRung(supported[0]) then [supported[0]] else []) + Rungs(supported[1..])
  }

  function AtOrBelow(ranked: seq<Effort>, rank: int): (r: seq<Effort>)
    ensures forall e :: e in r <==> e in ranked && Rank(e) <= rank
    ensures SortedBy(RankLeq, ranked) ==> SortedBy(RankLeq, r)
  {
    if ranked == [] then []
    else
      assert ranked == [ranked[0]] + ranked[1..];
      (if Rank(ranked[0]) <= rank then [ranked[0]] else []) + AtOrBelow(ranked[1..], rank)
  }

  /** The falsy request: an empty text. */
  predicate IsAbsent(e: Effort) {
    e.Unknown? && |e.text| == 0
  }

  /** The last of the rungs at or below the request, else the first rung. */
  function PickFrom(ranked: seq<Effort>, requested: Effort): Option<Effort> {
    var below := AtOrBelow(ranked, Rank(requested));
    if ranked == [] then None else if below == [] then Some(ranked[0]) else Some(below[|below| - 1])
  }

  function ResolveAtOrBelow(requested: Effort, supported: seq<Effort>): Option<Effort> {
    if IsAbsent(requested) then None
    else if requested in supported then Some(requested)
    else PickFrom(SortBy(RankLeq, Rungs(supported)), requested)
  }

  ghost predicate HighestRungBelow(supported: seq<Effort>, requested: Effort, r: Effort) {
    && r in supported && IsRung(r) && Rank(r) <= Rank(requested)
    && forall x :: x in supported && IsRung(x) && Rank(x) <= Rank(requested) ==> Rank(x) <= Rank(r)
  }

  ghost predicate LowestRung(supported: seq<Effort>, r: Effort) {
    r in supported && IsRung(r) && forall x :: x in supported && IsRung(x) ==> Rank(r) <= Rank(x)
  }

  ghost predicate HasRungAtOrBelow(ladder: seq<Effort>, requested: Effort) {
    exists x :: x in ladder && IsRung(x) && Rank(x) <= Rank(requested)
  }

  /**
   * The resolver in one sentence: nothing for no request, else the request, else the highest rung at or
   * below it, else the lowest rung, else nothing.
   */
  ghost predicate Resolved(supported: seq<Effort>, requested: Effort, r: Option<Effort>) {
    if requested == Unknown("") then r == None
    else if requested in supported then r == Some(requested)
    else if HasRungAtOrBelow(supported, requested) then r.Some? && HighestRungBelow(supported, requested, r.value)
    else if r.Some? then LowestRung(supported, r.value)
    else forall x :: x in supported ==> !IsRung(x)
  }

  lemma FirstIsLowest(ranked: seq<Effort>)
    requires SortedBy(RankLeq, ranked) && ranked != []
    ensures forall x :: x in ranked ==> Rank(ranked[0]) <= Rank(x)
    ensures forall x :: x in ranked ==> Rank(x) <= Rank(ranked[|ranked| - 1])
  {
    forall x | x in ranked ensures Rank(ranked[0]) <= Rank(x) <= Rank(ranked[|ranked| - 1]) {
      var i :| 0 <= i < |ranked| && ranked[i] == x;
      if i > 0 { assert RankLeq(ranked[0], ranked[i]); }
      if i < |ranked| - 1 { assert RankLeq(ranked[i], ranked[|ranked| - 1]); }
    }
  }

  ghost predicate RungsOf(ranked: seq<Effort>, supported: seq<Effort>) {
    SortedBy(RankLeq, ranked) && forall e :: e in ranked <==> e in supported && IsRung(e)
  }

  lemma PickHighest(requested: Effort, supported: seq<Effort>, ranked: seq<Effort>)
    requires RungsOf(ranked, supported) && AtOrBelow(ranked, Rank(requested)) != []
    ensures HasRungAtOrBelow(supported, requested)
    ensures ranked != [] && HighestRungBelow(supported, requested, PickFrom(ranked, requested).value)
  {
    var below := AtOrBelow(ranked, Rank(requested));
    FirstIsLowest(below);
    assert below[|below| - 1] in below;
  }

  lemma PickLowest(requested: Effort, supported: seq<Effort>, ranked: seq<Effort>)
    requires RungsOf(ranked, supported) && AtOrBelow(ranked, Rank(requested)) == []
    ensures !HasRungAtOrBelow(supported, requested)
    ensures if ranked == [] then forall x :: x in supported ==> !IsRung(x) else LowestRung(supported, ranked[0])
  {
    forall x | x in supported && IsRung(x) ensures Rank(x) > Rank(requested) && x in ranked {
      assert x !in AtOrBelow(ranked, Rank(requested));
    }
    if ranked != [] {
      FirstIsLowest(ranked);
      assert ranked[0] in ranked;
    }
  }

  lemma SortedRungs(supported: seq<Effort>)
    ensures RungsOf(SortBy(RankLeq, Rungs(supported)), supported)
  {
    SortByMembers(RankLeq, Rungs(supported));
    RankLeqIsTotal();
    SortBySorted(RankLeq, Rungs(supported));
  }

  lemma ResolveMeaning(requested: Effort, supported: seq<Effort>)
    ensures Resolved(supported, requested, ResolveAtOrBelow(requested, supported))
  {
    var ranked := SortBy(RankLeq, Rungs(supported));
    SortedRungs(supported);
    if AtOrBelow(ranked, Rank(requested)) == [] {
      PickLowest(requested, supported, ranked);
    } else {
      PickHighest(requested, supported, ranked);
    }
  }

  // ---------- when the two agree

  ghost predicate HasSentinel(ladder: seq<Effort>) {
    exists x :: x in ladder && IsSentinel(x)
  }

  ghost predicate HasRung(ladder: seq<Effort>) {
    exists x :: x in ladder && IsRung(x)
  }

  /** When the clamp answers what the resolver answers, request by request. */
  ghost predicate Agree(requested: Effort, ladder: seq<Effort>) {
    if requested == Unknown("") then true
    else
      match requested
      case Unknown(_) => !HasRung(ladder)
      case NoEffort => NoEffort !in ladder && !HasRung(ladder)
      case Minimal =>
        if Minimal in ladder then Low !in ladder && (NoEffort in ladder ==> ladder[0] == NoEffort)
        else Low in ladder || NoEffort !in ladder
      case _ => !HasSentinel(ladder) || HasRungAtOrBelow(ladder, requested)
  }

  /** On every ladder and for every request, the clamp and the resolver answer alike exactly as `Agree` says. */
  lemma ClampAgreesIff(requested: Effort, ladder: seq<Effort>, r: Option<Effort>)
    requires IsLadder(ladder) && Clamped(ladder, requested, r)
    ensures r == ResolveAtOrBelow(requested, ladder) <==> Agree(requested, ladder)
  {
    var resolved := ResolveAtOrBelow(requested, ladder);
    ResolveMeaning(requested, ladder);
    if IsRung(requested) {
      RungAgreesIff(requested, ladder, r, resolved);
    } else if requested == Minimal {
      MinimalAgreesIff(ladder, r, resolved);
    } else {
      assert r == None;
    }
  }

  lemma LowestFirst(ladder: seq<Effort>)
    requires IsLadder(ladder) && ladder != []
    ensures ladder[0] in ladder && forall x :: x in ladder ==> Rank(ladder[0]) <= Rank(x)
    ensures IsSentinel(ladder[0]) <==> HasSentinel(ladder)
  {
    FirstIsLowest(ladder);
    assert ladder[0] in ladder;
  }

  lemma RungAgreesIff(requested: Effort, ladder: seq<Effort>, r: Option<Effort>, resolved: Option<Effort>)
    requires IsLadder(ladder) && IsRung(requested) && Clamped(ladder, requested, r) &&
      Resolved(ladder, requested, resolved)
    ensures r == resolved <==> !HasSentinel(ladder) || HasRungAtOrBelow(ladder, requested)
  {
    if requested in ladder {
      assert HasRungAtOrBelow(ladder, requested);
    } else if ladder != [] {
      LowestFirst(ladder);
      if HasRungAtOrBelow(ladder, requested) {
        BothHighest(requested, ladder, r, resolved.value);
      } else if HasSentinel(ladder) {
        assert r.value in ladder && Rank(r.value) <= Rank(requested);
      } else {
        RungsAreDistinct(ladder[0], resolved.value);
      }
    }
  }

  lemma BothHighest(requested: Effort, ladder: seq<Effort>, r: Option<Effort>, resolved: Effort)
    requires IsLadder(ladder) && IsRung(requested) && requested !in ladder && Clamped(ladder, requested, r)
    requires HighestRungBelow(ladder, requested, resolved)
    ensures r == Some(resolved)
  {
    LowestFirst(ladder);
    var i :| LastHighestAt(ladder, Rank(requested), i) && ladder[i] == r.value;
    var j :| 0 <= j < |ladder| && ladder[j] == resolved;
    assert Rank(ladder[j]) <= Rank(ladder[i]);
    assert ladder[i] in ladder;
    RungsAreDistinct(r.value, resolved);
  }

  lemma MinimalAgreesIff(ladder: seq<Effort>, r: Option<Effort>, resolved: Option<Effort>)
    requires IsLadder(ladder) && Clamped(ladder, Minimal, r) && Resolved(ladder, Minimal, resolved)
    ensures r == resolved <==>
      if Minimal in ladder then Low !in ladder && (NoEffort in ladder ==> ladder[0] == NoEffort)
      else Low in ladder || NoEffort !in ladder
  {
    if ladder != [] {
      LowestFirst(ladder);
      if Low in ladder {
        if Minimal !in ladder { RungsAreDistinct(Low, resolved.value); }
      } else if HasSentinel(ladder) {
        LastSentinel(ladder, r.value);
      } else {
        RungsAreDistinct(ladder[0], resolved.value);
      }
    }
  }

  /** Without the rung Low, a request for it falls on the last sentinel. */
  lemma LastSentinel(ladder: seq<Effort>, e: Effort)
    requires IsLadder(ladder) && Low !in ladder && IsLastHighest(ladder, 0, e)
    ensures IsSentinel(e)
    ensures Minimal in ladder ==> (e == Minimal <==> (NoEffort in ladder ==> ladder[0] == NoEffort))
  {
    var i :| LastHighestAt(ladder, 0, i) && ladder[i] == e;
    assert ladder[i] in ladder;
    if Minimal in ladder && NoEffort in ladder {
      var m :| 0 <= m < |ladder| && ladder[m] == Minimal;
      var n :| 0 <= n < |ladder| && ladder[n] == NoEffort;
      SentinelsInFront(ladder, m, n);
    }
  }

  lemma SentinelFirst(ladder: seq<Effort>, m: nat)
    requires IsLadder(ladder) && 0 < m < |ladder| && IsSentinel(ladder[m])
    ensures IsSentinel(ladder[0])
  {
    assert RankLeq(ladder[0], ladder[m]);
    assert ladder[0] in ladder;
  }

  lemma SentinelsInFront(ladder: seq<Effort>, m: nat, n: nat)
    requires IsLadder(ladder) && m < |ladder| && n < |ladder| && ladder[m] == Minimal && ladder[n] == NoEffort
    ensures ladder[0] == if n < m then NoEffort else Minimal
  {
    if 0 < m && 0 < n {
      SentinelFirst(ladder, m);
    }
  }

  /** A declined request: the clamp sends nothing, the resolver the lowest rung. */
  lemma NoneDisagrees(r: Option<Effort>)
    requires Clamped([Low], NoEffort, r)
    ensures r == None && ResolveAtOrBelow(NoEffort, [Low]) == Some(Low)
  {
    ResolveMeaning(NoEffort, [Low]);
    assert [Low][0] in [Low];
  }

  /** A rung below the whole ladder: the clamp falls on the sentinel, the resolver on the lowest rung. */
  lemma SentinelDisagrees(r: Option<Effort>)
    requires Clamped([NoEffort, High], Low, r)
    ensures r == Some(NoEffort) && ResolveAtOrBelow(Low, [NoEffort, High]) == Some(High)
  {
    var ladder := [NoEffort, High];
    var i :| LastHighestAt(ladder, 0, i) && ladder[i] == r.value;
    assert ladder[1] in ladder;
    ResolveMeaning(Low, ladder);
  }

  /** A declared minimal: the clamp reads it as Low, the resolver takes it as it is. */
  lemma MinimalDisagrees(r: Option<Effort>)
    requires Clamped([Minimal, Low], Minimal, r)
    ensures r == Some(Low) && ResolveAtOrBelow(Minimal, [Minimal, Low]) == Some(Minimal)
  {
    assert [Minimal, Low][0] in [Minimal, Low] && [Minimal, Low][1] in [Minimal, Low];
  }
}
