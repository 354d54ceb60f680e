/** scripts/import-cycles.ts: the iterative Tarjan scan and the baseline ratchet built on it. */
module ImportCycles {
  import opened Sorting
  import opened ModuleGraph
  import opened TarjanInvariant
  import opened TarjanFinish

  // ---------- counting turns

  /** Sum of `f` over the listed modules. */
  ghost function Total(keys: seq<Module>, f: map<Module, nat>): nat {
    if keys == [] then 0 else (if keys[0] in f then f[keys[0]] else 0) + Total(keys[1..], f)
  }

  lemma {:induction false} TotalUpdate(keys: seq<Module>, f: map<Module, nat>, u: Module, n: nat)
    requires Distinct(keys) && u in f
    ensures Total(keys, f[u := n]) == if u in keys then Total(keys, f) - f[u] + n else Total(keys, f)
  {
    if keys != [] {
      TotalUpdate(keys[1..], f, u, n);
      assert keys == [keys[0]] + keys[1..];
      if keys[0] == u { assert u !in keys[1..]; }
    }
  }

  lemma {:induction false} TotalMonotone(keys: seq<Module>, f: map<Module, nat>, h: map<Module, nat>)
    requires f.Keys == h.Keys && forall u :: u in f ==> f[u] <= h[u]
    ensures Total(keys, f) <= Total(keys, h)
  {
    if keys != [] { TotalMonotone(keys[1..], f, h); }
  }

  lemma {:induction false} TotalZero(keys: seq<Module>, f: map<Module, nat>)
    requires forall u :: u in f ==> f[u] == 0
    ensures Total(keys, f) == 0
  {
    if keys != [] { TotalZero(keys[1..], f); }
  }

  ghost function OutDegrees(g: ImportGraph): map<Module, nat> {
    map u | u in g.imports :: |g.imports[u]|
  }

  /** Import edges listed in the graph, those to unknown modules and repeated ones included. */
  ghost function EdgeCount(g: ImportGraph): nat {
    Total(g.keys, OutDegrees(g))
  }

  // ---------- one turn that follows an edge

  /** The top frame, which still has an edge to follow. */
  ghost predicate HasEdge(g: ImportGraph, s: Walk) {
    && s.frames != []
    && var f := s.frames[|s.frames| - 1];
    && f.node in g.imports && f.edge < |g.imports[f.node]| && f.node in s.low
  }

  function AfterEdge(g: ImportGraph, s: Walk): Walk
    requires HasEdge(g, s)
  {
    var f := s.frames[|s.frames| - 1];
    var t := g.imports[f.node][f.edge];
    var found :=
      if t !in g.imports then s
      else if t !in s.index then Discover(s, t)
      else if t in s.onStack then Lower(s, f.node, s.index[t])
      else s;
    Advance(found, |s.frames| - 1)
  }

  lemma CanAdvanceAfterDiscover(g: ImportGraph, s: Walk, t: Module)
    requires Shape(g, s) && HasEdge(g, s) && LowAt(g, s, s.frames[|s.frames| - 1].node) && t !in s.index
    requires t == g.imports[s.frames[|s.frames| - 1].node][s.frames[|s.frames| - 1].edge]
    ensures CanAdvance(g, Discover(s, t), |s.frames| - 1)
  {
    assert Discover(s, t).frames[|s.frames| - 1] == s.frames[|s.frames| - 1];
  }

  lemma AfterEdgeToNew(g: ImportGraph, s: Walk, t: Module)
    requires WalkInv(g, s) && HasEdge(g, s) && t in g.imports && t !in s.index
    requires t == g.imports[s.frames[|s.frames| - 1].node][s.frames[|s.frames| - 1].edge]
    ensures WalkInv(g, Advance(Discover(s, t), |s.frames| - 1))
  {
    var top := |s.frames| - 1;
    EdgeReaches(g, s.frames[top].node, t);
    DiscoverKeeps(g, s, t);
    assert LowAt(g, s, s.frames[top].node);
    CanAdvanceAfterDiscover(g, s, t);
    AdvanceKeeps(g, Discover(s, t), top);
  }

  lemma AfterEdgeBack(g: ImportGraph, s: Walk, t: Module)
    requires WalkInv(g, s) && HasEdge(g, s) && t in g.imports && t in s.index && t in s.onStack
    requires t == g.imports[s.frames[|s.frames| - 1].node][s.frames[|s.frames| - 1].edge]
    ensures WalkInv(g, AfterEdge(g, s))
  {
    var v := s.frames[|s.frames| - 1].node;
    EdgeReaches(g, v, t);
    LowerKeeps(g, s, v, t);
    AdvanceKeeps(g, Lower(s, v, s.index[t]), |s.frames| - 1);
  }

  lemma AfterEdgeKeeps(g: ImportGraph, s: Walk)
    requires WalkInv(g, s) && HasEdge(g, s)
    ensures WalkInv(g, AfterEdge(g, s))
  {
    var f := s.frames[|s.frames| - 1];
    var t := g.imports[f.node][f.edge];
    if t in g.imports && t !in s.index {
      AfterEdgeToNew(g, s, t);
    } else if t in g.imports && t in s.onStack {
      AfterEdgeBack(g, s, t);
    } else {
      AdvanceKeeps(g, s, |s.frames| - 1);
    }
  }

  lemma AfterEdgeTaken(g: ImportGraph, s: Walk)
    requires Cursors(g, s) && HasEdge(g, s)
    ensures Total(g.keys, AfterEdge(g, s).taken) == Total(g.keys, s.taken) + 1
  {
    var f := s.frames[|s.frames| - 1];
    assert s.frames[|s.frames| - 1].edge == s.taken[f.node];
    assert g.IsKey(f.node);
    TotalUpdate(g.keys, s.taken, f.node, f.edge + 1);
  }

  lemma AfterEdgeVisits(g: ImportGraph, s: Walk)
    requires HasEdge(g, s)
    ensures var s' := AfterEdge(g, s);
      && s'.next - |s'.frames| == s.next - |s.frames| && s'.frames != []
      && s.index.Keys <= s'.index.Keys
      && (forall u :: s.Done(u) <==> s'.Done(u))
  {
  }

  /** Edges followed never exceed the edges there are. */
  lemma TakenBounded(g: ImportGraph, s: Walk)
    requires WalkInv(g, s)
    ensures Total(g.keys, s.taken) <= EdgeCount(g)
  {
    TotalMonotone(g.keys, s.taken, OutDegrees(g));
  }

  // ---------- one turn that finishes a frame

  /** `low` after the finished frame is folded into its parent, when there is one. */
  function FoldLow(s: Walk): Walk
    requires s.frames != [] && s.frames[|s.frames| - 1].node in s.low
    requires |s.frames| >= 2 ==> s.frames[|s.frames| - 2].node in s.low
  {
    if |s.frames| >= 2 then Lower(s, s.frames[|s.frames| - 2].node, s.low[s.frames[|s.frames| - 1].node]) else s
  }

  ghost predicate CanFinish(g: ImportGraph, s: Walk) {
    && TopFinished(g, s) && Distinct(s.stack) && Top(s) in s.stack
    && (|s.frames| >= 2 ==> s.frames[|s.frames| - 2].node in s.low)
  }

  /** Every turn has a frame to work on: an edge to follow, or a module to finish. */
  lemma TurnReady(g: ImportGraph, s: Walk)
    requires WalkInv(g, s) && s.frames != []
    ensures Top(s) in g.imports
    ensures if s.frames[|s.frames| - 1].edge < |g.imports[Top(s)]| then HasEdge(g, s) else CanFinish(g, s)
  {
    assert LowAt(g, s, s.frames[|s.frames| - 1].node);
  }

  /** The parent of a finished module reaches whatever the module's `low` points at. */
  lemma ParentReachesLow(g: ImportGraph, s: Walk) returns (w: Module)
    requires FrameOrder(s) && FrameReaches(g, s) && LowAttained(g, s) && TopFinished(g, s) && |s.frames| >= 2
    ensures w in s.onStack && w in s.index && s.index[w] == s.low[Top(s)]
    ensures Reaches(g, s.frames[|s.frames| - 2].node, w)
  {
    var n := |s.frames|;
    var v, p := s.frames[n - 1].node, s.frames[n - 2].node;
    assert s.index[p] < s.index[v];
    assert Reaches(g, p, v);
    assert LowAt(g, s, s.frames[n - 1].node);
    w :| LowWitness(g, s, v, w);
    ReachesTransitive(g, p, v, w);
  }

  lemma FoldLowKeepsTop(s: Walk)
    requires FrameOrder(s) && |s.frames| >= 2
    requires s.frames[|s.frames| - 1].node in s.low && s.frames[|s.frames| - 2].node in s.low
    ensures FoldLow(s).low[Top(s)] == s.low[Top(s)]
    ensures FoldLow(s).low[s.frames[|s.frames| - 2].node] <= s.low[Top(s)]
  {
    assert s.index[s.frames[|s.frames| - 2].node] < s.index[s.frames[|s.frames| - 1].node];
  }

  lemma FoldLowKeepsInv(g: ImportGraph, s: Walk)
    requires WalkInv(g, s) && TopFinished(g, s) && |s.frames| >= 2 && s.frames[|s.frames| - 2].node in s.low
    ensures WalkInv(g, FoldLow(s))
  {
    var w := ParentReachesLow(g, s);
    LowerKeeps(g, s, s.frames[|s.frames| - 2].node, w);
    assert FoldLow(s) == Lower(s, s.frames[|s.frames| - 2].node, s.index[w]);
  }

  /** A frame that can be popped, its `low` already folded into its parent. */
  ghost predicate Folded(g: ImportGraph, s: Walk) {
    && TopFinished(g, s)
    && (|s.frames| >= 2 ==>
      s.frames[|s.frames| - 2].node in s.low && s.low[s.frames[|s.frames| - 2].node] <= s.low[Top(s)])
  }

  lemma FoldLowFolds(g: ImportGraph, s: Walk)
    requires FrameOrder(s) && TopFinished(g, s)
    requires |s.frames| >= 2 ==> s.frames[|s.frames| - 2].node in s.low
    ensures Folded(g, FoldLow(s))
  {
    if |s.frames| >= 2 { FoldLowKeepsTop(s); }
  }

  lemma FoldLowKeeps(g: ImportGraph, s: Walk)
    requires WalkInv(g, s) && TopFinished(g, s)
    requires |s.frames| >= 2 ==> s.frames[|s.frames| - 2].node in s.low
    ensures WalkInv(g, FoldLow(s))
  {
    if |s.frames| >= 2 {
      FoldLowKeepsInv(g, s);
    } else {
      assert FoldLow(s) == s;
    }
  }

  // ---------- the components reported so far

  ghost function Members(c: seq<Module>): set<Module> {
    set u | u in c
  }

  ghost predicate Covered(components: seq<seq<Module>>, u: Module) {
    exists i :: 0 <= i < |components| && u in components[i]
  }

  ghost predicate WellReported(g: ImportGraph, c: seq<Module>) {
    Distinct(c) && SortedBy(TextLeq, c) && Reportable(g, Members(c))
  }

  ghost predicate Reported(g: ImportGraph, s: Walk, components: seq<seq<Module>>) {
    && (forall i {:trigger WellReported(g, components[i])} :: 0 <= i < |components| ==> WellReported(g, components[i]))
    && (forall i, u :: 0 <= i < |components| && u in components[i] ==> s.Done(u))
    && (forall u {:trigger Covered(components, u)} :: s.Done(u) && OnCycle(g, u) ==> Covered(components, u))
    && (forall i, j, u {:trigger u in components[i], u in components[j]} ::
          0 <= i < j < |components| && u in components[i] ==> u !in components[j])
  }

  /** The same modules popped: the report is unaffected. */
  lemma ReportedSame(g: ImportGraph, s: Walk, s': Walk, components: seq<seq<Module>>)
    requires Reported(g, s, components) && forall u :: s.Done(u) <==> s'.Done(u)
    ensures Reported(g, s', components)
  {
  }

  lemma SortedMembers(c: seq<Module>)
    requires Distinct(c)
    ensures var r := SortBy(TextLeq, c); Distinct(r) && SortedBy(TextLeq, r) && Members(r) == Members(c) && |r| == |c|
    ensures |Members(c)| == |c|
  {
    TextLeqIsTotal();
    SortBySorted(TextLeq, c);
    SortByDistinct(TextLeq, c);
    SortByMembers(TextLeq, c);
    DistinctCardinality(c);
  }

  lemma {:induction false} DistinctCardinality(c: seq<Module>)
    requires Distinct(c)
    ensures |Members(c)| == |c|
  {
    if c != [] {
      DistinctCardinality(c[1..]);
      assert c == [c[0]] + c[1..];
      assert c[0] !in c[1..];
      assert Members(c) == {c[0]} + Members(c[1..]);
    }
  }

  /** A popped component is reportable exactly when the scan's own test says so. */
  lemma ReportTest(g: ImportGraph, c: seq<Module>, v: Module)
    requires Distinct(c) && v in c && IsScc(g, Members(c))
    ensures Reportable(g, Members(c)) <==> |c| > 1 || (|c| == 1 && v in g.imports[v])
  {
    DistinctCardinality(c);
    if |c| == 1 { assert c == [v]; assert Members(c) == {v}; assert g.Edge(v, v) <==> v in g.imports[v]; }
  }

  ghost predicate PoppedOnto(s: Walk, s': Walk, c: seq<Module>) {
    forall u :: s'.Done(u) <==> s.Done(u) || u in c
  }

  lemma ReportedGrows(g: ImportGraph, s: Walk, s': Walk, c: seq<Module>, components: seq<seq<Module>>)
    requires Reported(g, s, components) && PoppedOnto(s, s', c)
    requires WellReported(g, c) && forall u :: u in c ==> !s.Done(u)
    ensures Reported(g, s', components + [c])
  {
    var after := components + [c];
    forall u | s'.Done(u) && OnCycle(g, u) ensures Covered(after, u) {
      if u in c {
        assert u in after[|components|];
      } else {
        assert Covered(components, u);
        var i :| 0 <= i < |components| && u in components[i];
        assert after[i] == components[i];
      }
    }
  }

  lemma ReportedUnchanged(g: ImportGraph, s: Walk, s': Walk, c: seq<Module>, components: seq<seq<Module>>)
    requires Reported(g, s, components) && PoppedOnto(s, s', c)
    requires forall u :: u in c ==> !OnCycle(g, u)
    ensures Reported(g, s', components)
  {
  }

  /** Reporting the popped component, or dropping it when it is a single module without a self edge. */
  lemma ReportedAfterRoot(g: ImportGraph, s: Walk, j: nat, c: seq<Module>, components: seq<seq<Module>>)
    requires RootAt(g, s, j, Members(c)) && Top(s) in s.onStack && IsScc(g, Members(c)) && Distinct(c) &&
      Reported(g, s, components)
    ensures var s' := PopRoot(s, j, Members(c));
      var v := Top(s);
      if |c| > 1 || (|c| == 1 && v in g.imports[v]) then Reported(g, s', components + [SortBy(TextLeq, c)])
      else Reported(g, s', components)
  {
    var s' := PopRoot(s, j, Members(c));
    var v := Top(s);
    ReportTest(g, c, v) by { assert v in Segment(s, v); assert v in Members(c); }
    SortedMembers(c);
    SortByMembers(TextLeq, c);
    assert forall u :: u in c <==> u in Members(c);
    if Reportable(g, Members(c)) {
      ReportedGrows(g, s, s', SortBy(TextLeq, c), components);
    } else {
      forall u | u in c ensures !OnCycle(g, u) {
        OnCycleIffReportable(g, Members(c), u);
      }
      ReportedUnchanged(g, s, s', c, components);
    }
  }

  // ---------- the scan

  lemma SuffixGrows(stack: seq<Module>, j: nat)
    requires 0 < j <= |stack|
    ensures stack[j - 1..] == [stack[j - 1]] + stack[j..] && stack[..j][..j - 1] == stack[..j - 1]
    ensures multiset(stack[j - 1..]) == multiset(stack[j..]) + multiset{stack[j - 1]}
    ensures Members(stack[j - 1..]) == Members(stack[j..]) + {stack[j - 1]}
  {
    assert stack[j - 1..] == [stack[j - 1]] + stack[j..];
  }

  /** The stack is popped down to `j`, and what was popped is in `component`. */
  ghost predicate PoppedTo(
    stack: seq<Module>, onStack: set<Module>, j: nat, rest: seq<Module>, still: set<Module>, component: seq<Module>) {
    && j <= |stack| && rest == stack[..j] && still == onStack - Members(stack[j..])
    && multiset(component) == multiset(stack[j..]) && |component| == |stack| - j
  }

  lemma PopOne(
    stack: seq<Module>, onStack: set<Module>, j: nat, rest: seq<Module>, still: set<Module>, component: seq<Module>)
    requires 0 < j && PoppedTo(stack, onStack, j, rest, still, component)
    ensures rest[j - 1] == stack[j - 1]
    ensures PoppedTo(stack, onStack, j - 1, rest[..j - 1], still - {rest[j - 1]}, component + [rest[j - 1]])
  {
    SuffixGrows(stack, j);
  }

  /** The do-while that empties the stack down to `root`. */
  method PopComponent(stack: seq<Module>, onStack: set<Module>, root: Module)
    returns (rest: seq<Module>, still: set<Module>, component: seq<Module>, member: Module, ghost j: nat)
    requires root in stack && Distinct(stack)
    ensures j < |stack| && stack[j] == root && rest == stack[..j]
    ensures still == onStack - Members(stack[j..])
    ensures multiset(component) == multiset(stack[j..]) && |component| == |stack| - j
    ensures member == root
  {
    rest, still, component := stack, onStack, [];
    ghost var at: nat :| at < |stack| && stack[at] == root;
    j := |stack|;
    assert stack[..j] == stack;
    while true
      invariant at < j && PoppedTo(stack, onStack, j, rest, still, component)
      decreases j
    {
      PopOne(stack, onStack, j, rest, still, component);
      member, rest := rest[|rest| - 1], rest[..|rest| - 1];
      still := still - {member};
      component := component + [member];
      j := j - 1;
      if member == root { break; }
    }
  }

  /** `b.length - a.length || a[0].localeCompare(b[0])`, as "a may stand before b". */
  function ComponentLeq(collate: (string, string) -> int): (seq<Module>, seq<Module>) -> bool {
    (a, b) => |a| > |b| || (|a| == |b| && (a == [] || b == [] || collate(a[0], b[0]) <= 0))
  }

  /** The components are exactly the reportable sets, each listed once and in text order. */
  ghost predicate ExactComponents(g: ImportGraph, components: seq<seq<Module>>) {
    && (forall i {:trigger WellReported(g, components[i])} :: 0 <= i < |components| ==> WellReported(g, components[i]))
    && (forall c {:trigger Reportable(g, c)} :: Reportable(g, c) ==> Listed(components, c))
    && (forall i, j, u :: 0 <= i < j < |components| && u in components[i] ==> u !in components[j])
  }

  ghost predicate Listed(components: seq<seq<Module>>, c: set<Module>) {
    exists i :: 0 <= i < |components| && Members(components[i]) == c
  }

  lemma AllVisited(g: ImportGraph, visited: set<Module>)
    requires visited <= g.imports.Keys && forall i :: 0 <= i < |g.keys| ==> g.keys[i] in visited
    ensures visited == g.imports.Keys
  {
    forall u | u in g.imports ensures u in visited {
      assert g.IsKey(u);
    }
  }

  lemma AllReported(g: ImportGraph, s: Walk, components: seq<seq<Module>>)
    requires WalkInv(g, s) && s.frames == [] && s.index.Keys == g.imports.Keys && Reported(g, s, components)
    ensures ExactComponents(g, components)
    ensures Total(g.keys, s.taken) == EdgeCount(g) && s.next == |g.keys|
  {
    forall c | Reportable(g, c) ensures Listed(components, c) {
      var u :| u in c;
      OnCycleIffReportable(g, c, u);
      assert u !in s.onStack by { assert s.stack == []; }
      assert s.Done(u);
      assert Covered(components, u);
      var i :| 0 <= i < |components| && u in components[i];
      assert WellReported(g, components[i]);
      SharedMemberSameScc(g, c, Members(components[i]), u);
    }
    forall u | u in g.imports ensures s.taken[u] == |g.imports[u]| {
      assert !OnFrame(s.frames, u);
    }
    assert s.taken == OutDegrees(g);
    DistinctCardinality(g.keys);
    assert forall u :: g.IsKey(u) <==> u in g.imports;
    assert Members(g.keys) == s.index.Keys;
  }

  lemma ResortedComponents(g: ImportGraph, collate: (string, string) -> int, components: seq<seq<Module>>)
    requires ExactComponents(g, components)
    ensures ExactComponents(g, SortBy(ComponentLeq(collate), components))
  {
    var leq := ComponentLeq(collate);
    var r := SortBy(leq, components);
    SortByMembers(leq, components);
    forall i | 0 <= i < |r| ensures WellReported(g, r[i]) {
      assert r[i] in components;
    }
    forall c | Reportable(g, c) ensures Listed(r, c) {
      assert Listed(components, c);
      var i :| 0 <= i < |components| && Members(components[i]) == c;
      assert components[i] in r;
    }
    DistinctComponents(g, components);
    SortByDistinct(leq, components);
    forall i, j, u | 0 <= i < j < |r| && u in r[i] ensures u !in r[j] {
      assert r[i] in components && r[j] in components && r[i] != r[j];
    }
  }

  lemma DistinctComponents(g: ImportGraph, components: seq<seq<Module>>)
    requires ExactComponents(g, components)
    ensures Distinct(components)
  {
    forall i, j | 0 <= i < j < |components| ensures components[i] != components[j] {
      assert WellReported(g, components[i]);
      var u :| u in Members(components[i]);
      assert u in components[i];
    }
  }

  /** What popping the top frame does to the walk: the whole segment goes when it was a root. */
  ghost predicate Finished(g: ImportGraph, s: Walk, s': Walk, j: nat, c: seq<Module>) {
    && TopFinished(g, s)
    && if s.low[Top(s)] != s.index[Top(s)] then s' == PopFrame(s)
       else
         && j < |s.stack| && s.stack[j] == Top(s) && multiset(c) == multiset(s.stack[j..])
         && s' == PopRoot(s, j, Members(s.stack[j..]))
  }

  /** The report gains the popped component exactly when the scan's test passes. */
  ghost predicate Extended(g: ImportGraph, s: Walk, c: seq<Module>, before: seq<seq<Module>>, after: seq<seq<Module>>) {
    && TopFinished(g, s)
    && after ==
       if s.low[Top(s)] == s.index[Top(s)] && (|c| > 1 || (|c| == 1 && Top(s) in g.imports[Top(s)]))
       then before + [SortBy(TextLeq, c)] else before
  }

  lemma PoppedIsSegment(g: ImportGraph, s: Walk, j: nat, c: seq<Module>)
    requires StackOrder(s) && FrameOrder(s) && TopFinished(g, s) && j < |s.stack| && s.stack[j] == Top(s)
    requires multiset(c) == multiset(s.stack[j..])
    ensures Members(c) == Segment(s, Top(s)) == Members(s.stack[j..]) && Distinct(c)
  {
    SegmentIsSuffix(g, s, j);
    assert Distinct(s.stack[j..]);
    DistinctIffMultiset(s.stack[j..]);
    assert forall u :: u in c <==> u in multiset(c);
    assert forall u :: u in s.stack[j..] <==> u in multiset(s.stack[j..]);
    DistinctIffMultiset(c);
  }

  lemma FinishedKeeps(g: ImportGraph, s: Walk, s': Walk, j: nat, c: seq<Module>)
    requires WalkInv(g, s) && Folded(g, s) && Finished(g, s, s', j, c)
    ensures WalkInv(g, s')
  {
    if s.low[Top(s)] != s.index[Top(s)] {
      PopFrameKeeps(g, s);
    } else {
      PoppedIsSegment(g, s, j, c);
      PopRootKeeps(g, s, j, Members(c));
    }
  }

  lemma FinishedReports(
    g: ImportGraph, s: Walk, s': Walk, j: nat, c: seq<Module>, before: seq<seq<Module>>, after: seq<seq<Module>>)
    requires WalkInv(g, s) && Reported(g, s, before) && Finished(g, s, s', j, c) && Extended(g, s, c, before, after)
    ensures Reported(g, s', after)
  {
    if s.low[Top(s)] == s.index[Top(s)] {
      PoppedIsSegment(g, s, j, c);
      SegmentIsScc(g, s);
      ReportedAfterRoot(g, s, j, c, before);
    } else {
      ReportedSame(g, s, s', before);
    }
  }

  /** The walk, the report and the count of turns belong together. */
  ghost predicate ScanInv(g: ImportGraph, s: Walk, components: seq<seq<Module>>, turns: nat) {
    WalkInv(g, s) && Reported(g, s, components) && turns == Total(g.keys, s.taken) + s.next - |s.frames|
  }

  lemma EdgeTurnKeeps(g: ImportGraph, s: Walk, components: seq<seq<Module>>, turns: nat)
    requires ScanInv(g, s, components, turns) && HasEdge(g, s)
    ensures ScanInv(g, AfterEdge(g, s), components, turns + 1) && AfterEdge(g, s).index.Keys >= s.index.Keys
    ensures Total(g.keys, AfterEdge(g, s).taken) == Total(g.keys, s.taken) + 1
  {
    AfterEdgeKeeps(g, s);
    AfterEdgeTaken(g, s);
    AfterEdgeVisits(g, s);
    ReportedSame(g, s, AfterEdge(g, s), components);
  }

  lemma StartKeeps(g: ImportGraph, s: Walk, start: Module, components: seq<seq<Module>>, turns: nat)
    requires ScanInv(g, s, components, turns) && s.frames == [] && start in g.imports && start !in s.index
    ensures ScanInv(g, Discover(s, start), components, turns) && Discover(s, start).index.Keys == s.index.Keys + {start}
  {
    DiscoverKeeps(g, s, start);
    ReportedSame(g, s, Discover(s, start), components);
  }

  lemma FinishTurnKeeps(
    g: ImportGraph, s: Walk, s': Walk, j: nat, c: seq<Module>, before: seq<seq<Module>>, after: seq<seq<Module>>,
      turns: nat)
    requires ScanInv(g, s, before, turns) && CanFinish(g, s)
    requires Finished(g, FoldLow(s), s', j, c) && Extended(g, FoldLow(s), c, before, after)
    ensures ScanInv(g, s', after, turns + 1)
  {
    FoldLowFolds(g, s);
    FoldLowKeeps(g, s);
    FinishedKeeps(g, FoldLow(s), s', j, c);
    ReportedSame(g, s, FoldLow(s), before);
    FinishedReports(g, FoldLow(s), s', j, c, before, after);
  }

  lemma StartInv(g: ImportGraph)
    ensures var s := Walk(map[], map[], [], {}, [], 0, map u | u in g.imports :: 0);
      WalkInv(g, s) && Reported(g, s, []) && Total(g.keys, s.taken) == 0
  {
    TotalZero(g.keys, map u | u in g.imports :: 0);
  }

  /** The variables of one scan. */
  class Scan {
    const g: ImportGraph
    var index: map<Module, nat>
    var low: map<Module, nat>
    var onStack: set<Module>
    var stack: seq<Module>
    var components: seq<seq<Module>>
    var frames: seq<Frame>
    var next: nat
    ghost var taken: map<Module, nat>
    ghost var turns: nat

    constructor (g: ImportGraph)
      ensures this.g == g && components == [] && turns == 0
      ensures State() == Walk(map[], map[], [], {}, [], 0, map u | u in g.imports :: 0)
    {
      this.g := g;
      index, low, stack, onStack, components, frames, next := map[], map[], [], {}, [], [], 0;
      taken, turns := map u | u in g.imports :: 0, 0;
    }

    ghost function State(): Walk
      reads this
    {
      Walk(index, low, stack, onStack, frames, next, taken)
    }

    /** First sight of a module: number it and push it on the stack and on the frames. */
    method Push(t: Module)
      modifies `index, `low, `stack, `onStack, `frames, `next
      ensures State() == Discover(old(State()), t)
    {
      index := index[t := next];
      low, next := low[t := next], next + 1;
      stack, onStack := stack + [t], onStack + {t};
      frames := frames + [Frame(t, 0)];
    }

    /** A turn that follows the top frame's next edge. */
    method FollowEdge()
      requires HasEdge(g, State())
      modifies `index, `low, `stack, `onStack, `frames, `next, `taken, `turns
      ensures State() == AfterEdge(g, old(State())) && turns == old(turns) + 1
    {
      var top := |frames| - 1;
      var frame := frames[top];
      var target := g.imports[frame.node][frame.edge];
      frames := frames[top := Frame(frame.node, frame.edge + 1)];
      taken, turns := taken[frame.node := frame.edge + 1], turns + 1;
      if target !in g.imports { return; }
      if target !in index {
        ghost var s := State();
        Push(target);
        assert State().frames == (old(frames) + [Frame(target, 0)])[top := Frame(frame.node, frame.edge + 1)];
      } else if target in onStack {
        low := low[frame.node := if low[frame.node] <= index[target] then low[frame.node] else index[target]];
      }
    }

    /** Pop the top frame and fold its `low` into its parent's. */
    method PopTop() returns (frame: Frame)
      requires frames != [] && frames[|frames| - 1].node in low
      requires |frames| >= 2 ==> frames[|frames| - 2].node in low
      modifies `low, `frames
      ensures frame == old(frames[|frames| - 1])
      ensures State() == PopFrame(FoldLow(old(State())))
    {
      frame := frames[|frames| - 1];
      frames := frames[..|frames| - 1];
      if |frames| > 0 {
        var parent := frames[|frames| - 1];
        low := low[parent.node := if low[parent.node] <= low[frame.node] then low[parent.node] else low[frame.node]];
      }
    }

    /** Pop the component of a root off the stack and report it when it is a cycle. */
    method PopCycle(root: Module) returns (ghost j: nat, ghost popped: seq<Module>)
      requires root in stack && Distinct(stack) && root in g.imports
      modifies `stack, `onStack, `components
      ensures j < |old(stack)| && old(stack)[j] == root && multiset(popped) == multiset(old(stack)[j..])
      ensures State() == old(State()).(stack := old(stack)[..j], onStack := old(onStack) - Members(old(stack)[j..]))
      ensures components ==
        if |popped| > 1 || (|popped| == 1 && root in g.imports[root])
        then old(components) + [SortBy(TextLeq, popped)] else old(components)
    {
      var component, member;
      stack, onStack, component, member, j := PopComponent(stack, onStack, root);
      popped := component;
      var selfLoop := |component| == 1 && member in g.imports[member];
      if |component| > 1 || selfLoop {
        components := components + [SortBy(TextLeq, component)];
      }
    }

    /** A turn that finishes the top frame, and its component when it is a root. */
    method FinishFrame() returns (ghost j: nat, ghost popped: seq<Module>)
      requires CanFinish(g, State())
      modifies `low, `stack, `onStack, `frames, `components, `turns
      ensures Finished(g, FoldLow(old(State())), State(), j, popped)
      ensures Extended(g, FoldLow(old(State())), popped, old(components), components)
      ensures turns == old(turns) + 1
    {
      var frame := PopTop();
      turns := turns + 1;
      j, popped := |stack|, [];
      if low[frame.node] == index[frame.node] {
        j, popped := PopCycle(frame.node);
      }
    }

    ghost predicate Valid()
      reads this
    {
      ScanInv(g, State(), components, turns)
    }

    method EdgeTurn()
      requires Valid() && HasEdge(g, State())
      modifies `index, `low, `stack, `onStack, `frames, `next, `taken, `turns
      ensures Valid() && index.Keys >= old(index.Keys)
      ensures Total(g.keys, taken) == old(Total(g.keys, taken)) + 1
    {
      ghost var s, count := State(), turns;
      FollowEdge();
      EdgeTurnKeeps(g, s, components, count);
    }

    method FinishTurn()
      requires Valid() && CanFinish(g, State())
      modifies `low, `stack, `onStack, `frames, `components, `turns
      ensures Valid() && |frames| == |old(frames)| - 1
    {
      ghost var s, before, count := State(), components, turns;
      ghost var j, popped := FinishFrame();
      FinishTurnKeeps(g, s, State(), j, popped, before, components, count);
    }

    /** One turn of the inner loop. */
    method Turn()
      requires Valid() && frames != []
      modifies `index, `low, `stack, `onStack, `frames, `components, `next, `taken, `turns
      ensures Valid() && index.Keys >= old(index.Keys)
      ensures Total(g.keys, taken) == old(Total(g.keys, taken)) + 1 || (taken == old(taken) && |frames| < |old(frames)|)
    {
      TurnReady(g, State());
      var frame := frames[|frames| - 1];
      if frame.edge < |g.imports[frame.node]| {
        EdgeTurn();
      } else {
        FinishTurn();
      }
    }

    /** Everything reachable from an unvisited key, down to an empty stack again. */
    method WalkFrom(start: Module)
      requires Valid() && frames == [] && start in g.imports && start !in index
      modifies `index, `low, `stack, `onStack, `frames, `components, `next, `taken, `turns
      ensures Valid() && frames == [] && index.Keys >= old(index.Keys) + {start}
    {
      ghost var s, count := State(), turns;
      Push(start);
      StartKeeps(g, s, start, components, count);
      while |frames| > 0
        invariant Valid() && index.Keys >= old(index.Keys) + {start}
        decreases EdgeCount(g) - Total(g.keys, taken), |frames|
      {
        Turn();
        TakenBounded(g, State());
      }
    }
  }

  /** One walk over the graph: every key is discovered and popped once, every edge followed once. */
  method CyclicComponents(g: ImportGraph, collate: (string, string) -> int)
    returns (result: seq<seq<Module>>, ghost turns: nat)
    ensures ExactComponents(g, result)
    ensures TotalPreorder(ComponentLeq(collate)) ==> SortedBy(ComponentLeq(collate), result)
    ensures turns == |g.keys| + EdgeCount(g)
  {
    var scan := new Scan(g);
    StartInv(g);
    for n := 0 to |g.keys|
      invariant scan.g == g && scan.Valid() && scan.frames == []
      invariant forall i :: 0 <= i < n ==> g.keys[i] in scan.index
    {
      if g.keys[n] in scan.index { continue; }
      assert g.IsKey(g.keys[n]);
      scan.WalkFrom(g.keys[n]);
    }
    AllVisited(g, scan.index.Keys);
    AllReported(g, scan.State(), scan.components);
    ResortedComponents(g, collate, scan.components);
    result, turns := SortBy(ComponentLeq(collate), scan.components), scan.turns;
    if TotalPreorder(ComponentLeq(collate)) { SortBySorted(ComponentLeq(collate), scan.components); }
  }
}
