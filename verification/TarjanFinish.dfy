/** What popping a finished frame keeps, and why a popped stack segment is a component. */
module TarjanFinish {
  import opened ModuleGraph
  import opened TarjanInvariant

  /** The top frame has followed all of its edges. */
  ghost predicate TopFinished(g: ImportGraph, s: Walk) {
    && s.frames != []
    && var v := s.frames[|s.frames| - 1].node;
    && v in g.imports && v in s.taken && s.taken[v] == |g.imports[v]|
    && v in s.low && v in s.index
  }

  ghost function Top(s: Walk): Module
    requires s.frames != []
  {
    s.frames[|s.frames| - 1].node
  }

  /** The part of the stack from `v` upwards. */
  ghost function Segment(s: Walk, v: Module): set<Module>
    requires v in s.index
  {
    set u | u in s.onStack && u in s.index && s.index[v] <= s.index[u]
  }

  lemma SegmentMutual(g: ImportGraph, s: Walk, u: Module)
    requires FrameOrder(s) && FrameReaches(g, s) && StackReaches(g, s) && TopFinished(g, s)
    requires u in Segment(s, Top(s))
    ensures Reaches(g, u, Top(s)) && Reaches(g, Top(s), u)
  {
    assert HasFrame(g, s, u);
    var k :| ReachesFrame(g, s, u, k);
    var n := |s.frames|;
    assert s.index[s.frames[k].node] <= s.index[s.frames[n - 1].node];
    assert Reaches(g, s.frames[k].node, s.frames[n - 1].node);
    ReachesTransitive(g, u, s.frames[k].node, s.frames[n - 1].node);
  }

  /** Every edge out of the segment stays in it or lands on a module already popped. */
  lemma SegmentClosed(g: ImportGraph, s: Walk, u: Module, w: Module)
    requires FrameOrder(s) && Cursors(g, s) && FollowedVisited(g, s) && LowBounds(g, s) && TopFinished(g, s)
    requires s.low[Top(s)] == s.index[Top(s)]
    requires u in Segment(s, Top(s)) && g.Edge(u, w)
    ensures w in Segment(s, Top(s)) || s.Done(w)
  {
    var v := Top(s);
    var i :| 0 <= i < |g.imports[u]| && g.imports[u][i] == w;
    assert s.taken[u] == |g.imports[u]| by {
      if u != v {
        assert !OnFrame(s.frames, u);
      }
    }
    assert g.imports[u][i] in s.index;
    if w in s.onStack {
      assert s.Owns(|s.frames| - 1, u);
      assert s.low[v] <= s.index[g.imports[u][i]];
    }
  }

  lemma SegmentIsScc(g: ImportGraph, s: Walk)
    requires WalkInv(g, s) && TopFinished(g, s) && s.low[Top(s)] == s.index[Top(s)]
    ensures IsScc(g, Segment(s, Top(s)))
  {
    var v := Top(s);
    var c := Segment(s, v);
    assert v in c;
    forall a, b | a in c && b in c ensures Reaches(g, a, b) {
      SegmentMutual(g, s, a);
      SegmentMutual(g, s, b);
      ReachesTransitive(g, a, v, b);
    }
    SegmentMaximal(g, s);
  }

  lemma SegmentMaximal(g: ImportGraph, s: Walk)
    requires WalkInv(g, s) && TopFinished(g, s) && s.low[Top(s)] == s.index[Top(s)]
    ensures forall a, b :: a in Segment(s, Top(s)) && Reaches(g, a, b) && Reaches(g, b, a) ==> b in Segment(s, Top(s))
  {
    var c := Segment(s, Top(s));
    var popped := set u | u in s.index && u !in s.onStack;
    forall u, w | u in popped && g.Edge(u, w) ensures w in popped {
      assert s.Done(u);
      assert s.Done(w);
    }
    forall u, w | u in popped + c && g.Edge(u, w) ensures w in popped + c {
      if u in c { SegmentClosed(g, s, u, w); }
    }
    forall a, b | a in c && Reaches(g, a, b) && Reaches(g, b, a) ensures b in c {
      ClosedReaches(g, popped + c, a, b);
      if b in popped {
        ClosedReaches(g, popped, b, a);
      }
    }
  }

  // ---------- popping a frame whose module is not the root of its component

  function PopFrame(s: Walk): Walk
    requires s.frames != []
  {
    s.(frames := s.frames[..|s.frames| - 1])
  }

  /** A finished module that is not a root reaches an older frame, so it has a parent. */
  lemma NonRootReachesOlderFrame(g: ImportGraph, s: Walk) returns (k: nat)
    requires FrameOrder(s) && StackReaches(g, s) && LowAttained(g, s) && FrameReaches(g, s) && TopFinished(g, s)
    requires s.low[Top(s)] != s.index[Top(s)]
    ensures k + 1 < |s.frames| && Reaches(g, Top(s), s.frames[|s.frames| - 2].node)
  {
    var n := |s.frames|;
    var v := s.frames[n - 1].node;
    assert LowAt(g, s, s.frames[n - 1].node);
    var w :| LowWitness(g, s, v, w);
    assert HasFrame(g, s, w);
    var j :| ReachesFrame(g, s, w, j);
    assert j != n - 1;
    k := j;
    var p := s.frames[n - 2].node;
    assert s.index[s.frames[j].node] <= s.index[p];
    assert Reaches(g, s.frames[j].node, p);
    ReachesTransitive(g, v, w, s.frames[j].node);
    ReachesTransitive(g, v, s.frames[j].node, p);
  }

  lemma PopFrameReaches(g: ImportGraph, s: Walk)
    requires FrameOrder(s) && StackReaches(g, s) && TopFinished(g, s) && |s.frames| >= 2
    requires Reaches(g, Top(s), s.frames[|s.frames| - 2].node)
    ensures StackReaches(g, PopFrame(s))
  {
    var s' := PopFrame(s);
    var n := |s.frames|;
    forall u | u in s'.onStack ensures HasFrame(g, s', u) {
      assert HasFrame(g, s, u);
      var k :| ReachesFrame(g, s, u, k);
      if k == n - 1 {
        ReachesTransitive(g, u, s.frames[n - 1].node, s.frames[n - 2].node);
        assert s'.frames[n - 2] == s.frames[n - 2];
        assert ReachesFrame(g, s', u, n - 2);
      } else {
        assert s'.frames[k] == s.frames[k];
        assert ReachesFrame(g, s', u, k);
      }
    }
  }

  lemma PopFrameCursors(g: ImportGraph, s: Walk)
    requires FrameOrder(s) && Cursors(g, s) && TopFinished(g, s)
    ensures Cursors(g, PopFrame(s))
  {
    var s' := PopFrame(s);
    var n := |s.frames|;
    assert forall k :: 0 <= k < n - 1 ==> s'.frames[k] == s.frames[k];
    forall u | u in g.imports && u in s'.index && !OnFrame(s'.frames, u) ensures s'.taken[u] == |g.imports[u]| {
      if u != s.frames[n - 1].node { assert !OnFrame(s.frames, u); }
    }
  }

  lemma PopFrameLow(g: ImportGraph, s: Walk)
    requires s.frames != [] && LowAttained(g, s)
    ensures LowAttained(g, PopFrame(s))
  {
    var s' := PopFrame(s);
    forall k | 0 <= k < |s'.frames| ensures LowAt(g, s', s'.frames[k].node) {
      assert LowAt(g, s, s.frames[k].node);
      var w :| LowWitness(g, s, s.frames[k].node, w);
      assert LowWitness(g, s', s'.frames[k].node, w);
    }
  }

  lemma PopFrameBounds(g: ImportGraph, s: Walk)
    requires FrameOrder(s) && LowBounds(g, s) && DoneClosed(g, s) && TopFinished(g, s) && |s.frames| >= 2
    requires var p := s.frames[|s.frames| - 2].node; p in s.low && s.low[p] <= s.low[Top(s)]
    ensures LowBounds(g, PopFrame(s)) && DoneClosed(g, PopFrame(s))
  {
    var s' := PopFrame(s);
    var n := |s.frames|;
    forall k, u, i | s'.Owns(k, u) && u in s'.onStack && u in g.imports && u in s'.taken
      && 0 <= i < s'.taken[u] <= |g.imports[u]| && g.imports[u][i] in s'.onStack
      && g.imports[u][i] in s'.index && s'.frames[k].node in s'.low
      ensures s'.low[s'.frames[k].node] <= s'.index[g.imports[u][i]]
    {
      assert s'.frames[k] == s.frames[k];
      if k + 1 < n - 1 { assert s'.frames[k + 1] == s.frames[k + 1]; }
      assert s.Owns(k, u) || (k == n - 2 && s.Owns(n - 1, u));
    }
    forall x, y | s'.Done(x) && g.Edge(x, y) ensures s'.Done(y) {
      assert s.Done(x);
      assert s.Done(y);
    }
  }

  lemma PopFrameKeeps(g: ImportGraph, s: Walk)
    requires WalkInv(g, s) && TopFinished(g, s) && s.low[Top(s)] != s.index[Top(s)]
    requires |s.frames| >= 2 ==> var p := s.frames[|s.frames| - 2].node; p in s.low && s.low[p] <= s.low[Top(s)]
    ensures |s.frames| >= 2 && WalkInv(g, PopFrame(s))
  {
    var k := NonRootReachesOlderFrame(g, s);
    PopFrameReaches(g, s);
    PopFrameCursors(g, s);
    PopFrameLow(g, s);
    PopFrameBounds(g, s);
  }

  // ---------- popping a root together with its component

  function PopRoot(s: Walk, j: nat, component: set<Module>): Walk
    requires s.frames != [] && j <= |s.stack|
  {
    s.(frames := s.frames[..|s.frames| - 1], stack := s.stack[..j], onStack := s.onStack - component)
  }

  /** The popped component is the segment above the root at stack position `j`. */
  ghost predicate RootAt(g: ImportGraph, s: Walk, j: nat, component: set<Module>) {
    && TopFinished(g, s) && s.low[Top(s)] == s.index[Top(s)]
    && j < |s.stack| && s.stack[j] == Top(s)
    && component == Segment(s, Top(s))
  }

  lemma SegmentIsSuffix(g: ImportGraph, s: Walk, j: nat)
    requires StackOrder(s) && FrameOrder(s) && TopFinished(g, s) && j < |s.stack| && s.stack[j] == Top(s)
    ensures forall u :: u in Segment(s, Top(s)) <==> u in s.stack[j..]
    ensures forall u :: u in s.onStack - Segment(s, Top(s)) <==> u in s.stack[..j]
  {
    forall i | 0 <= i < |s.stack|
      ensures s.stack[i] in s.onStack && (s.stack[i] in Segment(s, Top(s)) <==> j <= i)
    {
    }
    forall u ensures u in Segment(s, Top(s)) <==> u in s.stack[j..] {
      if u in s.stack[j..] { var i :| 0 <= i < |s.stack[j..]| && s.stack[j..][i] == u; assert s.stack[j + i] == u; }
      if u in Segment(s, Top(s)) { var i :| 0 <= i < |s.stack| && s.stack[i] == u; assert s.stack[j..][i - j] == u; }
    }
    forall u ensures u in s.onStack - Segment(s, Top(s)) <==> u in s.stack[..j] {
      if u in s.stack[..j] { var i :| 0 <= i < j && s.stack[i] == u; }
      if u in s.onStack - Segment(s, Top(s)) {
        var i :| 0 <= i < |s.stack| && s.stack[i] == u;
        assert s.stack[..j][i] == u;
      }
    }
  }

  lemma LastFrameIsBottom(g: ImportGraph, s: Walk, u: Module)
    requires StackReaches(g, s) && TopFinished(g, s) && |s.frames| == 1 && u in s.onStack && u in s.index
    ensures s.index[Top(s)] <= s.index[u]
  {
    assert HasFrame(g, s, u);
    var k :| ReachesFrame(g, s, u, k);
  }

  lemma PopRootOrders(g: ImportGraph, s: Walk, j: nat, component: set<Module>)
    requires StackOrder(s) && FrameOrder(s) && StackReaches(g, s) && RootAt(g, s, j, component)
    ensures StackOrder(PopRoot(s, j, component)) && FrameOrder(PopRoot(s, j, component))
  {
    var s' := PopRoot(s, j, component);
    SegmentIsSuffix(g, s, j);
    assert forall i :: 0 <= i < j ==> s'.stack[i] == s.stack[i];
    assert forall k :: 0 <= k < |s'.frames| ==> s'.frames[k] == s.frames[k];
    if |s.frames| == 1 {
      LastFrameIsBottom(g, s, s.stack[0]);
      assert j == 0;
    }
  }

  lemma PopRootReaches(g: ImportGraph, s: Walk, j: nat, component: set<Module>)
    requires FrameReaches(g, s) && StackReaches(g, s) && RootAt(g, s, j, component)
    ensures FrameReaches(g, PopRoot(s, j, component)) && StackReaches(g, PopRoot(s, j, component))
  {
    var s' := PopRoot(s, j, component);
    var n := |s.frames|;
    assert forall k :: 0 <= k < n - 1 ==> s'.frames[k] == s.frames[k];
    forall u | u in s'.onStack ensures HasFrame(g, s', u) {
      assert HasFrame(g, s, u);
      var k :| ReachesFrame(g, s, u, k);
      assert k != n - 1;
      assert ReachesFrame(g, s', u, k);
    }
  }

  lemma PopRootLow(g: ImportGraph, s: Walk, j: nat, component: set<Module>)
    requires FrameOrder(s) && LowAttained(g, s) && RootAt(g, s, j, component)
    ensures LowAttained(g, PopRoot(s, j, component))
  {
    var s' := PopRoot(s, j, component);
    forall k | 0 <= k < |s'.frames| ensures LowAt(g, s', s'.frames[k].node) {
      assert LowAt(g, s, s.frames[k].node);
      var w :| LowWitness(g, s, s.frames[k].node, w);
      assert s.index[s.frames[k].node] < s.index[Top(s)];
      assert LowWitness(g, s', s'.frames[k].node, w);
    }
  }

  lemma PopRootBounds(g: ImportGraph, s: Walk, j: nat, component: set<Module>)
    requires FrameOrder(s) && LowBounds(g, s) && FollowedVisited(g, s) && RootAt(g, s, j, component)
    ensures LowBounds(g, PopRoot(s, j, component)) && FollowedVisited(g, PopRoot(s, j, component))
  {
    var s' := PopRoot(s, j, component);
    var n := |s.frames|;
    forall k, u, i | s'.Owns(k, u) && u in s'.onStack && u in g.imports && u in s'.taken
      && 0 <= i < s'.taken[u] <= |g.imports[u]| && g.imports[u][i] in s'.onStack
      && g.imports[u][i] in s'.index && s'.frames[k].node in s'.low
      ensures s'.low[s'.frames[k].node] <= s'.index[g.imports[u][i]]
    {
      assert s'.frames[k] == s.frames[k];
      if k + 1 < n - 1 { assert s'.frames[k + 1] == s.frames[k + 1]; }
      assert s.Owns(k, u);
    }
  }

  lemma PopRootDone(g: ImportGraph, s: Walk, j: nat, component: set<Module>)
    requires FrameOrder(s) && Cursors(g, s) && FollowedVisited(g, s) && LowBounds(g, s) && DoneClosed(g, s)
    requires RootAt(g, s, j, component)
    ensures DoneClosed(g, PopRoot(s, j, component))
  {
    var s' := PopRoot(s, j, component);
    forall u, w | s'.Done(u) && g.Edge(u, w) ensures s'.Done(w) {
      if u in component {
        SegmentClosed(g, s, u, w);
      } else {
        assert s.Done(u);
        assert s.Done(w);
      }
    }
  }

  lemma PopRootKeeps(g: ImportGraph, s: Walk, j: nat, component: set<Module>)
    requires WalkInv(g, s) && RootAt(g, s, j, component)
    ensures WalkInv(g, PopRoot(s, j, component))
  {
    PopRootOrders(g, s, j, component);
    PopFrameCursors(g, s);
    PopRootReaches(g, s, j, component);
    PopRootLow(g, s, j, component);
    PopRootBounds(g, s, j, component);
    PopRootDone(g, s, j, component);
    assert Cursors(g, PopRoot(s, j, component)) by {
      assert Cursors(g, PopFrame(s));
    }
  }
}
