/** What one turn of the iterative Tarjan walk keeps: the state, its invariant and the step lemmas. */
module TarjanInvariant {
  import opened ModuleGraph

  datatype Frame = Frame(node: Module, edge: nat)

  /** The walk's variables; `taken[u]` is how many import edges of `u` have been followed so far. */
  datatype Walk = Walk(
    index: map<Module, nat>, low: map<Module, nat>, stack: seq<Module>, onStack: set<Module>,
    frames: seq<Frame>, next: nat, taken: map<Module, nat>)
  {
    ghost predicate Owns(k: int, u: Module) {
      && 0 <= k < |frames| && u in index && frames[k].node in index
      && index[frames[k].node] <= index[u]
      && (k + 1 < |frames| ==> frames[k + 1].node in index && index[u] < index[frames[k + 1].node])
    }

    /** Visited and popped into its component. */
    ghost predicate Done(u: Module) {
      u in index && u !in onStack
    }
  }

  ghost predicate Shape(g: ImportGraph, s: Walk) {
    && s.low.Keys == s.index.Keys <= g.imports.Keys
    && s.taken.Keys == g.imports.Keys
    && (forall u {:trigger s.index[u]} :: u in s.index ==> s.index[u] < s.next)
    && s.next == |s.index|
  }

  ghost predicate StackOrder(s: Walk) {
    && (forall u :: u in s.onStack <==> u in s.stack)
    && (forall u :: u in s.onStack ==> u in s.index)
    && (forall i, j :: 0 <= i < j < |s.stack| ==> s.index[s.stack[i]] < s.index[s.stack[j]])
  }

  ghost predicate FrameOrder(s: Walk) {
    && (forall k :: 0 <= k < |s.frames| ==> s.frames[k].node in s.onStack && s.frames[k].node in s.index)
    && (forall i, j :: 0 <= i < j < |s.frames| ==> s.index[s.frames[i].node] < s.index[s.frames[j].node])
    && (s.frames == [] ==> s.stack == [])
  }

  ghost predicate OnFrame(frames: seq<Frame>, u: Module) {
    exists k :: 0 <= k < |frames| && frames[k].node == u
  }

  /** The frames hold the edge cursors; every other visited module has followed all its edges. */
  ghost predicate Cursors(g: ImportGraph, s: Walk) {
    && s.taken.Keys == g.imports.Keys
    && (forall k :: 0 <= k < |s.frames| ==>
      s.frames[k].node in g.imports && s.frames[k].edge == s.taken[s.frames[k].node])
    && (forall u {:trigger s.taken[u]} :: u in g.imports ==> s.taken[u] <= |g.imports[u]|)
    && (forall u {:trigger s.taken[u]} :: u in g.imports && u !in s.index ==> s.taken[u] == 0)
    && (forall u {:trigger OnFrame(s.frames, u)} :: u in g.imports && u in s.index && !OnFrame(s.frames, u) ==>
      s.taken[u] == |g.imports[u]|)
  }

  ghost predicate FrameReaches(g: ImportGraph, s: Walk) {
    forall k, u {:trigger Reaches(g, s.frames[k].node, u)} ::
      0 <= k < |s.frames| && u in s.onStack && u in s.index && s.frames[k].node in s.index
      && s.index[s.frames[k].node] <= s.index[u]
      ==> Reaches(g, s.frames[k].node, u)
  }

  ghost predicate ReachesFrame(g: ImportGraph, s: Walk, u: Module, k: int) {
    && 0 <= k < |s.frames| && u in s.index && s.frames[k].node in s.index
    && s.index[s.frames[k].node] <= s.index[u] && Reaches(g, u, s.frames[k].node)
  }

  ghost predicate HasFrame(g: ImportGraph, s: Walk, u: Module) {
    exists k :: ReachesFrame(g, s, u, k)
  }

  ghost predicate StackReaches(g: ImportGraph, s: Walk) {
    forall u {:trigger HasFrame(g, s, u)} :: u in s.onStack ==> HasFrame(g, s, u)
  }

  ghost predicate LowWitness(g: ImportGraph, s: Walk, v: Module, w: Module) {
    w in s.onStack && w in s.index && v in s.low && s.index[w] == s.low[v] && Reaches(g, v, w)
  }

  ghost predicate LowAt(g: ImportGraph, s: Walk, v: Module) {
    && v in s.low && v in s.index && s.low[v] <= s.index[v]
    && exists w :: LowWitness(g, s, v, w)
  }

  ghost predicate LowAttained(g: ImportGraph, s: Walk) {
    forall k {:trigger LowAt(g, s, s.frames[k].node)} :: 0 <= k < |s.frames| ==> LowAt(g, s, s.frames[k].node)
  }

  /** A followed edge of `u` lands on a visited module. */
  ghost predicate FollowedVisited(g: ImportGraph, s: Walk) {
    forall u, i :: u in s.onStack && u in g.imports && u in s.taken && 0 <= i < s.taken[u] <= |g.imports[u]|
      && g.imports[u][i] in g.imports
      ==> g.imports[u][i] in s.index
  }

  /** `low` of the owning frame bounds every followed edge back into the stack. */
  ghost predicate LowBounds(g: ImportGraph, s: Walk) {
    forall k, u, i :: s.Owns(k, u) && u in s.onStack && u in g.imports && u in s.taken
      && 0 <= i < s.taken[u] <= |g.imports[u]| && g.imports[u][i] in s.onStack
      && g.imports[u][i] in s.index && s.frames[k].node in s.low
      ==> s.low[s.frames[k].node] <= s.index[g.imports[u][i]]
  }

  ghost predicate DoneClosed(g: ImportGraph, s: Walk) {
    forall u, v :: s.Done(u) && g.Edge(u, v) ==> s.Done(v)
  }

  ghost predicate WalkInv(g: ImportGraph, s: Walk) {
    && Shape(g, s) && StackOrder(s) && FrameOrder(s) && Cursors(g, s)
    && FrameReaches(g, s) && StackReaches(g, s) && LowAttained(g, s)
    && FollowedVisited(g, s) && LowBounds(g, s) && DoneClosed(g, s)
  }

  // ---------- pushing a newly found module

  function Discover(s: Walk, t: Module): Walk {
    s.(index := s.index[t := s.next], low := s.low[t := s.next], stack := s.stack + [t],
       onStack := s.onStack + {t}, frames := s.frames + [Frame(t, 0)], next := s.next + 1)
  }

  lemma DiscoverShape(g: ImportGraph, s: Walk, t: Module)
    requires Shape(g, s) && t in g.imports && t !in s.index
    ensures Shape(g, Discover(s, t))
  {
    var s' := Discover(s, t);
    assert s'.index.Keys == s.index.Keys + {t};
    assert |s'.index| == |s.index| + 1;
  }

  lemma DiscoverStackOrder(g: ImportGraph, s: Walk, t: Module)
    requires Shape(g, s) && StackOrder(s) && t !in s.index
    ensures StackOrder(Discover(s, t))
  {
    var s' := Discover(s, t);
    forall i, j | 0 <= i < j < |s'.stack| ensures s'.index[s'.stack[i]] < s'.index[s'.stack[j]] {
      assert s'.stack[i] == s.stack[i] && s.stack[i] in s.onStack;
      if j < |s.stack| { assert s'.stack[j] == s.stack[j] && s.stack[j] in s.onStack; }
    }
  }

  lemma DiscoverFrameOrder(g: ImportGraph, s: Walk, t: Module)
    requires Shape(g, s) && FrameOrder(s) && t !in s.index
    ensures FrameOrder(Discover(s, t))
  {
    var s' := Discover(s, t);
    assert forall k :: 0 <= k < |s.frames| ==> s'.frames[k] == s.frames[k];
  }

  lemma DiscoverCursors(g: ImportGraph, s: Walk, t: Module)
    requires Shape(g, s) && Cursors(g, s) && t in g.imports && t !in s.index
    ensures Cursors(g, Discover(s, t))
  {
    var s' := Discover(s, t);
    var n := |s.frames|;
    assert s'.frames[n] == Frame(t, 0);
    assert forall k :: 0 <= k < n ==> s'.frames[k] == s.frames[k];
    forall u | u in g.imports && u in s'.index && !OnFrame(s'.frames, u) ensures s'.taken[u] == |g.imports[u]| {
      assert u != t && !OnFrame(s.frames, u);
    }
  }

  lemma DiscoverFrameReaches(g: ImportGraph, s: Walk, t: Module)
    requires Shape(g, s) && FrameOrder(s) && FrameReaches(g, s) && t in g.imports && t !in s.index
    requires s.frames != [] ==> Reaches(g, s.frames[|s.frames| - 1].node, t)
    ensures FrameReaches(g, Discover(s, t))
  {
    var s' := Discover(s, t);
    var n := |s.frames|;
    forall k, u | 0 <= k < |s'.frames| && u in s'.onStack && u in s'.index && s'.frames[k].node in s'.index
      && s'.index[s'.frames[k].node] <= s'.index[u]
      ensures Reaches(g, s'.frames[k].node, u)
    {
      if k == n {
        assert u == t;
        ReachesSelf(g, t);
      } else {
        assert s'.frames[k] == s.frames[k];
        if u == t {
          assert Reaches(g, s.frames[k].node, s.frames[n - 1].node);
          ReachesTransitive(g, s.frames[k].node, s.frames[n - 1].node, t);
        }
      }
    }
  }

  lemma DiscoverStackReaches(g: ImportGraph, s: Walk, t: Module)
    requires Shape(g, s) && StackReaches(g, s) && t in g.imports && t !in s.index
    ensures StackReaches(g, Discover(s, t))
  {
    var s' := Discover(s, t);
    forall u | u in s'.onStack ensures HasFrame(g, s', u) {
      if u == t {
        ReachesSelf(g, t);
        assert ReachesFrame(g, s', t, |s.frames|);
      } else {
        assert HasFrame(g, s, u);
        var k :| ReachesFrame(g, s, u, k);
        assert ReachesFrame(g, s', u, k);
      }
    }
  }

  lemma DiscoverLow(g: ImportGraph, s: Walk, t: Module)
    requires Shape(g, s) && LowAttained(g, s) && t in g.imports && t !in s.index
    ensures LowAttained(g, Discover(s, t))
  {
    var s' := Discover(s, t);
    forall k | 0 <= k < |s'.frames| ensures LowAt(g, s', s'.frames[k].node) {
      if k == |s.frames| {
        ReachesSelf(g, t);
        assert LowWitness(g, s', t, t);
      } else {
        assert LowAt(g, s, s.frames[k].node);
        var w :| LowWitness(g, s, s.frames[k].node, w);
        assert LowWitness(g, s', s'.frames[k].node, w);
      }
    }
  }

  lemma DiscoverFollowed(g: ImportGraph, s: Walk, t: Module)
    requires Shape(g, s) && Cursors(g, s) && t in g.imports && t !in s.index
    requires FollowedVisited(g, s) && DoneClosed(g, s)
    ensures FollowedVisited(g, Discover(s, t)) && DoneClosed(g, Discover(s, t))
  {
    var s' := Discover(s, t);
    forall u, v | s'.Done(u) && g.Edge(u, v) ensures s'.Done(v) {
      assert s.Done(u);
      assert s.Done(v);
    }
  }

  lemma DiscoverBounds(g: ImportGraph, s: Walk, t: Module)
    requires Shape(g, s) && FrameOrder(s) && Cursors(g, s) && t in g.imports && t !in s.index
    requires FollowedVisited(g, s) && LowBounds(g, s)
    ensures LowBounds(g, Discover(s, t))
  {
    var s' := Discover(s, t);
    var n := |s.frames|;
    forall k, u, i | s'.Owns(k, u) && u in s'.onStack && u in g.imports && u in s'.taken
      && 0 <= i < s'.taken[u] <= |g.imports[u]| && g.imports[u][i] in s'.onStack
      && g.imports[u][i] in s'.index && s'.frames[k].node in s'.low
      ensures s'.low[s'.frames[k].node] <= s'.index[g.imports[u][i]]
    {
      assert u != t && g.imports[u][i] != t;
      assert k != n by { assert s'.frames[n] == Frame(t, 0); }
      assert s'.frames[k] == s.frames[k];
      if k + 1 < n { assert s'.frames[k + 1] == s.frames[k + 1]; }
      assert s.Owns(k, u);
    }
  }

  lemma DiscoverKeeps(g: ImportGraph, s: Walk, t: Module)
    requires WalkInv(g, s) && t in g.imports && t !in s.index
    requires s.frames != [] ==> Reaches(g, s.frames[|s.frames| - 1].node, t)
    ensures WalkInv(g, Discover(s, t))
  {
    DiscoverShape(g, s, t);
    DiscoverStackOrder(g, s, t);
    DiscoverFrameOrder(g, s, t);
    DiscoverFollowed(g, s, t);
    DiscoverCursors(g, s, t);
    DiscoverFrameReaches(g, s, t);
    DiscoverStackReaches(g, s, t);
    DiscoverLow(g, s, t);
    DiscoverBounds(g, s, t);
  }

  // ---------- `low` of the top frame, lowered to a module on the stack that it reaches

  function Lower(s: Walk, v: Module, bound: nat): Walk
    requires v in s.low
  {
    s.(low := s.low[v := if s.low[v] <= bound then s.low[v] else bound])
  }

  lemma LowerReaches(g: ImportGraph, s: Walk, v: Module, bound: nat)
    requires v in s.low && StackReaches(g, s)
    ensures StackReaches(g, Lower(s, v, bound))
  {
    var s' := Lower(s, v, bound);
    forall u | u in s'.onStack ensures HasFrame(g, s', u) {
      assert HasFrame(g, s, u);
      var k :| ReachesFrame(g, s, u, k);
      assert ReachesFrame(g, s', u, k);
    }
  }

  lemma LowerLow(g: ImportGraph, s: Walk, v: Module, w: Module)
    requires v in s.low && LowAttained(g, s) && w in s.onStack && w in s.index && Reaches(g, v, w)
    ensures LowAttained(g, Lower(s, v, s.index[w]))
  {
    var s' := Lower(s, v, s.index[w]);
    forall k | 0 <= k < |s'.frames| ensures LowAt(g, s', s'.frames[k].node) {
      var x := s.frames[k].node;
      assert LowAt(g, s, x);
      var y :| LowWitness(g, s, x, y);
      if s'.low[x] == s.low[x] {
        assert LowWitness(g, s', x, y);
      } else {
        assert LowWitness(g, s', x, w);
      }
    }
  }

  lemma LowerBounds(g: ImportGraph, s: Walk, v: Module, bound: nat)
    requires v in s.low && LowBounds(g, s) && DoneClosed(g, s)
    ensures LowBounds(g, Lower(s, v, bound)) && DoneClosed(g, Lower(s, v, bound))
  {
    var s' := Lower(s, v, bound);
    forall k, u, i | s'.Owns(k, u) && u in s'.onStack && u in g.imports && u in s'.taken
      && 0 <= i < s'.taken[u] <= |g.imports[u]| && g.imports[u][i] in s'.onStack
      && g.imports[u][i] in s'.index && s'.frames[k].node in s'.low
      ensures s'.low[s'.frames[k].node] <= s'.index[g.imports[u][i]]
    {
      assert s.Owns(k, u);
    }
    forall x, y | s'.Done(x) && g.Edge(x, y) ensures s'.Done(y) {
      assert s.Done(x);
      assert s.Done(y);
    }
  }

  lemma LowerKeeps(g: ImportGraph, s: Walk, v: Module, w: Module)
    requires WalkInv(g, s) && v in s.low && w in s.onStack && w in s.index && Reaches(g, v, w)
    ensures WalkInv(g, Lower(s, v, s.index[w]))
  {
    LowerReaches(g, s, v, s.index[w]);
    LowerLow(g, s, v, w);
    LowerBounds(g, s, v, s.index[w]);
    assert Lower(s, v, s.index[w]).low.Keys == s.low.Keys;
  }

  // ---------- following one edge of frame `k`

  function Advance(s: Walk, k: nat): Walk
    requires k < |s.frames|
  {
    var f := s.frames[k];
    s.(frames := s.frames[k := Frame(f.node, f.edge + 1)], taken := s.taken[f.node := f.edge + 1])
  }

  ghost predicate CanAdvance(g: ImportGraph, s: Walk, k: int) {
    && 0 <= k < |s.frames|
    && var f := s.frames[k];
    && f.node in g.imports && f.edge < |g.imports[f.node]|
    && var t := g.imports[f.node][f.edge];
    && (t in g.imports ==> t in s.index)
    && (t in s.onStack && t in s.index && f.node in s.low ==> s.low[f.node] <= s.index[t])
  }

  lemma AdvanceNodes(s: Walk, k: nat)
    requires k < |s.frames|
    ensures |Advance(s, k).frames| == |s.frames|
    ensures forall j :: 0 <= j < |s.frames| ==> Advance(s, k).frames[j].node == s.frames[j].node
  {
  }

  lemma AdvanceCursors(g: ImportGraph, s: Walk, k: nat)
    requires Shape(g, s) && FrameOrder(s) && Cursors(g, s) && CanAdvance(g, s, k)
    ensures Cursors(g, Advance(s, k))
  {
    var s' := Advance(s, k);
    AdvanceNodes(s, k);
    forall j | 0 <= j < |s'.frames|
      ensures s'.frames[j].node in g.imports && s'.frames[j].edge == s'.taken[s'.frames[j].node]
    {
      if j != k {
        assert s'.frames[j] == s.frames[j];
        assert s.frames[j].node != s.frames[k].node;
      }
    }
    forall u | u in g.imports && u in s'.index && !OnFrame(s'.frames, u) ensures s'.taken[u] == |g.imports[u]| {
      assert s'.frames[k].node != u;
      assert !OnFrame(s.frames, u);
    }
  }

  lemma AdvanceReaches(g: ImportGraph, s: Walk, k: nat)
    requires k < |s.frames| && FrameReaches(g, s) && StackReaches(g, s)
    ensures FrameReaches(g, Advance(s, k)) && StackReaches(g, Advance(s, k))
  {
    var s' := Advance(s, k);
    AdvanceNodes(s, k);
    forall u | u in s'.onStack ensures HasFrame(g, s', u) {
      assert HasFrame(g, s, u);
      var j :| ReachesFrame(g, s, u, j);
      assert ReachesFrame(g, s', u, j);
    }
  }

  lemma AdvanceLow(g: ImportGraph, s: Walk, k: nat)
    requires k < |s.frames| && LowAttained(g, s)
    ensures LowAttained(g, Advance(s, k))
  {
    var s' := Advance(s, k);
    AdvanceNodes(s, k);
    forall j | 0 <= j < |s'.frames| ensures LowAt(g, s', s'.frames[j].node) {
      assert LowAt(g, s, s.frames[j].node);
      var x :| LowWitness(g, s, s.frames[j].node, x);
      assert LowWitness(g, s', s'.frames[j].node, x);
    }
  }

  /** Owner of a frame's own module is that frame. */
  lemma FrameOwnsItself(s: Walk, k: int, j: int)
    requires FrameOrder(s) && 0 <= k < |s.frames| && s.Owns(j, s.frames[k].node)
    ensures j == k
  {
  }

  lemma AdvanceBounds(g: ImportGraph, s: Walk, k: nat)
    requires FrameOrder(s) && Cursors(g, s) && CanAdvance(g, s, k)
    requires FollowedVisited(g, s) && LowBounds(g, s) && DoneClosed(g, s)
    ensures FollowedVisited(g, Advance(s, k)) && LowBounds(g, Advance(s, k)) && DoneClosed(g, Advance(s, k))
  {
    var s' := Advance(s, k);
    AdvanceNodes(s, k);
    forall j, u, i | s'.Owns(j, u) && u in s'.onStack && u in g.imports && u in s'.taken
      && 0 <= i < s'.taken[u] <= |g.imports[u]| && g.imports[u][i] in s'.onStack
      && g.imports[u][i] in s'.index && s'.frames[j].node in s'.low
      ensures s'.low[s'.frames[j].node] <= s'.index[g.imports[u][i]]
    {
      assert s.Owns(j, u);
      if u == s.frames[k].node && i == s.frames[k].edge {
        FrameOwnsItself(s, k, j);
      }
    }
    forall x, y | s'.Done(x) && g.Edge(x, y) ensures s'.Done(y) {
      assert s.Done(x);
      assert s.Done(y);
    }
  }

  lemma AdvanceKeeps(g: ImportGraph, s: Walk, k: nat)
    requires WalkInv(g, s) && CanAdvance(g, s, k)
    ensures WalkInv(g, Advance(s, k))
  {
    AdvanceNodes(s, k);
    AdvanceCursors(g, s, k);
    AdvanceReaches(g, s, k);
    AdvanceLow(g, s, k);
    AdvanceBounds(g, s, k);
  }
}
