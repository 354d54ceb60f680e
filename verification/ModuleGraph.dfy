/** The static import graph, and reachability in it. */
module ModuleGraph {
  import opened Sorting

  type Module = string

  /** A JavaScript `Map<string, string[]>`: `keys` is the insertion order that `keys()` iterates. */
  datatype RawGraph = RawGraph(keys: seq<Module>, imports: map<Module, seq<Module>>) {
    ghost predicate Valid() {
      && Distinct(keys)
      && (forall m {:trigger IsKey(m)} :: IsKey(m) <==> m in imports)
    }

    predicate IsKey(m: Module) {
      m in keys
    }

    /** An edge counts only between keys: `graph.has(target)` is asked of every target. */
    ghost predicate Edge(u: Module, v: Module) {
      u in imports && v in imports && v in imports[u]
    }
  }

  type ImportGraph = g: RawGraph | g.Valid() witness RawGraph([], map[])

  ghost predicate IsPath(g: ImportGraph, p: seq<Module>) {
    && p != [] && p[0] in g.imports
    && forall i :: 0 <= i < |p| - 1 ==> g.Edge(p[i], p[i + 1])
  }

  ghost predicate PathFromTo(g: ImportGraph, p: seq<Module>, u: Module, v: Module) {
    IsPath(g, p) && p[0] == u && p[|p| - 1] == v
  }

  ghost predicate Reaches(g: ImportGraph, u: Module, v: Module) {
    exists p :: PathFromTo(g, p, u, v)
  }

  /** `u` reaches itself by a path with at least one edge. */
  ghost predicate OnCycle(g: ImportGraph, u: Module) {
    exists p :: PathFromTo(g, p, u, u) && |p| >= 2
  }

  /** A non-empty, maximal set of mutually reachable modules. */
  ghost predicate IsScc(g: ImportGraph, c: set<Module>) {
    && c != {} && c <= g.imports.Keys
    && (forall u, v {:trigger Reaches(g, u, v)} :: u in c && v in c ==> Reaches(g, u, v))
    && (forall u, v {:trigger Reaches(g, u, v)} :: u in c && Reaches(g, u, v) && Reaches(g, v, u) ==> v in c)
  }

  /** What the scanner reports: a component of several modules, or one that imports itself. */
  ghost predicate Reportable(g: ImportGraph, c: set<Module>) {
    IsScc(g, c) && (|c| > 1 || exists u :: u in c && g.Edge(u, u))
  }

  lemma ReachesSelf(g: ImportGraph, u: Module)
    requires u in g.imports
    ensures Reaches(g, u, u)
  {
    assert PathFromTo(g, [u], u, u);
  }

  lemma EdgeReaches(g: ImportGraph, u: Module, v: Module)
    requires g.Edge(u, v)
    ensures Reaches(g, u, v)
  {
    assert PathFromTo(g, [u, v], u, v);
  }

  lemma JoinPaths(g: ImportGraph, p: seq<Module>, q: seq<Module>, u: Module, v: Module, w: Module)
    requires PathFromTo(g, p, u, v) && PathFromTo(g, q, v, w)
    ensures PathFromTo(g, p + q[1..], u, w)
  {
    var r := p + q[1..];
    forall i | 0 <= i < |r| - 1 ensures g.Edge(r[i], r[i + 1]) {
      if i >= |p| - 1 {
        assert r[i] == q[i - |p| + 1];
        assert r[i + 1] == q[i - |p| + 2];
      }
    }
  }

  lemma ReachesTransitive(g: ImportGraph, u: Module, v: Module, w: Module)
    requires Reaches(g, u, v) && Reaches(g, v, w)
    ensures Reaches(g, u, w)
  {
    var p :| PathFromTo(g, p, u, v);
    var q :| PathFromTo(g, q, v, w);
    JoinPaths(g, p, q, u, v, w);
  }

  ghost predicate Closed(g: ImportGraph, s: set<Module>) {
    forall u, v :: u in s && g.Edge(u, v) ==> v in s
  }

  lemma {:induction false} ClosedPath(g: ImportGraph, s: set<Module>, p: seq<Module>)
    requires Closed(g, s) && IsPath(g, p) && p[0] in s
    ensures p[|p| - 1] in s
    decreases |p|
  {
    if |p| > 1 {
      assert g.Edge(p[0], p[1]);
      assert IsPath(g, p[1..]) by {
        forall i | 0 <= i < |p| - 2 ensures g.Edge(p[1..][i], p[1..][i + 1]) {
          assert g.Edge(p[i + 1], p[i + 2]);
        }
      }
      ClosedPath(g, s, p[1..]);
    }
  }

  lemma ClosedReaches(g: ImportGraph, s: set<Module>, u: Module, v: Module)
    requires Closed(g, s) && u in s && Reaches(g, u, v)
    ensures v in s
  {
    var p :| PathFromTo(g, p, u, v);
    ClosedPath(g, s, p);
  }

  /** A cycle through `u` is an edge out of it that leads back. */
  lemma OnCycleIffReturningEdge(g: ImportGraph, u: Module)
    ensures OnCycle(g, u) <==> exists v :: g.Edge(u, v) && Reaches(g, v, u)
  {
    if OnCycle(g, u) {
      var p :| PathFromTo(g, p, u, u) && |p| >= 2;
      assert g.Edge(p[0], p[1]);
      forall i | 0 <= i < |p| - 2 ensures g.Edge(p[1..][i], p[1..][i + 1]) {
        assert g.Edge(p[i + 1], p[i + 2]);
      }
      assert PathFromTo(g, p[1..], p[1], u);
    }
    if v :| g.Edge(u, v) && Reaches(g, v, u) {
      var q :| PathFromTo(g, q, v, u);
      assert PathFromTo(g, [u, v], u, v);
      JoinPaths(g, [u, v], q, u, v, u);
    }
  }

  /** Within its component, a module is on a cycle exactly when the component is reportable. */
  lemma OnCycleIffReportable(g: ImportGraph, c: set<Module>, u: Module)
    requires IsScc(g, c) && u in c
    ensures OnCycle(g, u) <==> Reportable(g, c)
  {
    OnCycleIffReturningEdge(g, u);
    if v :| g.Edge(u, v) && Reaches(g, v, u) {
      EdgeReaches(g, u, v);
      assert v in c;
      if v != u { assert {u, v} <= c; AtLeastTwo(c, u, v); }
    }
    if Reportable(g, c) {
      if |c| > 1 {
        var v := Another(c, u);
        assert Reaches(g, u, v) && Reaches(g, v, u);
        var p :| PathFromTo(g, p, u, v);
        var q :| PathFromTo(g, q, v, u);
        JoinPaths(g, p, q, u, v, u);
        assert |p| >= 2;
      } else {
        var w :| w in c && g.Edge(w, w);
        if w != u { AtLeastTwo(c, u, w); }
        ReachesSelf(g, u);
      }
    }
  }

  lemma AtLeastTwo(c: set<Module>, u: Module, v: Module)
    requires u in c && v in c && u != v
    ensures |c| > 1
  {
    assert v in c - {u};
    assert |c - {u}| > 0;
  }

  lemma Another(c: set<Module>, u: Module) returns (v: Module)
    requires u in c && |c| > 1
    ensures v in c && v != u
  {
    var rest := c - {u};
    assert |rest| > 0;
    v :| v in rest;
  }

  lemma SharedMemberSameScc(g: ImportGraph, c: set<Module>, d: set<Module>, u: Module)
    requires IsScc(g, c) && IsScc(g, d) && u in c && u in d
    ensures c == d
  {
    forall v ensures v in c <==> v in d {
      if v in c { assert Reaches(g, u, v) && Reaches(g, v, u); }
      if v in d { assert Reaches(g, u, v) && Reaches(g, v, u); }
    }
  }
}
