/** scripts/import-cycles.ts: the verdict on a scan, and the baseline that only shrinks. */
module CycleRatchet {
  import opened Sorting
  import opened ModuleGraph
  import opened ImportCycles

  /** A scan result: the modules on a cycle, each once, in text order. */
  ghost predicate IsCyclicList(g: ImportGraph, current: seq<Module>) {
    && Distinct(current) && SortedBy(TextLeq, current)
    && forall u :: u in current <==> OnCycle(g, u)
  }

  function Flat(components: seq<seq<Module>>): seq<Module> {
    if components == [] then [] else components[0] + Flat(components[1..])
  }

  lemma {:induction false} FlatMembers(components: seq<seq<Module>>)
    ensures forall u :: u in Flat(components) <==> Covered(components, u)
  {
    if components != [] {
      FlatMembers(components[1..]);
      forall u ensures u in Flat(components) <==> Covered(components, u) {
        if Covered(components, u) {
          var i :| 0 <= i < |components| && u in components[i];
          if i > 0 { assert u in components[1..][i - 1]; }
        }
        if Covered(components[1..], u) {
          var i :| 0 <= i < |components[1..]| && u in components[1..][i];
          assert u in components[i + 1];
        }
      }
    }
  }

  lemma {:induction false} FlatDistinct(components: seq<seq<Module>>)
    requires forall i :: 0 <= i < |components| ==> Distinct(components[i])
    requires forall i, j, u :: 0 <= i < j < |components| && u in components[i] ==> u !in components[j]
    ensures Distinct(Flat(components))
  {
    if components != [] {
      var rest := components[1..];
      assert forall i :: 0 <= i < |rest| ==> rest[i] == components[i + 1];
      FlatDistinct(rest);
      FlatMembers(rest);
      assert forall u :: u in components[0] ==> u !in Flat(rest);
      assert Distinct(components[0]);
      DistinctConcat(components[0], Flat(rest));
    }
  }

  lemma DistinctConcat(a: seq<Module>, b: seq<Module>)
    requires Distinct(a) && Distinct(b) && forall u :: u in a ==> u !in b
    ensures Distinct(a + b)
  {
    var s := a + b;
    forall i, j | 0 <= i < j < |s| ensures s[i] != s[j] {
      if i < |a| <= j { assert a[i] in a && b[j - |a|] in b; }
    }
  }

  /** Some component contains the module of every cycle. */
  lemma SccOf(g: ImportGraph, u: Module) returns (c: set<Module>)
    requires u in g.imports
    ensures u in c && IsScc(g, c)
  {
    ReachesSelf(g, u);
    c := set v | v in g.imports && Reaches(g, u, v) && Reaches(g, v, u);
    forall a, b | a in c && b in c ensures Reaches(g, a, b) {
      ReachesTransitive(g, a, u, b);
    }
    forall a, b | a in c && Reaches(g, a, b) && Reaches(g, b, a) ensures b in c {
      ReachesTransitive(g, u, a, b);
      ReachesTransitive(g, b, a, u);
    }
  }

  lemma CoveredIffOnCycle(g: ImportGraph, components: seq<seq<Module>>, u: Module)
    requires ExactComponents(g, components)
    ensures Covered(components, u) <==> OnCycle(g, u)
  {
    if Covered(components, u) {
      var i :| 0 <= i < |components| && u in components[i];
      assert WellReported(g, components[i]);
      OnCycleIffReportable(g, Members(components[i]), u);
    }
    if OnCycle(g, u) {
      var c := SccOf(g, u);
      OnCycleIffReportable(g, c, u);
      assert Listed(components, c);
      var i :| 0 <= i < |components| && Members(components[i]) == c;
      assert u in components[i];
    }
  }

  method CyclicModules(g: ImportGraph, collate: (string, string) -> int) returns (current: seq<Module>)
    ensures IsCyclicList(g, current)
  {
    var components, turns := CyclicComponents(g, collate);
    forall i | 0 <= i < |components| ensures Distinct(components[i]) {
      assert WellReported(g, components[i]);
    }
    FlatDistinct(components);
    FlatMembers(components);
    forall u ensures Covered(components, u) <==> OnCycle(g, u) {
      CoveredIffOnCycle(g, components, u);
    }
    current := SortBy(TextLeq, Flat(components));
    SortedMembers(Flat(components));
    SortByMembers(TextLeq, Flat(components));
  }

  // ---------- the ratchet

  datatype CycleBaseline = CycleBaseline(cyclic: seq<Module>)

  datatype CycleVerdict = CycleVerdict(added: seq<Module>, resolved: seq<Module>)

  function Keep(s: seq<Module>, others: seq<Module>, inside: bool): (r: seq<Module>)
    ensures forall u :: u in r <==> u in s && (u in others <==> inside)
    ensures |r| <= |s|
  {
    if s == [] then []
    else
      var rest := Keep(s[1..], others, inside);
      assert s == [s[0]] + s[1..];
      if (s[0] in others) == inside then [s[0]] + rest else rest
  }

  function Evaluate(current: seq<Module>, baseline: CycleBaseline): CycleVerdict {
    CycleVerdict(
      SortBy(TextLeq, Keep(current, baseline.cyclic, false)),
      SortBy(TextLeq, Keep(baseline.cyclic, current, false)))
  }

  function UpdateBaseline(current: seq<Module>, baseline: CycleBaseline): CycleBaseline {
    CycleBaseline(SortBy(TextLeq, Keep(baseline.cyclic, current, true)))
  }

  lemma VerdictMembers(current: seq<Module>, baseline: CycleBaseline)
    ensures forall u :: u in Evaluate(current, baseline).added <==> u in current && u !in baseline.cyclic
    ensures forall u :: u in Evaluate(current, baseline).resolved <==> u in baseline.cyclic && u !in current
    ensures forall u :: u in UpdateBaseline(current, baseline).cyclic <==> u in baseline.cyclic && u in current
    ensures SortedBy(TextLeq, Evaluate(current, baseline).added)
    ensures SortedBy(TextLeq, Evaluate(current, baseline).resolved)
    ensures SortedBy(TextLeq, UpdateBaseline(current, baseline).cyclic)
  {
    TextLeqIsTotal();
    SortBySorted(TextLeq, Keep(current, baseline.cyclic, false));
    SortBySorted(TextLeq, Keep(baseline.cyclic, current, false));
    SortBySorted(TextLeq, Keep(baseline.cyclic, current, true));
    SortByMembers(TextLeq, Keep(current, baseline.cyclic, false));
    SortByMembers(TextLeq, Keep(baseline.cyclic, current, false));
    SortByMembers(TextLeq, Keep(baseline.cyclic, current, true));
  }

  lemma EmptyIffNoMember(s: seq<Module>)
    ensures s == [] <==> forall u :: u !in s
  {
    if s != [] { assert s[0] in s; }
  }

  /** The check is silent exactly when the baseline names precisely the modules on a cycle. */
  lemma SilentIffExact(g: ImportGraph, current: seq<Module>, baseline: CycleBaseline)
    requires IsCyclicList(g, current)
    ensures Evaluate(current, baseline) == CycleVerdict([], [])
      <==> forall u :: u in baseline.cyclic <==> OnCycle(g, u)
  {
    VerdictMembers(current, baseline);
    var v := Evaluate(current, baseline);
    EmptyIffNoMember(v.added);
    EmptyIffNoMember(v.resolved);
    if forall u :: u in baseline.cyclic <==> OnCycle(g, u) {
      forall u ensures u !in v.added && u !in v.resolved {
        assert u in baseline.cyclic <==> OnCycle(g, u);
      }
    }
    if v == CycleVerdict([], []) {
      forall u ensures u in baseline.cyclic <==> OnCycle(g, u) {
        assert u !in v.added && u !in v.resolved;
      }
    }
  }

  /** The baseline after `--update` was run once for each scan in turn. */
  function AfterUpdates(baseline: CycleBaseline, scans: seq<seq<Module>>): CycleBaseline {
    if scans == [] then baseline
    else UpdateBaseline(scans[|scans| - 1], AfterUpdates(baseline, scans[..|scans| - 1]))
  }

  ghost predicate InEvery(scans: seq<seq<Module>>, u: Module) {
    forall i :: 0 <= i < |scans| ==> u in scans[i]
  }

  /** Over any history the baseline is what it started as, less everything that was ever off every cycle. */
  lemma {:induction false} HistoryMembers(baseline: CycleBaseline, scans: seq<seq<Module>>)
    ensures forall u ::
      u in AfterUpdates(baseline, scans).cyclic <==> u in baseline.cyclic && InEvery(scans, u)
  {
    if scans != [] {
      var n := |scans| - 1;
      HistoryMembers(baseline, scans[..n]);
      VerdictMembers(scans[n], AfterUpdates(baseline, scans[..n]));
      forall u
        ensures u in AfterUpdates(baseline, scans).cyclic <==> u in baseline.cyclic && InEvery(scans, u)
      {
        if InEvery(scans[..n], u) {
          if u in scans[n] {
            forall i | 0 <= i < |scans| ensures u in scans[i] {
              if i < n { assert u in scans[..n][i]; }
            }
          }
        } else {
          var i :| 0 <= i < n && u !in scans[..n][i];
          assert u !in scans[i];
        }
      }
    }
  }

  /** After an update nothing is resolved, and what the check called added before it is still added. */
  lemma UpdateHidesNothing(current: seq<Module>, baseline: CycleBaseline)
    ensures var updated := UpdateBaseline(current, baseline);
      && Evaluate(current, updated).resolved == []
      && forall u :: u in Evaluate(current, updated).added <==> u in Evaluate(current, baseline).added
  {
    var updated := UpdateBaseline(current, baseline);
    VerdictMembers(current, baseline);
    VerdictMembers(current, updated);
    EmptyIffNoMember(Evaluate(current, updated).resolved);
  }

  /**
   * A module outside the baseline at some point of the history stays outside: whenever a later graph
   * puts it on a cycle, the check names it, whatever updates ran in between.
   */
  lemma NeverAdmitted(
    baseline: CycleBaseline, scans: seq<seq<Module>>, at: nat, g: ImportGraph, current: seq<Module>, u: Module)
    requires at <= |scans| && u !in AfterUpdates(baseline, scans[..at]).cyclic
    requires IsCyclicList(g, current) && OnCycle(g, u)
    ensures u in Evaluate(current, AfterUpdates(baseline, scans)).added
  {
    HistoryMembers(baseline, scans);
    HistoryMembers(baseline, scans[..at]);
    VerdictMembers(current, AfterUpdates(baseline, scans));
    if u in AfterUpdates(baseline, scans).cyclic {
      forall i | 0 <= i < at ensures u in scans[..at][i] {
        assert u in scans[i];
      }
    }
  }
}
