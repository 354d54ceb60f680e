/** scripts/test-temp.ts, inspectTree: the budgeted worklist walk against the recursive reading of the tree. */
module TreeInspection {

  /** What lstat and readdir report below a path; `Gone` is an entry that lstat cannot read. */
  datatype Entry =
    | Gone
    | Link(mtime: int)
    | File(mtime: int)
    | Unlistable(mtime: int)
    | Directory(mtime: int, children: seq<Entry>)

  // ---------- the recursive reading

  /** Entries in the tree, the root included. */
  function Count(e: Entry): nat {
    match e
    case Directory(_, children) => 1 + CountAll(children)
    case _ => 1
  }

  function CountAll(es: seq<Entry>): nat {
    if es == [] then 0 else Count(es[|es| - 1]) + CountAll(es[..|es| - 1])
  }

  /** No symbolic link, and everything readable. */
  predicate Clean(e: Entry) {
    match e
    case File(_) => true
    case Directory(_, children) => forall i :: 0 <= i < |children| ==> Clean(children[i])
    case _ => false
  }

  predicate CleanAll(es: seq<Entry>) {
    forall i :: 0 <= i < |es| ==> Clean(es[i])
  }

  function Max(a: int, b: int): int {
    if a >= b then a else b
  }

  /** The latest modification time in the tree, and never below zero. */
  function Latest(e: Entry): int {
    match e
    case Gone => 0
    case Directory(mtime, children) => Max(Max(mtime, 0), LatestAll(children))
    case _ => Max(e.mtime, 0)
  }

  function LatestAll(es: seq<Entry>): int {
    if es == [] then 0 else Max(Latest(es[|es| - 1]), LatestAll(es[..|es| - 1]))
  }

  lemma {:induction false} AllConcat(a: seq<Entry>, b: seq<Entry>)
    ensures CountAll(a + b) == CountAll(a) + CountAll(b)
    ensures LatestAll(a + b) == Max(LatestAll(a), LatestAll(b))
    ensures CleanAll(a + b) <==> CleanAll(a) && CleanAll(b)
    decreases |b|
  {
    if b == [] {
      assert a + b == a;
      LatestNonNegative(a);
    } else {
      var n := |b| - 1;
      assert (a + b)[..|a + b| - 1] == a + b[..n];
      AllConcat(a, b[..n]);
      CleanConcat(a, b);
    }
  }

  lemma CleanConcat(a: seq<Entry>, b: seq<Entry>)
    ensures CleanAll(a + b) <==> CleanAll(a) && CleanAll(b)
  {
    if CleanAll(a + b) {
      assert forall i :: 0 <= i < |a| ==> (a + b)[i] == a[i];
      assert forall i :: 0 <= i < |b| ==> (a + b)[|a| + i] == b[i];
    }
  }

  lemma {:induction false} LatestNonNegative(es: seq<Entry>)
    ensures LatestAll(es) >= 0
  {
    if es != [] { LatestNonNegative(es[..|es| - 1]); }
  }

  lemma {:induction false} CountsCover(es: seq<Entry>)
    ensures CountAll(es) >= |es|
  {
    if es != [] { CountsCover(es[..|es| - 1]); }
  }

  // ---------- the same, entry by entry

  /** The tree's entries, the root first. */
  function Flatten(e: Entry): (es: seq<Entry>)
    ensures es != [] && es[0] == e
  {
    match e
    case Directory(_, children) => [e] + FlattenAll(children)
    case _ => [e]
  }

  function FlattenAll(es: seq<Entry>): seq<Entry> {
    if es == [] then [] else FlattenAll(es[..|es| - 1]) + Flatten(es[|es| - 1])
  }

  predicate IsPlain(e: Entry) {
    e.File? || e.Directory?
  }

  /** `t` is the latest time among the entries that can be read, or zero when none is later than that. */
  ghost predicate IsLatest(es: seq<Entry>, t: int) {
    && t >= 0 && (forall e :: e in es && !e.Gone? ==> e.mtime <= t)
    && (t == 0 || exists e :: e in es && !e.Gone? && e.mtime == t)
  }

  lemma LatestOfBoth(a: seq<Entry>, b: seq<Entry>, s: int, t: int)
    requires IsLatest(a, s) && IsLatest(b, t)
    ensures IsLatest(a + b, Max(s, t))
  {
    if s >= t && s != 0 {
      var e :| e in a && !e.Gone? && e.mtime == s;
      assert e in a + b;
    } else if t > s {
      var e :| e in b && !e.Gone? && e.mtime == t;
      assert e in a + b;
    }
  }

  lemma LatestOfOne(e: Entry)
    ensures IsLatest([e], if e.Gone? then 0 else Max(e.mtime, 0))
  {
    assert e in [e];
  }

  /** Clean is all files and directories; the count and the latest time are those of the entries. */
  lemma {:induction false} TreeMeans(e: Entry)
    ensures Count(e) == |Flatten(e)| && IsLatest(Flatten(e), Latest(e))
    ensures Clean(e) <==> forall x :: x in Flatten(e) ==> IsPlain(x)
    decreases e, 0
  {
    LatestOfOne(e);
    if e.Directory? {
      ListMeans(e.children);
      LatestOfBoth([e], FlattenAll(e.children), Max(e.mtime, 0), LatestAll(e.children));
      assert Clean(e) <==> CleanAll(e.children);
    } else {
      assert e in [e];
    }
  }

  lemma {:induction false} ListMeans(es: seq<Entry>)
    ensures CountAll(es) == |FlattenAll(es)| && IsLatest(FlattenAll(es), LatestAll(es))
    ensures CleanAll(es) <==> forall x :: x in FlattenAll(es) ==> IsPlain(x)
    decreases es, 1
  {
    if es != [] {
      var rest, last := es[..|es| - 1], es[|es| - 1];
      ListMeans(rest);
      TreeMeans(last);
      LatestOfBoth(FlattenAll(rest), Flatten(last), LatestAll(rest), Latest(last));
      CleanLast(es);
    }
  }

  // ---------- the worklist

  /** The budget shared by all trees of one recovery; `looks` is how often the clock will still be in time. */
  class Budget {
    var entries: int
    var looks: nat

    constructor (entries: int, looks: nat)
      ensures this.entries == entries && this.looks == looks
    {
      this.entries, this.looks := entries, looks;
    }

    /** `now() > deadline`, for a clock that never runs backwards. */
    method PastDeadline() returns (late: bool)
      modifies `looks
      ensures late <==> old(looks) == 0
      ensures looks == if old(looks) == 0 then 0 else old(looks) - 1
    {
      late := looks == 0;
      if looks > 0 { looks := looks - 1; }
    }
  }

  /** What is still pending, put together with what was done, is the whole tree. */
  ghost predicate Accounts(root: Entry, pending: seq<Entry>, visited: nat, latest: int) {
    && Count(root) == visited + CountAll(pending)
    && Latest(root) == Max(latest, LatestAll(pending)) && latest >= 0
    && (Clean(root) <==> CleanAll(pending))
  }

  lemma AccountsStart(root: Entry)
    ensures Accounts(root, [root], 0, 0)
  {
    assert [root][..0] == [];
    assert CleanAll([root]) <==> Clean([root][0]);
  }

  /** Visiting the last pending entry keeps the account. */
  lemma AccountsNext(root: Entry, pending: seq<Entry>, visited: nat, latest: int)
    requires pending != [] && Accounts(root, pending, visited, latest)
    ensures var e := pending[|pending| - 1];
      var rest := pending[..|pending| - 1];
      && (e.File? ==> Accounts(root, rest, visited + 1, Max(latest, e.mtime)))
      && (e.Directory? ==> Accounts(root, rest + e.children, visited + 1, Max(latest, e.mtime)))
      && (!e.File? && !e.Directory? ==> !Clean(root))
      && (!e.Gone? ==> Max(latest, e.mtime) <= Latest(root))
  {
    var e := pending[|pending| - 1];
    var rest := pending[..|pending| - 1];
    LatestNonNegative(rest);
    CleanLast(pending);
    if e.Directory? {
      AllConcat(rest, e.children);
      LatestNonNegative(e.children);
      assert Clean(e) <==> CleanAll(e.children);
      assert Count(e) == 1 + CountAll(e.children) && Latest(e) == Max(Max(e.mtime, 0), LatestAll(e.children));
    } else {
      assert Count(e) == 1 && (Clean(e) <==> e.File?);
    }
  }

  lemma CleanLast(pending: seq<Entry>)
    requires pending != []
    ensures CleanAll(pending) <==> CleanAll(pending[..|pending| - 1]) && Clean(pending[|pending| - 1])
  {
    var rest, e := pending[..|pending| - 1], pending[|pending| - 1];
    if CleanAll(pending) {
      forall i | 0 <= i < |rest| ensures Clean(rest[i]) { assert rest[i] == pending[i]; }
    }
    if CleanAll(rest) && Clean(e) {
      forall i | 0 <= i < |pending| ensures Clean(pending[i]) { if i < |rest| { assert pending[i] == rest[i]; } }
    }
  }

  method InspectTree(root: Entry, budget: Budget) returns (safe: bool, latestMtimeMs: int)
    modifies budget
    ensures safe <==> Clean(root) && Count(root) <= old(budget.entries) && Count(root) <= old(budget.looks)
    ensures safe ==> budget.entries == old(budget.entries) - Count(root) && latestMtimeMs == Latest(root)
    ensures 0 <= latestMtimeMs <= Max(Latest(root), 0)
    ensures 0 <= old(budget.entries) - budget.entries <= Count(root)
    ensures budget.entries >= old(budget.entries) || budget.entries >= 0
  {
    var pending := [root];
    latestMtimeMs := 0;
    ghost var visited: nat := 0;
    AccountsStart(root);
    while |pending| > 0
      invariant Accounts(root, pending, visited, latestMtimeMs)
      invariant budget.entries == old(budget.entries) - visited && budget.looks == old(budget.looks) - visited
      invariant visited > 0 ==> budget.entries >= 0
      decreases CountAll(pending)
    {
      AccountsNext(root, pending, visited, latestMtimeMs);
      CountsCover(pending);
      LatestNonNegative(pending);
      if budget.entries <= 0 { return false, latestMtimeMs; }
      var late := budget.PastDeadline();
      if late { return false, latestMtimeMs; }
      var current := pending[|pending| - 1];
      pending := pending[..|pending| - 1];
      if current.Gone? { return false, latestMtimeMs; }
      budget.entries := budget.entries - 1;
      visited := visited + 1;
      latestMtimeMs := Max(latestMtimeMs, current.mtime);
      if current.Link? { return false, latestMtimeMs; }
      if current.File? { continue; }
      if current.Unlistable? { return false, latestMtimeMs; }
      AllConcat(pending, current.children);
      pending := pending + current.children;
    }
    safe := true;
  }
}
