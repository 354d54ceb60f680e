/** What the test-run lock guarantees over whole runs, and what each environment promise is needed for. */
module LockSafety {
  import opened LockModel

  lemma StepKeepsInv(s: State, step: Step)
    requires LockInv(s) && Enabled(PROMISED, s, step)
    ensures LockInv(Apply(s, step))
  {
    StepKeepsStructure(s, step);
    StepKeepsHolders(s, step);
    StepKeepsGuests(s, step);
  }

  lemma {:induction false} RunKeepsInv(s: State, steps: seq<Step>, t: State)
    requires LockInv(s) && IsRun(PROMISED, s, steps, t)
    ensures LockInv(t)
    decreases |steps|
  {
    if steps != [] {
      StepKeepsInv(s, steps[0]);
      RunKeepsInv(Apply(s, steps[0]), steps[1..], t);
    }
  }

  lemma ReachableInv(s: State)
    requires Reachable(PROMISED, s)
    ensures LockInv(s)
  {
    var steps :| IsRun(PROMISED, INIT, steps, s);
    InitInv();
    RunKeepsInv(INIT, steps, s);
  }

  /** At most one token is held by the living, in every state any run can reach. */
  lemma MutualExclusion(s: State)
    requires Reachable(PROMISED, s)
    ensures Exclusive(s)
    ensures forall t :: LiveHolder(s, t) ==> OwnerIs(s, t)
  {
    ReachableInv(s);
    forall t, u | LiveHolder(s, t) && LiveHolder(s, u) ensures t == u {
      assert OwnerIs(s, t) && OwnerIs(s, u);
    }
  }

  /** A process that was let in as one of this run, by acquiring or by joining a lock that is not released. */
  ghost predicate LetIn(s: State, p: Pid, runId: RunId) {
    exists t :: t in s.acquired && t !in s.released && p in s.alive
      && ((s.acquired[t].pid == p && s.acquired[t].runId == runId) || Guest(Member(p, t), runId) in s.guests)
  }

  /** All live processes that were let in belong to one run. */
  ghost predicate OneRun(s: State) {
    forall p, r, q, u :: LetIn(s, p, r) && LetIn(s, q, u) ==> r == u
  }

  /** Whoever was let in holds the token of its own run. */
  lemma LetInHolds(s: State, p: Pid, runId: RunId) returns (t: Token)
    requires GuestInv(s) && LetIn(s, p, runId)
    ensures LiveHolder(s, t) && s.acquired[t].runId == runId
  {
    t :| t in s.acquired && t !in s.released && p in s.alive
      && ((s.acquired[t].pid == p && s.acquired[t].runId == runId) || Guest(Member(p, t), runId) in s.guests);
    if Guest(Member(p, t), runId) in s.guests { assert Member(p, t) in s.joined; }
  }

  /** In every state any run can reach, all live processes let in belong to one run. */
  lemma OneRunAtATime(s: State)
    requires Reachable(PROMISED, s)
    ensures OneRun(s)
    ensures forall m :: m in s.joined && m.token !in s.released && m.pid in s.alive ==>
      m.token in s.acquired && LetIn(s, m.pid, s.acquired[m.token].runId)
  {
    ReachableInv(s);
    MutualExclusion(s);
    forall p, r, q, u | LetIn(s, p, r) && LetIn(s, q, u) ensures r == u {
      var t := LetInHolds(s, p, r);
      var v := LetInHolds(s, q, u);
    }
    forall m | m in s.joined && m.token !in s.released && m.pid in s.alive
      ensures m.token in s.acquired && LetIn(s, m.pid, s.acquired[m.token].runId)
    {
      assert Guest(m, s.acquired[m.token].runId) in s.guests && m == Member(m.pid, m.token);
    }
  }

  /** A token's directory goes away only by its own release, or when nobody who holds it is alive. */
  lemma RemovedOnlyByReleaseOrDeath(s: State, step: Step, t: Token)
    requires Reachable(PROMISED, s) && Enabled(PROMISED, s, step)
    requires OwnerIs(s, t) && !OwnerIs(Apply(s, step), t)
    ensures step == Release(t) || (step.ReleaseRename? && s.releasing[step.pid] == t) || !LiveHolder(s, t)
  {
    ReachableInv(s);
    if step.Poll? && Judge(s, s.dir.value, step.runId) == ReclaimIt {
      ReclaimOnlyDead(s, step.runId, t);
    } else if step.Release? {
      WholeReleaseIs(s, step.token);
    } else if step.ReleaseRename? {
      assert OwnerIs(s, s.releasing[step.pid]);
    } else {
      OwnerStays(s, step, t);
    }
  }

  /** A release that was interrupted between its read and its rename still takes away its own lock, nothing else. */
  lemma SplitReleaseTakesItsOwn(s: State, p: Pid)
    requires Reachable(PROMISED, s) && Enabled(PROMISED, s, ReleaseRename(p))
    ensures OwnerIs(s, s.releasing[p]) && s.releasing[p] in s.holder && s.holder[s.releasing[p]] == p
    ensures Apply(s, ReleaseRename(p)).dir == None && s.releasing[p] in Apply(s, ReleaseRename(p)).released
  {
    ReachableInv(s);
  }

  // ---------- the promises are needed

  lemma {:induction false} RunSnoc(a: Assumptions, s: State, steps: seq<Step>, t: State, step: Step)
    requires IsRun(a, s, steps, t) && Enabled(a, t, step)
    ensures IsRun(a, s, steps + [step], Apply(t, step))
    decreases |steps|
  {
    if steps == [] {
      assert [step][1..] == [];
      assert IsRun(a, Apply(s, step), [], Apply(t, step));
      assert steps + [step] == [step];
    } else {
      assert (steps + [step])[1..] == steps[1..] + [step];
      RunSnoc(a, Apply(s, steps[0]), steps[1..], t, step);
    }
  }

  lemma Extend(a: Assumptions, s: State, step: Step) returns (t: State)
    requires Reachable(a, s) && Enabled(a, s, step)
    ensures t == Apply(s, step) && Reachable(a, t)
  {
    var steps :| IsRun(a, INIT, steps, s);
    RunSnoc(a, INIT, steps, s, step);
    t := Apply(s, step);
  }

  lemma Started(a: Assumptions) returns (s: State)
    ensures Reachable(a, s) && s == INIT.(alive := {1, 2, 3}, born := {1, 2, 3})
  {
    assert IsRun(a, INIT, [], INIT);
    s := Extend(a, INIT, Start(1));
    s := Extend(a, s, Start(2));
    s := Extend(a, s, Start(3));
  }

  const O1 := Owner(1, 1, 1)
  const O2 := Owner(2, 2, 2)
  const O3 := Owner(3, 3, 3)

  /** Process 1 acquired, in its own name or another's. */
  lemma OneAcquired(a: Assumptions, owner: Owner) returns (s: State)
    requires owner.token == 1 && owner.pid in {1, 2, 3}
    ensures Reachable(a, s)
    ensures s == INIT.(
      dir := Some(Dir(Some(owner), {}, 0, 1)), alive := {1, 2, 3}, born := {1, 2, 3},
      acquired := map[1 := owner], holder := map[1 := 1])
  {
    s := Started(a);
    s := Extend(a, s, Mkdir(1, owner));
    s := Extend(a, s, WriteOwner(1));
  }

  lemma TwoRuns(s: State, o: Owner, q: Owner)
    requires o.token in s.acquired && s.acquired[o.token] == o && o.token !in s.released && o.pid in s.alive
    requires q.token in s.acquired && s.acquired[q.token] == q && q.token !in s.released && q.pid in s.alive
    requires o.runId != q.runId
    ensures !OneRun(s)
  {
    assert LetIn(s, o.pid, o.runId) && LetIn(s, q.pid, q.runId);
  }

  /** Process 1 acquired and died; 2 and 3 have both read its owner file. */
  lemma TwoJudgeTheSameDeadOwner(a: Assumptions) returns (s: State)
    requires !a.atomicPolls
    ensures Reachable(a, s)
    ensures s == INIT.(
      dir := Some(Dir(Some(O1), {}, 0, 1)), alive := {2, 3}, born := {1, 2, 3}, condemned := {2, 3},
      acquired := map[1 := O1], holder := map[1 := 1])
  {
    s := OneAcquired(a, O1);
    s := Extend(a, s, Crash(1));
    assert s == INIT.(
      dir := Some(Dir(Some(O1), {}, 0, 1)), alive := {2, 3}, born := {1, 2, 3},
      acquired := map[1 := O1], holder := map[1 := 1]);
    s := Extend(a, s, Observe(2, 2));
    s := Extend(a, s, Observe(3, 3));
  }

  /** Process 3 renames the dead owner's directory aside and acquires; 2 still means to rename. */
  lemma SecondToRename(a: Assumptions) returns (s: State)
    requires !a.atomicPolls
    ensures Reachable(a, s)
    ensures s == INIT.(
      dir := Some(Dir(Some(O3), {}, 0, 3)), alive := {2, 3}, born := {1, 2, 3}, condemned := {2},
      acquired := map[1 := O1, 3 := O3], holder := map[1 := 1, 3 := 3])
  {
    s := TwoJudgeTheSameDeadOwner(a);
    s := Extend(a, s, RenameAside(3));
    s := Extend(a, s, Mkdir(3, O3));
    s := Extend(a, s, WriteOwner(3));
  }

  /**
   * Two contenders read the same dead owner. The first renames it aside and acquires; the second,
   * acting on its old reading, then renames the first one's live lock aside and acquires too.
   */
  lemma SplitPollBreaksExclusion(a: Assumptions) returns (s: State)
    requires !a.atomicPolls
    ensures Reachable(a, s) && !Exclusive(s) && !OneRun(s)
  {
    s := SecondToRename(a);
    s := Extend(a, s, RenameAside(2));
    s := Extend(a, s, Mkdir(2, O2));
    s := Extend(a, s, WriteOwner(2));
    assert s.acquired == map[1 := O1, 3 := O3, 2 := O2] && s.alive == {2, 3} && s.released == {};
    assert LiveHolder(s, 2) && LiveHolder(s, 3);
    TwoRuns(s, O2, O3);
  }

  /** Process 1 made the directory and is still starting up when 2 reclaims it. */
  lemma SlowMakerReclaimed(a: Assumptions) returns (s: State)
    requires !a.timelyOwner
    ensures Reachable(a, s)
    ensures s == INIT.(
      now := INCOMPLETE_OWNER_GRACE_MS, alive := {1, 2, 3}, born := {1, 2, 3}, making := map[1 := O1])
  {
    s := Started(a);
    s := Extend(a, s, Mkdir(1, O1));
    s := Extend(a, s, Tick(INCOMPLETE_OWNER_GRACE_MS));
    s := Extend(a, s, Poll(2, 2));
  }

  /** Process 2 acquires what it reclaimed. */
  lemma SlowMakerOvertaken(a: Assumptions) returns (s: State)
    requires !a.timelyOwner
    ensures Reachable(a, s)
    ensures s == INIT.(
      dir := Some(Dir(Some(O2), {}, INCOMPLETE_OWNER_GRACE_MS, 2)), now := INCOMPLETE_OWNER_GRACE_MS,
      alive := {1, 2, 3}, born := {1, 2, 3}, making := map[1 := O1], acquired := map[2 := O2], holder := map[2 := 2])
  {
    s := SlowMakerReclaimed(a);
    s := Extend(a, s, Mkdir(2, O2));
    s := Extend(a, s, WriteOwner(2));
  }

  /**
   * A maker that outlives the grace before writing its owner file finds another run's owner there,
   * fails its exclusive write, and removes that live lock; a third run then acquires.
   */
  lemma LateOwnerBreaksExclusion(a: Assumptions) returns (s: State)
    requires !a.timelyOwner
    ensures Reachable(a, s) && !Exclusive(s) && !OneRun(s)
  {
    s := SlowMakerOvertaken(a);
    s := Extend(a, s, WriteOwner(1));
    s := Extend(a, s, Mkdir(3, O3));
    s := Extend(a, s, WriteOwner(3));
    assert s.acquired == map[2 := O2, 3 := O3] && s.alive == {1, 2, 3} && s.released == {};
    assert LiveHolder(s, 2) && LiveHolder(s, 3);
    TwoRuns(s, O2, O3);
  }

  /** Process 1 acquired in the name of process 2. */
  const PROXY := Owner(1, 1, 2)

  /** Process 1 has read its owner file for a release, and process 2 dies. */
  lemma ProxyDied(a: Assumptions) returns (s: State)
    requires !a.ownRelease
    ensures Reachable(a, s)
    ensures s == INIT.(
      dir := Some(Dir(Some(PROXY), {}, 0, 1)), alive := {1, 3}, born := {1, 2, 3}, releasing := map[1 := 1],
      acquired := map[1 := PROXY], holder := map[1 := 1])
  {
    s := OneAcquired(a, PROXY);
    s := Extend(a, s, ReleaseRead(1));
    s := Extend(a, s, Crash(2));
  }

  /** Process 3 reclaims the lock of the dead process 2 and acquires. */
  lemma ProxyOvertaken(a: Assumptions) returns (s: State)
    requires !a.ownRelease
    ensures Reachable(a, s)
    ensures s == INIT.(
      dir := Some(Dir(Some(O3), {}, 0, 3)), alive := {1, 3}, born := {1, 2, 3}, releasing := map[1 := 1],
      acquired := map[1 := PROXY, 3 := O3], holder := map[1 := 1, 3 := 3])
  {
    s := ProxyDied(a);
    s := Extend(a, s, Poll(3, 3));
    assert s.dir == None;
    s := Extend(a, s, Mkdir(3, O3));
    s := Extend(a, s, WriteOwner(3));
  }

  /**
   * A release in the name of another process, which dies between the owner read and the rename: by then a
   * third run holds a new lock, and the rename takes that live lock away.
   */
  lemma ProxyReleaseBreaksExclusion(a: Assumptions) returns (s: State)
    requires !a.ownRelease
    ensures Reachable(a, s) && !Exclusive(s) && !OneRun(s)
  {
    s := ProxyOvertaken(a);
    s := Extend(a, s, ReleaseRename(1));
    s := Extend(a, s, Mkdir(1, Owner(4, 4, 1)));
    s := Extend(a, s, WriteOwner(1));
    assert s.acquired == map[1 := PROXY, 3 := O3, 4 := Owner(4, 4, 1)] && s.alive == {1, 3} && s.released == {1};
    assert LiveHolder(s, 3) && LiveHolder(s, 4);
    TwoRuns(s, O3, Owner(4, 4, 1));
  }

  /** Under these promises no reachable state has live processes of two runs let in. */
  ghost predicate OneRunAlways(a: Assumptions) {
    forall s :: Reachable(a, s) ==> OneRun(s)
  }

  /** Mutual exclusion over every run, of tokens and of test runs, needs all three promises, and they are enough. */
  lemma ExcludesIff(a: Assumptions)
    ensures Excludes(a) <==> a.atomicPolls && a.timelyOwner && a.ownRelease
    ensures OneRunAlways(a) <==> a.atomicPolls && a.timelyOwner && a.ownRelease
  {
    if a == PROMISED {
      forall s | Reachable(a, s) ensures Exclusive(s) && OneRun(s) { MutualExclusion(s); OneRunAtATime(s); }
    } else if !a.atomicPolls {
      var s := SplitPollBreaksExclusion(a);
    } else if !a.timelyOwner {
      var s := LateOwnerBreaksExclusion(a);
    } else {
      var s := ProxyReleaseBreaksExclusion(a);
    }
  }

  // ---------- the lock never wedges

  /** One pass of the acquire loop by a contender that is alone: mkdir and owner file, or one poll. */
  function Attempt(s: State, p: Pid, owner: Owner): State {
    if s.dir.None? then Apply(Apply(s, Mkdir(p, owner)), WriteOwner(p)) else Apply(s, Poll(p, owner.runId))
  }

  ghost predicate CanContend(s: State, p: Pid, owner: Owner) {
    Idle(s, p) && owner.pid in s.born && FreshToken(s, owner.token)
  }

  /** The owner file at the lock path is this one; its holder is live when the process it names is. */
  ghost predicate Holds(s: State, owner: Owner) {
    OwnerIs(s, owner.token) && (owner.pid in s.alive ==> LiveHolder(s, owner.token))
  }

  /** No token is held or being joined by the living, and an ownerless directory is past its grace. */
  ghost predicate Abandoned(s: State) {
    && (forall t :: !LiveHolder(s, t) && !LiveJoiner(s, t))
    && (s.dir.Some? && s.dir.value.owner.None? ==> !IncompleteOwnerIsRecent(s, s.dir.value))
  }

  lemma AttemptAcquires(s: State, p: Pid, owner: Owner)
    requires s.dir.None? && CanContend(s, p, owner) && s.released <= s.acquired.Keys
    ensures Holds(Attempt(s, p, owner), owner)
    ensures Enabled(PROMISED, s, Mkdir(p, owner)) && Enabled(PROMISED, Apply(s, Mkdir(p, owner)), WriteOwner(p))
  {
  }

  /** From every reachable abandoned state a lone contender holds the lock after at most two passes. */
  lemma NeverWedges(s: State, p: Pid, owner: Owner)
    requires Reachable(PROMISED, s) && Abandoned(s) && CanContend(s, p, owner)
    ensures Holds(Attempt(s, p, owner), owner)
      || (Enabled(PROMISED, s, Poll(p, owner.runId)) && Holds(Attempt(Attempt(s, p, owner), p, owner), owner))
  {
    ReachableInv(s);
    if s.dir.None? {
      AttemptAcquires(s, p, owner);
    } else {
      if s.dir.value.owner.Some? {
        LiveIffHolder(s);
        assert !LiveHolder(s, s.dir.value.owner.value.token) && !LiveJoiner(s, s.dir.value.owner.value.token);
      }
      var t := Attempt(s, p, owner);
      assert t == s.(dir := None);
      AttemptAcquires(t, p, owner);
    }
  }

  /** With no live holder, joiner or maker, waiting out the grace is allowed and is always enough. */
  lemma RecoversAfterGrace(s: State, p: Pid, owner: Owner)
    requires Reachable(PROMISED, s) && CanContend(s, p, owner)
    requires (forall t :: !LiveHolder(s, t) && !LiveJoiner(s, t)) && forall q :: q in s.making ==> q !in s.alive
    ensures Enabled(PROMISED, s, Tick(INCOMPLETE_OWNER_GRACE_MS))
    ensures var t := Apply(s, Tick(INCOMPLETE_OWNER_GRACE_MS));
      Reachable(PROMISED, t) && Abandoned(t) && CanContend(t, p, owner)
  {
    ReachableInv(s);
    var t := Extend(PROMISED, s, Tick(INCOMPLETE_OWNER_GRACE_MS));
    forall u ensures !LiveHolder(t, u) && !LiveJoiner(t, u) { assert !LiveHolder(s, u) && !LiveJoiner(s, u); }
  }

  /** A contender of the live owner's own run, about to join it, in a state that a run under the promises reaches. */
  lemma MayJoin() returns (s: State)
    ensures Reachable(PROMISED, s) && CanContend(s, 2, Owner(1, 2, 2))
    ensures s.dir.Some? && s.dir.value.owner == Some(O1) && Judge(s, s.dir.value, 1) == JoinIt
  {
    s := OneAcquired(PROMISED, O1);
  }
}
