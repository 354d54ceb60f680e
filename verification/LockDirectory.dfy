/** scripts/test-run-lock.ts: the lock operations as they act on the directory, one loop pass at a time. */
module LockDirectory {
  import opened LockModel
  import opened LockSafety

  datatype PassResult = Acquired | Joined(owner: Owner) | JoinFailed | Reclaimed | Waiting

  /** The process has read this owner and is about to write its member file. */
  function JoinBegun(s: State, pid: Pid, owner: Owner, runId: RunId): (r: State)
    ensures pid in r.joining
  {
    s.(joining := s.joining[pid := Join(owner, runId, false)])
  }

  /** An uninterrupted join: the two steps that are left after the owner was read. */
  function WholeJoin(s: State, pid: Pid, owner: Owner, runId: RunId, touches: bool): State {
    ConfirmMember(WriteMember(JoinBegun(s, pid, owner, runId), pid, touches), pid)
  }

  lemma WholeJoinIs(s: State, pid: Pid, owner: Owner, runId: RunId, touches: bool)
    requires pid !in s.joining
    ensures
      var d := if s.dir.Some? then s.dir.value else Dir(None, {}, s.now, pid);
      var m := Member(pid, owner.token);
      var written := d.(members := d.members + {m}, mtime := if touches then s.now else d.mtime);
      WholeJoin(s, pid, owner, runId, touches) ==
        if d.owner == Some(owner)
        then s.(dir := Some(written), joined := s.joined + {m}, guests := s.guests + {Guest(m, runId)})
        else s.(dir := Some(written.(members := written.members - {m})))
  {
    assert WriteMember(JoinBegun(s, pid, owner, runId), pid, touches).joining - {pid} == s.joining;
  }

  datatype Outcome = TookIt | JoinedIt | TimedOut | StillTrying

  /** The directory has an owner, and the owner or a process that joined it is alive. */
  ghost predicate LiveOwner(s: State) {
    && s.dir.Some? && s.dir.value.owner.Some?
    && var o := s.dir.value.owner.value;
       o.pid in s.alive || exists m :: m in s.dir.value.members && m.token == o.token && m.pid in s.alive
  }

  /** A live owner of the contender's own run. */
  ghost predicate WouldJoin(s: State, runId: RunId) {
    LiveOwner(s) && s.dir.value.owner.value.runId == runId
  }

  /** A live owner of another run, or no owner and ten seconds not over since the directory was last touched. */
  ghost predicate WouldWait(s: State, runId: RunId) {
    || (LiveOwner(s) && s.dir.value.owner.value.runId != runId)
    || (s.dir.Some? && s.dir.value.owner.None? && s.now < s.dir.value.mtime + 10_000)
  }

  /** The poll's verdict, said on the directory itself. */
  lemma JudgeIff(s: State, runId: RunId)
    requires s.dir.Some?
    ensures Judge(s, s.dir.value, runId) == JoinIt <==> WouldJoin(s, runId)
    ensures Judge(s, s.dir.value, runId) == WaitForIt <==> WouldWait(s, runId)
    ensures Judge(s, s.dir.value, runId) == ReclaimIt <==> !WouldJoin(s, runId) && !WouldWait(s, runId)
  {
  }

  /** A live owner of the contender's own run, whose members directory takes no file of the contender. */
  ghost predicate Spins(s: State, runId: RunId, writable: bool) {
    WouldJoin(s, runId) && !writable
  }

  /** A live owner of this run, under this very token. */
  ghost predicate MayEnter(s: State, runId: RunId, token: Token) {
    WouldJoin(s, runId) && s.dir.value.owner.value.token == token
  }

  /** A process begins to join exactly the live owner of its own run whose token it read. */
  lemma JoinBeginsIff(s: State, p: Pid, runId: RunId, token: Token)
    requires p !in s.joining
    ensures p in Apply(s, JoinRead(p, runId, token)).joining <==> MayEnter(s, runId, token)
    ensures MayEnter(s, runId, token) ==>
      Apply(s, JoinRead(p, runId, token)) == JoinBegun(s, p, s.dir.value.owner.value, runId)
    ensures !MayEnter(s, runId, token) ==> Apply(s, JoinRead(p, runId, token)) == s
  {
    assert MayEnter(s, runId, token) <==>
      s.dir.Some? && s.dir.value.owner.Some? && s.dir.value.owner.value.runId == runId
      && s.dir.value.owner.value.token == token && LockIsLive(s, s.dir.value, s.dir.value.owner.value);
  }

  /**
   * A live maker's directory: opening the owner file makes every contender wait again, and a failed write takes
   * away that directory, its own and ownerless, and acquires nothing.
   */
  lemma MakerEffects(s: State, p: Pid, runId: RunId)
    requires Reachable(PROMISED, s) && p in s.making && p in s.alive
    ensures s.dir.Some? && s.dir.value.owner.None? && s.dir.value.maker == p
    ensures Apply(s, OpenOwnerFile(p)).dir == Some(s.dir.value.(mtime := s.now))
    ensures WouldWait(Apply(s, OpenOwnerFile(p)), runId)
    ensures var t := Apply(s, OwnerWriteFails(p));
      t.dir.None? && t.acquired == s.acquired && p !in t.making
  {
    ReachableInv(s);
  }

  datatype Timing = Timing(startedAt: nat, pollMs: nat, maxWaitMs: nat)

  /** What a round of the loop does, nothing else running. */
  ghost predicate RoundOf(s: State, t: State, owner: Owner, writable: bool, timing: Timing, outcome: Outcome) {
    if s.dir.None? then outcome == TookIt && Holds(t, owner) && t.now == s.now
    else
      if WouldJoin(s, owner.runId) then
        t.now == s.now && if writable then outcome == JoinedIt else outcome == StillTrying && t == s
      else if !WouldWait(s, owner.runId) then outcome == StillTrying && t == s.(dir := None)
      else if s.now - timing.startedAt >= timing.maxWaitMs then outcome == TimedOut && t == s
      else outcome == StillTrying && t == s.(now := s.now + timing.pollMs)
  }

  /** Nothing happened but time, and the reclaim of the directory. */
  ghost predicate Waited(start: State, later: State) {
    && later == start.(now := later.now, dir := later.dir) && start.now <= later.now
    && (later.dir == start.dir || later.dir.None?)
  }

  lemma WaitedContends(start: State, later: State, pid: Pid, owner: Owner)
    ensures Waited(start, later) ==> (CanContend(later, pid, owner) <==> CanContend(start, pid, owner))
  {
  }

  /** Where the loop has got to after some rounds, so many of which waited. */
  ghost predicate Reached(
    start: State, s: State, owner: Owner, writable: bool, timing: Timing, outcome: Outcome, waits: nat) {
    && timing.startedAt == start.now && start.now + waits <= s.now && waits <= timing.maxWaitMs
    && s.now - start.now < timing.maxWaitMs + timing.pollMs
    && (waits > 0 || (outcome == StillTrying && s.dir != start.dir) ==> !WouldJoin(start, owner.runId))
    && (Spins(start, owner.runId, writable) ==> outcome == StillTrying && s == start)
    && match outcome
       case StillTrying => Waited(start, s)
       case TookIt => Holds(s, owner)
       case JoinedIt => WouldJoin(start, owner.runId) && writable
       case TimedOut => WouldWait(start, owner.runId) && s.now - start.now >= timing.maxWaitMs
  }

  lemma RoundReaches(start: State, s: State, t: State, owner: Owner, writable: bool, timing: Timing, outcome: Outcome,
                     waits: nat)
    requires Reached(start, s, owner, writable, timing, StillTrying, waits) && timing.pollMs >= 1
    requires RoundOf(s, t, owner, writable, timing, outcome)
    ensures Reached(start, t, owner, writable, timing, outcome, if t.now > s.now then waits + 1 else waits)
    ensures outcome == StillTrying && !Spins(start, owner.runId, writable) ==>
      s.dir == start.dir && s.dir.Some? && (t.now > s.now <==> t.dir == start.dir)
  {
    SameAtAnyTime(start, s, owner.runId);
  }

  /** Time alone makes nobody join, and nothing wait that did not. */
  lemma SameAtAnyTime(s: State, later: State, runId: RunId)
    ensures later == s.(now := later.now) ==> (WouldJoin(later, runId) <==> WouldJoin(s, runId))
    ensures later == s.(now := later.now) && s.now <= later.now && WouldWait(later, runId) ==> WouldWait(s, runId)
  {
  }

  /** The lock path, the clock and the process table that the operations read, with the run's history. */
  class LockPath {
    var dir: Option<Dir>
    var now: nat
    var alive: set<Pid>
    ghost var rest: State

    constructor (s: State)
      ensures State() == s
    {
      dir, now, alive, rest := s.dir, s.now, s.alive, s;
    }

    ghost function State(): State
      reads this
    {
      rest.(dir := dir, now := now, alive := alive)
    }

    function ReadOwner(): Option<Owner>
      reads this
    {
      match dir case None => None case Some(d) => d.owner
    }

    /** The scan of the members directory for a live process that joined this token. */
    method LiveMemberExists(owner: Owner) returns (found: bool)
      ensures found <==> dir.Some? && LockModel.LiveMemberExists(State(), dir.value, owner)
    {
      if dir.None? { return false; }
      var files := dir.value.members;
      while files != {}
        invariant files <= dir.value.members
        invariant forall m :: m in dir.value.members && m !in files ==> !(m.token == owner.token && m.pid in alive)
        decreases files
      {
        var file :| file in files;
        if file.token == owner.token && file.pid in alive { return true; }
        files := files - {file};
      }
      found := false;
    }

    method LockIsLive(owner: Owner) returns (live: bool)
      requires dir.Some?
      ensures live <==> LockModel.LockIsLive(State(), dir.value, owner)
    {
      if owner.pid in alive { return true; }
      live := LiveMemberExists(owner);
    }

    predicate OwnsLock(owner: Owner)
      reads this
    {
      ReadOwner() == Some(owner)
    }

    /**
     * Write the member file, then confirm that the owner is still the one joined. `writable`: the file
     * system takes the member file; `touches`: the members directory had to be made. A lock path that was
     * renamed away is made again, without an owner, and stays when the confirmation fails.
     */
    method RegisterMember(owner: Owner, pid: Pid, ghost runId: RunId, writable: bool, touches: bool)
      returns (registered: bool)
      requires pid !in rest.joining
      modifies this
      ensures registered <==> writable && old(OwnsLock(owner))
      ensures !writable ==> State() == old(State())
      ensures writable ==> State() == WholeJoin(old(State()), pid, owner, runId, touches)
      ensures registered && !touches ==>
        State() == LockModel.RegisterMember(old(State()), old(dir.value), pid, owner, runId)
      ensures writable && old(dir).None? ==>
        dir == Some(Dir(None, {}, now, pid)) && State() == old(State()).(dir := dir)
    {
      if !writable { return false; }
      var m := Member(pid, owner.token);
      WholeJoinIs(State(), pid, owner, runId, touches);
      var d := if dir.Some? then dir.value else Dir(None, {}, now, pid);
      dir := Some(d.(members := d.members + {m}, mtime := if touches then now else d.mtime));
      registered := OwnsLock(owner);
      if registered {
        rest := rest.(joined := rest.joined + {m}, guests := rest.guests + {Guest(m, runId)});
      } else {
        dir := Some(dir.value.(members := dir.value.members - {m}));
      }
    }

    /**
     * A worker that inherited its wrapper's token: it joins that very live lock of its run, or fails. Whatever it
     * meets, it neither acquires nor reclaims; only a join that was begun leaves a trace.
     */
    method JoinExisting(runId: RunId, token: Token, pid: Pid, writable: bool, touches: bool)
      returns (joined: Option<Owner>)
      requires pid !in rest.joining
      modifies this
      ensures joined.Some? <==> writable && MayEnter(old(State()), runId, token)
      ensures joined.Some? ==>
        && old(dir.value).owner == joined && dir.Some? && dir.value.owner == joined
        && dir.value.members == old(dir.value).members + {Member(pid, token)}
        && Guest(Member(pid, token), runId) in State().guests
      ensures joined.None? ==> State() == old(State())
      ensures State().acquired == old(State()).acquired && (dir.None? <==> old(dir).None?)
    {
      var current := ReadOwner();
      if current.None? || current.value.runId != runId || current.value.token != token { return None; }
      var live := LockIsLive(current.value);
      if !live { return None; }
      var registered := RegisterMember(current.value, pid, runId, writable, touches);
      joined := if registered then current else None;
    }

    /** Rename the directory aside and delete it. */
    method ReclaimStaleLock() returns (reclaimed: bool)
      modifies `dir
      ensures reclaimed <==> old(dir).Some?
      ensures State() == old(State()).(dir := None)
    {
      reclaimed := dir.Some?;
      dir := None;
    }

    /** The first half of a release: is this owner still the one recorded? */
    method ReleaseRead(owner: Owner) returns (owns: bool)
      requires owner.token in rest.acquired && rest.acquired[owner.token] == owner && owner.token in rest.holder
      modifies `rest
      ensures owns <==> OwnsLock(owner)
      ensures State() == Apply(old(State()), LockModel.ReleaseRead(owner.token))
    {
      owns := OwnsLock(owner);
      rest := if owns then rest.(releasing := rest.releasing[rest.holder[owner.token] := owner.token])
              else rest.(released := rest.released + {owner.token});
    }

    /** The second half: rename aside whatever is there by now. */
    method ReleaseRename(ghost pid: Pid)
      requires pid in rest.releasing
      modifies this
      ensures State() == Apply(old(State()), LockModel.ReleaseRename(pid))
    {
      var _ := ReclaimStaleLock();
      rest := rest.(releasing := rest.releasing - {pid}, released := rest.released + {rest.releasing[pid]});
    }

    /** Both halves, nothing else running meanwhile. */
    method Release(owner: Owner)
      requires owner.token in rest.acquired && rest.acquired[owner.token] == owner && owner.token in rest.holder
      requires rest.holder[owner.token] !in rest.releasing
      modifies this
      ensures State() == Apply(old(State()), LockModel.Release(owner.token))
      ensures dir == if old(OwnsLock(owner)) then None else old(dir)
    {
      ghost var pid := rest.holder[owner.token];
      var owns := ReleaseRead(owner);
      if owns { ReleaseRename(pid); }
    }

    /**
     * One pass of the acquire loop, nothing else running meanwhile. A join whose member file cannot be written
     * changes nothing, so the loop, which goes round again without sleeping or looking at its deadline, meets
     * the same directory.
     */
    method AcquirePass(pid: Pid, owner: Owner, writable: bool) returns (result: PassResult)
      requires CanContend(State(), pid, owner)
      modifies this
      ensures State() == if result == JoinFailed then old(State()) else Attempt(old(State()), pid, owner)
      ensures result == Acquired <==> old(dir).None?
      ensures result.Joined? <==> writable && WouldJoin(old(State()), owner.runId)
      ensures result == JoinFailed <==> !writable && WouldJoin(old(State()), owner.runId)
      ensures result == Waiting <==> WouldWait(old(State()), owner.runId)
      ensures match result
        case Acquired => dir.Some? && dir.value.owner == Some(owner)
        case Joined(o) =>
          var m := Member(pid, o.token);
          && old(dir.value).owner == Some(o)
          && State() == old(State()).(dir := Some(old(dir.value).(members := old(dir.value).members + {m})),
                joined := old(State()).joined + {m}, guests := old(State()).guests + {Guest(m, owner.runId)})
        case Reclaimed => State() == old(State()).(dir := None)
        case _ => State() == old(State())
    {
      if dir.None? {
        dir := Some(Dir(None, {}, now, pid));
        dir := Some(dir.value.(owner := Some(owner)));
        rest := rest.(making := rest.making[pid := owner] - {pid},
                      acquired := rest.acquired[owner.token := owner], holder := rest.holder[owner.token := pid]);
        return Acquired;
      }
      var current := ReadOwner();
      if current.Some? {
        var live := LockIsLive(current.value);
        if live && current.value.runId == owner.runId {
          var registered := RegisterMember(current.value, pid, owner.runId, writable, false);
          return if registered then Joined(current.value) else JoinFailed;
        }
        if live { return Waiting; }
      } else if now - dir.value.mtime < INCOMPLETE_OWNER_GRACE_MS {
        return Waiting;
      }
      var _ := ReclaimStaleLock();
      result := Reclaimed;
    }

    /** One round of the loop: a pass, and the look at the deadline and the sleep of one that waits. */
    method Round(pid: Pid, owner: Owner, writable: bool, startedAt: nat, pollMs: nat, maxWaitMs: nat)
      returns (outcome: Outcome)
      requires CanContend(State(), pid, owner) && State().released <= State().acquired.Keys
      modifies this
      ensures RoundOf(old(State()), State(), owner, writable, Timing(startedAt, pollMs, maxWaitMs), outcome)
    {
      if dir.None? { AttemptAcquires(State(), pid, owner); }
      var result := AcquirePass(pid, owner, writable);
      match result
      case Acquired => outcome := TookIt;
      case Joined(_) => outcome := JoinedIt;
      case JoinFailed => outcome := StillTrying;
      case Reclaimed => outcome := StillTrying;
      case Waiting =>
        if now - startedAt >= maxWaitMs { return TimedOut; }
        now := now + pollMs;
        outcome := StillTrying;
    }

    /**
     * The acquire loop with nothing else running, for so many passes: a pass that waits looks at the deadline and
     * sleeps, the others go round at once. It comes to an end, within two passes and one for each millisecond to the
     * deadline, exactly when it need not write a member file that it cannot write; with the deadline at once, that is
     * to say that it acquires, joins or looks at the deadline within two passes.
     */
    method AcquireAlone(pid: Pid, owner: Owner, writable: bool, pollMs: nat, maxWaitMs: nat, passes: nat)
      returns (outcome: Outcome)
      requires CanContend(State(), pid, owner) && State().released <= State().acquired.Keys && pollMs >= 1
      modifies this
      ensures Spins(old(State()), owner.runId, writable) ==> outcome == StillTrying && State() == old(State())
      ensures passes >= maxWaitMs + 2 ==>
        (outcome == StillTrying <==> Spins(old(State()), owner.runId, writable))
      ensures outcome == TookIt ==> Holds(State(), owner)
      ensures outcome == JoinedIt ==> WouldJoin(old(State()), owner.runId) && writable
      ensures outcome == TimedOut ==>
        WouldWait(old(State()), owner.runId) && maxWaitMs <= now - old(now) < maxWaitMs + pollMs
    {
      ghost var start, waits, timing := State(), 0, Timing(now, pollMs, maxWaitMs);
      var startedAt := now;
      outcome := StillTrying;
      var i := 0;
      while i < passes && outcome == StillTrying
        invariant i <= passes && startedAt == start.now
        invariant Reached(start, State(), owner, writable, timing, outcome, waits)
        invariant outcome == StillTrying && !Spins(start, owner.runId, writable) ==> i <= waits + 1
        invariant outcome == StillTrying && !Spins(start, owner.runId, writable) && start.dir == dir ==> i == waits
        decreases passes - i
      {
        ghost var before := State();
        WaitedContends(start, before, pid, owner);
        outcome := Round(pid, owner, writable, startedAt, pollMs, maxWaitMs);
        RoundReaches(start, before, State(), owner, writable, timing, outcome, waits);
        waits := if now > before.now then waits + 1 else waits;
        i := i + 1;
      }
    }

    /** The loop itself, alone on an abandoned lock: it holds the lock without ever sleeping. */
    method AcquireAbandoned(pid: Pid, owner: Owner, writable: bool) returns (result: PassResult)
      requires Reachable(PROMISED, State()) && Abandoned(State()) && CanContend(State(), pid, owner)
      modifies this
      ensures result == Acquired && Holds(State(), owner)
    {
      ReachableInv(State());
      if dir.Some? { AbandonedIsReclaimed(State(), owner.runId); }
      result := Reclaimed;
      while result == Reclaimed
        invariant result == Reclaimed || (result == Acquired && Holds(State(), owner))
        invariant result == Reclaimed ==> CanContend(State(), pid, owner) && State().released <= State().acquired.Keys
        invariant result == Reclaimed && dir.Some? ==>
          !WouldJoin(State(), owner.runId) && !WouldWait(State(), owner.runId)
        decreases result == Reclaimed, dir.Some?
      {
        if dir.None? { AttemptAcquires(State(), pid, owner); }
        result := AcquirePass(pid, owner, writable);
      }
    }
  }

  lemma AbandonedIsReclaimed(s: State, runId: RunId)
    requires DirInv(s) && JoinInv(s) && s.dir.Some? && Abandoned(s)
    ensures !WouldJoin(s, runId) && !WouldWait(s, runId)
  {
    if s.dir.value.owner.Some? {
      LiveIffHolder(s);
      var t := s.dir.value.owner.value.token;
      assert !LiveHolder(s, t) && !LiveJoiner(s, t);
    }
  }
}
