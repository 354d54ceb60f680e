/**
 * scripts/test-run-lock.ts as a step system: one lock directory, any number of processes, crashes at
 * any point. A step is one file-system effect, or a whole poll or release where it is not interrupted.
 */
module LockModel {

  type Pid = nat
  type Token = nat
  type RunId = nat

  datatype Option<+T> = None | Some(value: T)

  const INCOMPLETE_OWNER_GRACE_MS: nat := 10_000

  datatype Owner = Owner(runId: RunId, token: Token, pid: Pid)

  /** A member file is named by its process and the token it joined. */
  datatype Member = Member(pid: Pid, token: Token)

  /** The directory at the lock path. `owner` is what readOwner returns; `maker` ran the mkdir. */
  datatype Dir = Dir(owner: Option<Owner>, members: set<Member>, mtime: nat, maker: Pid)

  /** A join under way: the owner that was read, the contender's run, and whether the member file is written. */
  datatype Join = Join(owner: Owner, runId: RunId, wrote: bool)

  /** A confirmed join, with the run of the process that joined. */
  datatype Guest = Guest(member: Member, runId: RunId)

  datatype State = State(
    dir: Option<Dir>, now: nat,
    alive: set<Pid>, born: set<Pid>,
    making: map<Pid, Owner>,          // mkdir succeeded, the owner file not written yet
    condemned: set<Pid>,              // judged the directory stale, rename still to come
    joining: map<Pid, Join>,          // read a live owner of its run, confirmation still to come
    releasing: map<Pid, Token>,       // found itself the owner, rename still to come
    acquired: map<Token, Owner>, holder: map<Token, Pid>,   // history: the owner files written, and by whom
    joined: set<Member>, guests: set<Guest>, released: set<Token>)

  /** What the environment promises. */
  datatype Assumptions = Assumptions(
    atomicPolls: bool,   // nothing runs between reading a stale owner and the rename aside
    timelyOwner: bool,   // a live process writes its owner file within the grace of its mkdir
    ownRelease: bool)    // a process releases a lock in another's name without interruption

  datatype Step =
    | Start(pid: Pid)
    | Crash(pid: Pid)
    | Tick(ms: nat)
    | Mkdir(pid: Pid, owner: Owner)
    | OpenOwnerFile(pid: Pid)
    | WriteOwner(pid: Pid)
    | OwnerWriteFails(pid: Pid)
    | Poll(pid: Pid, runId: RunId)
    | Observe(pid: Pid, runId: RunId)
    | RenameAside(pid: Pid)
    | JoinRead(pid: Pid, runId: RunId, token: Token)
    | JoinWrite(pid: Pid, touches: bool)
    | JoinConfirm(pid: Pid)
    | Release(token: Token)
    | ReleaseRead(token: Token)
    | ReleaseRename(pid: Pid)

  const INIT := State(None, 0, {}, {}, map[], {}, map[], map[], map[], map[], {}, {}, {})

  /** Some live process has a member file for this owner's token. */
  predicate LiveMemberExists(s: State, d: Dir, owner: Owner) {
    exists m :: m in d.members && m.token == owner.token && m.pid in s.alive
  }

  predicate LockIsLive(s: State, d: Dir, owner: Owner) {
    owner.pid in s.alive || LiveMemberExists(s, d, owner)
  }

  predicate IncompleteOwnerIsRecent(s: State, d: Dir) {
    s.now - d.mtime < INCOMPLETE_OWNER_GRACE_MS
  }

  /** The poll's verdict on an existing directory. */
  datatype Verdict = JoinIt | ReclaimIt | WaitForIt

  function Judge(s: State, d: Dir, runId: RunId): Verdict {
    if d.owner.Some? && d.owner.value.runId == runId && LockIsLive(s, d, d.owner.value) then JoinIt
    else if (if d.owner.Some? then LockIsLive(s, d, d.owner.value) else IncompleteOwnerIsRecent(s, d)) then WaitForIt
    else ReclaimIt
  }

  /** The history after a process of this run has joined. */
  function Admit(s: State, m: Member, runId: RunId): State {
    s.(joined := s.joined + {m}, guests := s.guests + {Guest(m, runId)})
  }

  function RegisterMember(s: State, d: Dir, pid: Pid, owner: Owner, runId: RunId): State {
    var m := Member(pid, owner.token);
    Admit(s.(dir := Some(d.(members := d.members + {m}))), m, runId)
  }

  predicate FreshToken(s: State, t: Token) {
    t !in s.acquired && forall p :: p in s.making ==> s.making[p].token != t
  }

  /** Alive and in the middle of nothing. */
  predicate Idle(s: State, p: Pid) {
    p in s.alive && p !in s.making && p !in s.condemned && p !in s.joining && p !in s.releasing
  }

  /** The process that wrote this token's owner file may release it. */
  predicate MayRelease(s: State, t: Token) {
    t in s.acquired && t in s.holder && t !in s.released && Idle(s, s.holder[t])
  }

  predicate Enabled(a: Assumptions, s: State, step: Step) {
    match step
    case Start(p) => p !in s.born
    case Crash(p) => p in s.alive
    case Tick(ms) =>
      a.timelyOwner && s.dir.Some? ==>
        forall p :: p in s.making && p in s.alive ==> s.now + ms - s.dir.value.mtime < INCOMPLETE_OWNER_GRACE_MS
    case Mkdir(p, owner) => Idle(s, p) && owner.pid in s.born && s.dir.None? && FreshToken(s, owner.token)
    case OpenOwnerFile(p) => p in s.alive && p in s.making
    case WriteOwner(p) => p in s.alive && p in s.making
    case OwnerWriteFails(p) => p in s.alive && p in s.making
    case Poll(p, _) => Idle(s, p) && s.dir.Some?
    case Observe(p, _) => !a.atomicPolls && Idle(s, p) && s.dir.Some?
    case RenameAside(p) => !a.atomicPolls && p in s.alive && p in s.condemned
    case JoinRead(p, _, _) => Idle(s, p)
    case JoinWrite(p, _) => p in s.alive && p in s.joining && !s.joining[p].wrote
    case JoinConfirm(p) => p in s.alive && p in s.joining && s.joining[p].wrote
    case Release(t) => MayRelease(s, t)
    case ReleaseRead(t) => MayRelease(s, t) && (a.ownRelease ==> s.holder[t] == s.acquired[t].pid)
    case ReleaseRename(p) => p in s.alive && p in s.releasing
  }

  /** mkdir for the members, which makes a missing lock directory again, and the member file. */
  function WriteMember(s: State, p: Pid, touches: bool): State
    requires p in s.joining
  {
    var d := if s.dir.Some? then s.dir.value else Dir(None, {}, s.now, p);
    var m := Member(p, s.joining[p].owner.token);
    s.(dir := Some(d.(members := d.members + {m}, mtime := if touches then s.now else d.mtime)),
       joining := s.joining[p := s.joining[p].(wrote := true)])
  }

  /** Read the owner again: still the one joined, or the member file goes. */
  function ConfirmMember(s: State, p: Pid): State
    requires p in s.joining
  {
    var owner := s.joining[p].owner;
    var m := Member(p, owner.token);
    var after := s.(joining := s.joining - {p});
    if s.dir.None? then after
    else if s.dir.value.owner == Some(owner) then Admit(after, m, s.joining[p].runId)
    else after.(dir := Some(s.dir.value.(members := s.dir.value.members - {m})))
  }

  /** The owner read of a release. */
  function BeginRelease(s: State, t: Token): State
    requires t in s.acquired && t in s.holder
  {
    if s.dir.Some? && s.dir.value.owner == Some(s.acquired[t]) then s.(releasing := s.releasing[s.holder[t] := t])
    else s.(released := s.released + {t})
  }

  /** The rename of a release, whatever directory is there by now. */
  function FinishRelease(s: State, p: Pid): State
    requires p in s.releasing
  {
    s.(dir := None, releasing := s.releasing - {p}, released := s.released + {s.releasing[p]})
  }

  function WholeRelease(s: State, t: Token): State
    requires t in s.acquired && t in s.holder
  {
    var begun := BeginRelease(s, t);
    if s.holder[t] in begun.releasing then FinishRelease(begun, s.holder[t]) else begun
  }

  function Apply(s: State, step: Step): State {
    match step
    case Start(p) => s.(alive := s.alive + {p}, born := s.born + {p})
    case Crash(p) => s.(alive := s.alive - {p})
    case Tick(ms) => s.(now := s.now + ms)
    case Mkdir(p, owner) => s.(dir := Some(Dir(None, {}, s.now, p)), making := s.making[p := owner])
    case OpenOwnerFile(p) => if s.dir.Some? then s.(dir := Some(s.dir.value.(mtime := s.now))) else s
    case WriteOwner(p) =>
      if p !in s.making then s
      else if s.dir.Some? && s.dir.value.owner.None? then
        var owner := s.making[p];
        s.(dir := Some(s.dir.value.(owner := Some(owner))), making := s.making - {p},
           acquired := s.acquired[owner.token := owner], holder := s.holder[owner.token := p])
      else s.(dir := None, making := s.making - {p})   // the exclusive write failed: rm -rf and throw
    case OwnerWriteFails(p) => s.(dir := None, making := s.making - {p})
    case Poll(p, runId) =>
      if s.dir.None? then s
      else
        (match Judge(s, s.dir.value, runId)
         case JoinIt => RegisterMember(s, s.dir.value, p, s.dir.value.owner.value, runId)
         case ReclaimIt => s.(dir := None)
         case WaitForIt => s)
    case Observe(p, runId) =>
      if s.dir.Some? && Judge(s, s.dir.value, runId) == ReclaimIt then s.(condemned := s.condemned + {p}) else s
    case RenameAside(p) => s.(dir := None, condemned := s.condemned - {p})
    case JoinRead(p, runId, token) =>
      if s.dir.Some? && s.dir.value.owner.Some? && s.dir.value.owner.value.runId == runId
        && s.dir.value.owner.value.token == token && LockIsLive(s, s.dir.value, s.dir.value.owner.value)
      then s.(joining := s.joining[p := Join(s.dir.value.owner.value, runId, false)]) else s
    case JoinWrite(p, touches) => if p in s.joining then WriteMember(s, p, touches) else s
    case JoinConfirm(p) => if p in s.joining then ConfirmMember(s, p) else s
    case Release(t) => if t in s.acquired && t in s.holder then WholeRelease(s, t) else s
    case ReleaseRead(t) => if t in s.acquired && t in s.holder then BeginRelease(s, t) else s
    case ReleaseRename(p) => if p in s.releasing then FinishRelease(s, p) else s
  }

  ghost predicate IsRun(a: Assumptions, s: State, steps: seq<Step>, t: State)
    decreases |steps|
  {
    if steps == [] then s == t
    else Enabled(a, s, steps[0]) && IsRun(a, Apply(s, steps[0]), steps[1..], t)
  }

  ghost predicate Reachable(a: Assumptions, s: State) {
    exists steps :: IsRun(a, INIT, steps, s)
  }

  // ---------- what must hold

  /** The token's run was acquired and not released, and its owner or a process that joined it is alive. */
  ghost predicate LiveHolder(s: State, t: Token) {
    && t in s.acquired && t !in s.released
    && (s.acquired[t].pid in s.alive || exists m :: m in s.joined && m.token == t && m.pid in s.alive)
  }

  ghost predicate Exclusive(s: State) {
    forall t, u :: LiveHolder(s, t) && LiveHolder(s, u) ==> t == u
  }

  /** Under these promises no reachable state has two live holders. */
  ghost predicate Excludes(a: Assumptions) {
    forall s :: Reachable(a, s) ==> Exclusive(s)
  }

  ghost predicate OwnerIs(s: State, t: Token) {
    s.dir.Some? && s.dir.value.owner.Some? && s.dir.value.owner.value.token == t
  }

  /** A member file that is written and not confirmed yet. */
  ghost predicate Unconfirmed(s: State, m: Member) {
    m.pid in s.joining && s.joining[m.pid].wrote && s.joining[m.pid].owner.token == m.token
  }

  /** The directory and the history agree: its member files are the joins confirmed or under way. */
  ghost predicate DirInv(s: State) {
    s.dir.Some? ==>
      && s.dir.value.mtime <= s.now
      && (forall m :: m in s.dir.value.members ==> m.token in s.acquired)
      && (s.dir.value.owner.Some? ==>
           var o := s.dir.value.owner.value;
           && o.token in s.acquired && s.acquired[o.token] == o && o.token !in s.released
           && (forall m :: m in s.joined && m.token == o.token ==> m in s.dir.value.members)
           && (forall m :: m in s.dir.value.members && m.token == o.token ==> m in s.joined || Unconfirmed(s, m)))
  }

  ghost predicate HistoryInv(s: State) {
    && s.alive <= s.born && s.making.Keys <= s.born && s.joining.Keys <= s.born && s.releasing.Keys <= s.born
    && s.released <= s.acquired.Keys
    && s.acquired.Keys == s.holder.Keys
    && (forall t :: t in s.acquired ==> s.acquired[t].pid in s.born && s.acquired[t].token == t)
    && (forall m :: m in s.joined ==> m.pid in s.born && m.token in s.acquired)
    && (forall p :: p in s.making ==> s.making[p].token !in s.acquired && s.making[p].pid in s.born)
    && (forall p, q :: p in s.making && q in s.making && p != q ==> s.making[p].token != s.making[q].token)
  }

  /** A join under way is of an owner that was there; while it still is, the written member file is there too. */
  ghost predicate JoinInv(s: State) {
    forall p :: p in s.joining ==>
      && s.joining[p].owner.token in s.acquired && s.acquired[s.joining[p].owner.token] == s.joining[p].owner
      && (s.joining[p].wrote && OwnerIs(s, s.joining[p].owner.token) ==>
            Member(p, s.joining[p].owner.token) in s.dir.value.members)
  }

  /** A live maker's directory is still there, ownerless, its own and recent. */
  ghost predicate MakerInv(s: State) {
    forall p :: p in s.making && p in s.alive ==>
      && s.dir.Some? && s.dir.value.owner.None? && s.dir.value.maker == p
      && IncompleteOwnerIsRecent(s, s.dir.value)
  }

  /** Between its read and its rename, a live releaser is the recorded owner and its lock is still there. */
  ghost predicate ReleaseInv(s: State) {
    forall p :: p in s.releasing && p in s.alive ==>
      && OwnerIs(s, s.releasing[p]) && s.releasing[p] in s.acquired
      && s.acquired[s.releasing[p]].pid == p && s.releasing[p] !in s.released
      && s.releasing[p] in s.holder && s.holder[s.releasing[p]] == p
  }

  ghost predicate HolderInv(s: State) {
    forall t {:trigger LiveHolder(s, t)} :: LiveHolder(s, t) ==> OwnerIs(s, t)
  }

  ghost predicate Structure(s: State) {
    DirInv(s) && HistoryInv(s) && JoinInv(s) && MakerInv(s) && ReleaseInv(s) && s.condemned == {}
  }

  /** Who joins, or is about to, is of the run it joins, and every confirmed join is on record. */
  ghost predicate GuestInv(s: State) {
    && (forall p :: p in s.joining ==> s.joining[p].runId == s.joining[p].owner.runId)
    && (forall m :: m in s.joined ==> m.token in s.acquired && Guest(m, s.acquired[m.token].runId) in s.guests)
    && (forall g :: g in s.guests ==>
          g.member in s.joined && g.member.token in s.acquired && g.runId == s.acquired[g.member.token].runId)
  }

  ghost predicate LockInv(s: State) {
    Structure(s) && HolderInv(s) && GuestInv(s)
  }

  const PROMISED := Assumptions(true, true, true)

  lemma InitInv()
    ensures LockInv(INIT)
  {
  }

  /** A live process is between writing a member file of this token and confirming it. */
  ghost predicate LiveJoiner(s: State, t: Token) {
    exists p :: p in s.joining && p in s.alive && s.joining[p].wrote && s.joining[p].owner.token == t
  }

  /** Liveness read off the directory is liveness of the token's holder, or of a process that is joining it. */
  lemma LiveIffHolder(s: State)
    requires DirInv(s) && JoinInv(s) && s.dir.Some? && s.dir.value.owner.Some?
    ensures
      var t := s.dir.value.owner.value.token;
      LockIsLive(s, s.dir.value, s.dir.value.owner.value) <==> LiveHolder(s, t) || LiveJoiner(s, t)
  {
    var d := s.dir.value;
    var o := d.owner.value;
    if LiveMemberExists(s, d, o) {
      var m :| m in d.members && m.token == o.token && m.pid in s.alive;
      assert m in s.joined || Unconfirmed(s, m);
    }
    if m :| m in s.joined && m.token == o.token && m.pid in s.alive {
      assert m in d.members;
    }
    if p :| p in s.joining && p in s.alive && s.joining[p].wrote && s.joining[p].owner.token == o.token {
      assert Member(p, o.token) in d.members;
    }
  }

  lemma RegisterKeepsStructure(s: State, p: Pid, runId: RunId)
    requires LockInv(s) && Enabled(PROMISED, s, Poll(p, runId)) && Judge(s, s.dir.value, runId) == JoinIt
    ensures Structure(RegisterMember(s, s.dir.value, p, s.dir.value.owner.value, runId))
  {
  }

  lemma PollKeepsStructure(s: State, p: Pid, runId: RunId)
    requires LockInv(s) && Enabled(PROMISED, s, Poll(p, runId))
    ensures Structure(Apply(s, Poll(p, runId)))
  {
    match Judge(s, s.dir.value, runId)
    case JoinIt => RegisterKeepsStructure(s, p, runId);
    case ReclaimIt => ReclaimKeepsStructure(s, p, runId);
    case WaitForIt =>
  }

  lemma ReclaimKeepsStructure(s: State, p: Pid, runId: RunId)
    requires LockInv(s) && Enabled(PROMISED, s, Poll(p, runId)) && Judge(s, s.dir.value, runId) == ReclaimIt
    ensures Structure(s.(dir := None))
  {
  }

  lemma JoinReadKeepsStructure(s: State, p: Pid, runId: RunId, token: Token)
    requires LockInv(s) && Enabled(PROMISED, s, JoinRead(p, runId, token))
    ensures Structure(Apply(s, JoinRead(p, runId, token)))
  {
  }

  lemma JoinWriteKeepsStructure(s: State, p: Pid, touches: bool)
    requires LockInv(s) && Enabled(PROMISED, s, JoinWrite(p, touches))
    ensures Structure(Apply(s, JoinWrite(p, touches)))
  {
  }

  lemma ConfirmedKeepsStructure(s: State, p: Pid)
    requires LockInv(s) && Enabled(PROMISED, s, JoinConfirm(p))
    requires s.dir.Some? && s.dir.value.owner == Some(s.joining[p].owner)
    ensures Structure(ConfirmMember(s, p))
  {
    assert OwnerIs(s, s.joining[p].owner.token);
  }

  lemma RefusedKeepsStructure(s: State, p: Pid)
    requires LockInv(s) && Enabled(PROMISED, s, JoinConfirm(p))
    requires s.dir.Some? ==> s.dir.value.owner != Some(s.joining[p].owner)
    ensures Structure(ConfirmMember(s, p))
  {
    assert !OwnerIs(s, s.joining[p].owner.token);
  }

  lemma JoinConfirmKeepsStructure(s: State, p: Pid)
    requires LockInv(s) && Enabled(PROMISED, s, JoinConfirm(p))
    ensures Structure(Apply(s, JoinConfirm(p)))
  {
    if s.dir.Some? && s.dir.value.owner == Some(s.joining[p].owner) {
      ConfirmedKeepsStructure(s, p);
    } else {
      RefusedKeepsStructure(s, p);
    }
  }

  ghost predicate Owns(s: State, t: Token) {
    t in s.acquired && s.dir.Some? && s.dir.value.owner == Some(s.acquired[t])
  }

  /** An uninterrupted release: the directory goes when it is still the releaser's. */
  lemma WholeReleaseIs(s: State, t: Token)
    requires t in s.acquired && t in s.holder && s.holder[t] !in s.releasing
    ensures WholeRelease(s, t) == s.(dir := if Owns(s, t) then None else s.dir, released := s.released + {t})
  {
    if Owns(s, t) { assert s.releasing[s.holder[t] := t] - {s.holder[t]} == s.releasing; }
  }

  lemma RemovedKeepsStructure(s: State, t: Token)
    requires LockInv(s) && MayRelease(s, t) && Owns(s, t)
    ensures Structure(s.(dir := None, released := s.released + {t}))
  {
  }

  lemma NotOwnedKeepsStructure(s: State, t: Token)
    requires LockInv(s) && MayRelease(s, t) && !Owns(s, t)
    ensures Structure(s.(released := s.released + {t}))
  {
  }

  lemma ReleaseKeepsStructure(s: State, t: Token)
    requires LockInv(s) && Enabled(PROMISED, s, Release(t))
    ensures Structure(Apply(s, Release(t)))
  {
    WholeReleaseIs(s, t);
    if Owns(s, t) { RemovedKeepsStructure(s, t); } else { NotOwnedKeepsStructure(s, t); }
  }

  lemma BegunKeepsStructure(s: State, t: Token)
    requires LockInv(s) && MayRelease(s, t) && s.holder[t] == s.acquired[t].pid && Owns(s, t)
    ensures Structure(s.(releasing := s.releasing[s.holder[t] := t]))
  {
  }

  lemma ReleaseReadKeepsStructure(s: State, t: Token)
    requires LockInv(s) && Enabled(PROMISED, s, ReleaseRead(t))
    ensures Structure(Apply(s, ReleaseRead(t)))
  {
    if Owns(s, t) { BegunKeepsStructure(s, t); } else { NotOwnedKeepsStructure(s, t); }
  }

  lemma ReleaseRenameKeepsStructure(s: State, p: Pid)
    requires LockInv(s) && Enabled(PROMISED, s, ReleaseRename(p))
    ensures Structure(Apply(s, ReleaseRename(p)))
  {
  }

  predicate Made(step: Step) {
    step.Mkdir? || step.OpenOwnerFile? || step.WriteOwner? || step.OwnerWriteFails?
  }

  lemma WriteOwnerKeepsStructure(s: State, p: Pid)
    requires LockInv(s) && Enabled(PROMISED, s, WriteOwner(p))
    ensures Structure(Apply(s, WriteOwner(p)))
  {
  }

  lemma MadeKeepsStructure(s: State, step: Step)
    requires LockInv(s) && Enabled(PROMISED, s, step) && Made(step)
    ensures Structure(Apply(s, step))
  {
    if step.WriteOwner? { WriteOwnerKeepsStructure(s, step.pid); }
  }

  lemma WorldKeepsStructure(s: State, step: Step)
    requires LockInv(s) && Enabled(PROMISED, s, step) && (step.Start? || step.Crash? || step.Tick?)
    ensures Structure(Apply(s, step))
  {
  }

  lemma StepKeepsStructure(s: State, step: Step)
    requires LockInv(s) && Enabled(PROMISED, s, step)
    ensures Structure(Apply(s, step))
  {
    match step
    case Poll(p, runId) => PollKeepsStructure(s, p, runId);
    case JoinRead(p, runId, token) => JoinReadKeepsStructure(s, p, runId, token);
    case JoinWrite(p, touches) => JoinWriteKeepsStructure(s, p, touches);
    case JoinConfirm(p) => JoinConfirmKeepsStructure(s, p);
    case Release(t) => ReleaseKeepsStructure(s, t);
    case ReleaseRead(t) => ReleaseReadKeepsStructure(s, t);
    case ReleaseRename(p) => ReleaseRenameKeepsStructure(s, p);
    case _ => if Made(step) { MadeKeepsStructure(s, step); } else { WorldKeepsStructure(s, step); }
  }

  // ---------- a live holder keeps its directory

  /** A holder alive after a step was alive before it, or its owner file is the one at the lock path. */
  ghost predicate NoNewHolder(s: State, s': State, t: Token) {
    LiveHolder(s', t) ==> LiveHolder(s, t) || OwnerIs(s', t)
  }

  lemma WorldNoNewHolder(s: State, step: Step, t: Token)
    requires LockInv(s) && Enabled(PROMISED, s, step) && (step.Start? || step.Crash? || step.Tick?)
    ensures NoNewHolder(s, Apply(s, step), t)
  {
    var s' := Apply(s, step);
    if m :| m in s'.joined && m.token == t && m.pid in s'.alive { assert m in s.joined && m.pid in s.born; }
  }

  lemma MadeNoNewHolder(s: State, step: Step, t: Token)
    requires LockInv(s) && Enabled(PROMISED, s, step) && Made(step)
    ensures NoNewHolder(s, Apply(s, step), t)
  {
    var s' := Apply(s, step);
    if m :| m in s'.joined && m.token == t && m.pid in s'.alive { assert m in s.joined; }
  }

  /** Nobody starts, nothing is acquired, and whoever joins joins the owner at the lock path. */
  ghost predicate Quiet(s: State, s': State) {
    && s'.acquired == s.acquired && s'.alive == s.alive && s.released <= s'.released
    && forall m :: m in s'.joined && m !in s.joined ==> OwnerIs(s', m.token)
  }

  lemma QuietNoNewHolder(s: State, s': State, t: Token)
    requires Quiet(s, s')
    ensures NoNewHolder(s, s', t)
  {
  }

  lemma ReleaseIsQuiet(s: State, step: Step)
    requires LockInv(s) && Enabled(PROMISED, s, step)
    requires step.Release? || step.ReleaseRead? || step.ReleaseRename?
    ensures Quiet(s, Apply(s, step))
  {
    if step.Release? { WholeReleaseIs(s, step.token); }
  }

  lemma JoinIsQuiet(s: State, step: Step)
    requires LockInv(s) && Enabled(PROMISED, s, step)
    requires step.Poll? || step.JoinRead? || step.JoinWrite? || step.JoinConfirm?
    ensures Quiet(s, Apply(s, step))
  {
  }

  lemma StepNoNewHolder(s: State, step: Step, t: Token)
    requires LockInv(s) && Enabled(PROMISED, s, step)
    ensures NoNewHolder(s, Apply(s, step), t)
  {
    if step.Start? || step.Crash? || step.Tick? {
      WorldNoNewHolder(s, step, t);
    } else if Made(step) {
      MadeNoNewHolder(s, step, t);
    } else if step.Release? || step.ReleaseRead? || step.ReleaseRename? {
      ReleaseIsQuiet(s, step);
      QuietNoNewHolder(s, Apply(s, step), t);
    } else if !step.Observe? && !step.RenameAside? {
      JoinIsQuiet(s, step);
      QuietNoNewHolder(s, Apply(s, step), t);
    }
  }

  /** A directory that a poll reclaims belongs to no live holder. */
  lemma ReclaimOnlyDead(s: State, runId: RunId, t: Token)
    requires DirInv(s) && JoinInv(s) && HolderInv(s) && s.dir.Some? && Judge(s, s.dir.value, runId) == ReclaimIt
    ensures !LiveHolder(s, t)
  {
    if LiveHolder(s, t) { LiveIffHolder(s); }
  }

  /** Only a reclaiming poll and the two ways to release take an owner file away. */
  lemma OwnerStays(s: State, step: Step, t: Token)
    requires LockInv(s) && Enabled(PROMISED, s, step) && OwnerIs(s, t)
    requires !step.Release? && !step.ReleaseRename?
    requires step.Poll? ==> Judge(s, s.dir.value, step.runId) != ReclaimIt
    ensures OwnerIs(Apply(s, step), t)
  {
  }

  /** A release takes away its own lock. */
  lemma ReleasedOwn(s: State, step: Step, t: Token)
    requires LockInv(s) && Enabled(PROMISED, s, step) && OwnerIs(s, t) && (step.Release? || step.ReleaseRename?)
    ensures OwnerIs(Apply(s, step), t) || t in Apply(s, step).released
  {
    if step.Release? { WholeReleaseIs(s, step.token); }
  }

  lemma StepKeepsHolders(s: State, step: Step)
    requires LockInv(s) && Enabled(PROMISED, s, step)
    ensures HolderInv(Apply(s, step))
  {
    forall t | LiveHolder(Apply(s, step), t) ensures OwnerIs(Apply(s, step), t) {
      StepNoNewHolder(s, step, t);
      if !OwnerIs(Apply(s, step), t) { HeldStays(s, step, t); }
    }
  }

  lemma HeldStays(s: State, step: Step, t: Token)
    requires LockInv(s) && Enabled(PROMISED, s, step) && LiveHolder(s, t)
    ensures OwnerIs(Apply(s, step), t) || t in Apply(s, step).released
  {
    assert OwnerIs(s, t);
    if step.Release? || step.ReleaseRename? {
      ReleasedOwn(s, step, t);
    } else if step.Poll? && Judge(s, s.dir.value, step.runId) == ReclaimIt {
      ReclaimOnlyDead(s, step.runId, t);
    } else {
      OwnerStays(s, step, t);
    }
  }

  // ---------- whoever joins is of the run it joins

  /** The history of joins, acquisitions and owners read is the same. */
  ghost predicate SameGuests(s: State, s': State) {
    s'.joined == s.joined && s'.guests == s.guests && s'.acquired == s.acquired && s'.joining == s.joining
  }

  lemma AdmitKeepsGuests(s: State, m: Member)
    requires GuestInv(s) && m.token in s.acquired
    ensures GuestInv(Admit(s, m, s.acquired[m.token].runId))
  {
  }

  lemma PollKeepsGuests(s: State, p: Pid, runId: RunId)
    requires LockInv(s) && Enabled(PROMISED, s, Poll(p, runId))
    ensures GuestInv(Apply(s, Poll(p, runId)))
  {
    match Judge(s, s.dir.value, runId)
    case JoinIt =>
      var d := s.dir.value;
      var m := Member(p, d.owner.value.token);
      AdmitKeepsGuests(s.(dir := Some(d.(members := d.members + {m}))), m);
    case _ =>
  }

  lemma ConfirmKeepsGuests(s: State, p: Pid)
    requires LockInv(s) && Enabled(PROMISED, s, JoinConfirm(p))
    ensures GuestInv(Apply(s, JoinConfirm(p)))
  {
    var after := s.(joining := s.joining - {p});
    assert GuestInv(after);
    if s.dir.Some? && s.dir.value.owner == Some(s.joining[p].owner) {
      AdmitKeepsGuests(after, Member(p, s.joining[p].owner.token));
    }
  }

  lemma WriteOwnerKeepsGuests(s: State, p: Pid)
    requires LockInv(s) && Enabled(PROMISED, s, WriteOwner(p))
    ensures GuestInv(Apply(s, WriteOwner(p)))
  {
  }

  lemma JoinReadKeepsGuests(s: State, p: Pid, runId: RunId, token: Token)
    requires LockInv(s) && Enabled(PROMISED, s, JoinRead(p, runId, token))
    ensures GuestInv(Apply(s, JoinRead(p, runId, token)))
  {
  }

  /** The steps that neither acquire nor join. */
  lemma OthersKeepGuests(s: State, step: Step)
    requires LockInv(s) && Enabled(PROMISED, s, step)
    requires step.Start? || step.Crash? || step.Tick? || step.Mkdir? || step.OpenOwnerFile? || step.OwnerWriteFails?
      || step.ReleaseRead? || step.ReleaseRename?
    ensures GuestInv(Apply(s, step))
  {
    assert SameGuests(s, Apply(s, step));
  }

  lemma JoinWriteKeepsGuests(s: State, p: Pid, touches: bool)
    requires LockInv(s) && Enabled(PROMISED, s, JoinWrite(p, touches))
    ensures GuestInv(Apply(s, JoinWrite(p, touches)))
  {
  }

  lemma StepKeepsGuests(s: State, step: Step)
    requires LockInv(s) && Enabled(PROMISED, s, step)
    ensures GuestInv(Apply(s, step))
  {
    match step
    case Poll(p, runId) => PollKeepsGuests(s, p, runId);
    case JoinConfirm(p) => ConfirmKeepsGuests(s, p);
    case WriteOwner(p) => WriteOwnerKeepsGuests(s, p);
    case JoinRead(p, runId, token) => JoinReadKeepsGuests(s, p, runId, token);
    case JoinWrite(p, touches) => JoinWriteKeepsGuests(s, p, touches);
    case Release(t) => WholeReleaseIs(s, t);
    case Observe(_, _) =>
    case RenameAside(_) =>
    case _ => OthersKeepGuests(s, step);
  }
}
