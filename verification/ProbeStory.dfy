/** The order of events behind a passed steering report. */
module ProbeStory {
  import opened MarkerSearch
  import opened ProbeModel
  import opened ProbeTimeline

  // ---------- milestones

  datatype Milestone = RootMade | Steered | CallNoted | Agreed | RootOver | SuccessorMade | Continued

  predicate Reached(s: Story, ms: Milestone) {
    match ms
    case RootMade => s.root.Some?
    case Steered => s.sentSteer
    case CallNoted => Truthy(s.callId)
    case Agreed => Truthy(s.steerId)
    case RootOver => s.rootEnded
    case SuccessorMade => s.successor.Some?
    case Continued => s.explicit
  }

  /** Frame `i` is the one that reaches the milestone: not reached before it, reached after it. */
  ghost predicate ReachedAt(p: Probe, fs: seq<Frame>, ms: Milestone, i: int) {
    0 <= i < |fs| && !Reached(Run(p, fs[..i]).story, ms) && Reached(Run(p, fs[..i + 1]).story, ms)
  }

  /** What was learnt stays: milestones, and the identities behind them. */
  ghost predicate Remembers(s: Story, t: Story) {
    && (forall ms :: Reached(s, ms) ==> Reached(t, ms))
    && (s.root.Some? ==> t.root == s.root)
    && (s.successor.Some? ==> t.successor == s.successor)
    && (Truthy(s.callId) ==> t.callId == s.callId)
    && (Truthy(s.steerId) ==> t.steerId == s.steerId)
    && t.scenario == s.scenario && t.marker == s.marker
  }

  // ---------- what an event does when it files no report

  ghost predicate ExplainsCreated(s: Story, e: Event, t: Story) {
    && UsableId(e.response)
    && var id := e.response.value.id.text;
    if s.root.None? then
      t == if s.scenario == Automatic then SendSteer(s.(root := Some(id))) else s.(root := Some(id))
    else
      && s.successor.None? && id != s.root.value && s.rootEnded && Truthy(s.steerId)
      && t == s.(successor := Some(id))
  }

  predicate IsProbeCall(e: Event) {
    e.item.Some? && e.item.value.isProbeCall && e.item.value.callId.Str?
  }

  ghost predicate ExplainsItemDone(s: Story, e: Event, t: Story) {
    if s.successor.None? && s.scenario == RequiredInput && IsProbeCall(e) then
      && (Truthy(s.callId) ==> Same(e.item.value.callId, s.callId))
      && t == SendSteer(s.(callId := Some(e.item.value.callId.text)))
    else t == s
  }

  ghost predicate ExplainsAccepted(s: Story, e: Event, t: Story) {
    && s.sentSteer && !Truthy(s.steerId) && e.steer.Some? && Same(e.steer.value.previousId, s.root)
    && e.steer.value.id.Str? && t == s.(steerId := Some(e.steer.value.id.text))
  }

  ghost predicate ExplainsPending(s: Story, e: Event, t: Story) {
    && Truthy(s.steerId) && Truthy(s.callId) && s.rootEnded && !s.explicit && e.waitingForInput
    && e.steer.Some? && Same(e.steer.value.id, s.steerId) && Same(e.steer.value.previousId, s.root)
    && e.requiredInput == Some([Stub(true, Str(s.callId.value))])
    && t == s.(explicit := true, sentControls := s.sentControls + 1,
               sent := s.sent + [ContinueControl(s.root, s.callId.value, e.streamId)])
  }

  ghost predicate ExplainsTerminal(s: Story, e: Event, t: Story) {
    && s.root.Some? && e.response.Some? && Same(e.response.value.id, s.root) && s.sentSteer
    && t == s.(rootEnded := true)
  }

  /** The whole effect of an event that files no report, text search aside. */
  ghost predicate Explains(s: Story, e: Event, t: Story) {
    match e.kind
    case Created => ExplainsCreated(s, e, t)
    case OutputItemDone => ExplainsItemDone(s, e, t)
    case SteerAccepted => ExplainsAccepted(s, e, t)
    case SteerPending => ExplainsPending(s, e, t)
    case SteerFailed => false
    case ErrorEvent => false
    case Completed => ExplainsTerminal(s, e, t)
    case Incomplete => ExplainsTerminal(s, e, t)
    case FailedResponse => ExplainsTerminal(s, e, t)
    case OutputTextDelta => s == t.(textTail := s.textTail, markerObserved := s.markerObserved)
    case OtherKind => t == s
  }

  lemma CreatedExplained(s: Story, e: Event)
    requires s.report.None? && OnCreated(s, e).report.None?
    ensures ExplainsCreated(s, e, OnCreated(s, e))
  {
  }

  lemma ItemDoneExplained(s: Story, e: Event)
    requires s.report.None? && OnItemDone(s, e).report.None? && s.successor.None? && s.scenario == RequiredInput
    ensures ExplainsItemDone(s, e, OnItemDone(s, e))
  {
  }

  lemma TerminalExplained(s: Story, e: Event)
    requires s.report.None? && OnTerminal(s, e).report.None?
    ensures ExplainsTerminal(s, e, OnTerminal(s, e))
  {
  }

  lemma PendingExplained(s: Story, e: Event)
    requires s.report.None? && OnPending(s, e).report.None?
    ensures ExplainsPending(s, e, OnPending(s, e))
  {
    assert e.requiredInput.value == [e.requiredInput.value[0]];
  }

  lemma EventExplained(s: Story, e: Event)
    requires s.report.None? && OnEvent(s, e).report.None?
    ensures Explains(s, e, OnEvent(s, e))
  {
    match e.kind
    case Created => CreatedExplained(s, e);
    case OutputItemDone => if s.successor.None? && s.scenario == RequiredInput { ItemDoneExplained(s, e); }
    case SteerPending => PendingExplained(s, e);
    case Completed => TerminalExplained(s, e);
    case Incomplete => TerminalExplained(s, e);
    case FailedResponse => TerminalExplained(s, e);
    case _ =>
  }

  lemma EventRemembers(s: Story, e: Event, t: Story)
    requires Explains(s, e, t)
    ensures Remembers(s, t)
  {
  }

  lemma {:induction false} NoReportBefore(p: Probe, fs: seq<Frame>, k: int)
    requires 0 <= k <= |fs| && Run(p, fs).story.report.None?
    ensures Run(p, fs[..k]).story.report.None?
    decreases |fs| - k
  {
    if k < |fs| {
      NoReportBefore(p, fs, k + 1);
      Step(p, fs, k);
    } else {
      assert fs[..k] == fs;
    }
  }

  /** One frame further along a run without a report: the frame was an event. */
  lemma Step(p: Probe, fs: seq<Frame>, k: int)
    requires 0 <= k < |fs| && Run(p, fs[..k + 1]).story.report.None?
    ensures var q := Run(p, fs[..k]);
      && q.story.report.None? && fs[k].event.Some?
      && Explains(q.story, fs[k].event.value, Run(p, fs[..k + 1]).story)
  {
    assert fs[..k + 1][..k] == fs[..k];
    LastFrameIsEvent(p, fs[..k + 1]);
    EventExplained(Run(p, fs[..k]).story, fs[k].event.value);
  }

  lemma RemembersChain(a: Story, b: Story, c: Story)
    requires Remembers(a, b) && Remembers(b, c)
    ensures Remembers(a, c)
  {
  }

  lemma StepRemembers(p: Probe, fs: seq<Frame>, k: int)
    requires 0 < k <= |fs| && Run(p, fs).story.report.None?
    ensures Remembers(Run(p, fs[..k - 1]).story, Run(p, fs[..k]).story)
  {
    NoReportBefore(p, fs, k);
    Step(p, fs, k - 1);
    EventRemembers(Run(p, fs[..k - 1]).story, fs[k - 1].event.value, Run(p, fs[..k]).story);
  }

  lemma {:induction false} RunRemembers(p: Probe, fs: seq<Frame>, j: int, k: int)
    requires 0 <= j <= k <= |fs| && Run(p, fs).story.report.None?
    ensures Remembers(Run(p, fs[..j]).story, Run(p, fs[..k]).story)
    decreases k - j
  {
    if j < k {
      RunRemembers(p, fs, j, k - 1);
      StepRemembers(p, fs, k);
      RemembersChain(Run(p, fs[..j]).story, Run(p, fs[..k - 1]).story, Run(p, fs[..k]).story);
    }
  }

  /** A milestone is reached at one frame, before which it is not reached and after which it is. */
  lemma ReachedIff(p: Probe, fs: seq<Frame>, ms: Milestone, i: int, k: int)
    requires Run(p, fs).story.report.None? && ReachedAt(p, fs, ms, i) && 0 <= k <= |fs|
    ensures Reached(Run(p, fs[..k]).story, ms) <==> i < k
  {
    if i < k { RunRemembers(p, fs, i + 1, k); } else { RunRemembers(p, fs, k, i); }
  }

  lemma {:induction false} ReachingFrame(p: Probe, fs: seq<Frame>, ms: Milestone) returns (i: int)
    requires !Reached(p.story, ms) && Reached(Run(p, fs).story, ms)
    ensures ReachedAt(p, fs, ms, i)
    decreases |fs|
  {
    var n := |fs| - 1;
    assert fs[..n + 1] == fs;
    if Reached(Run(p, fs[..n]).story, ms) {
      i := ReachingFrame(p, fs[..n], ms);
      assert fs[..n][..i] == fs[..i] && fs[..n][..i + 1] == fs[..i + 1];
    } else {
      i := n;
    }
  }

  // ---------- the frames that reach them

  predicate Creates(f: Frame, id: string) {
    && f.event.Some? && f.event.value.kind == Created
    && f.event.value.response.Some? && f.event.value.response.value.id == Str(id)
  }

  predicate AcceptsSteer(f: Frame, steerId: string, root: string) {
    && f.event.Some? && f.event.value.kind == SteerAccepted
    && f.event.value.steer.Some? && f.event.value.steer.value == Steer(Str(steerId), Str(root))
  }

  predicate Ends(f: Frame, id: string) {
    && f.event.Some? && f.event.value.kind in {Completed, Incomplete, FailedResponse}
    && f.event.value.response.Some? && f.event.value.response.value.id == Str(id)
  }

  predicate AsksForInput(f: Frame, steerId: string, root: string, callId: string) {
    && f.event.Some? && f.event.value.kind == SteerPending && f.event.value.waitingForInput
    && f.event.value.steer.Some? && f.event.value.steer.value == Steer(Str(steerId), Str(root))
    && f.event.value.requiredInput == Some([Stub(true, Str(callId))])
  }

  /** A finished call of the probe's tool. */
  predicate CallsProbe(f: Frame) {
    && f.event.Some? && f.event.value.kind == OutputItemDone
    && f.event.value.item.Some? && f.event.value.item.value.isProbeCall && f.event.value.item.value.callId.Str?
  }

  predicate Calls(f: Frame, callId: string) {
    CallsProbe(f) && f.event.value.item.value.callId == Str(callId)
  }

  /** All that a passed probe knows by then. */
  ghost predicate Complete(q: Story) {
    && q.root.Some? && q.sentSteer && Truthy(q.steerId) && q.rootEnded && q.successor.Some?
    && q.successor.value != q.root.value
    && (q.scenario == RequiredInput ==> Truthy(q.callId) && q.explicit)
    && (q.scenario == Automatic ==> !Truthy(q.callId) && !q.explicit)
  }

  /** The frame, by itself, shows the milestone of the story `q`. */
  predicate Shows(f: Frame, q: Story, ms: Milestone)
    requires q.root.Some? && q.steerId.Some? && q.successor.Some?
    requires q.scenario == RequiredInput ==> q.callId.Some?
  {
    match ms
    case RootMade => Creates(f, q.root.value)
    case Steered => if q.scenario == Automatic then Creates(f, q.root.value) else CallsProbe(f)
    case CallNoted => q.scenario == RequiredInput && Calls(f, q.callId.value)
    case Agreed => AcceptsSteer(f, q.steerId.value, q.root.value)
    case RootOver => Ends(f, q.root.value)
    case SuccessorMade => Creates(f, q.successor.value)
    case Continued =>
      q.scenario == RequiredInput && AsksForInput(f, q.steerId.value, q.root.value, q.callId.value)
  }

  /** The milestones a scenario goes through. */
  predicate Needed(scenario: Scenario, ms: Milestone) {
    scenario == RequiredInput || (ms != CallNoted && ms != Continued)
  }

  lemma ReachShows(s: Story, f: Frame, t: Story, q: Story, ms: Milestone)
    requires f.event.Some? && Explains(s, f.event.value, t) && ControlsInv(s)
    requires Complete(q) && Remembers(t, q) && Needed(q.scenario, ms) && !Reached(s, ms) && Reached(t, ms)
    ensures Shows(f, q, ms)
  {
    if ms in {RootMade, Steered, CallNoted} {
      EarlyReachShows(s, f, t, q, ms);
    } else {
      LateReachShows(s, f, t, q, ms);
    }
  }

  lemma EarlyReachShows(s: Story, f: Frame, t: Story, q: Story, ms: Milestone)
    requires f.event.Some? && Explains(s, f.event.value, t) && ms in {RootMade, Steered, CallNoted}
    requires Complete(q) && Remembers(t, q) && Needed(q.scenario, ms) && !Reached(s, ms) && Reached(t, ms)
    ensures Shows(f, q, ms)
  {
  }

  lemma LateReachShows(s: Story, f: Frame, t: Story, q: Story, ms: Milestone)
    requires f.event.Some? && Explains(s, f.event.value, t) && ms !in {RootMade, Steered, CallNoted} && ControlsInv(s)
    requires Complete(q) && Remembers(t, q) && Needed(q.scenario, ms) && !Reached(s, ms) && Reached(t, ms)
    ensures Shows(f, q, ms)
  {
  }

  /** What had to be reached before, and what is sent: the guards of the frame that reaches a milestone. */
  ghost predicate Guarded(s: Story, e: Event, t: Story, ms: Milestone) {
    match ms
    case RootMade => true
    case Steered =>
      && Reached(t, RootMade) && !Reached(s, RootOver) && (s.scenario == RequiredInput <==> Reached(s, RootMade))
      && s.sent == [] && t.sent == [SteerControl(t.root.value)]
    case CallNoted => !Reached(s, SuccessorMade)
    case Agreed => Reached(s, Steered)
    case RootOver => Reached(s, Steered)
    case SuccessorMade => Reached(s, Agreed) && Reached(s, RootOver)
    case Continued =>
      && Reached(s, Agreed) && Reached(s, RootOver) && Reached(s, CallNoted) && s.root.Some?
      && s.sent == [SteerControl(s.root.value)]
      && t.sent == s.sent + [ContinueControl(s.root, s.callId.value, e.streamId)]
  }

  lemma ReachNeeds(s: Story, e: Event, t: Story, ms: Milestone)
    requires Explains(s, e, t) && ControlsInv(s) && !Reached(s, ms) && Reached(t, ms)
    ensures Guarded(s, e, t, ms)
  {
  }

  /** No frame shows a milestone without reaching it, the steer's aside. */
  lemma ShownIsReached(s: Story, f: Frame, t: Story, q: Story, ms: Milestone)
    requires f.event.Some? && Explains(s, f.event.value, t) && Complete(q) && Remembers(t, q)
    requires ms != Steered && Shows(f, q, ms) && (ms == CallNoted ==> s.successor.None?)
    ensures Reached(t, ms)
  {
  }

  // ---------- passing

  /** The only way to pass: the successor completes, the marker seen, and the input asked for if it had to be. */
  ghost predicate Passes(p: Story, f: Frame) {
    && p.successor.Some? && Ends(f, p.successor.value) && f.event.value.kind == Completed
    && (p.markerObserved || OutputShows(f.event.value.response.value.output, p.marker))
    && (p.scenario == RequiredInput ==> p.explicit)
  }

  ghost predicate HasPassed(p: Probe) {
    p.story.report.Some? && p.story.report.value.outcome == Passed
  }

  ghost predicate WithinBudget(p: Probe, f: Frame) {
    p.frames < MAX_FRAMES && p.bytes + f.bytes <= MAX_BYTES
  }

  lemma OnlyTerminalPasses(p: Story, e: Event)
    requires p.report.None? && OnEvent(p, e).report.Some? && OnEvent(p, e).report.value.outcome == Passed
    ensures e.kind in {Completed, Incomplete, FailedResponse}
  {
  }

  lemma FramePassesIff(p: Probe, f: Frame)
    requires p.story.report.None? && ControlsInv(p.story)
    ensures HasPassed(Receive(p, f)) <==> WithinBudget(p, f) && Passes(p.story, f)
    ensures HasPassed(Receive(p, f)) ==> Receive(p, f).story.sent == p.story.sent
  {
    if WithinBudget(p, f) && f.event.Some? && HasPassed(Receive(p, f)) { OnlyTerminalPasses(p.story, f.event.value); }
  }

  /** The frame that produced the report. */
  lemma {:induction false} ReportingFrame(p: Probe, fs: seq<Frame>) returns (t: nat)
    requires p.story.report.None? && Run(p, fs).story.report.Some?
    ensures t < |fs| && Run(p, fs[..t]).story.report.None? && Receive(Run(p, fs[..t]), fs[t]) == Run(p, fs)
    decreases |fs|
  {
    var n := |fs| - 1;
    if Run(p, fs[..n]).story.report.None? {
      t := n;
    } else {
      t := ReportingFrame(p, fs[..n]);
      assert fs[..n][..t] == fs[..t];
    }
  }

  /** Frame `t` makes the probe pass: it is still running, within budget, and the frame is a passing one. */
  ghost predicate PassesAt(p: Probe, fs: seq<Frame>, t: int) {
    && 0 <= t < |fs| && Run(p, fs[..t]).story.report.None?
    && WithinBudget(Run(p, fs[..t]), fs[t]) && Passes(Run(p, fs[..t]).story, fs[t])
  }

  lemma PassingFrame(p: Probe, fs: seq<Frame>) returns (t: nat)
    requires p.story.report.None? && ControlsInv(p.story) && HasPassed(Run(p, fs))
    ensures PassesAt(p, fs, t)
  {
    t := ReportingFrame(p, fs);
    var q := Run(p, fs[..t]);
    RunKeepsControls(p, fs[..t]);
    FramePassesIff(q, fs[t]);
  }

  lemma PassedFrom(p: Probe, fs: seq<Frame>, t: int)
    requires ControlsInv(p.story) && PassesAt(p, fs, t)
    ensures HasPassed(Run(p, fs))
  {
    var q := Run(p, fs[..t]);
    RunKeepsControls(p, fs[..t]);
    FramePassesIff(q, fs[t]);
    RunNext(p, fs[..t], fs[t]);
    assert fs == (fs[..t] + [fs[t]]) + fs[t + 1..];
    NothingAfterReport(p, fs[..t] + [fs[t]], fs[t + 1..]);
  }

  /** A run has passed exactly when some frame of it made the running probe pass. */
  lemma RunPassesIff(p: Probe, fs: seq<Frame>)
    requires p.story.report.None? && ControlsInv(p.story)
    ensures HasPassed(Run(p, fs)) <==> exists t :: PassesAt(p, fs, t)
  {
    if HasPassed(Run(p, fs)) {
      var t := PassingFrame(p, fs);
    }
    if t :| PassesAt(p, fs, t) { PassedFrom(p, fs, t); }
  }

  lemma RunNext(p: Probe, fs: seq<Frame>, f: Frame)
    ensures Run(p, fs + [f]) == Receive(Run(p, fs), f)
  {
    assert (fs + [f])[..|fs|] == fs;
  }

  // ---------- the story of a pass

  /** The frame at which each milestone is reached. */
  datatype Marks = Marks(
    root: int, steer: int, call: int, accepted: int, ended: int, successor: int, continued: int)
  {
    function At(ms: Milestone): int {
      match ms
      case RootMade => root
      case Steered => steer
      case CallNoted => call
      case Agreed => accepted
      case RootOver => ended
      case SuccessorMade => successor
      case Continued => continued
    }
  }

  /** The milestone is reached at its mark, by a frame that shows it; no earlier frame does. */
  ghost predicate Placed(p: Probe, fs: seq<Frame>, q: Story, ms: Milestone, i: int)
    requires Complete(q)
  {
    && ReachedAt(p, fs, ms, i) && Shows(fs[i], q, ms)
    && (ms != Steered ==> forall k :: 0 <= k < i ==> !Shows(fs[k], q, ms))
  }

  lemma Place(p: Probe, fs: seq<Frame>, ms: Milestone) returns (i: int)
    requires ControlsInv(p.story) && !Reached(p.story, ms) && Run(p, fs).story.report.None?
    requires Complete(Run(p, fs).story) && Needed(Run(p, fs).story.scenario, ms)
    ensures Placed(p, fs, Run(p, fs).story, ms, i)
  {
    var q := Run(p, fs).story;
    assert fs[..|fs|] == fs;
    i := ReachingFrame(p, fs, ms);
    AtFrame(p, fs, i);
    ReachShows(Run(p, fs[..i]).story, fs[i], Run(p, fs[..i + 1]).story, q, ms);
    if ms != Steered {
      forall k | 0 <= k < i ensures !Shows(fs[k], q, ms) { NotShownBefore(p, fs, ms, i, k); }
    }
  }

  /** What is known of one frame of a run without a report. */
  lemma AtFrame(p: Probe, fs: seq<Frame>, k: int)
    requires ControlsInv(p.story) && 0 <= k < |fs| && Run(p, fs).story.report.None?
    ensures fs[k].event.Some? && ControlsInv(Run(p, fs[..k]).story)
    ensures Explains(Run(p, fs[..k]).story, fs[k].event.value, Run(p, fs[..k + 1]).story)
    ensures Remembers(Run(p, fs[..k + 1]).story, Run(p, fs).story)
  {
    assert fs[..|fs|] == fs;
    NoReportBefore(p, fs, k + 1);
    Step(p, fs, k);
    RunKeepsControls(p, fs[..k]);
    RunRemembers(p, fs, k + 1, |fs|);
  }

  lemma NotShownBefore(p: Probe, fs: seq<Frame>, ms: Milestone, i: int, k: int)
    requires ControlsInv(p.story) && Run(p, fs).story.report.None? && Complete(Run(p, fs).story)
    requires ReachedAt(p, fs, ms, i) && ms != Steered && 0 <= k < i
    ensures !Shows(fs[k], Run(p, fs).story, ms)
  {
    AtFrame(p, fs, k);
    AtFrame(p, fs, i);
    var s, t := Run(p, fs[..k]).story, Run(p, fs[..k + 1]).story;
    ReachedIff(p, fs, ms, i, k + 1);
    RunRemembers(p, fs, k, i);
    if ms == CallNoted { ReachNeeds(Run(p, fs[..i]).story, fs[i].event.value, Run(p, fs[..i + 1]).story, ms); }
    if Shows(fs[k], Run(p, fs).story, ms) { ShownIsReached(s, fs[k], t, Run(p, fs).story, ms); }
  }

  /** Orders that hold in every pass; OrderIff reads off the frames which of two other milestones came first. */
  predicate InOrder(m: Marks, scenario: Scenario) {
    && 0 <= m.root <= m.steer < m.accepted < m.successor && m.steer < m.ended < m.successor
    && (scenario == Automatic ==> m.root == m.steer)
    && (scenario == RequiredInput ==>
         && m.root < m.steer && 0 <= m.call < m.successor
         && m.call < m.continued && m.accepted < m.continued && m.ended < m.continued)
  }

  /** What was sent, and when: nothing, the steer to the root, then the noted call's continuation. */
  ghost predicate SentInTime(p: Probe, fs: seq<Frame>, q: Story, m: Marks)
    requires Complete(q)
  {
    && 0 <= m.steer < |fs|
    && Run(p, fs[..m.steer]).story.sent == []
    && Run(p, fs[..m.steer + 1]).story.sent == [SteerControl(q.root.value)]
    && (q.scenario == RequiredInput ==>
         && 0 <= m.continued < |fs| && fs[m.continued].event.Some?
         && Run(p, fs[..m.continued]).story.sent == [SteerControl(q.root.value)]
         && q.sent == Run(p, fs[..m.continued + 1]).story.sent
         && q.sent == [SteerControl(q.root.value),
                       ContinueControl(q.root, q.callId.value, fs[m.continued].event.value.streamId)])
    && (q.scenario == Automatic ==> q.sent == [SteerControl(q.root.value)])
  }

  /** With a tool to call, the steer is sent at the first call after the root was made. */
  ghost predicate SteeredAtFirstCall(fs: seq<Frame>, q: Story, m: Marks) {
    q.scenario == RequiredInput ==> forall k :: m.root < k < m.steer && k < |fs| && 0 <= k ==> !CallsProbe(fs[k])
  }

  /** How a pass comes about: `q` is the story up to frame `t`, which completes the successor, the marker seen. */
  ghost predicate PassAt(p: Probe, fs: seq<Frame>, q: Story, m: Marks, t: int) {
    && 0 <= t < |fs| && q == Run(p, fs[..t]).story && Complete(q)
    && (forall ms :: Needed(q.scenario, ms) ==> Placed(p, fs[..t], q, ms, m.At(ms)))
    && InOrder(m, q.scenario) && m.successor < t && (q.scenario == RequiredInput ==> m.continued < t)
    && SentInTime(p, fs[..t], q, m) && SteeredAtFirstCall(fs[..t], q, m)
    && Ends(fs[t], q.successor.value) && fs[t].event.value.kind == Completed
    && (Contains(SuccessorText(p, fs[..t]), q.marker) || OutputShows(fs[t].event.value.response.value.output, q.marker))
  }

  /** A run without a report that knows all a pass needs, with every milestone placed. */
  ghost predicate Told(p: Probe, fs: seq<Frame>, m: Marks) {
    var q := Run(p, fs).story;
    && ControlsInv(p.story) && (forall ms :: !Reached(p.story, ms)) && q.report.None? && Complete(q)
    && forall ms {:trigger Needed(q.scenario, ms)} :: Needed(q.scenario, ms) ==> Placed(p, fs, q, ms, m.At(ms))
  }

  /** The guards of the frame that reaches a milestone, in terms of the marks of the others. */
  lemma GuardedAt(p: Probe, fs: seq<Frame>, m: Marks, ms: Milestone)
    requires Told(p, fs, m) && Needed(Run(p, fs).story.scenario, ms)
    ensures var i := m.At(ms);
      && 0 <= i < |fs| && fs[i].event.Some?
      && Guarded(Run(p, fs[..i]).story, fs[i].event.value, Run(p, fs[..i + 1]).story, ms)
      && Remembers(Run(p, fs[..i]).story, Run(p, fs).story)
      && Remembers(Run(p, fs[..i + 1]).story, Run(p, fs).story)
  {
    var i := m.At(ms);
    assert Placed(p, fs, Run(p, fs).story, ms, i);
    AtFrame(p, fs, i);
    assert fs[..|fs|] == fs;
    RunRemembers(p, fs, i, |fs|);
    ReachNeeds(Run(p, fs[..i]).story, fs[i].event.value, Run(p, fs[..i + 1]).story, ms);
  }

  lemma ReachedByMark(p: Probe, fs: seq<Frame>, m: Marks, ms: Milestone, k: int)
    requires Told(p, fs, m) && Needed(Run(p, fs).story.scenario, ms) && 0 <= k <= |fs|
    ensures Reached(Run(p, fs[..k]).story, ms) <==> m.At(ms) < k
  {
    assert Placed(p, fs, Run(p, fs).story, ms, m.At(ms));
    ReachedIff(p, fs, ms, m.At(ms), k);
  }

  lemma EarlyOrder(p: Probe, fs: seq<Frame>, m: Marks)
    requires Told(p, fs, m)
    ensures 0 <= m.root <= m.steer < m.accepted && m.steer < m.ended
    ensures Run(p, fs).story.scenario == RequiredInput <==> m.root < m.steer
  {
    GuardedAt(p, fs, m, RootMade);
    GuardedAt(p, fs, m, Steered);
    ReachedByMark(p, fs, m, RootMade, m.steer);
    ReachedByMark(p, fs, m, RootMade, m.steer + 1);
    GuardedAt(p, fs, m, Agreed);
    ReachedByMark(p, fs, m, Steered, m.accepted);
    GuardedAt(p, fs, m, RootOver);
    ReachedByMark(p, fs, m, Steered, m.ended);
  }

  lemma LateOrder(p: Probe, fs: seq<Frame>, m: Marks)
    requires Told(p, fs, m)
    ensures m.accepted < m.successor && m.ended < m.successor
  {
    GuardedAt(p, fs, m, SuccessorMade);
    ReachedByMark(p, fs, m, Agreed, m.successor);
    ReachedByMark(p, fs, m, RootOver, m.successor);
  }

  lemma ShownAt(p: Probe, fs: seq<Frame>, m: Marks, ms: Milestone)
    requires Told(p, fs, m) && Needed(Run(p, fs).story.scenario, ms)
    ensures 0 <= m.At(ms) < |fs| && Shows(fs[m.At(ms)], Run(p, fs).story, ms)
  {
    assert Placed(p, fs, Run(p, fs).story, ms, m.At(ms));
  }

  lemma CallOrder(p: Probe, fs: seq<Frame>, m: Marks)
    requires Told(p, fs, m) && Run(p, fs).story.scenario == RequiredInput
    ensures 0 <= m.call < m.successor
  {
    var q := Run(p, fs).story;
    GuardedAt(p, fs, m, CallNoted);
    ReachedByMark(p, fs, m, SuccessorMade, m.call);
    ShownAt(p, fs, m, SuccessorMade);
    ShownAt(p, fs, m, CallNoted);
    NotBoth(fs[m.call], q);
  }

  lemma NotBoth(f: Frame, q: Story)
    requires Complete(q)
    ensures !(Shows(f, q, CallNoted) && Shows(f, q, SuccessorMade))
  {
  }

  lemma ContinuationOrder(p: Probe, fs: seq<Frame>, m: Marks)
    requires Told(p, fs, m) && Run(p, fs).story.scenario == RequiredInput
    ensures m.call < m.continued && m.accepted < m.continued && m.ended < m.continued
  {
    GuardedAt(p, fs, m, Continued);
    ReachedByMark(p, fs, m, CallNoted, m.continued);
    ReachedByMark(p, fs, m, Agreed, m.continued);
    ReachedByMark(p, fs, m, RootOver, m.continued);
  }

  lemma MarksInOrder(p: Probe, fs: seq<Frame>, m: Marks)
    requires Told(p, fs, m)
    ensures InOrder(m, Run(p, fs).story.scenario)
  {
    EarlyOrder(p, fs, m);
    LateOrder(p, fs, m);
    if Run(p, fs).story.scenario == RequiredInput {
      CallOrder(p, fs, m);
      ContinuationOrder(p, fs, m);
    }
  }

  /** A frame that neither steers nor continues sends nothing. */
  lemma NothingSent(s: Story, e: Event, t: Story)
    requires Explains(s, e, t) && Reached(s, Steered) && (Reached(t, Continued) ==> Reached(s, Continued))
    ensures t.sent == s.sent
  {
  }

  lemma StaysReached(p: Probe, fs: seq<Frame>, j: int, k: int, ms: Milestone)
    requires 0 <= j <= k <= |fs| && Run(p, fs).story.report.None?
    ensures Reached(Run(p, fs[..j]).story, ms) ==> Reached(Run(p, fs[..k]).story, ms)
  {
    RunRemembers(p, fs, j, k);
  }

  lemma SentStep(p: Probe, fs: seq<Frame>, k: int)
    requires 0 < k <= |fs| && Run(p, fs).story.report.None?
    requires Reached(Run(p, fs[..k - 1]).story, Steered)
    requires Reached(Run(p, fs[..k]).story, Continued) ==> Reached(Run(p, fs[..k - 1]).story, Continued)
    ensures Run(p, fs[..k]).story.sent == Run(p, fs[..k - 1]).story.sent
  {
    NoReportBefore(p, fs, k);
    Step(p, fs, k - 1);
    NothingSent(Run(p, fs[..k - 1]).story, fs[k - 1].event.value, Run(p, fs[..k]).story);
  }

  lemma {:induction false} SentKept(p: Probe, fs: seq<Frame>, j: int, k: int)
    requires 0 <= j <= k <= |fs| && Run(p, fs).story.report.None?
    requires Reached(Run(p, fs[..j]).story, Steered)
    requires Reached(Run(p, fs[..k]).story, Continued) ==> Reached(Run(p, fs[..j]).story, Continued)
    ensures Run(p, fs[..k]).story.sent == Run(p, fs[..j]).story.sent
    decreases k - j
  {
    if j < k {
      StaysReached(p, fs, j, k - 1, Steered);
      StaysReached(p, fs, j, k - 1, Continued);
      StaysReached(p, fs, k - 1, k, Continued);
      SentStep(p, fs, k);
      SentKept(p, fs, j, k - 1);
    }
  }

  lemma SteerSent(p: Probe, fs: seq<Frame>, m: Marks)
    requires Told(p, fs, m)
    ensures 0 <= m.steer < |fs| && Run(p, fs[..m.steer]).story.sent == []
    ensures Run(p, fs[..m.steer + 1]).story.sent == [SteerControl(Run(p, fs).story.root.value)]
    ensures Run(p, fs).story.scenario == Automatic ==>
      Run(p, fs).story.sent == [SteerControl(Run(p, fs).story.root.value)]
  {
    var q := Run(p, fs).story;
    assert fs[..|fs|] == fs;
    GuardedAt(p, fs, m, Steered);
    if q.scenario == Automatic {
      ReachedByMark(p, fs, m, Steered, m.steer + 1);
      assert !Reached(Run(p, fs[..|fs|]).story, Continued);
      SentKept(p, fs, m.steer + 1, |fs|);
    }
  }

  lemma ContinuedSends(s: Story, e: Event, t: Story, q: Story)
    requires Guarded(s, e, t, Continued) && Remembers(s, q)
    ensures q.root.Some? && q.callId.Some? && s.sent == [SteerControl(q.root.value)]
    ensures t.sent == [SteerControl(q.root.value), ContinueControl(q.root, q.callId.value, e.streamId)]
  {
  }

  /** After the continuation nothing more is sent. */
  lemma SentAfterContinuation(p: Probe, fs: seq<Frame>, m: Marks)
    requires Told(p, fs, m) && Run(p, fs).story.scenario == RequiredInput && 0 <= m.continued < |fs|
    ensures Run(p, fs).story.sent == Run(p, fs[..m.continued + 1]).story.sent
  {
    assert fs[..|fs|] == fs;
    ReachedByMark(p, fs, m, Continued, m.continued + 1);
    EarlyOrder(p, fs, m);
    ContinuationOrder(p, fs, m);
    ReachedByMark(p, fs, m, Steered, m.continued + 1);
    SentKept(p, fs, m.continued + 1, |fs|);
  }

  lemma ContinuationSent(p: Probe, fs: seq<Frame>, m: Marks)
    requires Told(p, fs, m) && Run(p, fs).story.scenario == RequiredInput
    ensures var q := Run(p, fs).story;
      && 0 <= m.continued < |fs| && fs[m.continued].event.Some?
      && Run(p, fs[..m.continued]).story.sent == [SteerControl(q.root.value)]
      && q.sent == Run(p, fs[..m.continued + 1]).story.sent
      && q.sent == [SteerControl(q.root.value),
                    ContinueControl(q.root, q.callId.value, fs[m.continued].event.value.streamId)]
  {
    var i, q := m.continued, Run(p, fs).story;
    GuardedAt(p, fs, m, Continued);
    ContinuedSends(Run(p, fs[..i]).story, fs[i].event.value, Run(p, fs[..i + 1]).story, q);
    SentAfterContinuation(p, fs, m);
  }

  lemma MarksSent(p: Probe, fs: seq<Frame>, m: Marks)
    requires Told(p, fs, m)
    ensures SentInTime(p, fs, Run(p, fs).story, m)
  {
    SteerSent(p, fs, m);
    if Run(p, fs).story.scenario == RequiredInput { ContinuationSent(p, fs, m); }
  }

  /** A finished call steers a probe that has its root, and neither its successor nor the root's end. */
  lemma CallSteers(s: Story, f: Frame, t: Story)
    requires CallsProbe(f) && Explains(s, f.event.value, t) && s.scenario == RequiredInput
    requires s.root.Some? && !s.rootEnded && s.successor.None?
    ensures t.sentSteer
  {
  }

  lemma NoCallBeforeSteer(p: Probe, fs: seq<Frame>, m: Marks, k: int)
    requires Told(p, fs, m) && Run(p, fs).story.scenario == RequiredInput && 0 <= k < |fs|
    requires m.root < k < m.steer < m.ended && m.steer < m.successor
    ensures !CallsProbe(fs[k])
  {
    var s, t := Run(p, fs[..k]).story, Run(p, fs[..k + 1]).story;
    AtFrame(p, fs, k);
    RunKeepsSetup(p, fs[..k]);
    RunKeepsSetup(p, fs);
    ReachedByMark(p, fs, m, RootMade, k);
    ReachedByMark(p, fs, m, RootOver, k);
    ReachedByMark(p, fs, m, SuccessorMade, k);
    ReachedByMark(p, fs, m, Steered, k + 1);
    assert s.scenario == RequiredInput && Reached(s, RootMade) && !Reached(t, Steered);
    assert !Reached(s, RootOver) && !Reached(s, SuccessorMade);
    if CallsProbe(fs[k]) { CallSteers(s, fs[k], t); }
  }

  lemma MarksFirstCall(p: Probe, fs: seq<Frame>, m: Marks)
    requires Told(p, fs, m)
    ensures SteeredAtFirstCall(fs, Run(p, fs).story, m)
  {
    if Run(p, fs).story.scenario == RequiredInput {
      EarlyOrder(p, fs, m);
      LateOrder(p, fs, m);
      forall k | m.root < k < m.steer && k < |fs| && 0 <= k ensures !CallsProbe(fs[k]) {
        NoCallBeforeSteer(p, fs, m, k);
      }
    }
  }

  lemma PlaceIfNeeded(p: Probe, fs: seq<Frame>, ms: Milestone) returns (i: int)
    requires ControlsInv(p.story) && !Reached(p.story, ms) && Run(p, fs).story.report.None?
    requires Complete(Run(p, fs).story)
    ensures Needed(Run(p, fs).story.scenario, ms) ==> Placed(p, fs, Run(p, fs).story, ms, i)
  {
    if Needed(Run(p, fs).story.scenario, ms) { i := Place(p, fs, ms); } else { i := -1; }
  }

  lemma PlaceAll(p: Probe, fs: seq<Frame>) returns (m: Marks)
    requires ControlsInv(p.story) && (forall ms :: !Reached(p.story, ms)) && Run(p, fs).story.report.None?
    requires Complete(Run(p, fs).story)
    ensures Told(p, fs, m)
  {
    var root := PlaceIfNeeded(p, fs, RootMade);
    var steer := PlaceIfNeeded(p, fs, Steered);
    var call := PlaceIfNeeded(p, fs, CallNoted);
    var accepted := PlaceIfNeeded(p, fs, Agreed);
    var ended := PlaceIfNeeded(p, fs, RootOver);
    var successor := PlaceIfNeeded(p, fs, SuccessorMade);
    var continued := PlaceIfNeeded(p, fs, Continued);
    m := Marks(root, steer, call, accepted, ended, successor, continued);
  }

  /** A running story with a successor, and with the input asked for if it has to be, is complete. */
  lemma {:induction false} SuccessorCompletes(p: Probe, fs: seq<Frame>)
    requires ControlsInv(p.story) && (forall ms :: !Reached(p.story, ms)) && Run(p, fs).story.report.None?
    requires var q := Run(p, fs).story; q.successor.Some? && (q.scenario == RequiredInput ==> q.explicit)
    ensures Complete(Run(p, fs).story)
  {
    var q := Run(p, fs).story;
    assert fs[..|fs|] == fs;
    RunKeepsControls(p, fs);
    assert Reached(q, SuccessorMade);
    var i := ReachingFrame(p, fs, SuccessorMade);
    AtFrame(p, fs, i);
    RunRemembers(p, fs, i, |fs|);
    ReachNeeds(Run(p, fs[..i]).story, fs[i].event.value, Run(p, fs[..i + 1]).story, SuccessorMade);
    assert Reached(q, Agreed) && Reached(q, RootOver);
  }

  /**
   * A passed report proves the whole story, over every frame sequence: who was created, when each control
   * was sent, and the order of everything in between.
   */
  lemma PassedMeans(scenario: Scenario, marker: string, fs: seq<Frame>) returns (q: Story, m: Marks, t: nat)
    requires marker != "" && HasPassed(Run(Fresh(scenario, marker), fs))
    ensures PassAt(Fresh(scenario, marker), fs, q, m, t) && q.scenario == scenario && q.marker == marker
    ensures var p := Run(Fresh(scenario, marker), fs).story;
      && p.sent == q.sent && p.sentControls == p.report.value.sentControls == |q.sent|
      && |q.sent| == if scenario == Automatic then 1 else 2
  {
    var p := Fresh(scenario, marker);
    t := ReportingFrame(p, fs);
    q := Run(p, fs[..t]).story;
    RunKeepsControls(p, fs[..t]);
    RunKeepsControls(p, fs);
    RunKeepsSetup(p, fs[..t]);
    FramePassesIff(Run(p, fs[..t]), fs[t]);
    SuccessorCompletes(p, fs[..t]);
    m := PlaceAll(p, fs[..t]);
    MarksInOrder(p, fs[..t], m);
    MarksSent(p, fs[..t], m);
    MarksFirstCall(p, fs[..t], m);
    GuardedAt(p, fs[..t], m, SuccessorMade);
    if scenario == RequiredInput { GuardedAt(p, fs[..t], m, Continued); }
    SlidingSearchExact(p, fs[..t]);
  }

  // ---------- the orders a pass leaves open

  /** One milestone comes no later than another exactly when no earlier frame shows the other. */
  lemma OrderIff(p: Probe, fs: seq<Frame>, q: Story, m: Marks, t: int, a: Milestone, b: Milestone)
    requires PassAt(p, fs, q, m, t) && Needed(q.scenario, a) && Needed(q.scenario, b) && b != Steered
    ensures m.At(a) <= m.At(b) <==> forall k :: 0 <= k < m.At(a) ==> !Shows(fs[k], q, b)
  {
    assert Placed(p, fs[..t], q, a, m.At(a)) && Placed(p, fs[..t], q, b, m.At(b));
    forall k | 0 <= k < t ensures fs[..t][k] == fs[k] {}
    if m.At(b) < m.At(a) { assert Shows(fs[m.At(b)], q, b); }
  }

  /** The steer is accepted before the root ends exactly when no earlier frame ends the root. */
  lemma AcceptedBeforeEndIff(p: Probe, fs: seq<Frame>, q: Story, m: Marks, t: int)
    requires PassAt(p, fs, q, m, t)
    ensures m.accepted < m.ended <==> forall k :: 0 <= k < m.accepted ==> !Ends(fs[k], q.root.value)
  {
    OrderIff(p, fs, q, m, t, Agreed, RootOver);
    assert Placed(p, fs[..t], q, Agreed, m.At(Agreed)) && Placed(p, fs[..t], q, RootOver, m.At(RootOver));
  }

  /** The continuation is sent before the successor is made exactly when no earlier frame creates that one. */
  lemma ContinuedBeforeSuccessorIff(p: Probe, fs: seq<Frame>, q: Story, m: Marks, t: int)
    requires PassAt(p, fs, q, m, t) && q.scenario == RequiredInput
    ensures m.continued < m.successor <==> forall k :: 0 <= k < m.continued ==> !Creates(fs[k], q.successor.value)
  {
    OrderIff(p, fs, q, m, t, Continued, SuccessorMade);
    assert Placed(p, fs[..t], q, Continued, m.At(Continued));
    assert Placed(p, fs[..t], q, SuccessorMade, m.At(SuccessorMade));
  }

  /** The tool call is noted before the root is made exactly when no earlier frame creates the root. */
  lemma NotedBeforeRootIff(p: Probe, fs: seq<Frame>, q: Story, m: Marks, t: int)
    requires PassAt(p, fs, q, m, t) && q.scenario == RequiredInput
    ensures m.call < m.root <==> forall k :: 0 <= k < m.call ==> !Creates(fs[k], q.root.value)
  {
    OrderIff(p, fs, q, m, t, CallNoted, RootMade);
    assert Placed(p, fs[..t], q, CallNoted, m.At(CallNoted)) && Placed(p, fs[..t], q, RootMade, m.At(RootMade));
  }
}
