/** scripts/steering-probe.ts: what ends a run, code by code, said on the frame and on what the probe knows. */
module ProbeReports {
  import opened MarkerSearch
  import opened ProbeModel
  import opened ProbeStory
  import opened ProbeTimeline

  /** A response id is given, and it is not this one. */
  predicate Elsewhere(value: Value, id: Option<string>) {
    value != Undefined && value != Null && !(id.Some? && value == Str(id.value))
  }

  predicate HasSteer(s: Story) {
    s.steerId.Some? && s.steerId.value != ""
  }

  predicate HasCall(s: Story) {
    s.callId.Some? && s.callId.value != ""
  }

  predicate HasUsableId(e: Event) {
    e.response.Some? && e.response.value.id.Str? && 1 <= |e.response.value.id.text| <= 512
  }

  /** A second response that may be the successor: new, after the root's end and the acceptance, and of the root. */
  predicate MaySucceed(s: Story, e: Event)
    requires HasUsableId(e) && s.root.Some?
  {
    && s.successor.None? && e.response.value.id.text != s.root.value && s.rootEnded && HasSteer(s)
    && e.response.value.previousId in {Undefined, Null, Str(s.root.value)}
  }

  predicate MayAccept(s: Story, e: Event) {
    && s.sentSteer && !HasSteer(s) && s.root.Some?
    && e.steer.Some? && e.steer.value.id.Str? && e.steer.value.previousId == Str(s.root.value)
  }

  /** The pending steer is the accepted one, on the root that has ended. */
  predicate IsOurPending(s: Story, e: Event) {
    && HasSteer(s) && s.root.Some? && s.rootEnded
    && e.steer.Some? && e.steer.value == Steer(Str(s.steerId.value), Str(s.root.value))
  }

  /** It waits for the output of the one call that was noted. */
  predicate AsksForOurCall(s: Story, e: Event) {
    HasCall(s) && e.waitingForInput && e.requiredInput == Some([Stub(true, Str(s.callId.value))])
  }

  predicate IsTerminal(e: Event) {
    e.kind == Completed || e.kind == Incomplete || e.kind == FailedResponse
  }

  /** A terminal event of this response. */
  predicate IsEndOf(e: Event, id: Option<string>) {
    IsTerminal(e) && e.response.Some? && id.Some? && e.response.value.id == Str(id.value)
  }

  predicate IsSuccessorEnd(s: Story, e: Event) {
    IsEndOf(e, s.successor) && !IsEndOf(e, s.root)
  }

  predicate IsRejection(e: Event) {
    e.kind == SteerFailed || e.kind == ErrorEvent
  }

  predicate MayBeRepeated(value: Value) {
    value.Str? && value.text in {
      "steering_not_supported", "response_not_active", "response_already_completed", "invalid_input",
      "steering_settings_changed", "steering_settings_unsupported", "too_many_pending_steers"}
  }

  predicate IsItemForUs(s: Story, e: Event) {
    e.kind == OutputItemDone && s.successor.None? && s.scenario == RequiredInput
  }

  /** Why an event ends a run with this code. */
  ghost predicate Reason(s: Story, e: Event, code: Code) {
    match code
    case InvalidIdentity => e.kind == Created && !HasUsableId(e)
    case UnexpectedSuccessor => e.kind == Created && HasUsableId(e) && s.root.Some? && !MaySucceed(s, e)
    case OutputIdentityMismatch =>
      || (IsItemForUs(s, e) && Elsewhere(e.responseId, s.root))
      || (e.kind == OutputTextDelta && s.successor.Some? && e.delta.Str? && Elsewhere(e.responseId, s.successor))
    case UnexpectedTool =>
      && IsItemForUs(s, e) && !Elsewhere(e.responseId, s.root) && IsProbeCall(e)
      && HasCall(s) && e.item.value.callId != Str(s.callId.value)
    case UnexpectedAcceptance => e.kind == SteerAccepted && !MayAccept(s, e)
    case UnexpectedPending => e.kind == SteerPending && !IsOurPending(s, e)
    case DuplicatePending => e.kind == SteerPending && IsOurPending(s, e) && s.explicit
    case UnsupportedRequiredInput =>
      e.kind == SteerPending && IsOurPending(s, e) && !s.explicit && !AsksForOurCall(s, e)
    case NoSteeringWindow => IsEndOf(e, s.root) && !s.sentSteer
    case SuccessorNotCompleted => IsSuccessorEnd(s, e) && e.kind != Completed
    case RequiredInputNotObserved =>
      IsSuccessorEnd(s, e) && e.kind == Completed && s.scenario == RequiredInput && !s.explicit
    case MarkerMissing =>
      && IsSuccessorEnd(s, e) && e.kind == Completed && (s.scenario == RequiredInput ==> s.explicit)
      && !s.markerObserved && !OutputShows(e.response.value.output, s.marker)
    case TerminalIdentityMismatch => IsTerminal(e) && !IsEndOf(e, s.root) && !IsEndOf(e, s.successor)
    case UpstreamRejection => IsRejection(e) && !MayBeRepeated(e.errorCode)
    case SafeRejection(text) => IsRejection(e) && MayBeRepeated(e.errorCode) && e.errorCode == Str(text)
    case ProbeBudgetExceeded => false
    case InvalidEvent => false
  }

  predicate OverBudget(p: Probe, f: Frame) {
    p.frames + 1 > 5_000 || p.bytes + f.bytes > 2_097_152
  }

  /** Why a frame ends a run with this code: the budget comes first, then what is no event at all. */
  ghost predicate FrameReason(p: Probe, f: Frame, code: Code) {
    if OverBudget(p, f) then code == ProbeBudgetExceeded
    else if f.event.None? then code == InvalidEvent
    else Reason(p.story, f.event.value, code)
  }

  function OutcomeOf(code: Code): Outcome {
    match code
    case ProbeBudgetExceeded => Unknown
    case UnsupportedRequiredInput => NotExercised
    case NoSteeringWindow => NotExercised
    case RequiredInputNotObserved => NotExercised
    case _ => Failed
  }

  ghost predicate EndsWith(t: Story, code: Code) {
    t.report.Some? && t.report.value.code == Some(code)
  }

  /** The first report is the one that stays; until there is one, this files it. */
  lemma FinishEnds(s: Story, outcome: Outcome, filed: Code, code: Code)
    ensures s.report.None? ==> (EndsWith(Finish(s, outcome, Some(filed)), code) <==> code == filed)
    ensures s.report.Some? ==> Finish(s, outcome, Some(filed)) == s
  {
  }

  /** What a created response does, case by case. */
  lemma CreatedCases(s: Story, e: Event)
    requires s.report.None?
    ensures !HasUsableId(e) ==> OnCreated(s, e) == Fail(s, InvalidIdentity)
    ensures HasUsableId(e) && s.root.Some? && !MaySucceed(s, e) ==> OnCreated(s, e) == Fail(s, UnexpectedSuccessor)
    ensures HasUsableId(e) && (s.root.Some? ==> MaySucceed(s, e)) ==> OnCreated(s, e).report.None?
  {
  }

  lemma CreatedReason(s: Story, e: Event, code: Code)
    requires s.report.None? && e.kind == Created
    ensures EndsWith(OnCreated(s, e), code) <==> Reason(s, e, code)
  {
    CreatedCases(s, e);
    FinishEnds(s, Failed, InvalidIdentity, code);
    FinishEnds(s, Failed, UnexpectedSuccessor, code);
  }

  lemma ItemReason(s: Story, e: Event, code: Code)
    requires s.report.None? && IsItemForUs(s, e)
    ensures EndsWith(OnItemDone(s, e), code) <==> Reason(s, e, code)
  {
  }

  lemma AcceptedReason(s: Story, e: Event, code: Code)
    requires s.report.None? && e.kind == SteerAccepted && ControlsInv(s)
    ensures EndsWith(OnAccepted(s, e), code) <==> Reason(s, e, code)
  {
  }

  /** What a pending steer does, case by case. */
  lemma PendingCases(s: Story, e: Event)
    requires s.report.None? && ControlsInv(s)
    ensures !IsOurPending(s, e) ==> OnPending(s, e) == Fail(s, UnexpectedPending)
    ensures IsOurPending(s, e) && s.explicit ==> OnPending(s, e) == Fail(s, DuplicatePending)
    ensures IsOurPending(s, e) && !s.explicit && !AsksForOurCall(s, e) ==>
      OnPending(s, e) == Finish(s, NotExercised, Some(UnsupportedRequiredInput))
    ensures IsOurPending(s, e) && !s.explicit && AsksForOurCall(s, e) ==> OnPending(s, e).report.None?
  {
    if e.requiredInput.Some? && |e.requiredInput.value| == 1 {
      assert e.requiredInput.value == [e.requiredInput.value[0]];
    }
  }

  lemma PendingReason(s: Story, e: Event, code: Code)
    requires s.report.None? && e.kind == SteerPending && ControlsInv(s)
    ensures EndsWith(OnPending(s, e), code) <==> Reason(s, e, code)
  {
    PendingCases(s, e);
    if !IsOurPending(s, e) {
      FinishEnds(s, Failed, UnexpectedPending, code);
    } else if s.explicit {
      FinishEnds(s, Failed, DuplicatePending, code);
    } else if !AsksForOurCall(s, e) {
      FinishEnds(s, NotExercised, UnsupportedRequiredInput, code);
    }
  }

  lemma RootEndReason(s: Story, e: Event, code: Code)
    requires s.report.None? && IsEndOf(e, s.root)
    ensures EndsWith(OnRootEnd(s), code) <==> Reason(s, e, code)
  {
  }

  lemma SuccessorEndReason(s: Story, e: Event, code: Code)
    requires s.report.None? && IsSuccessorEnd(s, e)
    ensures
      EndsWith(OnSuccessorEnd(s, e.kind == Completed, OutputShows(e.response.value.output, s.marker)), code) <==>
      Reason(s, e, code)
  {
  }

  lemma TerminalReason(s: Story, e: Event, code: Code)
    requires s.report.None? && IsTerminal(e)
    ensures EndsWith(OnTerminal(s, e), code) <==> Reason(s, e, code)
  {
    if IsEndOf(e, s.root) {
      RootEndReason(s, e, code);
      assert OnTerminal(s, e) == OnRootEnd(s);
    } else if IsEndOf(e, s.successor) {
      SuccessorEndReason(s, e, code);
    } else {
      assert OnTerminal(s, e) == Fail(s, TerminalIdentityMismatch);
    }
  }

  lemma DeltaReason(s: Story, e: Event, code: Code)
    requires s.report.None? && e.kind == OutputTextDelta
    ensures EndsWith(OnDelta(s, e), code) <==> Reason(s, e, code)
  {
  }

  lemma RejectionReason(s: Story, e: Event, code: Code)
    requires s.report.None? && IsRejection(e)
    ensures EndsWith(Fail(s, RejectionCode(e)), code) <==> Reason(s, e, code)
  {
  }

  lemma NoReason(s: Story, e: Event, code: Code)
    requires e.kind == OtherKind || (e.kind == OutputItemDone && !IsItemForUs(s, e))
    ensures !Reason(s, e, code)
  {
  }

  lemma EventReason(s: Story, e: Event, code: Code)
    requires s.report.None? && ControlsInv(s)
    ensures EndsWith(OnEvent(s, e), code) <==> Reason(s, e, code)
  {
    match e.kind
    case Created => CreatedReason(s, e, code);
    case OutputItemDone => if IsItemForUs(s, e) { ItemReason(s, e, code); } else { NoReason(s, e, code); }
    case SteerAccepted => AcceptedReason(s, e, code);
    case SteerPending => PendingReason(s, e, code);
    case SteerFailed => RejectionReason(s, e, code);
    case ErrorEvent => RejectionReason(s, e, code);
    case OutputTextDelta => DeltaReason(s, e, code);
    case OtherKind => NoReason(s, e, code);
    case _ => TerminalReason(s, e, code);
  }

  /** A frame ends the run with a code exactly for that code's reason. */
  lemma FrameEndsIff(p: Probe, f: Frame, code: Code)
    requires p.story.report.None? && ControlsInv(p.story)
    ensures EndsWith(Receive(p, f).story, code) <==> FrameReason(p, f, code)
  {
    if !OverBudget(p, f) && f.event.Some? { EventReason(p.story, f.event.value, code); }
  }

  /** What a report says is what the probe knew when it was filed. */
  ghost predicate IsReportOf(r: Report, t: Story) {
    && r.scenario == t.scenario && r.outcome == (if r.code.Some? then OutcomeOf(r.code.value) else Passed)
    && (r.accepted <==> HasSteer(t)) && (r.successorCreated <==> t.successor.Some?)
    && r.markerObserved == t.markerObserved && r.explicitContinuation == t.explicit && r.sentControls == |t.sent|
  }

  ghost predicate Truthful(t: Story) {
    t.report.Some? ==> IsReportOf(t.report.value, t)
  }

  lemma FinishIsTruthful(s: Story, outcome: Outcome, code: Option<Code>)
    requires s.report.None? && SentInv(s) && outcome == (if code.Some? then OutcomeOf(code.value) else Passed)
    ensures Truthful(Finish(s, outcome, code))
  {
  }

  lemma CreatedTruthful(s: Story, e: Event)
    requires s.report.None? && ControlsInv(s)
    ensures Truthful(OnCreated(s, e))
  {
    FinishIsTruthful(s, Failed, Some(InvalidIdentity));
    FinishIsTruthful(s, Failed, Some(UnexpectedSuccessor));
  }

  lemma ItemTruthful(s: Story, e: Event)
    requires s.report.None? && ControlsInv(s)
    ensures Truthful(OnItemDone(s, e))
  {
    FinishIsTruthful(s, Failed, Some(OutputIdentityMismatch));
    FinishIsTruthful(s, Failed, Some(UnexpectedTool));
  }

  lemma PendingTruthful(s: Story, e: Event)
    requires s.report.None? && ControlsInv(s)
    ensures Truthful(OnPending(s, e))
  {
    FinishIsTruthful(s, Failed, Some(UnexpectedPending));
    FinishIsTruthful(s, Failed, Some(DuplicatePending));
    FinishIsTruthful(s, NotExercised, Some(UnsupportedRequiredInput));
  }

  lemma SuccessorEndTruthful(s: Story, completed: bool, shown: bool)
    requires s.report.None? && ControlsInv(s)
    ensures Truthful(OnSuccessorEnd(s, completed, shown))
  {
    var seen := s.(markerObserved := s.markerObserved || shown);
    FinishIsTruthful(seen, Failed, Some(SuccessorNotCompleted));
    FinishIsTruthful(seen, NotExercised, Some(RequiredInputNotObserved));
    FinishIsTruthful(seen, Passed, None);
    FinishIsTruthful(seen, Failed, Some(MarkerMissing));
  }

  lemma TerminalTruthful(s: Story, e: Event)
    requires s.report.None? && ControlsInv(s)
    ensures Truthful(OnTerminal(s, e))
  {
    FinishIsTruthful(s.(rootEnded := true), NotExercised, Some(NoSteeringWindow));
    FinishIsTruthful(s, Failed, Some(TerminalIdentityMismatch));
    if e.response.Some? {
      SuccessorEndTruthful(s, e.kind == Completed, OutputShows(e.response.value.output, s.marker));
    }
  }

  lemma EventReport(s: Story, e: Event)
    requires s.report.None? && ControlsInv(s)
    ensures Truthful(OnEvent(s, e))
  {
    FinishIsTruthful(s, Failed, Some(UnexpectedAcceptance));
    FinishIsTruthful(s, Failed, Some(OutputIdentityMismatch));
    FinishIsTruthful(s, Failed, Some(RejectionCode(e)));
    match e.kind
    case Created => CreatedTruthful(s, e);
    case OutputItemDone => ItemTruthful(s, e);
    case SteerPending => PendingTruthful(s, e);
    case Completed => TerminalTruthful(s, e);
    case Incomplete => TerminalTruthful(s, e);
    case FailedResponse => TerminalTruthful(s, e);
    case _ =>
  }

  lemma FrameReport(p: Probe, f: Frame)
    requires p.story.report.None? && ControlsInv(p.story) && Receive(p, f).story.report.Some?
    ensures IsReportOf(Receive(p, f).story.report.value, Receive(p, f).story)
  {
    if !OverBudget(p, f) && f.event.Some? { EventReport(p.story, f.event.value); }
  }

  /** Frame `t` finds the probe running and ends it with this code. */
  ghost predicate EndedAt(p: Probe, fs: seq<Frame>, t: int, code: Code) {
    0 <= t < |fs| && Run(p, fs[..t]).story.report.None? && FrameReason(Run(p, fs[..t]), fs[t], code)
  }

  lemma EndingFrame(p: Probe, fs: seq<Frame>, code: Code) returns (t: nat)
    requires p.story.report.None? && ControlsInv(p.story) && EndsWith(Run(p, fs).story, code)
    ensures EndedAt(p, fs, t, code) && IsReportOf(Run(p, fs).story.report.value, Run(p, fs).story)
  {
    t := ReportingFrame(p, fs);
    var q := Run(p, fs[..t]);
    RunKeepsControls(p, fs[..t]);
    FrameEndsIff(q, fs[t], code);
    FrameReport(q, fs[t]);
  }

  lemma EndedFrom(p: Probe, fs: seq<Frame>, t: int, code: Code)
    requires ControlsInv(p.story) && EndedAt(p, fs, t, code)
    ensures EndsWith(Run(p, fs).story, code)
  {
    var q := Run(p, fs[..t]);
    RunKeepsControls(p, fs[..t]);
    FrameEndsIff(q, fs[t], code);
    RunNext(p, fs[..t], fs[t]);
    assert fs == (fs[..t] + [fs[t]]) + fs[t + 1..];
    NothingAfterReport(p, fs[..t] + [fs[t]], fs[t + 1..]);
  }

  /**
   * A run has ended with a code exactly when some frame of it met the running probe and was that code's reason; the
   * report then says what the probe knew.
   */
  lemma RunEndsIff(p: Probe, fs: seq<Frame>, code: Code)
    requires p.story.report.None? && ControlsInv(p.story)
    ensures EndsWith(Run(p, fs).story, code) <==> exists t :: EndedAt(p, fs, t, code)
    ensures EndsWith(Run(p, fs).story, code) ==> IsReportOf(Run(p, fs).story.report.value, Run(p, fs).story)
  {
    if EndsWith(Run(p, fs).story, code) { var t := EndingFrame(p, fs, code); }
    if t :| EndedAt(p, fs, t, code) { EndedFrom(p, fs, t, code); }
  }
}
