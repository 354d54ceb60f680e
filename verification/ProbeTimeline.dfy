/** What every frame sequence keeps in the steering probe, and what a passed report proves about it. */
module ProbeTimeline {
  import opened MarkerSearch
  import opened ProbeModel

  // ---------- controls

  /** The controls sent are the steer and then the continuation, each at most once. */
  ghost predicate SentInv(p: Story) {
    && p.sentControls == |p.sent| == (if p.sentSteer then 1 else 0) + (if p.explicit then 1 else 0)
    && (p.sentSteer ==> p.root.Some? && p.sent[0] == SteerControl(p.root.value))
    && (p.explicit ==> p.sentSteer && Truthy(p.callId) && p.scenario == RequiredInput)
    && (p.explicit ==> p.sent[1].ContinueControl? && p.sent[1].rootId == p.root && Some(p.sent[1].callId) == p.callId)
    && (p.report.Some? ==> p.report.value.sentControls == p.sentControls && p.report.value.scenario == p.scenario)
  }

  ghost predicate IdInv(p: Story) {
    && (p.steerId.Some? ==> p.sentSteer)
    && (p.sentSteer ==> p.root.Some?)
    && (p.callId.Some? ==> p.scenario == RequiredInput)
    && (p.successor.Some? ==> p.root.Some? && p.successor.value != p.root.value)
  }

  ghost predicate ControlsInv(p: Story) {
    SentInv(p) && IdInv(p)
  }

  lemma FinishKeepsControls(p: Story, outcome: Outcome, code: Option<Code>)
    requires ControlsInv(p)
    ensures ControlsInv(Finish(p, outcome, code))
  {
  }

  lemma SteerKeepsControls(p: Story)
    requires ControlsInv(p) && p.report.None?
    ensures ControlsInv(SendSteer(p))
  {
  }

  lemma CreatedKeepsControls(p: Story, e: Event)
    requires ControlsInv(p) && p.report.None?
    ensures ControlsInv(OnCreated(p, e))
  {
    if UsableId(e.response) && p.root.None? {
      SteerKeepsControls(p.(root := Some(e.response.value.id.text)));
    }
  }

  lemma NotedCallKeepsControls(p: Story, callId: string)
    requires ControlsInv(p) && p.scenario == RequiredInput && (Truthy(p.callId) ==> p.callId == Some(callId))
    ensures ControlsInv(p.(callId := Some(callId)))
  {
  }

  lemma ItemDoneKeepsControls(p: Story, e: Event)
    requires ControlsInv(p) && p.report.None? && p.scenario == RequiredInput
    ensures ControlsInv(OnItemDone(p, e))
  {
    FinishKeepsControls(p, Failed, Some(OutputIdentityMismatch));
    FinishKeepsControls(p, Failed, Some(UnexpectedTool));
    if e.item.Some? && e.item.value.callId.Str? && (Truthy(p.callId) ==> Same(e.item.value.callId, p.callId)) {
      NotedCallKeepsControls(p, e.item.value.callId.text);
      SteerKeepsControls(p.(callId := Some(e.item.value.callId.text)));
    }
  }

  lemma AcceptedKeepsControls(p: Story, e: Event)
    requires ControlsInv(p) && p.report.None?
    ensures ControlsInv(OnAccepted(p, e))
  {
  }

  lemma PendingKeepsControls(p: Story, e: Event)
    requires ControlsInv(p) && p.report.None?
    ensures ControlsInv(OnPending(p, e))
  {
  }

  lemma RootEndKeepsControls(p: Story)
    requires ControlsInv(p) && p.report.None?
    ensures ControlsInv(OnRootEnd(p))
  {
  }

  lemma SuccessorEndKeepsControls(p: Story, completed: bool, shown: bool)
    requires ControlsInv(p) && p.report.None?
    ensures ControlsInv(OnSuccessorEnd(p, completed, shown))
  {
    var seen := p.(markerObserved := p.markerObserved || shown);
    FinishKeepsControls(seen, Failed, Some(SuccessorNotCompleted));
    FinishKeepsControls(seen, NotExercised, Some(RequiredInputNotObserved));
    FinishKeepsControls(seen, Passed, None);
    FinishKeepsControls(seen, Failed, Some(MarkerMissing));
  }

  lemma TerminalKeepsControls(p: Story, e: Event)
    requires ControlsInv(p) && p.report.None?
    ensures ControlsInv(OnTerminal(p, e))
  {
    RootEndKeepsControls(p);
    if e.response.Some? {
      SuccessorEndKeepsControls(p, e.kind == Completed, OutputShows(e.response.value.output, p.marker));
    }
  }

  lemma DeltaKeepsControls(p: Story, e: Event)
    requires ControlsInv(p) && p.report.None?
    ensures ControlsInv(OnDelta(p, e))
  {
  }

  lemma EventKeepsControls(p: Story, e: Event)
    requires ControlsInv(p) && p.report.None?
    ensures ControlsInv(OnEvent(p, e))
  {
    match e.kind
    case Created => CreatedKeepsControls(p, e);
    case OutputItemDone => if p.scenario == RequiredInput { ItemDoneKeepsControls(p, e); }
    case SteerAccepted => AcceptedKeepsControls(p, e);
    case SteerPending => PendingKeepsControls(p, e);
    case Completed => TerminalKeepsControls(p, e);
    case Incomplete => TerminalKeepsControls(p, e);
    case FailedResponse => TerminalKeepsControls(p, e);
    case OutputTextDelta => DeltaKeepsControls(p, e);
    case _ =>
  }

  lemma ReceiveKeepsControls(p: Probe, f: Frame)
    requires ControlsInv(p.story)
    ensures ControlsInv(Receive(p, f).story)
  {
    if p.story.report.None? {
      FinishKeepsControls(p.story, Unknown, Some(ProbeBudgetExceeded));
      FinishKeepsControls(p.story, Failed, Some(InvalidEvent));
      if f.event.Some? { EventKeepsControls(p.story, f.event.value); }
    }
  }

  lemma {:induction false} RunKeepsControls(p: Probe, fs: seq<Frame>)
    requires ControlsInv(p.story)
    ensures ControlsInv(Run(p, fs).story)
    decreases |fs|
  {
    if fs != [] {
      RunKeepsControls(p, fs[..|fs| - 1]);
      ReceiveKeepsControls(Run(p, fs[..|fs| - 1]), fs[|fs| - 1]);
    }
  }

  lemma {:induction false} RunKeepsSetup(p: Probe, fs: seq<Frame>)
    ensures Run(p, fs).story.scenario == p.story.scenario && Run(p, fs).story.marker == p.story.marker
    decreases |fs|
  {
    if fs != [] {
      RunKeepsSetup(p, fs[..|fs| - 1]);
    }
  }

  /** Once there is a report, no frame changes or sends anything. */
  lemma {:induction false} NothingAfterReport(p: Probe, fs: seq<Frame>, later: seq<Frame>)
    requires Run(p, fs).story.report.Some?
    ensures Run(p, fs + later) == Run(p, fs)
    decreases |later|
  {
    if later == [] {
      assert fs + later == fs;
    } else {
      var n := |later| - 1;
      assert (fs + later)[..|fs + later| - 1] == fs + later[..n];
      NothingAfterReport(p, fs, later[..n]);
    }
  }

  // ---------- the marker

  /** The text a frame adds to the successor's output. */
  function DeltaText(p: Story, e: Event): string {
    if p.successor.Some? && e.kind == OutputTextDelta && e.delta.Str? then e.delta.text else ""
  }

  /** Everything the successor said in deltas, whatever pieces it came in. */
  function SuccessorText(p: Probe, fs: seq<Frame>): string
    decreases |fs|
  {
    if fs == [] then ""
    else
      var f := fs[|fs| - 1];
      SuccessorText(p, fs[..|fs| - 1])
        + if f.event.Some? then DeltaText(Run(p, fs[..|fs| - 1]).story, f.event.value) else ""
  }

  ghost predicate SearchInv(p: Story, text: string) {
    p.textTail == Tail(text, |p.marker|) && (p.markerObserved <==> Contains(text, p.marker))
  }

  lemma DeltaKeepsSearch(p: Story, e: Event, text: string)
    requires SearchInv(p, text) && p.report.None? && p.successor.Some? && e.delta.Str? && OnDelta(p, e).report.None?
    ensures SearchInv(OnDelta(p, e), text + e.delta.text)
  {
    TailSuffices(text, e.delta.text, p.marker);
    TailOfTail(text, e.delta.text, |p.marker|);
    IncludesIffContains(p.textTail + e.delta.text, p.marker);
  }

  lemma OtherEventsKeepSearch(p: Story, e: Event)
    requires p.report.None?
    requires e.kind != OutputTextDelta || p.successor.None? || !e.delta.Str?
    ensures KeepsSearch(p, OnEvent(p, e))
  {
  }

  lemma EventKeepsSearch(p: Story, e: Event, text: string)
    requires SearchInv(p, text) && p.report.None? && OnEvent(p, e).report.None?
    ensures SearchInv(OnEvent(p, e), text + DeltaText(p, e))
  {
    if e.kind == OutputTextDelta && p.successor.Some? && e.delta.Str? {
      DeltaKeepsSearch(p, e, text);
    } else {
      OtherEventsKeepSearch(p, e);
      assert text + "" == text;
    }
  }

  /** A run without a report consumed every frame as an event. */
  lemma LastFrameIsEvent(p: Probe, fs: seq<Frame>)
    requires fs != [] && Run(p, fs).story.report.None?
    ensures var q := Run(p, fs[..|fs| - 1]);
      && q.story.report.None? && fs[|fs| - 1].event.Some?
      && Run(p, fs).story == OnEvent(q.story, fs[|fs| - 1].event.value)
  {
  }

  /**
   * While there is no report, the marker has been observed exactly when it occurs in the whole
   * successor text, however that text was split into deltas.
   */
  lemma {:induction false} SlidingSearchExact(p: Probe, fs: seq<Frame>)
    requires p.story.marker != "" && p.story.textTail == "" && !p.story.markerObserved
    requires Run(p, fs).story.report.None?
    ensures SearchInv(Run(p, fs).story, SuccessorText(p, fs))
    decreases |fs|
  {
    if fs == [] {
      assert !Contains("", p.story.marker);
    } else {
      LastFrameIsEvent(p, fs);
      SlidingSearchExact(p, fs[..|fs| - 1]);
      EventKeepsSearch(Run(p, fs[..|fs| - 1]).story, fs[|fs| - 1].event.value, SuccessorText(p, fs[..|fs| - 1]));
    }
  }

  /** Before the successor exists there is no successor text, so root output can never show the marker. */
  lemma {:induction false} RootOutputNeverCounts(p: Probe, fs: seq<Frame>)
    requires Run(p, fs).story.report.None? && Run(p, fs).story.successor.None?
    ensures SuccessorText(p, fs) == ""
    decreases |fs|
  {
    if fs != [] {
      LastFrameIsEvent(p, fs);
      RootOutputNeverCounts(p, fs[..|fs| - 1]);
    }
  }
}
