/** scripts/steering-probe.ts: the probe as the object it is. */
module SteeringProbe {
  import opened MarkerSearch
  import opened ProbeModel
  import opened ProbeTimeline

  class SteeringProbe {
    const scenario: Scenario
    const marker: string
    var root: Option<string>
    var successor: Option<string>
    var steerId: Option<string>
    var callId: Option<string>
    var rootEnded: bool
    var sentSteer: bool
    var report: Option<Report>
    var bytes: nat
    var frames: nat
    var markerObserved: bool
    var explicit: bool
    var sentControls: nat
    var textTail: string
    var sent: seq<Control>   // every frame passed to `send`

    constructor (scenario: Scenario, marker: string)
      ensures this.scenario == scenario && this.marker == marker
      ensures State() == Fresh(scenario, marker) && ControlsInv(State().story)
    {
      this.scenario, this.marker := scenario, marker;
      root, successor, steerId, callId := None, None, None, None;
      rootEnded, sentSteer, report, bytes, frames := false, false, None, 0, 0;
      markerObserved, explicit, sentControls, textTail, sent := false, false, 0, "", [];
    }

    ghost function State(): Probe
      reads this
    {
      Probe(bytes, frames, Story(
        scenario, marker, root, successor, steerId, callId, rootEnded, sentSteer, report,
        markerObserved, explicit, sentControls, textTail, sent))
    }

    method Steer()
      modifies `sentSteer, `sentControls, `sent
      ensures State().story == SendSteer(old(State()).story)
    {
      if root.None? || sentSteer || rootEnded { return; }
      sentSteer, sentControls := true, sentControls + 1;
      sent := sent + [SteerControl(root.value)];
    }

    method Finish(outcome: Outcome, code: Option<Code>)
      modifies `report
      ensures State().story == ProbeModel.Finish(old(State()).story, outcome, code)
    {
      if report.None? {
        report := Some(Report(scenario, outcome, Truthy(steerId), successor.Some?, markerObserved, explicit,
          sentControls, code));
      }
    }

    method ReceiveCreated(e: Event)
      modifies `root, `successor, `sentSteer, `sentControls, `sent, `report
      ensures State().story == OnCreated(old(State()).story, e)
    {
      if !UsableId(e.response) { Finish(Failed, Some(InvalidIdentity)); return; }
      var id, previous := e.response.value.id.text, e.response.value.previousId;
      if root.None? {
        root := Some(id);
        if scenario == Automatic { Steer(); }
      } else if successor.Some? || id == root.value || !rootEnded || !Truthy(steerId)
        || (previous.Present() && !Same(previous, root))
      {
        Finish(Failed, Some(UnexpectedSuccessor));
      } else {
        successor := Some(id);
      }
    }

    method ReceiveItemDone(e: Event)
      modifies `callId, `sentSteer, `sentControls, `sent, `report
      ensures State().story == OnItemDone(old(State()).story, e)
    {
      if e.responseId.Present() && !Same(e.responseId, root) { Finish(Failed, Some(OutputIdentityMismatch)); return; }
      if e.item.Some? && e.item.value.isProbeCall && e.item.value.callId.Str? {
        if Truthy(callId) && !Same(e.item.value.callId, callId) { Finish(Failed, Some(UnexpectedTool)); return; }
        callId := Some(e.item.value.callId.text);
        Steer();
      }
    }

    method ReceiveAccepted(e: Event)
      modifies `steerId, `report
      ensures State().story == OnAccepted(old(State()).story, e)
    {
      if !sentSteer || Truthy(steerId) || e.steer.None?
        || !Same(e.steer.value.previousId, root) || !e.steer.value.id.Str?
      {
        Finish(Failed, Some(UnexpectedAcceptance));
      } else {
        steerId := Some(e.steer.value.id.text);
      }
    }

    method ReceivePending(e: Event)
      modifies `explicit, `sentControls, `sent, `report
      ensures State().story == OnPending(old(State()).story, e)
    {
      if !Truthy(steerId) || e.steer.None? || !Same(e.steer.value.id, steerId)
        || !Same(e.steer.value.previousId, root) || !rootEnded
      {
        Finish(Failed, Some(UnexpectedPending));
        return;
      }
      if explicit { Finish(Failed, Some(DuplicatePending)); return; }
      if !e.waitingForInput || e.requiredInput.None? || |e.requiredInput.value| != 1
        || !e.requiredInput.value[0].isFunctionCallOutput || !Same(e.requiredInput.value[0].callId, callId)
        || !Truthy(callId)
      {
        Finish(NotExercised, Some(UnsupportedRequiredInput));
        return;
      }
      explicit, sentControls := true, sentControls + 1;
      sent := sent + [ContinueControl(root, callId.value, e.streamId)];
    }

    /** The nested loops over a completed response's output parts. */
    method ScanOutput(output: seq<seq<Value>>)
      modifies `markerObserved
      ensures markerObserved == (old(markerObserved) || OutputShows(output, marker))
    {
      for i := 0 to |output|
        invariant markerObserved <==> old(markerObserved) || OutputShows(output[..i], marker)
      {
        var content := output[i];
        ghost var before := markerObserved;
        for j := 0 to |content|
          invariant markerObserved <==>
            before || exists k :: 0 <= k < j && content[k].Str? && Includes(content[k].text, marker)
        {
          if content[j].Str? && Includes(content[j].text, marker) { markerObserved := true; }
        }
        ShowsNext(output, i, marker);
      }
      assert output[..|output|] == output;
    }

    method ReceiveTerminal(e: Event)
      modifies `rootEnded, `markerObserved, `report
      ensures State().story == OnTerminal(old(State()).story, e)
    {
      if root.Some? && e.response.Some? && Same(e.response.value.id, root) {
        rootEnded := true;
        if !sentSteer { Finish(NotExercised, Some(NoSteeringWindow)); }
      } else if successor.Some? && e.response.Some? && Same(e.response.value.id, successor) {
        ScanOutput(e.response.value.output);
        if e.kind != Completed {
          Finish(Failed, Some(SuccessorNotCompleted));
        } else if scenario == RequiredInput && !explicit {
          Finish(NotExercised, Some(RequiredInputNotObserved));
        } else if markerObserved {
          Finish(Passed, None);
        } else {
          Finish(Failed, Some(MarkerMissing));
        }
      } else {
        Finish(Failed, Some(TerminalIdentityMismatch));
      }
    }

    method ReceiveDelta(e: Event)
      modifies `markerObserved, `textTail, `report
      ensures State().story == OnDelta(old(State()).story, e)
    {
      if successor.None? || !e.delta.Str? { return; }
      if e.responseId.Present() && !Same(e.responseId, successor) {
        Finish(Failed, Some(OutputIdentityMismatch));
        return;
      }
      var text := textTail + e.delta.text;
      markerObserved := markerObserved || Includes(text, marker);
      textTail := Tail(text, |marker|);
    }

    method Receive(f: Frame) returns (r: Option<Report>)
      requires ControlsInv(State().story)
      modifies this
      ensures State() == ProbeModel.Receive(old(State()), f)
      ensures ControlsInv(State().story) && r == report
    {
      ReceiveKeepsControls(State(), f);
      if report.Some? { return report; }
      bytes, frames := bytes + f.bytes, frames + 1;
      if frames > MAX_FRAMES || bytes > MAX_BYTES {
        Finish(Unknown, Some(ProbeBudgetExceeded));
      } else if f.event.None? {
        Finish(Failed, Some(InvalidEvent));
      } else {
        ReceiveEvent(f.event.value);
      }
      r := report;
    }

    method ReceiveEvent(e: Event)
      modifies `root, `successor, `steerId, `callId, `rootEnded, `sentSteer, `report, `markerObserved, `explicit,
        `sentControls, `textTail, `sent
      ensures State().story == OnEvent(old(State()).story, e)
    {
      match e.kind
      case Created => ReceiveCreated(e);
      case OutputItemDone => if successor.None? && scenario == RequiredInput { ReceiveItemDone(e); }
      case SteerAccepted => ReceiveAccepted(e);
      case SteerPending => ReceivePending(e);
      case SteerFailed => Finish(Failed, Some(RejectionCode(e)));
      case ErrorEvent => Finish(Failed, Some(RejectionCode(e)));
      case Completed => ReceiveTerminal(e);
      case Incomplete => ReceiveTerminal(e);
      case FailedResponse => ReceiveTerminal(e);
      case OutputTextDelta => ReceiveDelta(e);
      case OtherKind =>
    }
  }

  lemma ShowsNext(output: seq<seq<Value>>, i: nat, marker: string)
    requires i < |output|
    ensures OutputShows(output[..i + 1], marker) <==>
      || OutputShows(output[..i], marker)
      || exists k :: 0 <= k < |output[i]| && output[i][k].Str? && Includes(output[i][k].text, marker)
  {
    var a, b := output[..i], output[..i + 1];
    if OutputShows(a, marker) {
      var x, y :| 0 <= x < |a| && 0 <= y < |a[x]| && a[x][y].Str? && Includes(a[x][y].text, marker);
      assert b[x] == a[x];
    }
    if k :| 0 <= k < |output[i]| && output[i][k].Str? && Includes(output[i][k].text, marker) {
      assert b[i] == output[i];
    }
    if OutputShows(b, marker) {
      var x, y :| 0 <= x < |b| && 0 <= y < |b[x]| && b[x][y].Str? && Includes(b[x][y].text, marker);
      if x < i { assert a[x] == b[x]; }
    }
  }
}
