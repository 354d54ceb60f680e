/** scripts/steering-probe.ts as a function: what one received frame does to the probe. */
module ProbeModel {
  import opened MarkerSearch

  datatype Option<+T> = None | Some(value: T)

  /** A JSON value as the probe tests it: only strings are told apart. */
  datatype Value = Undefined | Null | Str(text: string) | Other {
    /** The loose `value != null`. */
    predicate Present() {
      !Undefined? && !Null?
    }
  }

  datatype Kind =
    | Created | OutputItemDone | SteerAccepted | SteerPending | SteerFailed | ErrorEvent
    | Completed | Incomplete | FailedResponse | OutputTextDelta | OtherKind

  datatype ResponseBody = ResponseBody(id: Value, previousId: Value, output: seq<seq<Value>>)
  /** An output item; `isProbeCall` says it is a function call of the tool named steering_probe. */
  datatype Item = Item(isProbeCall: bool, callId: Value)
  datatype Steer = Steer(id: Value, previousId: Value)
  datatype Stub = Stub(isFunctionCallOutput: bool, callId: Value)

  datatype Event = Event(
    kind: Kind, response: Option<ResponseBody>, responseId: Value, item: Option<Item>, steer: Option<Steer>,
    waitingForInput: bool, requiredInput: Option<seq<Stub>>, streamId: Value, errorCode: Value, delta: Value)

  /** A raw frame: its size, and the JSON object in it when there is one. */
  datatype Frame = Frame(bytes: nat, event: Option<Event>)

  datatype Scenario = Automatic | RequiredInput
  datatype Outcome = Passed | Failed | Unknown | NotExercised

  datatype Report = Report(
    scenario: Scenario, outcome: Outcome, accepted: bool, successorCreated: bool, markerObserved: bool,
    explicitContinuation: bool, sentControls: nat, code: Option<Code>)

  datatype Code =
    | ProbeBudgetExceeded | InvalidEvent | InvalidIdentity | UnexpectedSuccessor | OutputIdentityMismatch
    | UnexpectedTool | UnexpectedAcceptance | UnexpectedPending | DuplicatePending | UnsupportedRequiredInput
    | NoSteeringWindow | SuccessorNotCompleted | RequiredInputNotObserved | MarkerMissing | TerminalIdentityMismatch
    | UpstreamRejection | SafeRejection(text: string)

  /** What the probe sends: the steer, and the continuation after a pending steer. */
  datatype Control =
    | SteerControl(previousId: string)
    | ContinueControl(rootId: Option<string>, callId: string, streamId: Value)

  const MAX_FRAMES: nat := 5000
  const MAX_BYTES: nat := 2 * 1024 * 1024
  const MAX_ID_LENGTH: nat := 512

  /** The upstream codes that may be repeated in a report. */
  predicate IsSafeCode(text: string) {
    text in {
      "steering_not_supported", "response_not_active", "response_already_completed", "invalid_input",
      "steering_settings_changed", "steering_settings_unsupported", "too_many_pending_steers"}
  }

  /** The probe's protocol fields, and the controls sent so far. */
  datatype Story = Story(
    scenario: Scenario, marker: string,
    root: Option<string>, successor: Option<string>, steerId: Option<string>, callId: Option<string>,
    rootEnded: bool, sentSteer: bool, report: Option<Report>,
    markerObserved: bool, explicit: bool, sentControls: nat, textTail: string, sent: seq<Control>)

  /** The whole probe: the budget counters and the protocol fields. */
  datatype Probe = Probe(bytes: nat, frames: nat, story: Story)

  function Fresh(scenario: Scenario, marker: string): Probe {
    Probe(0, 0, Story(scenario, marker, None, None, None, None, false, false, None, false, false, 0, "", []))
  }

  /** JavaScript truth of a string field: set, and not the empty string. */
  predicate Truthy(field: Option<string>) {
    field.Some? && field.value != ""
  }

  /** `value === field`. */
  predicate Same(value: Value, field: Option<string>) {
    match field case None => value == Undefined case Some(text) => value == Str(text)
  }

  /** Never touched after construction, or once set. */
  predicate Keeps(p: Story, q: Story) {
    q.scenario == p.scenario && q.marker == p.marker && (p.successor.Some? ==> q.successor == p.successor)
  }

  /** Short of a report, the marker search did not move. */
  predicate KeepsSearch(p: Story, q: Story) {
    Keeps(p, q) && (q.report.None? ==> q.textTail == p.textTail && q.markerObserved == p.markerObserved)
  }

  /** A report that this step files, if it files one, is not a pass. */
  predicate FilesNoPass(p: Story, q: Story) {
    p.report.None? && q.report.Some? ==> q.report.value.outcome != Passed
  }

  function Finish(p: Story, outcome: Outcome, code: Option<Code>): (q: Story)
    ensures KeepsSearch(p, q)
  {
    if p.report.Some? then p
    else p.(report := Some(Report(p.scenario, outcome, Truthy(p.steerId), p.successor.Some?, p.markerObserved,
                                  p.explicit, p.sentControls, code)))
  }

  function Fail(p: Story, code: Code): (q: Story)
    ensures KeepsSearch(p, q)
    ensures FilesNoPass(p, q)
  {
    Finish(p, Failed, Some(code))
  }

  function SendSteer(p: Story): (q: Story)
    ensures KeepsSearch(p, q)
    ensures FilesNoPass(p, q)
  {
    if p.root.None? || p.sentSteer || p.rootEnded then p
    else p.(sentSteer := true, sentControls := p.sentControls + 1, sent := p.sent + [SteerControl(p.root.value)])
  }

  predicate UsableId(response: Option<ResponseBody>) {
    response.Some? && response.value.id.Str? && 0 < |response.value.id.text| <= MAX_ID_LENGTH
  }

  function OnCreated(p: Story, e: Event): (q: Story)
    ensures KeepsSearch(p, q)
    ensures FilesNoPass(p, q)
  {
    if !UsableId(e.response) then Fail(p, InvalidIdentity)
    else
      var id := e.response.value.id.text;
      if p.root.None? then
        var rooted := p.(root := Some(id));
        if p.scenario == Automatic then SendSteer(rooted) else rooted
      else if p.successor.Some? || id == p.root.value || !p.rootEnded || !Truthy(p.steerId)
        || (e.response.value.previousId.Present() && !Same(e.response.value.previousId, p.root))
      then Fail(p, UnexpectedSuccessor)
      else p.(successor := Some(id))
  }

  function OnItemDone(p: Story, e: Event): (q: Story)
    ensures KeepsSearch(p, q)
    ensures FilesNoPass(p, q)
  {
    if e.responseId.Present() && !Same(e.responseId, p.root) then Fail(p, OutputIdentityMismatch)
    else if e.item.Some? && e.item.value.isProbeCall && e.item.value.callId.Str?
    then
      if Truthy(p.callId) && !Same(e.item.value.callId, p.callId) then Fail(p, UnexpectedTool)
      else SendSteer(p.(callId := Some(e.item.value.callId.text)))
    else p
  }

  function OnAccepted(p: Story, e: Event): (q: Story)
    ensures KeepsSearch(p, q)
    ensures FilesNoPass(p, q)
  {
    if !p.sentSteer || Truthy(p.steerId) || e.steer.None? || !Same(e.steer.value.previousId, p.root)
      || !e.steer.value.id.Str?
    then Fail(p, UnexpectedAcceptance)
    else p.(steerId := Some(e.steer.value.id.text))
  }

  function OnPending(p: Story, e: Event): (q: Story)
    ensures KeepsSearch(p, q)
    ensures FilesNoPass(p, q)
  {
    if !Truthy(p.steerId) || e.steer.None? || !Same(e.steer.value.id, p.steerId)
      || !Same(e.steer.value.previousId, p.root) || !p.rootEnded
    then Fail(p, UnexpectedPending)
    else if p.explicit then Fail(p, DuplicatePending)
    else if !e.waitingForInput || e.requiredInput.None? || |e.requiredInput.value| != 1
      || !e.requiredInput.value[0].isFunctionCallOutput || !Same(e.requiredInput.value[0].callId, p.callId)
      || !Truthy(p.callId)
    then Finish(p, NotExercised, Some(UnsupportedRequiredInput))
    else p.(explicit := true, sentControls := p.sentControls + 1,
            sent := p.sent + [ContinueControl(p.root, p.callId.value, e.streamId)])
  }

  /** Some text part of the response's output contains the marker. */
  predicate OutputShows(output: seq<seq<Value>>, marker: string) {
    exists i, j :: 0 <= i < |output| && 0 <= j < |output[i]| && output[i][j].Str? && Includes(output[i][j].text, marker)
  }

  function OnRootEnd(p: Story): (q: Story)
    ensures KeepsSearch(p, q)
    ensures FilesNoPass(p, q)
  {
    var ended := p.(rootEnded := true);
    if !p.sentSteer then Finish(ended, NotExercised, Some(NoSteeringWindow)) else ended
  }

  function OnSuccessorEnd(p: Story, completed: bool, shown: bool): (q: Story)
    ensures Keeps(p, q) && (p.report.None? ==> q.report.Some?)
  {
    var seen := p.(markerObserved := p.markerObserved || shown);
    if !completed then Fail(seen, SuccessorNotCompleted)
    else if p.scenario == RequiredInput && !p.explicit then Finish(seen, NotExercised, Some(RequiredInputNotObserved))
    else if seen.markerObserved then Finish(seen, Passed, None) else Fail(seen, MarkerMissing)
  }

  function OnTerminal(p: Story, e: Event): (q: Story)
    ensures Keeps(p, q) && (p.report.None? ==> KeepsSearch(p, q))
  {
    if p.root.Some? && e.response.Some? && Same(e.response.value.id, p.root) then OnRootEnd(p)
    else if p.successor.Some? && e.response.Some? && Same(e.response.value.id, p.successor) then
      OnSuccessorEnd(p, e.kind == Completed, OutputShows(e.response.value.output, p.marker))
    else Fail(p, TerminalIdentityMismatch)
  }

  function OnDelta(p: Story, e: Event): (q: Story)
    ensures Keeps(p, q)
    ensures FilesNoPass(p, q)
  {
    if p.successor.None? || !e.delta.Str? then p
    else if e.responseId.Present() && !Same(e.responseId, p.successor) then Fail(p, OutputIdentityMismatch)
    else
      var text := p.textTail + e.delta.text;
      p.(markerObserved := p.markerObserved || Includes(text, p.marker), textTail := Tail(text, |p.marker|))
  }

  function OnEvent(p: Story, e: Event): (q: Story)
    ensures Keeps(p, q)
  {
    match e.kind
    case Created => OnCreated(p, e)
    case OutputItemDone => if p.successor.None? && p.scenario == RequiredInput then OnItemDone(p, e) else p
    case SteerAccepted => OnAccepted(p, e)
    case SteerPending => OnPending(p, e)
    case SteerFailed => Fail(p, RejectionCode(e))
    case ErrorEvent => Fail(p, RejectionCode(e))
    case Completed => OnTerminal(p, e)
    case Incomplete => OnTerminal(p, e)
    case FailedResponse => OnTerminal(p, e)
    case OutputTextDelta => OnDelta(p, e)
    case OtherKind => p
  }

  function RejectionCode(e: Event): Code {
    if e.errorCode.Str? && IsSafeCode(e.errorCode.text) then SafeRejection(e.errorCode.text) else UpstreamRejection
  }

  function Receive(p: Probe, f: Frame): Probe {
    if p.story.report.Some? then p
    else
      var bytes, frames := p.bytes + f.bytes, p.frames + 1;
      Probe(bytes, frames,
        if frames > MAX_FRAMES || bytes > MAX_BYTES then Finish(p.story, Unknown, Some(ProbeBudgetExceeded))
        else if f.event.None? then Fail(p.story, InvalidEvent)
        else OnEvent(p.story, f.event.value))
  }

  /** The probe after a whole frame sequence. */
  function Run(p: Probe, fs: seq<Frame>): Probe
    decreases |fs|
  {
    if fs == [] then p else Receive(Run(p, fs[..|fs| - 1]), fs[|fs| - 1])
  }
}
