/** Passing runs of the steering probe that use each order a pass leaves open. */
module ProbeFreedom {
  import opened MarkerSearch
  import opened ProbeModel
  import opened ProbeStory

  const BLANK := Event(OtherKind, None, Undefined, None, None, false, None, Undefined, Undefined, Undefined)

  function CreatedFrame(id: string): Frame {
    Frame(1, Some(BLANK.(kind := Created, response := Some(ResponseBody(Str(id), Undefined, [])))))
  }

  function CompletedFrame(id: string, text: string): Frame {
    Frame(1, Some(BLANK.(kind := Completed, response := Some(ResponseBody(Str(id), Undefined, [[Str(text)]])))))
  }

  function AcceptedFrame(id: string, root: string): Frame {
    Frame(1, Some(BLANK.(kind := SteerAccepted, steer := Some(Steer(Str(id), Str(root))))))
  }

  function CallFrame(callId: string): Frame {
    Frame(1, Some(BLANK.(kind := OutputItemDone, item := Some(Item(true, Str(callId))))))
  }

  function PendingFrame(id: string, root: string, callId: string): Frame {
    Frame(1, Some(BLANK.(kind := SteerPending, steer := Some(Steer(Str(id), Str(root))), waitingForInput := true,
                         requiredInput := Some([Stub(true, Str(callId))]))))
  }

  /** A run from `via[0]` through the other probes, frame by frame. */
  ghost predicate Trace(fs: seq<Frame>, via: seq<Probe>) {
    |via| == |fs| + 1 && forall i {:trigger fs[i]} :: 0 <= i < |fs| ==> via[i + 1] == Receive(via[i], fs[i])
  }

  lemma {:induction false} TraceEnds(fs: seq<Frame>, via: seq<Probe>)
    requires Trace(fs, via)
    ensures Run(via[0], fs) == via[|fs|]
    decreases |fs|
  {
    if fs != [] {
      var n := |fs| - 1;
      forall i | 0 <= i < n ensures via[..n + 1][i + 1] == Receive(via[..n + 1][i], fs[..n][i]) {
        assert fs[..n][i] == fs[i];
      }
      TraceEnds(fs[..n], via[..n + 1]);
      assert via[n + 1] == Receive(via[n], fs[n]);
    }
  }

  /** A running probe with root "r", successor "t", steer "s", call "c" and marker "M", as far as it got. */
  function Midway(scenario: Scenario, n: nat, called: bool, rooted: bool, steered: bool, agreed: bool, over: bool,
                  continued: bool, succeeded: bool): Probe
  {
    Probe(n, n, Story(
      scenario, "M", if rooted then Some("r") else None, if succeeded then Some("t") else None,
      if agreed then Some("s") else None, if called then Some("c") else None, over, steered, None, false, continued,
      (if steered then 1 else 0) + (if continued then 1 else 0), "",
      (if steered then [SteerControl("r")] else [])
      + (if continued then [ContinueControl(Some("r"), "c", Undefined)] else [])))
  }

  lemma CompletingPasses(p: Probe, n: nat)
    requires n < 10 && (p == Midway(Automatic, n, false, true, true, true, true, false, true)
                        || p == Midway(RequiredInput, n, true, true, true, true, true, true, true))
    ensures HasPassed(Receive(p, CompletedFrame("t", "M")))
  {
    var output := [[Str("M")]];
    assert Includes("M", "M");
    assert OutputShows(output, "M") by { assert output[0][0] == Str("M"); }
  }

  lemma AutomaticSteps()
    ensures Receive(Fresh(Automatic, "M"), CreatedFrame("r"))
      == Midway(Automatic, 1, false, true, true, false, false, false, false)
    ensures Receive(Midway(Automatic, 1, false, true, true, false, false, false, false), CompletedFrame("r", ""))
      == Midway(Automatic, 2, false, true, true, false, true, false, false)
    ensures Receive(Midway(Automatic, 2, false, true, true, false, true, false, false), AcceptedFrame("s", "r"))
      == Midway(Automatic, 3, false, true, true, true, true, false, false)
    ensures Receive(Midway(Automatic, 3, false, true, true, true, true, false, false), CreatedFrame("t"))
      == Midway(Automatic, 4, false, true, true, true, true, false, true)
  {
  }

  /** In the automatic scenario the steer may be accepted after the root has already ended. */
  lemma AcceptanceMayFollowRootEnd() returns (fs: seq<Frame>)
    ensures HasPassed(Run(Fresh(Automatic, "M"), fs))
    ensures fs == [CreatedFrame("r"), CompletedFrame("r", ""), AcceptedFrame("s", "r"), CreatedFrame("t"),
                   CompletedFrame("t", "M")]
  {
    fs := [CreatedFrame("r"), CompletedFrame("r", ""), AcceptedFrame("s", "r"), CreatedFrame("t"),
           CompletedFrame("t", "M")];
    var p4 := Midway(Automatic, 4, false, true, true, true, true, false, true);
    AutomaticSteps();
    CompletingPasses(p4, 4);
    TraceEnds(fs, [
      Fresh(Automatic, "M"),
      Midway(Automatic, 1, false, true, true, false, false, false, false),
      Midway(Automatic, 2, false, true, true, false, true, false, false),
      Midway(Automatic, 3, false, true, true, true, true, false, false), p4, Receive(p4, fs[4])]);
  }

  /** The required-input probe before its root ended. */
  lemma OpeningSteps(n: nat)
    requires n < 10
    ensures Receive(Midway(RequiredInput, n, false, false, false, false, false, false, false), CreatedFrame("r"))
      == Midway(RequiredInput, n + 1, false, true, false, false, false, false, false)
    ensures Receive(Midway(RequiredInput, n, false, true, false, false, false, false, false), CallFrame("c"))
      == Midway(RequiredInput, n + 1, true, true, true, false, false, false, false)
    ensures Receive(Midway(RequiredInput, n, true, true, true, false, false, false, false), AcceptedFrame("s", "r"))
      == Midway(RequiredInput, n + 1, true, true, true, true, false, false, false)
    ensures Receive(Midway(RequiredInput, n, true, true, true, true, false, false, false), CompletedFrame("r", ""))
      == Midway(RequiredInput, n + 1, true, true, true, true, true, false, false)
  {
  }

  /** And afterwards, in either order. */
  lemma ClosingSteps(n: nat)
    requires n < 10
    ensures Receive(Midway(RequiredInput, n, true, true, true, true, true, false, false), PendingFrame("s", "r", "c"))
      == Midway(RequiredInput, n + 1, true, true, true, true, true, true, false)
    ensures Receive(Midway(RequiredInput, n, true, true, true, true, true, true, false), CreatedFrame("t"))
      == Midway(RequiredInput, n + 1, true, true, true, true, true, true, true)
    ensures Receive(Midway(RequiredInput, n, true, true, true, true, true, false, false), CreatedFrame("t"))
      == Midway(RequiredInput, n + 1, true, true, true, true, true, false, true)
    ensures Receive(Midway(RequiredInput, n, true, true, true, true, true, false, true), PendingFrame("s", "r", "c"))
      == Midway(RequiredInput, n + 1, true, true, true, true, true, true, true)
  {
  }

  /** A call that arrives before the root is noted, but steers nothing. */
  lemma EarlyCallSteps(n: nat)
    requires n < 10
    ensures Receive(Midway(RequiredInput, n, false, false, false, false, false, false, false), CallFrame("c"))
      == Midway(RequiredInput, n + 1, true, false, false, false, false, false, false)
    ensures Receive(Midway(RequiredInput, n, true, false, false, false, false, false, false), CreatedFrame("r"))
      == Midway(RequiredInput, n + 1, true, true, false, false, false, false, false)
    ensures Receive(Midway(RequiredInput, n, true, true, false, false, false, false, false), CallFrame("c"))
      == Midway(RequiredInput, n + 1, true, true, true, false, false, false, false)
  {
  }

  function Opened(n: nat): Probe {
    Midway(RequiredInput, n, true, true, true, true, true, false, false)
  }

  function Closing(): Frame {
    CompletedFrame("t", "M")
  }

  /** From an opened probe, input asked for first and successor made first both lead to a pass. */
  lemma BothOrdersPass(n: nat)
    requires n < 8
    ensures HasPassed(Run(Opened(n), [PendingFrame("s", "r", "c"), CreatedFrame("t"), Closing()]))
    ensures HasPassed(Run(Opened(n), [CreatedFrame("t"), PendingFrame("s", "r", "c"), Closing()]))
  {
    var p2 := Midway(RequiredInput, n + 2, true, true, true, true, true, true, true);
    var asked := Midway(RequiredInput, n + 1, true, true, true, true, true, true, false);
    var made := Midway(RequiredInput, n + 1, true, true, true, true, true, false, true);
    ClosingSteps(n);
    ClosingSteps(n + 1);
    CompletingPasses(p2, n + 2);
    TraceEnds([PendingFrame("s", "r", "c"), CreatedFrame("t"), Closing()],
      [Opened(n), asked, p2, Receive(p2, Closing())]);
    TraceEnds([CreatedFrame("t"), PendingFrame("s", "r", "c"), Closing()],
      [Opened(n), made, p2, Receive(p2, Closing())]);
  }

  lemma {:induction false} RunConcat(p: Probe, a: seq<Frame>, b: seq<Frame>)
    ensures Run(p, a + b) == Run(Run(p, a), b)
    decreases |b|
  {
    if b == [] {
      assert a + b == a;
    } else {
      var n := |b| - 1;
      assert (a + b)[..|a + b| - 1] == a + b[..n];
      RunConcat(p, a, b[..n]);
    }
  }

  function Called(n: nat): Probe {
    Midway(RequiredInput, n, true, true, true, false, false, false, false)
  }

  const AGREEMENT := [AcceptedFrame("s", "r"), CompletedFrame("r", "")]
  const OPENING := [CreatedFrame("r"), CallFrame("c")] + AGREEMENT
  const EARLY_CALL := [CallFrame("c"), CreatedFrame("r"), CallFrame("c")] + AGREEMENT

  lemma AgreementOpens(n: nat)
    requires n < 8
    ensures Run(Called(n), AGREEMENT) == Opened(n + 2)
  {
    OpeningSteps(n);
    OpeningSteps(n + 1);
    TraceEnds(AGREEMENT, [
      Called(n), Midway(RequiredInput, n + 1, true, true, true, true, false, false, false), Opened(n + 2)]);
  }

  lemma OpeningOpens()
    ensures Run(Fresh(RequiredInput, "M"), OPENING) == Opened(4)
  {
    var p := Fresh(RequiredInput, "M");
    OpeningSteps(0);
    OpeningSteps(1);
    TraceEnds([CreatedFrame("r"), CallFrame("c")], [
      p, Midway(RequiredInput, 1, false, true, false, false, false, false, false), Called(2)]);
    AgreementOpens(2);
    RunConcat(p, [CreatedFrame("r"), CallFrame("c")], AGREEMENT);
  }

  lemma EarlyCallOpens()
    ensures Run(Fresh(RequiredInput, "M"), EARLY_CALL) == Opened(5)
  {
    var p := Fresh(RequiredInput, "M");
    EarlyCallSteps(0);
    EarlyCallSteps(1);
    EarlyCallSteps(2);
    TraceEnds([CallFrame("c"), CreatedFrame("r"), CallFrame("c")], [
      p, Midway(RequiredInput, 1, true, false, false, false, false, false, false),
      Midway(RequiredInput, 2, true, true, false, false, false, false, false), Called(3)]);
    AgreementOpens(3);
    RunConcat(p, [CallFrame("c"), CreatedFrame("r"), CallFrame("c")], AGREEMENT);
  }

  /** With required input, a pass may ask before the successor is made, or only after it. */
  lemma ContinuationMayFollowSuccessor()
    ensures HasPassed(Run(Fresh(RequiredInput, "M"),
                          OPENING + [PendingFrame("s", "r", "c"), CreatedFrame("t"), CompletedFrame("t", "M")]))
    ensures HasPassed(Run(Fresh(RequiredInput, "M"),
                          OPENING + [CreatedFrame("t"), PendingFrame("s", "r", "c"), CompletedFrame("t", "M")]))
  {
    OpeningOpens();
    BothOrdersPass(4);
    var p := Fresh(RequiredInput, "M");
    RunConcat(p, OPENING, [PendingFrame("s", "r", "c"), CreatedFrame("t"), CompletedFrame("t", "M")]);
    RunConcat(p, OPENING, [CreatedFrame("t"), PendingFrame("s", "r", "c"), CompletedFrame("t", "M")]);
  }

  /** The call may be noted before the root is made, if it names no response. */
  lemma CallMayPrecedeRoot()
    ensures HasPassed(Run(Fresh(RequiredInput, "M"),
                          EARLY_CALL + [PendingFrame("s", "r", "c"), CreatedFrame("t"), CompletedFrame("t", "M")]))
  {
    EarlyCallOpens();
    BothOrdersPass(5);
    RunConcat(Fresh(RequiredInput, "M"), EARLY_CALL,
              [PendingFrame("s", "r", "c"), CreatedFrame("t"), CompletedFrame("t", "M")]);
  }

  /** A steered probe that has noted an empty call id, which does not count as noted. */
  function EmptyCall(n: nat, agreed: bool, over: bool): Probe {
    var p := Midway(RequiredInput, n, false, true, true, agreed, over, false, false);
    p.(story := p.story.(callId := Some("")))
  }

  const EMPTY_CALL := [CreatedFrame("r"), CallFrame("")]
  const LATE_CALL := EMPTY_CALL + (AGREEMENT + [CallFrame("c")])

  lemma LateCallSteps()
    ensures Receive(Midway(RequiredInput, 1, false, true, false, false, false, false, false), CallFrame(""))
      == EmptyCall(2, false, false)
    ensures Receive(EmptyCall(2, false, false), AcceptedFrame("s", "r")) == EmptyCall(3, true, false)
    ensures Receive(EmptyCall(3, true, false), CompletedFrame("r", "")) == EmptyCall(4, true, true)
    ensures Receive(EmptyCall(4, true, true), CallFrame("c")) == Opened(5)
  {
  }

  lemma EmptyCallSteers()
    ensures Run(Fresh(RequiredInput, "M"), EMPTY_CALL) == EmptyCall(2, false, false)
  {
    OpeningSteps(0);
    LateCallSteps();
    TraceEnds(EMPTY_CALL, [
      Fresh(RequiredInput, "M"), Midway(RequiredInput, 1, false, true, false, false, false, false, false),
      EmptyCall(2, false, false)]);
  }

  lemma CallNotedLate()
    ensures Run(EmptyCall(2, false, false), AGREEMENT + [CallFrame("c")]) == Opened(5)
  {
    LateCallSteps();
    TraceEnds(AGREEMENT + [CallFrame("c")], [
      EmptyCall(2, false, false), EmptyCall(3, true, false), EmptyCall(4, true, true), Opened(5)]);
  }

  lemma LateCallOpens()
    ensures Run(Fresh(RequiredInput, "M"), LATE_CALL) == Opened(5)
  {
    EmptyCallSteers();
    CallNotedLate();
    RunConcat(Fresh(RequiredInput, "M"), EMPTY_CALL, AGREEMENT + [CallFrame("c")]);
  }

  /** After an empty call id, the call may be noted after the steer, the acceptance and the root's end. */
  lemma CallMayFollowRootEnd()
    ensures HasPassed(Run(Fresh(RequiredInput, "M"),
                          LATE_CALL + [PendingFrame("s", "r", "c"), CreatedFrame("t"), CompletedFrame("t", "M")]))
  {
    LateCallOpens();
    BothOrdersPass(5);
    RunConcat(Fresh(RequiredInput, "M"), LATE_CALL,
              [PendingFrame("s", "r", "c"), CreatedFrame("t"), CompletedFrame("t", "M")]);
  }
}
