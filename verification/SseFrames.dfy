/** scripts/codebuddy-live-acceptance.ts, `consume`: one frame's lines, and the completion protocol. */
module SseFrames {
  import opened TextLines

  datatype Option<+T> = None | Some(value: T)

  datatype FailureCode =
    | MalformedSse | PrematureOrDuplicateDone | EventAfterCompletion | MalformedSseJson | MalformedSseEvent
    | ResponseFailed | StreamLimitExceeded | InvalidCompletedResponse | TruncatedSseFrame | MissingCompletion
    | MissingDone

  datatype Result<+T> = Ok(value: T) | Err(code: FailureCode) {
    predicate IsFailure() { Err? }
    function PropagateFailure<U>(): Result<U>
      requires Err?
    {
      Err(code)
    }
    function Extract(): T
      requires Ok?
    {
      value
    }
  }

  const MAX_EVENTS := 10_000
  const COMPLETED: string := "response.completed"

  // ---------- the lines of a frame

  predicate Ignored(line: string) {
    line == "" || line[0] == ':'
  }

  function ColonAt(line: string): (i: int)
    ensures -1 <= i < |line|
    ensures i >= 0 ==> line[i] == ':' && ':' !in line[..i]
    ensures i == -1 ==> ':' !in line
  {
    if line == "" then -1
    else if line[0] == ':' then 0
    else
      var i := ColonAt(line[1..]);
      assert line == [line[0]] + line[1..];
      if i == -1 then -1 else (assert line[..i + 1] == [line[0]] + line[1..][..i]; i + 1)
  }

  function FieldOf(line: string): string
    requires ColonAt(line) >= 0
  {
    line[..ColonAt(line)]
  }

  function ValueOf(line: string): string
    requires ColonAt(line) >= 0
  {
    var value := line[ColonAt(line) + 1..];
    if value != "" && value[0] == ' ' then value[1..] else value
  }

  datatype Fields = Fields(name: Option<string>, data: seq<string>)

  function ScanLine(f: Fields, line: string): (r: Result<Fields>)
    ensures r.Err? ==> r.code == MalformedSse
  {
    if Ignored(line) then Ok(f)
    else if ColonAt(line) < 0 then Err(MalformedSse)
    else if FieldOf(line) == "event" then
      if f.name.None? then Ok(f.(name := Some(ValueOf(line)))) else Err(MalformedSse)
    else if FieldOf(line) == "data" then Ok(f.(data := f.data + [ValueOf(line)]))
    else if FieldOf(line) == "id" || FieldOf(line) == "retry" then Ok(f)
    else Err(MalformedSse)
  }

  function ScanLines(f: Fields, lines: seq<string>): (r: Result<Fields>)
    ensures r.Err? ==> r.code == MalformedSse
    decreases |lines|
  {
    if lines == [] then Ok(f)
    else
      var f' :- ScanLine(f, lines[0]);
      ScanLines(f', lines[1..])
  }

  predicate KnownLine(line: string) {
    Ignored(line) || (ColonAt(line) >= 0 && FieldOf(line) in ["event", "data", "id", "retry"])
  }

  predicate HasField(line: string, field: string) {
    !Ignored(line) && ColonAt(line) >= 0 && FieldOf(line) == field
  }

  /** The values a field takes over the lines, in order. */
  function ValuesOf(lines: seq<string>, field: string): seq<string> {
    if lines == [] then []
    else (if HasField(lines[0], field) then [ValueOf(lines[0])] else []) + ValuesOf(lines[1..], field)
  }

  predicate AllKnown(lines: seq<string>) {
    forall line :: line in lines ==> KnownLine(line)
  }

  /** The line gives a field this value: whatever follows the colon, less one space. */
  predicate Says(line: string, field: string, value: string) {
    line == field + ": " + value || (line == field + ":" + value && !(" " <= value))
  }

  predicate IsFieldName(field: string) {
    field != "" && ':' !in field
  }

  /** A line has a field exactly when it is the field's name, a colon and the value. */
  lemma LineMeaning(line: string, field: string, value: string)
    requires IsFieldName(field)
    ensures HasField(line, field) && ValueOf(line) == value <==> Says(line, field, value)
  {
    if Says(line, field, value) {
      ColonAfter(field, line[|field| + 1..]);
      assert line == field + ":" + line[|field| + 1..];
    }
  }

  lemma {:induction false} ColonAfter(field: string, rest: string)
    requires ':' !in field
    ensures ColonAt(field + ":" + rest) == |field|
    ensures (field + ":" + rest)[..|field|] == field && (field + ":" + rest)[|field| + 1..] == rest
  {
    var line := field + ":" + rest;
    if field == "" {
    } else {
      ColonAfter(field[1..], rest);
      assert line[1..] == field[1..] + ":" + rest && line[0] == field[0] && field[0] in field;
    }
  }

  /** A line is accepted when it is empty, a comment, or one of the four fields. */
  lemma KnownIff(line: string)
    ensures KnownLine(line) <==>
      || line == "" || ":" <= line
      || exists field, value :: field in {"event", "data", "id", "retry"} && Says(line, field, value)
  {
    if KnownLine(line) && !Ignored(line) { LineMeaning(line, FieldOf(line), ValueOf(line)); }
    if field, value :| field in {"event", "data", "id", "retry"} && Says(line, field, value) {
      FourNames(field);
      LineMeaning(line, field, value);
    }
  }

  lemma FourNames(field: string)
    requires field in {"event", "data", "id", "retry"}
    ensures IsFieldName(field)
  {
  }

  lemma AllKnownCons(lines: seq<string>)
    requires lines != []
    ensures AllKnown(lines) <==> KnownLine(lines[0]) && AllKnown(lines[1..])
  {
    assert lines == [lines[0]] + lines[1..];
  }

  lemma ScanLineMeaning(f: Fields, line: string)
    ensures ScanLine(f, line).Ok? <==> KnownLine(line) && !(HasField(line, "event") && f.name.Some?)
    ensures ScanLine(f, line).Ok? ==> ScanLine(f, line).value == Fields(
      if HasField(line, "event") then Some(ValueOf(line)) else f.name,
      if HasField(line, "data") then f.data + [ValueOf(line)] else f.data)
  {
  }

  /** The scan accepts known fields with at most one event name, and collects exactly the data values. */
  lemma {:induction false} ScanLinesMeaning(f: Fields, lines: seq<string>)
    ensures ScanLines(f, lines).Ok? <==>
      AllKnown(lines) && |ValuesOf(lines, "event")| + (if f.name.Some? then 1 else 0) <= 1
    ensures ScanLines(f, lines).Ok? ==> ScanLines(f, lines).value == Fields(
      if ValuesOf(lines, "event") == [] then f.name else Some(ValuesOf(lines, "event")[0]),
      f.data + ValuesOf(lines, "data"))
    decreases |lines|
  {
    if lines != [] {
      AllKnownCons(lines);
      ScanLineMeaning(f, lines[0]);
      var r := ScanLine(f, lines[0]);
      if r.Ok? { ScanLinesMeaning(r.value, lines[1..]); }
    }
  }

  // ---------- what a frame is

  /** A parsed JSON value, as far as the reader looks: `response` is present when it is an object. */
  datatype Json = JsonObject(kind: Option<string>, response: Option<ResponseRecord>, raw: string) | OtherJson

  datatype ResponseRecord = ResponseRecord(
    status: Option<string>, model: Option<string>, id: Option<string>, outputIsArray: bool, raw: string)

  type Parser = string -> Option<Json>

  datatype FrameKind = Skip | Malformed | DoneMark | Message(name: Option<string>, payload: string)

  predicate AllIgnored(frame: string) {
    forall line :: line in Lines(frame) ==> Ignored(line)
  }

  function KindOf(frame: string): FrameKind {
    if frame == "" || AllIgnored(frame) then Skip
    else
      match ScanLines(Fields(None, []), Lines(frame))
      case Err(_) => Malformed
      case Ok(f) =>
        if f.data == [] then Malformed
        else if JoinLines(f.data) == "[DONE]" then DoneMark
        else Message(f.name, JoinLines(f.data))
  }

  function EventIn(parse: Parser, name: Option<string>, payload: string): Result<Json> {
    match parse(payload)
    case None => Err(MalformedSseJson)
    case Some(json) =>
      if json.OtherJson? || json.kind.None? then Err(MalformedSseEvent)
      else if name.Some? && name.value != "" && name.value != json.kind.value then Err(MalformedSseEvent)
      else if json.kind.value in ["error", "response.failed", "response.incomplete"] then Err(ResponseFailed)
      else Ok(json)
  }

  /** What the reader has kept so far. */
  datatype Progress = Progress(events: seq<Json>, completed: Option<ResponseRecord>, done: bool)

  const START := Progress([], None, false)

  /** `consume`, as a function of the progress before the frame. */
  function Consume(parse: Parser, p: Progress, frame: string): Result<Progress> {
    match KindOf(frame)
    case Skip => Ok(p)
    case Malformed => Err(MalformedSse)
    case DoneMark =>
      if p.completed.Some? && !p.done then Ok(p.(done := true)) else Err(PrematureOrDuplicateDone)
    case Message(name, payload) =>
      if p.done || p.completed.Some? then Err(EventAfterCompletion)
      else
        var json :- EventIn(parse, name, payload);
        if |p.events| >= MAX_EVENTS then Err(StreamLimitExceeded)
        else if json.kind == Some(COMPLETED) then
          if json.response.None? then Err(InvalidCompletedResponse)
          else Ok(p.(events := p.events + [json], completed := json.response))
        else Ok(p.(events := p.events + [json]))
  }

  function ConsumeAll(parse: Parser, p: Progress, frames: seq<string>): Result<Progress>
    decreases |frames|
  {
    if frames == [] then Ok(p)
    else
      var p' :- Consume(parse, p, frames[0]);
      ConsumeAll(parse, p', frames[1..])
  }

  lemma {:induction false} ConsumeAllConcat(parse: Parser, p: Progress, a: seq<string>, b: seq<string>)
    ensures ConsumeAll(parse, p, a + b) ==
      match ConsumeAll(parse, p, a) case Err(e) => Err(e) case Ok(q) => ConsumeAll(parse, q, b)
    decreases |a|
  {
    if a == [] {
      assert a + b == b;
    } else {
      assert (a + b)[1..] == a[1..] + b;
      var r := Consume(parse, p, a[0]);
      if r.Ok? { ConsumeAllConcat(parse, r.value, a[1..], b); }
    }
  }

  /** Everything before this frame is taken, and the frame is not. */
  ghost predicate FailsAt(parse: Parser, p: Progress, frames: seq<string>, k: int, code: FailureCode) {
    && 0 <= k < |frames| && ConsumeAll(parse, p, frames[..k]).Ok?
    && Consume(parse, ConsumeAll(parse, p, frames[..k]).value, frames[k]) == Err(code)
  }

  ghost predicate FirstFailure(parse: Parser, p: Progress, frames: seq<string>, code: FailureCode) {
    exists k :: FailsAt(parse, p, frames, k, code)
  }

  lemma FailsAtLater(parse: Parser, p: Progress, frames: seq<string>, k: int, code: FailureCode)
    requires frames != [] && Consume(parse, p, frames[0]).Ok?
    ensures FailsAt(parse, p, frames, k, code) <==>
      FailsAt(parse, Consume(parse, p, frames[0]).value, frames[1..], k - 1, code)
  {
    if 0 < k < |frames| {
      assert frames[..k][1..] == frames[1..][..k - 1] && frames[1..][k - 1] == frames[k];
    }
    if k == 0 { assert frames[..0] == []; }
  }

  /** Reading frames fails as the first of them that fails. */
  lemma {:induction false} FirstFailureIff(parse: Parser, p: Progress, frames: seq<string>, code: FailureCode)
    ensures ConsumeAll(parse, p, frames) == Err(code) <==> FirstFailure(parse, p, frames, code)
    decreases |frames|
  {
    if frames != [] {
      var first := Consume(parse, p, frames[0]);
      if first.Err? {
        FailsOnlyFirst(parse, p, frames);
        assert FailsAt(parse, p, frames, 0, first.code);
      } else {
        FirstFailureIff(parse, first.value, frames[1..], code);
        forall k { FailsAtLater(parse, p, frames, k, code); }
        if k :| FailsAt(parse, first.value, frames[1..], k, code) { assert FailsAt(parse, p, frames, k + 1, code); }
      }
    }
  }

  lemma FailsOnlyFirst(parse: Parser, p: Progress, frames: seq<string>)
    requires frames != [] && Consume(parse, p, frames[0]).Err?
    ensures forall k, code ::
      FailsAt(parse, p, frames, k, code) <==> k == 0 && Consume(parse, p, frames[0]) == Err(code)
  {
    assert frames[..0] == [];
    forall k | 0 < k < |frames| ensures ConsumeAll(parse, p, frames[..k]).Err? { assert frames[..k][0] == frames[0]; }
  }

  // ---------- the language of streams that succeed

  /** Nothing but empty lines and comments. */
  predicate IsSkip(frame: string) {
    forall line :: line in Lines(frame) ==> line == "" || ":" <= line
  }

  /** The data values, joined. */
  function PayloadOf(frame: string): string {
    JoinLines(ValuesOf(Lines(frame), "data"))
  }

  /** Known lines only, with data, and with at most one event name. */
  predicate IsReadable(frame: string) {
    && AllKnown(Lines(frame)) && |ValuesOf(Lines(frame), "event")| <= 1 && ValuesOf(Lines(frame), "data") != []
  }

  predicate IsDone(frame: string) {
    IsReadable(frame) && PayloadOf(frame) == "[DONE]"
  }

  predicate IsMessage(frame: string) {
    IsReadable(frame) && PayloadOf(frame) != "[DONE]"
  }

  /** The payload is an object with a type, and an event name that is given and not empty is that type. */
  predicate IsNamedEvent(parse: Parser, names: seq<string>, payload: string) {
    && parse(payload).Some?
    && var json := parse(payload).value;
       json.JsonObject? && json.kind.Some? && forall name :: name in names ==> name == "" || name == json.kind.value
  }

  predicate IsTyped(parse: Parser, frame: string) {
    IsMessage(frame) && IsNamedEvent(parse, ValuesOf(Lines(frame), "event"), PayloadOf(frame))
  }

  predicate IsFailureType(json: Json) {
    json.JsonObject? && json.kind.Some? && json.kind.value in {"error", "response.failed", "response.incomplete"}
  }

  /** The type says that the response failed. */
  predicate IsFailure(parse: Parser, frame: string) {
    IsTyped(parse, frame) && IsFailureType(parse(PayloadOf(frame)).value)
  }

  /** The frame carries a usable event. */
  predicate IsEvent(parse: Parser, frame: string) {
    IsTyped(parse, frame) && !IsFailure(parse, frame)
  }

  function EventOf(parse: Parser, frame: string): Json
    requires IsEvent(parse, frame)
  {
    parse(PayloadOf(frame)).value
  }

  predicate IsCompletion(parse: Parser, frame: string) {
    && IsEvent(parse, frame)
    && EventOf(parse, frame).kind == Some("response.completed") && EventOf(parse, frame).response.Some?
  }

  predicate IsOrdinary(parse: Parser, frame: string) {
    IsEvent(parse, frame) && EventOf(parse, frame).kind != Some("response.completed")
  }

  lemma SkipIff(frame: string)
    ensures IsSkip(frame) <==> KindOf(frame) == Skip
    ensures IsSkip(frame) ==> !IsReadable(frame)
  {
    if frame == "" { assert Lines(frame) == [""]; }
    if IsSkip(frame) { SkipHasNoData(Lines(frame)); }
  }

  /** A skippable frame carries nothing. */
  lemma SkipIsNothingElse(parse: Parser, frame: string)
    requires IsSkip(frame)
    ensures !IsDone(frame) && !IsEvent(parse, frame)
  {
    SkipIff(frame);
  }

  lemma {:induction false} SkipHasNoData(lines: seq<string>)
    requires forall line :: line in lines ==> Ignored(line)
    ensures ValuesOf(lines, "data") == []
  {
    if lines != [] { SkipHasNoData(lines[1..]); }
  }

  /** What each kind of frame is, on its lines. */
  lemma KindIff(frame: string)
    ensures KindOf(frame) == DoneMark <==> IsDone(frame)
    ensures KindOf(frame).Message? <==> IsMessage(frame)
    ensures IsMessage(frame) ==>
      var names := ValuesOf(Lines(frame), "event");
      KindOf(frame) == Message(if names == [] then None else Some(names[0]), PayloadOf(frame))
    ensures KindOf(frame) == Malformed <==> !IsSkip(frame) && !IsReadable(frame)
  {
    SkipIff(frame);
    ScanLinesMeaning(Fields(None, []), Lines(frame));
    assert [] + ValuesOf(Lines(frame), "data") == ValuesOf(Lines(frame), "data");
  }

  /** Nobody names the event, or the one name given is empty or the type. */
  lemma OneName(names: seq<string>, kind: string)
    requires |names| <= 1
    ensures (forall name :: name in names ==> name == "" || name == kind) <==>
      names == [] || names[0] == "" || names[0] == kind
  {
    if names != [] {
      assert names == [names[0]];
      assert names[0] in names;
    }
  }

  /** What becomes of a message: each failure has its own condition on the payload and the event name. */
  lemma EventIff(parse: Parser, frame: string)
    requires KindOf(frame).Message?
    ensures
      var r := EventIn(parse, KindOf(frame).name, KindOf(frame).payload);
      && (r.Ok? <==> IsEvent(parse, frame))
      && (r.Ok? ==> r.value == EventOf(parse, frame))
      && (r == Err(MalformedSseJson) <==> parse(PayloadOf(frame)).None?)
      && (r == Err(MalformedSseEvent) <==> parse(PayloadOf(frame)).Some? && !IsTyped(parse, frame))
      && (r == Err(ResponseFailed) <==> IsFailure(parse, frame))
  {
    KindIff(frame);
    EventInIs(parse, ValuesOf(Lines(frame), "event"), PayloadOf(frame));
  }

  lemma EventInIs(parse: Parser, names: seq<string>, payload: string)
    requires |names| <= 1
    ensures
      var r := EventIn(parse, if names == [] then None else Some(names[0]), payload);
      var named := IsNamedEvent(parse, names, payload);
      && (r.Ok? <==> named && !IsFailureType(parse(payload).value))
      && (r.Ok? ==> Some(r.value) == parse(payload))
      && (r == Err(MalformedSseJson) <==> parse(payload).None?)
      && (r == Err(MalformedSseEvent) <==> parse(payload).Some? && !named)
      && (r == Err(ResponseFailed) <==> named && IsFailureType(parse(payload).value))
  {
    var json := parse(payload);
    if json.Some? && json.value.JsonObject? && json.value.kind.Some? { OneName(names, json.value.kind.value); }
  }

  /** A frame fails with exactly one code, by what it is and by what came before it. */
  lemma FailsIff(parse: Parser, p: Progress, frame: string)
    ensures
      var r := Consume(parse, p, frame);
      var early := p.completed.None? && !p.done;
      var full := |p.events| >= 10_000;
      && (r == Err(MalformedSse) <==> !IsSkip(frame) && !IsReadable(frame))
      && (r == Err(PrematureOrDuplicateDone) <==> IsDone(frame) && (p.completed.None? || p.done))
      && (r == Err(EventAfterCompletion) <==> IsMessage(frame) && !early)
      && (r == Err(MalformedSseJson) <==> IsMessage(frame) && early && parse(PayloadOf(frame)).None?)
      && (r == Err(MalformedSseEvent) <==>
            IsMessage(frame) && early && parse(PayloadOf(frame)).Some? && !IsTyped(parse, frame))
      && (r == Err(ResponseFailed) <==> IsFailure(parse, frame) && early)
      && (r == Err(StreamLimitExceeded) <==> IsEvent(parse, frame) && early && full)
      && (r == Err(InvalidCompletedResponse) <==>
            IsEvent(parse, frame) && early && !full && !IsOrdinary(parse, frame) && !IsCompletion(parse, frame))
      && (r.Err? ==> r.code !in {TruncatedSseFrame, MissingCompletion, MissingDone})
  {
    KindIff(frame);
    SkipIff(frame);
    if KindOf(frame).Message? { EventIff(parse, frame); }
  }

  /** The events a frame sequence carries, in order. */
  function EventsOf(parse: Parser, frames: seq<string>): seq<Json> {
    if frames == [] then []
    else (if IsEvent(parse, frames[0]) then [EventOf(parse, frames[0])] else []) + EventsOf(parse, frames[1..])
  }

  ghost predicate AllSkip(frames: seq<string>) {
    forall k :: 0 <= k < |frames| ==> IsSkip(frames[k])
  }

  /** One `[DONE]` at `d`, everything else skippable. */
  ghost predicate DoneAt(frames: seq<string>, d: int) {
    && 0 <= d < |frames| && IsDone(frames[d])
    && forall k :: 0 <= k < |frames| && k != d ==> IsSkip(frames[k])
  }

  /** Ordinary events and skippable frames, the completion at `c`, then a single `[DONE]` `d` frames later. */
  ghost predicate Wellformed(parse: Parser, frames: seq<string>, c: int, d: int) {
    && 0 <= c < |frames| && IsCompletion(parse, frames[c])
    && AllEarly(parse, frames, c)
    && DoneAt(frames[c + 1..], d)
  }

  ghost predicate Finished(p: Progress) {
    p.completed.Some? && p.done
  }

  /** After the completion only skippable frames and one `[DONE]` are taken. */
  lemma ConsumeStale(parse: Parser, p: Progress, frame: string)
    requires p.completed.Some? || p.done
    ensures Consume(parse, p, frame).Ok? <==> IsSkip(frame) || (IsDone(frame) && !p.done)
    ensures Consume(parse, p, frame).Ok? ==>
      Consume(parse, p, frame).value == if IsDone(frame) then p.(done := true) else p
    ensures IsDone(frame) ==> !IsSkip(frame)
  {
    KindIff(frame);
    SkipIff(frame);
  }

  lemma {:induction false} AfterDone(parse: Parser, p: Progress, frames: seq<string>)
    requires p.done
    ensures ConsumeAll(parse, p, frames).Ok? <==> AllSkip(frames)
    ensures ConsumeAll(parse, p, frames).Ok? ==> ConsumeAll(parse, p, frames).value == p
    decreases |frames|
  {
    if frames != [] {
      ConsumeStale(parse, p, frames[0]);
      AfterDone(parse, p, frames[1..]);
      if IsSkip(frames[0]) {
        assert AllSkip(frames) <==> AllSkip(frames[1..]) by {
          if AllSkip(frames[1..]) {
            forall k | 0 <= k < |frames| ensures IsSkip(frames[k]) {
              if k > 0 { assert IsSkip(frames[1..][k - 1]); }
            }
          }
        }
      }
    }
  }

  lemma DoneShift(frames: seq<string>, d: int)
    requires frames != [] && IsSkip(frames[0])
    ensures DoneAt(frames, d + 1) <==> DoneAt(frames[1..], d)
    ensures !DoneAt(frames, 0)
  {
    SkipIff(frames[0]);
    var rest := frames[1..];
    if DoneAt(rest, d) {
      forall k | 0 <= k < |frames| && k != d + 1 ensures IsSkip(frames[k]) {
        if k > 0 { assert frames[k] == rest[k - 1]; }
      }
    }
    if DoneAt(frames, d + 1) {
      forall k | 0 <= k < |rest| && k != d ensures IsSkip(rest[k]) { assert frames[k + 1] == rest[k]; }
    }
  }

  lemma {:induction false} AfterCompletion(parse: Parser, p: Progress, frames: seq<string>)
    requires p.completed.Some? && !p.done
    ensures (ConsumeAll(parse, p, frames).Ok? && ConsumeAll(parse, p, frames).value.done) <==>
      exists d :: DoneAt(frames, d)
    ensures ConsumeAll(parse, p, frames).Ok? && ConsumeAll(parse, p, frames).value.done ==>
      ConsumeAll(parse, p, frames).value == p.(done := true)
    decreases |frames|
  {
    if frames != [] {
      var rest := frames[1..];
      ConsumeStale(parse, p, frames[0]);
      if IsSkip(frames[0]) {
        AfterCompletion(parse, p, rest);
        if d :| DoneAt(rest, d) { DoneShift(frames, d); }
        if d :| DoneAt(frames, d) { DoneShift(frames, d - 1); }
      } else if IsDone(frames[0]) {
        AfterDone(parse, p.(done := true), rest);
        DoneFirst(frames);
      } else {
        assert forall d :: !DoneAt(frames, d);
      }
    }
  }

  lemma DoneFirst(frames: seq<string>)
    requires frames != [] && IsDone(frames[0])
    ensures AllSkip(frames[1..]) <==> DoneAt(frames, 0)
    ensures forall d :: DoneAt(frames, d) ==> d == 0
  {
    if AllSkip(frames[1..]) {
      forall k | 0 <= k < |frames| && k != 0 ensures IsSkip(frames[k]) {
        assert IsSkip(frames[1..][k - 1]);
      }
    }
    forall d | DoneAt(frames, d) ensures d == 0 { SkipIff(frames[0]); }
    if DoneAt(frames, 0) {
      forall k | 0 <= k < |frames[1..]| ensures IsSkip(frames[1..][k]) {
        assert IsSkip(frames[k + 1]);
      }
    }
  }

  ghost predicate AllEarly(parse: Parser, frames: seq<string>, c: int) {
    c <= |frames| && forall k :: 0 <= k < c ==> IsSkip(frames[k]) || IsOrdinary(parse, frames[k])
  }

  lemma AllEarlyShift(parse: Parser, frames: seq<string>, c: nat)
    requires frames != [] && (IsSkip(frames[0]) || IsOrdinary(parse, frames[0]))
    ensures AllEarly(parse, frames, c + 1) <==> AllEarly(parse, frames[1..], c)
  {
    var rest := frames[1..];
    if AllEarly(parse, rest, c) {
      forall k | 0 <= k < c + 1 ensures IsSkip(frames[k]) || IsOrdinary(parse, frames[k]) {
        if k > 0 { assert frames[k] == rest[k - 1]; }
      }
    }
    if AllEarly(parse, frames, c + 1) {
      forall k | 0 <= k < c ensures IsSkip(rest[k]) || IsOrdinary(parse, rest[k]) { assert frames[k + 1] == rest[k]; }
    }
  }

  lemma WellformedShift(parse: Parser, frames: seq<string>, c: int, d: int)
    requires frames != [] && (IsSkip(frames[0]) || IsOrdinary(parse, frames[0]))
    ensures c >= 0 ==> (Wellformed(parse, frames, c + 1, d) <==> Wellformed(parse, frames[1..], c, d))
    ensures !Wellformed(parse, frames, 0, d)
  {
    if IsSkip(frames[0]) { SkipIsNothingElse(parse, frames[0]); }
    if c >= 0 && c + 1 < |frames| {
      assert frames[c + 2..] == frames[1..][c + 1..] && frames[c + 1] == frames[1..][c];
      AllEarlyShift(parse, frames, c);
    }
  }

  ghost predicate InLanguage(parse: Parser, frames: seq<string>) {
    exists c, d :: Wellformed(parse, frames, c, d)
  }

  /** Accepted with the events within the limit: `room` more may still be kept. */
  ghost predicate Accepts(parse: Parser, frames: seq<string>, kept: nat) {
    InLanguage(parse, frames) && kept + |EventsOf(parse, frames)| <= 10_000
  }

  lemma {:induction false} SkipsCarryNoEvents(parse: Parser, frames: seq<string>)
    requires forall k :: 0 <= k < |frames| ==> !IsEvent(parse, frames[k])
    ensures EventsOf(parse, frames) == []
  {
    if frames != [] { SkipsCarryNoEvents(parse, frames[1..]); }
  }

  /** How each kind of frame moves a progress that has not seen the completion yet. */
  lemma ConsumeFresh(parse: Parser, p: Progress, frame: string)
    requires p.completed.None? && !p.done
    ensures IsSkip(frame) ==> Consume(parse, p, frame) == Ok(p)
    ensures IsOrdinary(parse, frame) ==>
      Consume(parse, p, frame) ==
        if |p.events| >= MAX_EVENTS then Err(StreamLimitExceeded)
        else Ok(p.(events := p.events + [EventOf(parse, frame)]))
    ensures IsCompletion(parse, frame) ==>
      Consume(parse, p, frame) ==
        if |p.events| >= MAX_EVENTS then Err(StreamLimitExceeded)
        else Ok(p.(events := p.events + [EventOf(parse, frame)], completed := EventOf(parse, frame).response))
    ensures !IsSkip(frame) && !IsOrdinary(parse, frame) && !IsCompletion(parse, frame) ==> Consume(parse, p, frame).Err?
  {
    KindIff(frame);
    SkipIff(frame);
    if KindOf(frame).Message? { EventIff(parse, frame); }
  }

  ghost predicate Succeeds(parse: Parser, p: Progress, frames: seq<string>) {
    ConsumeAll(parse, p, frames).Ok? && Finished(ConsumeAll(parse, p, frames).value)
  }

  /** What success from a fresh progress means. */
  ghost predicate SuccessMeansAccepted(parse: Parser, p: Progress, frames: seq<string>) {
    && (Succeeds(parse, p, frames) <==> Accepts(parse, frames, |p.events|))
    && (Succeeds(parse, p, frames) ==> ConsumeAll(parse, p, frames).value.events == p.events + EventsOf(parse, frames))
  }

  lemma {:induction false} BeforeCompletion(parse: Parser, p: Progress, frames: seq<string>)
    requires p.completed.None? && !p.done
    ensures SuccessMeansAccepted(parse, p, frames)
    decreases |frames|
  {
    if frames != [] {
      ConsumeFresh(parse, p, frames[0]);
      if IsSkip(frames[0]) {
        BeforeCompletion(parse, p, frames[1..]);
        SkipFirst(parse, p, frames);
      } else if IsOrdinary(parse, frames[0]) {
        var q := p.(events := p.events + [EventOf(parse, frames[0])]);
        BeforeCompletion(parse, q, frames[1..]);
        OrdinaryFirst(parse, p, q, frames);
      } else if IsCompletion(parse, frames[0]) {
        CompletionFirst(parse, p, frames);
      } else {
        assert forall c, d :: !Wellformed(parse, frames, c, d);
      }
    }
  }

  lemma SameLanguage(parse: Parser, frames: seq<string>)
    requires frames != [] && (IsSkip(frames[0]) || IsOrdinary(parse, frames[0]))
    ensures InLanguage(parse, frames) <==> InLanguage(parse, frames[1..])
  {
    if InLanguage(parse, frames) { LanguageOfRest(parse, frames); }
    if InLanguage(parse, frames[1..]) { LanguageOfMore(parse, frames); }
  }

  lemma LanguageOfRest(parse: Parser, frames: seq<string>)
    requires frames != [] && (IsSkip(frames[0]) || IsOrdinary(parse, frames[0])) && InLanguage(parse, frames)
    ensures InLanguage(parse, frames[1..])
  {
    var c, d :| Wellformed(parse, frames, c, d);
    WellformedShift(parse, frames, c - 1, d);
  }

  lemma LanguageOfMore(parse: Parser, frames: seq<string>)
    requires frames != [] && (IsSkip(frames[0]) || IsOrdinary(parse, frames[0])) && InLanguage(parse, frames[1..])
    ensures InLanguage(parse, frames)
  {
    var c, d :| Wellformed(parse, frames[1..], c, d);
    WellformedShift(parse, frames, c, d);
  }

  lemma SkipFirst(parse: Parser, p: Progress, frames: seq<string>)
    requires frames != [] && IsSkip(frames[0]) && Consume(parse, p, frames[0]) == Ok(p)
    requires SuccessMeansAccepted(parse, p, frames[1..])
    ensures SuccessMeansAccepted(parse, p, frames)
  {
    SkipIff(frames[0]);
    SameLanguage(parse, frames);
    assert EventsOf(parse, frames) == EventsOf(parse, frames[1..]);
  }

  lemma ConcatAssociates<T>(a: seq<T>, b: seq<T>, c: seq<T>)
    ensures (a + b) + c == a + (b + c)
  {
  }

  lemma EventFirst(parse: Parser, frames: seq<string>)
    requires frames != [] && IsEvent(parse, frames[0])
    ensures EventsOf(parse, frames) == [EventOf(parse, frames[0])] + EventsOf(parse, frames[1..])
  {
  }

  lemma OrdinaryEvents(parse: Parser, p: Progress, q: Progress, frames: seq<string>)
    requires frames != [] && IsEvent(parse, frames[0])
    requires q.events == p.events + [EventOf(parse, frames[0])]
    ensures |EventsOf(parse, frames)| == |EventsOf(parse, frames[1..])| + 1
    ensures q.events + EventsOf(parse, frames[1..]) == p.events + EventsOf(parse, frames)
  {
    EventFirst(parse, frames);
    ConcatAssociates(p.events, [EventOf(parse, frames[0])], EventsOf(parse, frames[1..]));
  }

  lemma OrdinaryFirst(parse: Parser, p: Progress, q: Progress, frames: seq<string>)
    requires frames != [] && IsOrdinary(parse, frames[0])
    requires q == p.(events := p.events + [EventOf(parse, frames[0])])
    requires Consume(parse, p, frames[0]) == if |p.events| >= MAX_EVENTS then Err(StreamLimitExceeded) else Ok(q)
    requires SuccessMeansAccepted(parse, q, frames[1..])
    ensures SuccessMeansAccepted(parse, p, frames)
  {
    SameLanguage(parse, frames);
    OrdinaryEvents(parse, p, q, frames);
    if |p.events| >= MAX_EVENTS {
      assert ConsumeAll(parse, p, frames).Err?;
    } else {
      assert ConsumeAll(parse, p, frames) == ConsumeAll(parse, q, frames[1..]);
    }
  }

  lemma CompletionLanguage(parse: Parser, frames: seq<string>)
    requires frames != [] && IsCompletion(parse, frames[0])
    ensures InLanguage(parse, frames) <==> exists d :: DoneAt(frames[1..], d)
  {
    if d :| DoneAt(frames[1..], d) { assert Wellformed(parse, frames, 0, d); }
    if c, d :| Wellformed(parse, frames, c, d) {
      if c > 0 { SkipIff(frames[0]); }
      assert DoneAt(frames[1..], d);
    }
  }

  lemma CompletionEvents(parse: Parser, frames: seq<string>, d: int)
    requires frames != [] && IsCompletion(parse, frames[0]) && DoneAt(frames[1..], d)
    ensures EventsOf(parse, frames) == [EventOf(parse, frames[0])]
  {
    forall k | 0 <= k < |frames[1..]| ensures !IsEvent(parse, frames[1..][k]) {
      if k != d { SkipIsNothingElse(parse, frames[1..][k]); }
    }
    SkipsCarryNoEvents(parse, frames[1..]);
  }

  lemma CompletionFirst(parse: Parser, p: Progress, frames: seq<string>)
    requires frames != [] && IsCompletion(parse, frames[0]) && p.completed.None? && !p.done
    ensures SuccessMeansAccepted(parse, p, frames)
  {
    ConsumeFresh(parse, p, frames[0]);
    CompletionLanguage(parse, frames);
    if d :| DoneAt(frames[1..], d) { CompletionEvents(parse, frames, d); }
    if |p.events| < MAX_EVENTS {
      AfterCompletion(parse, Consume(parse, p, frames[0]).value, frames[1..]);
      assert ConsumeAll(parse, p, frames) == ConsumeAll(parse, Consume(parse, p, frames[0]).value, frames[1..]);
    }
  }

  /** The events kept: all of `events`, with the one completion at the end naming the kept response. */
  ghost predicate CompletedLast(p: Progress, events: seq<Json>) {
    && p.events == events && 0 < |events| <= 10_000
    && (forall k :: 0 <= k < |events| ==> events[k].JsonObject?)
    && (forall k :: 0 <= k < |events| ==> (events[k].kind == Some("response.completed") <==> k == |events| - 1))
    && p.completed == events[|events| - 1].response
  }

  /**
   * A frame sequence is read to the end with a completion and a `[DONE]` exactly when it is
   * (event | skip)* completion skip* [DONE] skip* with at most MAX_EVENTS events; the events kept are
   * all of them, the completion last.
   */
  lemma SuccessIff(parse: Parser, frames: seq<string>)
    ensures Succeeds(parse, START, frames) <==> Accepts(parse, frames, 0)
    ensures Succeeds(parse, START, frames) ==>
      CompletedLast(ConsumeAll(parse, START, frames).value, EventsOf(parse, frames))
  {
    BeforeCompletion(parse, START, frames);
    KeptShape(parse, START, frames);
    if Succeeds(parse, START, frames) {
      assert [] + EventsOf(parse, frames) == EventsOf(parse, frames);
      ShapeMeansLast(ConsumeAll(parse, START, frames).value);
    }
  }

  lemma ShapeMeansLast(p: Progress)
    requires GoodShape(p) && Finished(p)
    ensures CompletedLast(p, p.events)
  {
  }

  ghost predicate GoodShape(p: Progress) {
    && (p.done ==> p.completed.Some?)
    && (forall k :: 0 <= k < |p.events| - 1 ==> p.events[k].JsonObject? && p.events[k].kind != Some(COMPLETED))
    && (p.events != [] ==> p.events[|p.events| - 1].JsonObject?)
    && (p.completed.Some? ==> p.events != [])
    && (p.completed.Some? ==> p.events[|p.events| - 1].kind == Some(COMPLETED))
    && (p.completed.Some? ==> p.completed == p.events[|p.events| - 1].response)
    && (p.completed.None? && p.events != [] ==> p.events[|p.events| - 1].kind != Some(COMPLETED))
    && |p.events| <= MAX_EVENTS
  }

  lemma AppendKeepsShape(p: Progress, json: Json)
    requires GoodShape(p) && p.completed.None? && !p.done && |p.events| < MAX_EVENTS && json.JsonObject?
    ensures json.kind != Some(COMPLETED) ==> GoodShape(p.(events := p.events + [json]))
    ensures json.kind == Some(COMPLETED) && json.response.Some? ==>
      GoodShape(p.(events := p.events + [json], completed := json.response))
  {
    var events := p.events + [json];
    forall k | 0 <= k < |events| - 1 ensures events[k].JsonObject? && events[k].kind != Some(COMPLETED) {
      assert events[k] == p.events[k];
    }
  }

  lemma ConsumeKeepsShape(parse: Parser, p: Progress, frame: string)
    requires GoodShape(p)
    ensures Consume(parse, p, frame).Ok? ==> GoodShape(Consume(parse, p, frame).value)
  {
    if p.completed.None? && !p.done {
      ConsumeFresh(parse, p, frame);
      if IsEvent(parse, frame) && |p.events| < MAX_EVENTS { AppendKeepsShape(p, EventOf(parse, frame)); }
    } else {
      ConsumeStale(parse, p, frame);
    }
  }

  /** Kept by every frame consumed: completions come last, once, and name the kept response. */
  lemma {:induction false} KeptShape(parse: Parser, p: Progress, frames: seq<string>)
    requires GoodShape(p)
    ensures ConsumeAll(parse, p, frames).Ok? ==> GoodShape(ConsumeAll(parse, p, frames).value)
    decreases |frames|
  {
    if frames != [] {
      var r := Consume(parse, p, frames[0]);
      ConsumeKeepsShape(parse, p, frames[0]);
      if r.Ok? { KeptShape(parse, r.value, frames[1..]); }
    }
  }
}
