/** scripts/codebuddy-live-acceptance.ts, readResponseStream: the chunk loop over both halves. */
module SseReader {
  import opened SseFraming
  import opened SseFrames
  import opened TextLines

  const MAX_STREAM_BYTES := 2 * 1024 * 1024

  /** One read: its size on the wire, and the characters the streaming decoder released for it. */
  datatype Chunk = Chunk(bytes: nat, text: string)

  datatype StreamResult = StreamResult(response: ResponseRecord, events: seq<Json>)

  function Texts(chunks: seq<Chunk>): seq<string> {
    if chunks == [] then [] else [chunks[0].text] + Texts(chunks[1..])
  }

  function ByteTotal(chunks: seq<Chunk>): nat {
    if chunks == [] then 0 else chunks[0].bytes + ByteTotal(chunks[1..])
  }

  /** The reader between two reads. */
  datatype Held = Held(buffer: string, bytes: nat, progress: Progress)

  /** Every complete frame of the buffer handed on. */
  function Drained(parse: Parser, h: Held): Result<Held> {
    match ConsumeAll(parse, h.progress, Cut(h.buffer).frames)
    case Ok(p) => Ok(Held(Cut(h.buffer).rest, h.bytes, p))
    case Err(e) => Err(e)
  }

  function FeedChunk(parse: Parser, h: Held, chunk: Chunk): Result<Held> {
    if h.bytes + chunk.bytes > MAX_STREAM_BYTES then Err(StreamLimitExceeded)
    else Drained(parse, Held(Normalize(h.buffer + chunk.text), h.bytes + chunk.bytes, h.progress))
  }

  function FeedChunks(parse: Parser, h: Held, chunks: seq<Chunk>): Result<Held>
    decreases |chunks|
  {
    if chunks == [] then Ok(h)
    else
      match FeedChunk(parse, h, chunks[0])
      case Ok(h') => FeedChunks(parse, h', chunks[1..])
      case Err(e) => Err(e)
  }

  /** The checks at the end of the stream. */
  function Conclude(model: string, h: Held): Result<StreamResult> {
    if h.buffer != "" then Err(TruncatedSseFrame)
    else if h.progress.completed.None? then Err(MissingCompletion)
    else if !h.progress.done then Err(MissingDone)
    else
      var r := h.progress.completed.value;
      if r.status == Some("completed") && r.model == Some(model) && r.id.Some? && r.id.value != "" && r.outputIsArray
      then Ok(StreamResult(r, h.progress.events)) else Err(InvalidCompletedResponse)
  }

  function ReadStream(parse: Parser, model: string, chunks: seq<Chunk>): Result<StreamResult> {
    var h :- FeedChunks(parse, Held("", 0, START), chunks);
    Conclude(model, h)
  }

  // ---------- the loops

  class ResponseReader {
    const parse: Parser
    var buffer: string
    var bytes: nat
    var events: seq<Json>
    var completed: Option<ResponseRecord>
    var done: bool

    constructor (parse: Parser)
      ensures this.parse == parse && State() == Held("", 0, START)
    {
      this.parse := parse;
      buffer, bytes, events, completed, done := "", 0, [], None, false;
    }

    ghost function State(): Held
      reads this
    {
      Held(buffer, bytes, Progress(events, completed, done))
    }

    /** The loop over a frame's lines. */
    method ScanFrame(frame: string) returns (r: Result<Fields>)
      ensures r == ScanLines(Fields(None, []), Lines(frame))
    {
      var lines := Lines(frame);
      var name: Option<string>, data: seq<string> := None, [];
      for i := 0 to |lines|
        invariant ScanLines(Fields(name, data), lines[i..]) == ScanLines(Fields(None, []), lines)
      {
        var line := lines[i];
        assert lines[i..][0] == line && lines[i..][1..] == lines[i + 1..];
        if Ignored(line) { continue; }
        var separator := ColonAt(line);
        if separator < 0 { return Err(MalformedSse); }
        var field, value := FieldOf(line), ValueOf(line);
        if field == "event" {
          if name.Some? { return Err(MalformedSse); }
          name := Some(value);
        } else if field == "data" {
          data := data + [value];
        } else if field != "id" && field != "retry" {
          return Err(MalformedSse);
        }
      }
      assert lines[|lines|..] == [];
      r := Ok(Fields(name, data));
    }

    /** One frame; a failure is the exception the source throws. */
    method ConsumeFrame(frame: string) returns (r: Result<()>)
      modifies `events, `completed, `done
      ensures match Consume(parse, old(State()).progress, frame)
        case Ok(p) => r.Ok? && State() == old(State()).(progress := p)
        case Err(e) => r == Err(e)
    {
      if frame == "" || AllIgnored(frame) { return Ok(()); }
      var scanned := ScanFrame(frame);
      if scanned.Err? { return Err(scanned.code); }
      var fields := scanned.value;
      if fields.data == [] { return Err(MalformedSse); }
      var payload := JoinLines(fields.data);
      if payload == "[DONE]" {
        if completed.None? || done { return Err(PrematureOrDuplicateDone); }
        done := true;
        return Ok(());
      }
      if done || completed.Some? { return Err(EventAfterCompletion); }
      var parsed := EventIn(parse, fields.name, payload);
      if parsed.Err? { return Err(parsed.code); }
      if |events| >= MAX_EVENTS { return Err(StreamLimitExceeded); }
      events := events + [parsed.value];
      if parsed.value.kind == Some(COMPLETED) {
        if parsed.value.response.None? { return Err(InvalidCompletedResponse); }
        completed := parsed.value.response;
      }
      r := Ok(());
    }

    /** Hand on every complete frame in the buffer. */
    method DrainBuffer() returns (r: Result<()>)
      modifies `buffer, `events, `completed, `done
      ensures match Drained(parse, old(State()))
        case Ok(h) => r.Ok? && State() == h
        case Err(e) => r == Err(e)
    {
      ghost var start, all := State().progress, Cut(buffer);
      var end := BlankAt(buffer);
      while end >= 0
        invariant end == BlankAt(buffer) && bytes == old(bytes)
        invariant Cut(buffer).rest == all.rest
        invariant ConsumeAll(parse, start, all.frames) == ConsumeAll(parse, State().progress, Cut(buffer).frames)
        decreases |buffer|
      {
        ghost var here := Cut(buffer);
        r := ConsumeFrame(buffer[..end]);
        if r.Err? { return; }
        assert here.frames[1..] == Cut(buffer[end + 2..]).frames;
        buffer := buffer[end + 2..];
        end := BlankAt(buffer);
      }
      r := Ok(());
    }

    /** Everything one read does. */
    method Feed(chunk: Chunk) returns (r: Result<()>)
      modifies `buffer, `bytes, `events, `completed, `done
      ensures match FeedChunk(parse, old(State()), chunk)
        case Ok(h) => r.Ok? && State() == h
        case Err(e) => r == Err(e)
    {
      bytes := bytes + chunk.bytes;
      if bytes > MAX_STREAM_BYTES { return Err(StreamLimitExceeded); }
      buffer := buffer + chunk.text;
      buffer := Normalize(buffer);
      r := DrainBuffer();
    }
  }

  method ReadResponseStream(parse: Parser, model: string, chunks: seq<Chunk>) returns (r: Result<StreamResult>)
    ensures r == ReadStream(parse, model, chunks)
    ensures r.Ok? <==> ReadsThrough(parse, model, chunks)
  {
    ReadSucceedsIff(parse, model, chunks);
    var reader := new ResponseReader(parse);
    for i := 0 to |chunks|
      invariant reader.parse == parse
      invariant FeedChunks(parse, reader.State(), chunks[i..]) == FeedChunks(parse, Held("", 0, START), chunks)
    {
      assert chunks[i..][0] == chunks[i] && chunks[i..][1..] == chunks[i + 1..];
      var fed := reader.Feed(chunks[i]);
      if fed.Err? { return Err(fed.code); }
    }
    assert chunks[|chunks|..] == [];
    ghost var h := reader.State();
    if reader.buffer != "" { return Err(TruncatedSseFrame); }
    if reader.completed.None? { return Err(MissingCompletion); }
    if !reader.done { return Err(MissingDone); }
    var response := reader.completed.value;
    if response.status == Some("completed") && response.model == Some(model)
      && response.id.Some? && response.id.value != "" && response.outputIsArray
    {
      return Ok(StreamResult(response, reader.events));
    }
    r := Err(InvalidCompletedResponse);
  }

  // ---------- what a read means

  /** The reader after consuming these frames and keeping this remainder. */
  function Landed(parse: Parser, h: Held, cuts: Cuts, bytes: nat): Result<Held> {
    match ConsumeAll(parse, h.progress, cuts.frames)
    case Ok(p) => Ok(Held(cuts.rest, h.bytes + bytes, p))
    case Err(e) => Err(e)
  }

  lemma AfterLands(parse: Parser, h: Held, first: Cuts, later: Cuts, b1: nat, b2: nat)
    ensures Landed(parse, h, later.After(first.frames), b1 + b2) ==
      match Landed(parse, h, first, b1) case Ok(h') => Landed(parse, h', later, b2) case Err(e) => Err(e)
  {
    ConsumeAllConcat(parse, h.progress, first.frames, later.frames);
  }

  lemma ChunkLands(parse: Parser, h: Held, chunk: Chunk) returns (cuts: Cuts)
    requires h.bytes + chunk.bytes <= MAX_STREAM_BYTES
    ensures cuts == Cut(Normalize(h.buffer + chunk.text)) &&
      FeedChunk(parse, h, chunk) == Landed(parse, h, cuts, chunk.bytes)
    ensures FeedChunk(parse, h, chunk).Ok? ==>
      FeedChunk(parse, h, chunk).value.buffer == cuts.rest &&
        FeedChunk(parse, h, chunk).value.bytes == h.bytes + chunk.bytes
  {
    cuts := Cut(Normalize(h.buffer + chunk.text));
  }

  lemma FeedAllFirst(buffer: string, chunks: seq<Chunk>)
    requires chunks != []
    ensures var cuts := Cut(Normalize(buffer + chunks[0].text));
      FeedAll(buffer, Texts(chunks)) == FeedAll(cuts.rest, Texts(chunks[1..])).After(cuts.frames)
  {
    assert Texts(chunks)[1..] == Texts(chunks[1..]);
  }

  /** Within the byte limit, feeding chunk by chunk is consuming the frames of the buffer loop. */
  lemma {:induction false} FeedChunksIsConsumeAll(parse: Parser, h: Held, chunks: seq<Chunk>)
    requires h.bytes + ByteTotal(chunks) <= MAX_STREAM_BYTES
    ensures FeedChunks(parse, h, chunks) == Landed(parse, h, FeedAll(h.buffer, Texts(chunks)), ByteTotal(chunks))
    decreases |chunks|
  {
    if chunks != [] {
      FeedAllFirst(h.buffer, chunks);
      var first := FeedChunk(parse, h, chunks[0]);
      var cuts := ChunkLands(parse, h, chunks[0]);
      var later := FeedAll(cuts.rest, Texts(chunks[1..]));
      AfterLands(parse, h, cuts, later, chunks[0].bytes, ByteTotal(chunks[1..]));
      if first.Ok? { FeedChunksIsConsumeAll(parse, first.value, chunks[1..]); }
    }
  }

  lemma {:induction false} OverLimitFails(parse: Parser, h: Held, chunks: seq<Chunk>)
    requires h.bytes <= MAX_STREAM_BYTES < h.bytes + ByteTotal(chunks)
    ensures FeedChunks(parse, h, chunks).Err?
    decreases |chunks|
  {
    var r := FeedChunk(parse, h, chunks[0]);
    if r.Ok? { OverLimitFails(parse, r.value, chunks[1..]); }
  }

  /** The whole outcome, errors included, depends on the text only, not on where the reads fell. */
  lemma ReadIgnoresChunking(parse: Parser, model: string, a: seq<Chunk>, b: seq<Chunk>)
    requires Text(Texts(a)) == Text(Texts(b)) && !HasCrCrLf(Text(Texts(a)))
    requires ByteTotal(a) <= MAX_STREAM_BYTES && ByteTotal(b) <= MAX_STREAM_BYTES
    ensures ReadStream(parse, model, a) == ReadStream(parse, model, b)
  {
    FeedChunksIsConsumeAll(parse, Held("", 0, START), a);
    FeedChunksIsConsumeAll(parse, Held("", 0, START), b);
    ChunkingIndependentIff(Text(Texts(a)));
  }

  /** The completed response names this run's model and is usable. */
  predicate UsableResponse(model: string, r: ResponseRecord) {
    r.status == Some("completed") && r.model == Some(model) && r.id.Some? && r.id.value != "" && r.outputIsArray
  }

  /** Everything the end of a successful read depends on. */
  ghost predicate ReadsThrough(parse: Parser, model: string, chunks: seq<Chunk>) {
    var cuts := FeedAll("", Texts(chunks));
    && ByteTotal(chunks) <= 2_097_152 && cuts.rest == "" && Accepts(parse, cuts.frames, 0)
    && LastResponseUsable(model, EventsOf(parse, cuts.frames))
  }

  predicate LastResponseUsable(model: string, events: seq<Json>) {
    && events != [] && events[|events| - 1].JsonObject? && events[|events| - 1].response.Some?
    && UsableResponse(model, events[|events| - 1].response.value)
  }

  lemma ConcludeIff(model: string, h: Held)
    ensures Conclude(model, h).Ok? <==>
      h.buffer == "" && Finished(h.progress) && UsableResponse(model, h.progress.completed.value)
    ensures Conclude(model, h).Ok? ==>
      Conclude(model, h).value == StreamResult(h.progress.completed.value, h.progress.events)
    ensures Conclude(model, h) == Err(TruncatedSseFrame) <==> h.buffer != ""
    ensures Conclude(model, h) == Err(MissingCompletion) <==> h.buffer == "" && h.progress.completed.None?
    ensures Conclude(model, h) == Err(MissingDone) <==>
      h.buffer == "" && h.progress.completed.Some? && !h.progress.done
    ensures Conclude(model, h) == Err(InvalidCompletedResponse) <==>
      h.buffer == "" && Finished(h.progress) && !UsableResponse(model, h.progress.completed.value)
  {
  }

  /** Within the byte limit a read fails with the first failure of a frame, or else with what is missing at the end. */
  lemma ReadFailsIff(parse: Parser, model: string, chunks: seq<Chunk>, code: FailureCode)
    requires ByteTotal(chunks) <= 2_097_152
    ensures
      var cuts := FeedAll("", Texts(chunks));
      ReadStream(parse, model, chunks) == Err(code) <==>
        match ConsumeAll(parse, START, cuts.frames)
        case Err(_) => FirstFailure(parse, START, cuts.frames, code)
        case Ok(p) => Conclude(model, Held(cuts.rest, ByteTotal(chunks), p)) == Err(code)
  {
    FeedChunksIsConsumeAll(parse, Held("", 0, START), chunks);
    FirstFailureIff(parse, START, FeedAll("", Texts(chunks)).frames, code);
  }

  /**
   * A read succeeds exactly when the bytes fit, nothing is left in the buffer, the frames are
   * (event | skip)* completion skip* [DONE] skip* within the event limit, and the response is usable.
   */
  lemma ReadSucceedsIff(parse: Parser, model: string, chunks: seq<Chunk>)
    ensures ReadStream(parse, model, chunks).Ok? <==> ReadsThrough(parse, model, chunks)
    ensures ReadStream(parse, model, chunks).Ok? ==>
      var r := ReadStream(parse, model, chunks).value;
      CompletedLast(Progress(r.events, Some(r.response), true), EventsOf(parse, FeedAll("", Texts(chunks)).frames))
  {
    var start := Held("", 0, START);
    if ByteTotal(chunks) <= MAX_STREAM_BYTES {
      FeedChunksIsConsumeAll(parse, start, chunks);
      var frames := FeedAll("", Texts(chunks)).frames;
      SuccessIff(parse, frames);
      var r := ConsumeAll(parse, START, frames);
      if r.Ok? { ConcludeIff(model, FeedChunks(parse, start, chunks).value); }
    } else {
      OverLimitFails(parse, start, chunks);
    }
  }
}
