/**
 Re-framing the request body toward the origin: frames are fetched from the downstream connection,
 encoded piece by piece and written through partial writes, any await of which may be dropped.
 */
module RequestWriting {
  import opened HttpText
  import opened Numerals
  import opened Headers
  import opened ChunkedGrammar
  import opened Wire
  import opened Http1Connection
  import opened BodyDecoding

  // ---- what is sent ----

  function EncodeFrame(chunked: bool, data: string): string
  {
    if chunked then Print(16, |data|) + "\r\n" + (data + "\r\n") else data
  }

  function EncodeFrames(chunked: bool, frames: seq<string>): string
  {
    if frames == [] then ""
    else EncodeFrame(chunked, frames[0]) + EncodeFrames(chunked, frames[1..])
  }

  function Concat(frames: seq<string>): string
  {
    if frames == [] then "" else frames[0] + Concat(frames[1..])
  }

  function ClosingText(chunked: bool, fields: seq<Field>): string
  {
    if chunked then "0\r\n" + (RenderFields(fields) + "\r\n") else ""
  }

  ghost predicate GoodFrames(frames: seq<string>)
  {
    forall d :: d in frames ==> 0 < |d| <= REQUEST_BODY_FRAME_LIMIT
  }

  lemma {:induction false} EncodeSnoc(chunked: bool, frames: seq<string>, data: string)
    ensures EncodeFrames(chunked, frames + [data]) == EncodeFrames(chunked, frames) + EncodeFrame(chunked, data)
  {
    hide EncodeFrame;
    if frames == [] {
      assert frames + [data] == [data] && [data][1..] == [];
    } else {
      assert (frames + [data])[1..] == frames[1..] + [data];
      EncodeSnoc(chunked, frames[1..], data);
      Assoc(EncodeFrame(chunked, frames[0]), EncodeFrames(chunked, frames[1..]), EncodeFrame(chunked, data));
    }
  }

  lemma {:induction false} ConcatSnoc(frames: seq<string>, data: string)
    ensures Concat(frames + [data]) == Concat(frames) + data
  {
    if frames == [] {
      assert frames + [data] == [data] && [data][1..] == [];
    } else {
      assert (frames + [data])[1..] == frames[1..] + [data];
      ConcatSnoc(frames[1..], data);
      Assoc(frames[0], Concat(frames[1..]), data);
    }
  }

  lemma {:induction false} PlainEncoding(frames: seq<string>)
    ensures EncodeFrames(false, frames) == Concat(frames)
  {
    if frames != [] {
      PlainEncoding(frames[1..]);
    }
  }

  // ---- the syntax tree of what is sent ----

  function ChunksOf(frames: seq<string>): seq<Chunk>
  {
    if frames == [] then [] else [Chunk(Print(16, |frames[0]|), frames[0])] + ChunksOf(frames[1..])
  }

  function LinesOf(fields: seq<Field>): seq<string>
  {
    if fields == [] then [] else [LineOf(fields[0])] + LinesOf(fields[1..])
  }

  lemma {:induction false} FrameChunkValid(limits: Limits, data: string)
    requires 0 < |data| <= REQUEST_BODY_FRAME_LIMIT && limits.line >= 7
    ensures ValidChunk(limits, Chunk(Print(16, |data|), data))
  {
    ChunkSizeRoundTrip(|data|);
    ShortHex(|data|);
    PlainTextIsALine(Print(16, |data|));
  }

  lemma {:induction false} ChunksOfMeaning(limits: Limits, frames: seq<string>)
    requires GoodFrames(frames) && limits.line >= 7
    ensures forall c :: c in ChunksOf(frames) ==> ValidChunk(limits, c)
    ensures RenderChunks(ChunksOf(frames)) == EncodeFrames(true, frames)
    ensures Data(ChunksOf(frames)) == Concat(frames)
  {
    hide ValidChunk;
    if frames != [] {
      assert frames[0] in frames && forall d :: d in frames[1..] ==> d in frames;
      FrameChunkValid(limits, frames[0]);
      ChunksOfMeaning(limits, frames[1..]);
      assert ChunksOf(frames)[1..] == ChunksOf(frames[1..]);
      var chunk := Chunk(Print(16, |frames[0]|), frames[0]);
      Assoc(chunk.line + "\r\n", chunk.data, "\r\n");
    }
  }

  lemma {:induction false} LinesOfMeaning(headers: HeaderMap, fields: seq<Field>)
    requires forall f :: f in fields ==> GoodField(f)
    ensures ValidTrailerLines(LinesOf(fields))
    ensures RenderLines(LinesOf(fields)) == RenderFields(fields) + "\r\n"
    ensures SectionOctets(LinesOf(fields)) == |RenderFields(fields)| + 2
    ensures AddLines(headers, LinesOf(fields)) == AddFields(headers, fields)
    decreases |fields|
  {
    hide GoodField, LineOf, ParseFieldLine, LineText;
    if fields != [] {
      var f := fields[0];
      assert f in fields && forall x :: x in fields[1..] ==> x in fields;
      FieldRoundTrip(f);
      FieldLineIsPlain(f);
      PlainTextIsALine(LineOf(f));
      NonEmptyLine(f);
      LinesOfMeaning(Append(headers, f.name, f.value), fields[1..]);
      assert LinesOf(fields)[1..] == LinesOf(fields[1..]);
      Assoc(LineOf(f) + "\r\n", RenderFields(fields[1..]), "\r\n");
    }
  }

  lemma {:induction false} NonEmptyLine(field: Field)
    ensures LineOf(field) != ""
  {
  }

  lemma {:induction false} ZeroLine()
    ensures ParseChunkSize("0") == Some(0) && LineText("0")
  {
    ChunkSizeRoundTrip(0);
    PlainTextIsALine("0");
    assert Print(16, 0) == "0";
  }

  /** How a receiver takes the forwarded trailers: refused as too large exactly when their printed
      section is longer than its limit. */
  ghost function ForwardedVerdict(limits: Limits, forwarded: HeaderMap): Verdict
  {
    if SectionLength(forwarded) <= limits.trailers then Done(forwarded, "") else TooLarge
  }

  /** Re-framing preserves meaning: what is emitted for any frames and fields decodes to the
      concatenated frames and, exactly when the section fits, to the map the fields denote. */
  lemma {:induction false} ReframedDecodes(limits: Limits, frames: seq<string>, fields: seq<Field>)
    requires GoodFrames(frames) && forall f :: f in fields ==> GoodField(f)
    requires limits.line >= 7
    ensures Decode(limits, ChunkSize, map[], 0, EncodeFrames(true, frames) + ClosingText(true, fields)) ==
            Outcome(Concat(frames), ForwardedVerdict(limits, MapOf(fields)))
  {
    hide ValidChunk, Decode, GoodField, LineText, ValidTrailerLines, Render, ParseChunkSize, RenderFields, AddLines;
    hide ChunksOf, LinesOf, SectionOctets, EncodeFrames, Concat, Data, ClosingText, RenderChunks, RenderLines;
    hide SectionLength, MapOf;
    ChunksOfMeaning(limits, frames);
    LinesOfMeaning(map[], fields);
    ZeroLine();
    var body := ChunkedBody(ChunksOf(frames), "0", LinesOf(fields));
    GrammarDecoded(limits, body, "");
    RenderedBody(body, EncodeFrames(true, frames), fields);
    RenderedSectionLength(fields);
    FieldsOfMap(fields);
  }

  lemma {:induction false} FieldsOfMap(fields: seq<Field>)
    ensures AddFields(map[], fields) == MapOf(fields)
  {
  }

  lemma {:induction false} RenderedBody(body: ChunkedBody, text: string, fields: seq<Field>)
    requires body.last == "0" && RenderChunks(body.chunks) == text
    requires RenderLines(body.trailers) == RenderFields(fields) + "\r\n"
    ensures Render(body) + "" == text + ClosingText(true, fields)
  {
  }

  // ---- the writer ----

  datatype RequestState =
    | NeedFrame
    | SendData(data: string)
    | SendDataEnd
    | TrailerFields(fields: seq<Field>)
    | TrailerValuePrefix(value: string, fields: seq<Field>)
    | TrailerValue(value: string, fields: seq<Field>)
    | TrailerLineEnd(fields: seq<Field>)
    | Flush

  datatype PendingWrite = PendingWrite(bytes: string, offset: nat, next: RequestState)

  datatype ForwardErrorKind = BadRequest | BadGateway

  datatype StepResult = Stepped | StepDropped | StepFailed(kind: ForwardErrorKind)

  /** What a state still owes the origin before the next frame. */
  function Owed(state: RequestState): string
  {
    match state
    case NeedFrame => ""
    case SendData(data) => data + "\r\n"
    case SendDataEnd => "\r\n"
    case TrailerFields(fields) => RenderFields(fields) + "\r\n"
    case TrailerValuePrefix(value, fields) => ": " + (value + ("\r\n" + (RenderFields(fields) + "\r\n")))
    case TrailerValue(value, fields) => value + ("\r\n" + (RenderFields(fields) + "\r\n"))
    case TrailerLineEnd(fields) => "\r\n" + (RenderFields(fields) + "\r\n")
    case Flush => ""
  }

  /** `buffered_bytes` of a state. */
  function StateBytes(state: RequestState): nat
  {
    match state
    case NeedFrame => 0
    case SendData(data) => |data|
    case SendDataEnd => 0
    case TrailerFields(fields) => FieldBytes(fields)
    case TrailerValuePrefix(value, fields) => |value| + FieldBytes(fields)
    case TrailerValue(value, fields) => |value| + FieldBytes(fields)
    case TrailerLineEnd(fields) => FieldBytes(fields)
    case Flush => 0
  }

  predicate BodyState(state: RequestState)
  {
    state.NeedFrame? || state.SendData? || state.SendDataEnd?
  }

  /** The piece queued in a state that has one, and the state after it. */
  function Following(state: RequestState): PendingWrite
    requires !state.NeedFrame? && !state.Flush?
  {
    match state
    case SendData(data) => PendingWrite(data, 0, SendDataEnd)
    case SendDataEnd => PendingWrite("\r\n", 0, NeedFrame)
    case TrailerFields(fields) =>
      if fields == [] then PendingWrite("\r\n", 0, Flush)
      else PendingWrite(fields[0].name, 0, TrailerValuePrefix(fields[0].value, fields[1..]))
    case TrailerValuePrefix(value, fields) => PendingWrite(": ", 0, TrailerValue(value, fields))
    case TrailerValue(value, fields) => PendingWrite(value, 0, TrailerLineEnd(fields))
    case TrailerLineEnd(fields) => PendingWrite("\r\n", 0, TrailerFields(fields))
  }

  /** Queueing moves owed octets into the pending write and adds at most two. */
  lemma {:induction false} FollowingFacts(state: RequestState)
    requires !state.NeedFrame? && !state.Flush?
    ensures var queued := Following(state);
            && queued.offset == 0
            && queued.bytes + Owed(queued.next) == Owed(state)
            && |queued.bytes| + StateBytes(queued.next) <= StateBytes(state) + 2
            && (BodyState(state) ==>
                  |queued.bytes| + StateBytes(queued.next) <= if StateBytes(state) < 2 then 2 else StateBytes(state))
            && StateBytes(queued.next) <= StateBytes(state)
            && (BodyState(queued.next) <==> BodyState(state))
  {
    if state.TrailerFields? && state.fields != [] {
      FirstFieldText(state.fields);
    }
  }

  /** A write is taken off the queue with its last octet; one of no octets stays. */
  predicate Unwritten(write: PendingWrite)
  {
    write.offset < |write.bytes| || (write.bytes == "" && write.offset == 0)
  }

  // ---- values that cannot be sent ----

  ghost predicate BlankField(fields: seq<Field>)
  {
    exists f :: f in fields && f.value == ""
  }

  /** A map with an empty value: its field line has a value of no octets. */
  ghost predicate BlankValue(headers: HeaderMap)
  {
    exists n :: n in headers && "" in headers[n]
  }

  /** Whether an empty value is still to be queued. */
  ghost predicate BlankOwed(state: RequestState)
  {
    match state
    case TrailerFields(fields) => BlankField(fields)
    case TrailerValuePrefix(value, fields) => value == "" || BlankField(fields)
    case TrailerValue(value, fields) => value == "" || BlankField(fields)
    case TrailerLineEnd(fields) => BlankField(fields)
    case _ => false
  }

  /** Everything but a trailer value has octets. */
  ghost predicate Sendable(state: RequestState)
  {
    match state
    case SendData(data) => data != ""
    case TrailerFields(fields) => AllNamed(fields)
    case TrailerValuePrefix(_, fields) => AllNamed(fields)
    case TrailerValue(_, fields) => AllNamed(fields)
    case TrailerLineEnd(fields) => AllNamed(fields)
    case _ => true
  }

  ghost predicate AllNamed(fields: seq<Field>)
  {
    forall f :: f in fields ==> f.name != ""
  }

  /** Only an empty trailer value is ever queued as a write of no octets. */
  lemma {:induction false} FollowingBlank(state: RequestState)
    requires !state.NeedFrame? && !state.Flush? && Sendable(state)
    ensures var queued := Following(state);
            Sendable(queued.next) && (queued.bytes == "" || BlankOwed(queued.next) <==> BlankOwed(state))
  {
    if state.TrailerFields? && state.fields != [] {
      var first, rest := state.fields[0], state.fields[1..];
      assert first in state.fields;
      assert forall f :: f in state.fields <==> f == first || f in rest;
    }
  }

  lemma {:induction false} BlankFieldsAdded(headers: HeaderMap, fields: seq<Field>)
    ensures BlankValue(AddFields(headers, fields)) <==> BlankValue(headers) || BlankField(fields)
    decreases |fields|
  {
    if fields != [] {
      var first, rest := fields[0], fields[1..];
      BlankFieldsAdded(Append(headers, first.name, first.value), rest);
      BlankAppended(headers, first.name, first.value);
      assert first in fields;
      assert forall f :: f in fields <==> f == first || f in rest;
    }
  }

  lemma {:induction false} BlankAppended(headers: HeaderMap, name: string, value: string)
    ensures BlankValue(Append(headers, name, value)) <==> BlankValue(headers) || value == ""
  {
    var more := Append(headers, name, value);
    assert more[name] == GetAll(headers, name) + [value];
    if BlankValue(headers) {
      var n :| n in headers && "" in headers[n];
      assert n in more && "" in more[n];
    }
    if value == "" {
      assert name in more && "" in more[name];
    }
  }

  /** Any order in which a map may iterate. */
  method IterationOrder(headers: HeaderMap) returns (order: seq<string>)
    ensures Ordering(headers, order)
  {
    order := [];
    var rest := headers.Keys;
    while rest != {}
      invariant forall n :: n in headers <==> n in order || n in rest
      invariant forall n :: n in order ==> n !in rest
      invariant forall i, j :: 0 <= i < j < |order| ==> order[i] != order[j]
      decreases rest
    {
      var n :| n in rest;
      order := order + [n];
      rest := rest - {n};
    }
  }

  /** Only a chunked body has trailers. */
  predicate NothingToForward(chunked: bool, body: Outcome)
  {
    !chunked && body.verdict.Done? ==> body.verdict.trailers == map[]
  }

  /** The whole text of the frames fetched so far, closed once the body has ended. */
  ghost function Spelled(chunked: bool, sent: seq<string>, closing: Option<seq<Field>>): string
  {
    EncodeFrames(chunked, sent) + if closing.Some? then ClosingText(chunked, closing.value) else ""
  }

  /** What was emitted after `base`, followed by what is owed, is the whole text. */
  ghost predicate Spells(base: string, emitted: string, owed: string, whole: string)
  {
    base <= emitted && emitted[|base|..] + owed == whole
  }

  /** What was fetched and what is still to be decoded make up the initial outcome. */
  ghost predicate Accounts(initial: Outcome, sent: seq<string>, closing: Option<seq<Field>>,
                           nominations: seq<string>, remaining: Outcome)
  {
    match closing
    case None => initial == Prepend(Concat(sent), remaining)
    case Some(fields) =>
      && initial.payload == Concat(sent)
      && initial.verdict.Done? && remaining.verdict.Done?
      && initial.verdict.rest == remaining.verdict.rest
      && TrailersAllowed(initial.verdict.trailers)
      && ForwardedTrailers(initial.verdict.trailers, nominations) == Some(MapOf(fields))
      && forall f :: f in fields ==> GoodField(f)
  }

  /** A trailer to forward has an empty value, which cannot be written. */
  ghost predicate CannotBeSent(body: Outcome, nominations: seq<string>)
  {
    && body.verdict.Done?
    && var forwarded := ForwardedTrailers(body.verdict.trailers, nominations);
    && forwarded.Some? && BlankValue(forwarded.value)
  }

  lemma {:induction false} BlankIsForwarded(initial: Outcome, sent: seq<string>, closing: Option<seq<Field>>,
                                            nominations: seq<string>, remaining: Outcome)
    requires Accounts(initial, sent, closing, nominations, remaining)
    ensures closing.Some? ==> (CannotBeSent(initial, nominations) <==> BlankField(closing.value))
  {
    hide BlankField, ForwardedTrailers, TrailersAllowed, GoodField;
    if closing.Some? {
      BlankFieldsAdded(map[], closing.value);
    }
  }

  /** The share of the aggregate buffer budget in use. */
  predicate Budgeted(closing: Option<seq<Field>>, idle: bool, pendingBytes: nat, stateBytes: nat, held: nat)
  {
    match closing
    case None =>
      idle || (pendingBytes + stateBytes + held <= REQUEST_BODY_FRAME_LIMIT + 7 && held <= REQUEST_BODY_FRAME_LIMIT)
    case Some(fields) =>
      && stateBytes <= FieldBytes(fields)
      && pendingBytes + stateBytes <= FieldBytes(fields) + 5
      && FieldBytes(fields) + 5 + held <= HEADER_SECTION_LIMIT
  }

  /** The trailer fields to forward, in whatever order the filtered map iterates. */
  method ForwardedFields(trailers: HeaderMap, nominations: seq<string>) returns (fields: seq<Field>)
    requires WellFormed(trailers) && TrailersAllowed(trailers)
    ensures ForwardedTrailers(trailers, nominations) == Some(MapOf(fields))
    ensures forall f :: f in fields ==> GoodField(f)
    ensures FieldBytes(fields) <= HeaderBytes(trailers)
    ensures AllNamed(fields)
  {
    hide Sanitized, WellFormed, TrailersAllowed, HeaderBytes, ForwardedTrailers, MapOf, GoodField, FieldBytes;
    AllowedTrailersSanitize(trailers);
    var sanitized := SanitizeHopByHop(trailers);
    var kept := RemoveEach(sanitized.value, nominations);
    KeptTrailers(trailers, nominations);
    var order := IterationOrder(kept);
    OwnedFieldsDenoteMap(kept, order);
    fields := OwnedFields(Entries(kept, order));
    GoodAreNamed(fields);
  }

  lemma {:induction false} GoodAreNamed(fields: seq<Field>)
    requires forall f :: f in fields ==> GoodField(f)
    ensures AllNamed(fields)
  {
  }

  class RequestWriter {
    const decoder: BodyDecoder
    const chunked: bool
    const nominations: seq<string>
    // What the origin was sent before the body.
    ghost const base: string
    var state: RequestState
    var pending: Option<PendingWrite>
    var complete: bool
    // The body still to come when the writer was created.
    ghost var initial: Outcome
    // Data frames fetched so far, and the trailer fields once the body has ended.
    ghost var sent: seq<string>
    ghost var closing: Option<seq<Field>>

    ghost function Next(): RequestState
      reads this
    {
      if pending.Some? then pending.value.next else state
    }

    ghost function PendingText(): string
      reads this
    {
      if pending.Some? && pending.value.offset <= |pending.value.bytes|
      then pending.value.bytes[pending.value.offset..] else ""
    }

    predicate WaitingOnUpstream()
      reads this
    {
      pending.Some? || state.Flush?
    }

    /** Octets the writer and its decoder own. */
    ghost function Buffered(): nat
      reads this, decoder
    {
      HeaderBytes(decoder.trailerHeaders) + StateBytes(state) +
      if pending.Some? then |PendingText()| + StateBytes(pending.value.next) else 0
    }

    ghost predicate ValidQueue()
      reads this
    {
      && (pending.Some? ==> state.NeedFrame? && Unwritten(pending.value))
      && (complete ==> pending.None? && state.Flush? && closing.Some?)
      && (closing.None? <==> BodyState(Next()))
      && GoodFrames(sent)
    }

    /** The body octets the origin has accepted. */
    ghost function Body(sink: Sink): string
      requires base <= sink.emitted
      reads this, sink
    {
      sink.emitted[|base|..]
    }

    /** Emitted octets followed by the owed ones spell exactly what was fetched. */
    ghost predicate Faithful(sink: Sink)
      reads this, sink
    {
      Spells(base, sink.emitted, PendingText() + Owed(Next()), Spelled(chunked, sent, closing))
    }

    ghost predicate Accounted(connection: Connection)
      requires decoder.Valid(connection)
      reads this, decoder, connection, connection.buffer, connection.io
    {
      Accounts(initial, sent, closing, nominations, decoder.Remaining(connection)) &&
      (closing.Some? ==> decoder.state.Complete?)
    }

    ghost predicate WithinBudget(connection: Connection)
      requires connection.Valid()
      reads this, decoder, connection, connection.buffer
    {
      Budgeted(closing, pending.None? && state.NeedFrame?, |PendingText()|, StateBytes(Next()),
               decoder.Held(connection))
    }

    /** A blank write is ahead exactly when some trailer to forward has an empty value. */
    ghost predicate BlanksAhead()
      reads this
    {
      && Sendable(Next())
      && ((pending.Some? && pending.value.bytes == "") || BlankOwed(Next()) <==>
            closing.Some? && BlankField(closing.value))
    }

    ghost predicate Valid(connection: Connection, sink: Sink)
      reads this, decoder, sink, connection, connection.buffer, connection.io
    {
      && decoder.Valid(connection)
      && ValidQueue()
      && BlanksAhead()
      && Faithful(sink)
      && Accounted(connection)
      && WithinBudget(connection)
      && NothingToForward(chunked, initial)
      && (complete ==> sink.flushed)
    }

    constructor (framing: BodyFraming, nominations: seq<string>, connection: Connection, sink: Sink)
      requires connection.Valid() && |connection.Unread()| <= REQUEST_LINE_LIMIT
      ensures Valid(connection, sink) && fresh(decoder) && !complete
      ensures chunked == framing.Chunked? && this.nominations == nominations && base == sink.emitted
      ensures initial == Decode(LIMITS, InitialState(framing), map[], 0, connection.Stream())
    {
      hide Decode, DecodeTrailers, CutLine;
      this.decoder := new BodyDecoder(framing);
      this.chunked := framing.Chunked?;
      this.nominations := nominations;
      base := sink.emitted;
      state := NeedFrame;
      pending := None;
      complete := false;
      initial := Decode(LIMITS, InitialState(framing), map[], 0, connection.Stream());
      sent := [];
      closing := None;
      new;
      EmptyIsWellFormed();
      if !framing.Chunked? {
        FixedHasNoTrailers(framing, connection.Stream());
      }
      assert HeaderBytes(map[]) == 0;
      assert initial == Prepend("", decoder.Remaining(connection));
    }

    /** The accepted octets leave the pending write; with the last one, so does the write. */
    method Accept(written: nat, ghost connection: Connection, ghost sink: Sink)
      requires decoder.Valid(connection) && ValidQueue() && BlanksAhead()
      requires Accounted(connection) && WithinBudget(connection) && NothingToForward(chunked, initial)
      requires pending.Some? && !complete && 0 < written <= |PendingText()|
      requires Spells(base, sink.emitted, PendingText()[written..] + Owed(Next()), Spelled(chunked, sent, closing))
      modifies this`pending, this`state
      ensures Valid(connection, sink)
    {
      hide Decode, EncodeFrames, WellFormed, Concat, RenderFields, ClosingText, BoundedReadAhead;
      hide TrailersAllowed, ForwardedTrailers, HeaderBytes, FieldBytes, GoodField, GoodFrames, ValidState;
      hide BodyDecoder.Valid, BodyDecoder.Remaining, BodyDecoder.Held, Owed, MapOf, BlankField;
      hide Accounts, BlankOwed, Sendable, NothingToForward, Spelled, StateBytes;
      var current := pending.value;
      var offset := current.offset + written;
      assert current.bytes[current.offset..][written..] == current.bytes[offset..];
      pending := Some(current.(offset := offset));
      if offset == |current.bytes| {
        pending := None;
        state := current.next;
        assert current.bytes[offset..] == "";
      }
    }

    /** One `write` of what is pending. A short write advances the offset; a dropped one changes nothing;
        a write that accepts nothing is a failure, even of an empty trailer value. */
    method WritePending(ghost connection: Connection, sink: Sink) returns (r: StepResult)
      requires Valid(connection, sink) && pending.Some? && !complete
      modifies this, sink
      ensures Valid(connection, sink) && !complete
      ensures initial == old(initial) && sent == old(sent) && closing == old(closing)
      ensures old(sink.emitted) <= sink.emitted
      ensures r.StepFailed? ==> r.kind == BadGateway && (sink.refused || CannotBeSent(initial, nominations))
      ensures if r.Stepped? then |old(sink.emitted)| < |sink.emitted| else sink.emitted == old(sink.emitted)
    {
      hide Decode, EncodeFrames, WellFormed, Concat, RenderFields, ClosingText, BoundedReadAhead;
      hide TrailersAllowed, ForwardedTrailers, HeaderBytes, FieldBytes, GoodField, GoodFrames, ValidState;
      hide BodyDecoder.Valid, BodyDecoder.Remaining, BodyDecoder.Held, Owed, MapOf, BlankField, CannotBeSent;
      hide Accounts, BlankOwed, Sendable, NothingToForward, Spelled, StateBytes, Budgeted, Spells;
      var bytes := pending.value.bytes[pending.value.offset..];
      assert bytes == PendingText();
      var result := sink.Write(bytes);
      match result {
        case WriteDropped => return StepDropped;
        case WriteFailed => return StepFailed(BadGateway);
        case Wrote(written) =>
          if written == 0 {
            assert sink.emitted == old(sink.emitted);
            BlankIsForwarded(initial, sent, closing, nominations, decoder.Remaining(connection));
            return StepFailed(BadGateway);
          }
          PartOut(base, old(sink.emitted), bytes, written, Owed(Next()), Spelled(chunked, sent, closing));
          Accept(written, connection, sink);
          return Stepped;
      }
    }

    /** One `write` or the final flush. */
    method StepUpstream(ghost connection: Connection, sink: Sink) returns (r: StepResult)
      requires Valid(connection, sink) && WaitingOnUpstream() && !complete
      modifies this, sink
      ensures Valid(connection, sink)
      ensures initial == old(initial) && sent == old(sent) && closing == old(closing)
      ensures old(sink.emitted) <= sink.emitted
      ensures r.StepFailed? ==> r.kind == BadGateway && (sink.refused || CannotBeSent(initial, nominations))
      ensures r.Stepped? ==> complete || |old(sink.emitted)| < |sink.emitted|
      ensures !r.Stepped? ==> sink.emitted == old(sink.emitted)
    {
      hide Decode, EncodeFrames, WellFormed, Concat, RenderFields, ClosingText, BoundedReadAhead;
      hide TrailersAllowed, ForwardedTrailers, HeaderBytes, FieldBytes, GoodField, GoodFrames, ValidState;
      hide BodyDecoder.Valid, BodyDecoder.Remaining, BodyDecoder.Held, Owed, MapOf, BlankField, CannotBeSent;
      if pending.Some? {
        r := WritePending(connection, sink);
        return;
      }
      var result := sink.Flush();
      match result {
        case WriteDropped => return StepDropped;
        case WriteFailed => return StepFailed(BadGateway);
        case Wrote(_) =>
          complete := true;
          return Stepped;
      }
    }

    /** Fetches the next frame or queues the next piece of the current one. */
    method StepDownstream(connection: Connection, ghost sink: Sink) returns (r: StepResult)
      requires Valid(connection, sink) && !WaitingOnUpstream()
      modifies this, decoder, connection, connection.buffer, connection.io
      ensures connection.Valid() && initial == old(initial)
      ensures !r.StepFailed? ==> Valid(connection, sink) && !complete
      ensures r.StepFailed? ==> r.kind == ForwardErrorKind.BadRequest && ErrorFor(initial.verdict).Some? &&
                                Concat(sent) == initial.payload && sent == old(sent)
    {
      if state.NeedFrame? {
        r := FetchFrame(connection, sink);
      } else {
        QueueNext(connection, sink);
        r := Stepped;
      }
    }

    method QueueNext(ghost connection: Connection, ghost sink: Sink)
      requires Valid(connection, sink) && !WaitingOnUpstream() && !state.NeedFrame?
      modifies this
      ensures Valid(connection, sink) && !complete && pending.Some?
      ensures initial == old(initial) && sent == old(sent) && closing == old(closing)
    {
      hide Decode, EncodeFrames, WellFormed, Concat, ClosingText, BoundedReadAhead, Spelled, Accounts, Owed;
      hide RenderFields, FieldBytes, StateBytes, BodyDecoder.Valid, BodyDecoder.Remaining, Following, GoodFrames;
      var current := state;
      FollowingFacts(current);
      FollowingBlank(current);
      state := NeedFrame;
      pending := Some(Following(current));
    }

    method FetchFrame(connection: Connection, ghost sink: Sink) returns (r: StepResult)
      requires Valid(connection, sink) && !WaitingOnUpstream() && state.NeedFrame?
      modifies this, decoder, connection, connection.buffer, connection.io
      ensures connection.Valid() && initial == old(initial)
      ensures !r.StepFailed? ==> Valid(connection, sink) && !complete
      ensures r.StepFailed? ==> r.kind == ForwardErrorKind.BadRequest && ErrorFor(initial.verdict).Some? &&
                                Concat(sent) == initial.payload && sent == old(sent)
    {
      hide Decode, Concat, Spelled, Owed, BodyDecoder.Valid, TrailersAllowed, HeaderBytes, WellFormed, SyntaxError;
      hide NothingToForward;
      NothingOwed(Body(sink));
      assert Fetching(sink);
      var frame := decoder.NextFrame(connection);
      match frame {
        case FrameCancelled =>
          return StepDropped;
        case FrameError(_) =>
          assert Concat(sent) + "" == Concat(sent);
          return StepFailed(ForwardErrorKind.BadRequest);
        case DataFrame(data) =>
          QueueData(data, connection, sink);
        case TrailerFrame(trailers) =>
          assert Concat(sent) + "" == Concat(sent);
          QueueTrailers(trailers, connection, sink);
        case EndOfBody =>
          assert Concat(sent) + "" == Concat(sent);
          QueueEnd(connection, sink);
      }
      return Stepped;
    }

    /** Between frames: nothing pending, nothing owed. */
    ghost predicate Fetching(sink: Sink)
      reads this, sink
    {
      && pending.None? && state.NeedFrame? && !complete && closing.None?
      && GoodFrames(sent) && base <= sink.emitted && Body(sink) == Spelled(chunked, sent, None)
      && NothingToForward(chunked, initial)
    }

    method QueueData(data: string, ghost connection: Connection, ghost sink: Sink)
      requires Fetching(sink) && decoder.Valid(connection)
      requires initial == Prepend(Concat(sent), Prepend(data, decoder.Remaining(connection)))
      requires 0 < |data| && |data| + decoder.Held(connection) <= REQUEST_BODY_FRAME_LIMIT
      modifies this`pending, this`sent
      ensures Valid(connection, sink) && !complete
    {
      hide Decode, Concat, BodyDecoder.Valid, BodyDecoder.Remaining, NothingToForward, EncodeFrames, EncodeFrame, Print;
      Assoc(Concat(sent), data, decoder.Remaining(connection).payload);
      EncodeSnoc(chunked, sent, data);
      ConcatSnoc(sent, data);
      EncodedFrame(chunked, data);
      if chunked {
        pending := Some(PendingWrite(Print(16, |data|) + "\r\n", 0, SendData(data)));
      } else {
        pending := Some(PendingWrite(data, 0, NeedFrame));
        assert data + "" == data;
      }
      sent := sent + [data];
      assert PendingText() + Owed(Next()) == EncodeFrame(chunked, data);
      assert EncodeFrames(chunked, sent) + "" == EncodeFrames(chunked, sent);
    }

    method QueueTrailers(trailers: HeaderMap, ghost connection: Connection, ghost sink: Sink)
      requires Fetching(sink) && decoder.Valid(connection) && decoder.state.Complete?
      requires initial == Outcome(Concat(sent), Done(trailers, connection.Stream()))
      requires trailers != map[] && WellFormed(trailers) && TrailersAllowed(trailers)
      requires HeaderBytes(trailers) + 5 + decoder.Held(connection) <= HEADER_SECTION_LIMIT
      modifies this`pending, this`closing
      ensures Valid(connection, sink) && !complete
    {
      hide Concat, BodyDecoder.Valid, EncodeFrames, Sanitized, WellFormed, TrailersAllowed, HeaderBytes, RenderFields;
      hide ForwardedTrailers, MapOf, GoodField, FieldBytes, BlankField, AllNamed;
      var fields := ForwardedFields(trailers, nominations);
      closing := Some(fields);
      pending := Some(PendingWrite("0\r\n", 0, TrailerFields(fields)));
      assert EncodeFrames(chunked, sent) + "" == EncodeFrames(chunked, sent);
    }

    method QueueEnd(ghost connection: Connection, ghost sink: Sink)
      requires Fetching(sink) && decoder.Valid(connection) && decoder.state.Complete?
      requires initial == Outcome(Concat(sent), Done(map[], connection.Stream()))
      modifies this`pending, this`closing, this`state
      ensures Valid(connection, sink) && !complete
    {
      hide Concat, EncodeFrames, Sanitized, WellFormed, TrailersAllowed, RenderFields, ForwardedTrailers, MapOf;
      NothingForwarded(nominations);
      ClosingNothing();
      closing := Some([]);
      if chunked {
        pending := Some(PendingWrite("0\r\n\r\n", 0, Flush));
      } else {
        state := Flush;
      }
      assert EncodeFrames(chunked, sent) + "" == EncodeFrames(chunked, sent);
      assert PendingText() + Owed(Next()) == ClosingText(chunked, []);
    }

    /** No reachable state holds more than the application buffer limit, unread octets included. */
    lemma {:induction false} BufferBound(connection: Connection, sink: Sink)
      requires Valid(connection, sink)
      ensures Buffered() + |connection.Unread()| <= APPLICATION_BUFFER_LIMIT
    {
      hide Decode, EncodeFrames, WellFormed, Concat, RenderFields, ClosingText, BoundedReadAhead;
    }

    /** Once complete, the origin has been sent, and flushed, exactly the encoding of the payload
        and of the forwarded trailers, and the request body has been consumed to its last octet. */
    lemma {:induction false} CompleteMeaning(connection: Connection, sink: Sink)
      requires Valid(connection, sink) && complete
      ensures connection.Valid() && sink.flushed && decoder.state.Complete?
      ensures |connection.Unread()| <= REQUEST_LINE_LIMIT
      ensures ErrorFor(initial.verdict).None? && initial.verdict.Done? && initial.verdict.rest == connection.Stream()
      ensures base <= sink.emitted
      ensures if chunked then Reframed(Body(sink), initial, nominations) else Body(sink) == initial.payload
      ensures !CannotBeSent(initial, nominations)
    {
      hide Decode, EncodeFrames, WellFormed, Concat, RenderFields, ClosingText, BoundedReadAhead, GoodField;
      hide ForwardedTrailers, BlankField, CannotBeSent;
      BlankIsForwarded(initial, sent, closing, nominations, decoder.Remaining(connection));
      var fields := closing.value;
      DecodedWhole(connection.Stream(), decoder.trailerHeaders, decoder.trailerOctets);
      NothingOwed(Body(sink));
      assert Body(sink) == Spelled(chunked, sent, closing);
      if chunked {
        assert ForwardedTrailers(initial.verdict.trailers, nominations) == Some(MapOf(fields));
        forall limits: Limits | limits.line >= 7
          ensures Decode(limits, ChunkSize, map[], 0, Body(sink)) ==
                  Outcome(initial.payload, ForwardedVerdict(limits, MapOf(fields)))
        {
          ReframedDecodes(limits, sent, fields);
        }
      } else {
        PlainEncoding(sent);
        PlainClosing(Concat(sent), fields);
      }
    }

    /** What is emitted never runs ahead of what was fetched. */
    lemma {:induction false} OpenMeaning(connection: Connection, sink: Sink)
      requires Valid(connection, sink)
      ensures GoodFrames(sent) && base <= sink.emitted && Body(sink) <= Spelled(chunked, sent, closing)
      ensures closing.None? ==> Concat(sent) <= initial.payload
      ensures closing.Some? ==> ErrorFor(initial.verdict).None?
      ensures !WaitingOnUpstream() && state.NeedFrame? ==> closing.None?
    {
      hide Decode, EncodeFrames, Concat, ClosingText, Spelled, Budgeted, BodyDecoder.Valid, Owed, WellFormed;
    }

    /** Whatever was written so far is unfinished, or the whole message and nothing else. */
    lemma {:induction false} PartialMeaning(connection: Connection, sink: Sink)
      requires Valid(connection, sink)
      ensures connection.Valid() && base <= sink.emitted
      ensures SentSoFar(chunked, Body(sink), initial, nominations)
    {
      hide Decode, EncodeFrames, Concat, ClosingText, Budgeted, Owed, WellFormed, Accounts, SentSoFar, Spelled;
      OpenMeaning(connection, sink);
      SentMeaning(chunked, sent, closing, Body(sink), initial, nominations, decoder.Remaining(connection));
    }
  }

  lemma {:induction false} DecodedWhole(s: string, headers: HeaderMap, octets: nat)
    requires octets <= HEADER_SECTION_LIMIT
    ensures Decode(LIMITS, Complete, headers, octets, s) == Outcome("", Done(map[], s))
  {
  }

  lemma {:induction false} PlainClosing(text: string, fields: seq<Field>)
    ensures text + ClosingText(false, fields) == text
  {
  }

  /** Octets that were written move from what is owed to what was emitted. */
  lemma {:induction false} PartOut(base: string, emitted: string, bytes: string, written: nat, owed: string,
                                   whole: string)
    requires Spells(base, emitted, bytes + owed, whole) && written <= |bytes|
    ensures Spells(base, emitted + bytes[..written], bytes[written..] + owed, whole)
  {
    var more := bytes[..written];
    assert (emitted + more)[|base|..] == emitted[|base|..] + more;
    assert bytes == more + bytes[written..];
    Assoc(emitted[|base|..], more, bytes[written..] + owed);
    Assoc(more, bytes[written..], owed);
  }

  lemma {:induction false} FirstFieldText(fields: seq<Field>)
    requires fields != []
    ensures RenderFields(fields) + "\r\n" ==
            fields[0].name + (": " + (fields[0].value + ("\r\n" + (RenderFields(fields[1..]) + "\r\n"))))
  {
  }

  lemma {:induction false} EncodedFrame(chunked: bool, data: string)
    requires 0 < |data| <= REQUEST_BODY_FRAME_LIMIT
    ensures EncodeFrame(true, data) == Print(16, |data|) + "\r\n" + (data + "\r\n")
    ensures EncodeFrame(false, data) == data
    ensures |Print(16, |data|)| <= 5
  {
    ShortHex(|data|);
  }

  lemma {:induction false} AllowedTrailersSanitize(trailers: HeaderMap)
    requires TrailersAllowed(trailers)
    ensures Sanitized(trailers).Some?
  {
  }

  lemma {:induction false} NothingForwarded(nominations: seq<string>)
    ensures ForwardedTrailers(map[], nominations) == Some(MapOf([])) && TrailersAllowed(map[])
  {
  }

  lemma {:induction false} ClosingNothing()
    ensures ClosingText(true, []) == "0\r\n\r\n" && ClosingText(false, []) == "" && FieldBytes([]) == 0
  {
  }

  lemma {:induction false} NothingOwed(emitted: string)
    ensures emitted + ("" + Owed(NeedFrame)) == emitted == emitted + ("" + Owed(Flush))
  {
  }

  lemma {:induction false} FixedHasNoTrailers(framing: BodyFraming, s: string)
    requires !framing.Chunked?
    ensures var outcome := Decode(LIMITS, InitialState(framing), map[], 0, s);
            outcome.verdict.Done? ==> outcome.verdict.trailers == map[]
  {
    hide CutLine, DecodeTrailers;
  }

  // ---- whole runs ----

  datatype ForwardEnd = StillSending | RequestSent | RequestRefused | OriginGone

  /** What a receiver makes of a request that was written only in part. */
  ghost predicate NeverComplete(emitted: string, body: Outcome)
  {
    forall limits: Limits :: limits.line >= 7 && limits.trailers >= 2 ==>
      Shorter(Decode(limits, ChunkSize, map[], 0, emitted), body)
  }

  /** The re-framed message: same payload, forwarded trailers wherever they fit, nothing left over. */
  ghost predicate Reframed(emitted: string, body: Outcome, nominations: seq<string>)
  {
    && body.verdict.Done?
    && var forwarded := ForwardedTrailers(body.verdict.trailers, nominations);
    && forwarded.Some?
    && forall limits: Limits :: limits.line >= 7 ==>
         Decode(limits, ChunkSize, map[], 0, emitted) ==
         Outcome(body.payload, ForwardedVerdict(limits, forwarded.value))
  }

  /** Limits under which the trailers to forward, if there are any to be had, are not too large. */
  ghost predicate Admits(limits: Limits, body: Outcome, nominations: seq<string>)
  {
    && limits.line >= 7 && limits.trailers >= 2
    && (ErrorFor(body.verdict).None? && body.verdict.Done? ==>
          var forwarded := ForwardedTrailers(body.verdict.trailers, nominations);
          forwarded.Some? ==> SectionLength(forwarded.value) <= limits.trailers)
  }

  /** The message an accepted body amounts to at the origin. */
  ghost predicate WholeMessage(seen: Outcome, body: Outcome, nominations: seq<string>)
  {
    && ErrorFor(body.verdict).None? && body.verdict.Done?
    && var forwarded := ForwardedTrailers(body.verdict.trailers, nominations);
    && forwarded.Some? && seen == Outcome(body.payload, Done(forwarded.value, ""))
  }

  /** What an origin makes of the octets of a body at any moment of its forwarding: an unfinished message
      with a prefix of the payload, or exactly the whole message; never a shorter or a longer one. */
  ghost predicate SentSoFar(chunked: bool, emitted: string, body: Outcome, nominations: seq<string>)
  {
    if chunked then
      forall limits: Limits :: Admits(limits, body, nominations) ==>
        var seen := Decode(limits, ChunkSize, map[], 0, emitted);
        Shorter(seen, body) || WholeMessage(seen, body, nominations)
    else emitted <= body.payload
  }

  lemma {:induction false} RefusedNeverComplete(emitted: string, body: Outcome, nominations: seq<string>)
    requires SentSoFar(true, emitted, body, nominations) && ErrorFor(body.verdict).Some?
    ensures NeverComplete(emitted, body)
  {
    hide Decode, ErrorFor, Shorter;
    forall limits: Limits | limits.line >= 7 && limits.trailers >= 2
      ensures Shorter(Decode(limits, ChunkSize, map[], 0, emitted), body)
    {
      assert Admits(limits, body, nominations);
    }
  }

  /** As long as the body has not ended, no prefix of what was spelled looks complete. */
  lemma {:induction false} OpenEncodingUnfinished(frames: seq<string>, emitted: string, body: Outcome)
    requires GoodFrames(frames) && emitted <= EncodeFrames(true, frames) && Concat(frames) <= body.payload
    ensures NeverComplete(emitted, body)
  {
    hide Decode, EncodeFrames, Concat, ClosingText;
    var text := EncodeFrames(true, frames);
    var whole := text + ClosingText(true, []);
    assert emitted <= whole && |emitted| < |whole| by {
      ClosingNothing();
    }
    RenderedSectionLength([]);
    forall limits: Limits | limits.line >= 7 && limits.trailers >= 2
      ensures Shorter(Decode(limits, ChunkSize, map[], 0, emitted), body)
    {
      ReframedDecodes(limits, frames, []);
      PrefixTruncated(limits, ChunkSize, map[], 0, whole, emitted);
    }
  }

  /** Once the body has ended, a strict prefix of what was spelled is unfinished still. */
  lemma {:induction false} ClosedEncoding(frames: seq<string>, fields: seq<Field>, emitted: string, body: Outcome,
                                          nominations: seq<string>, remaining: Outcome)
    requires GoodFrames(frames) && emitted <= EncodeFrames(true, frames) + ClosingText(true, fields)
    requires Accounts(body, frames, Some(fields), nominations, remaining)
    ensures SentSoFar(true, emitted, body, nominations)
  {
    hide Decode, EncodeFrames, Concat, ClosingText, SectionLength, MapOf, ForwardedTrailers, GoodField, TrailersAllowed;
    var whole := EncodeFrames(true, frames) + ClosingText(true, fields);
    forall limits: Limits | Admits(limits, body, nominations)
      ensures var seen := Decode(limits, ChunkSize, map[], 0, emitted);
              Shorter(seen, body) || WholeMessage(seen, body, nominations)
    {
      ReframedDecodes(limits, frames, fields);
      if |emitted| < |whole| {
        PrefixTruncated(limits, ChunkSize, map[], 0, whole, emitted);
      } else {
        assert emitted == whole;
      }
    }
  }

  lemma {:induction false} SentMeaning(chunked: bool, frames: seq<string>, closing: Option<seq<Field>>,
                                       emitted: string, body: Outcome, nominations: seq<string>, remaining: Outcome)
    requires GoodFrames(frames) && emitted <= Spelled(chunked, frames, closing)
    requires Accounts(body, frames, closing, nominations, remaining)
    ensures SentSoFar(chunked, emitted, body, nominations)
  {
    hide EncodeFrames, Concat, GoodFrames, Decode, ForwardedTrailers, GoodField, MapOf, TrailersAllowed, Shorter;
    hide WholeMessage;
    assert EncodeFrames(chunked, frames) + "" == EncodeFrames(chunked, frames);
    if !chunked {
      PlainEncoding(frames);
    } else if closing.None? {
      OpenEncodingUnfinished(frames, emitted, body);
    } else {
      ClosedEncoding(frames, closing.value, emitted, body, nominations, remaining);
    }
  }

  // ---- accepted bodies that cannot be passed on ----

  /** An empty body with one trailer, `x`, as a client may send it: no space after the colon. */
  function OneTrailerBody(value: string): string
  {
    "0\r\n" + ("x:" + value + "\r\n" + "\r\n")
  }

  lemma {:induction false} OneTrailerLine(value: string)
    requires FieldContent(value)
    ensures ParseFieldLine("x:" + value) == Some(Field("x", value)) && LineText("x:" + value)
  {
    var line := "x:" + value;
    assert FirstColon(line, 1) == Some(1) && FirstColon(line, 0) == Some(1);
    assert line[2..] == value && line[..1] == "x";
    assert LowerAll("x"[1..]) == "" && LowerAll("x") == "x";
    PlainTextIsALine(line);
  }

  lemma {:induction false} FirstField(value: string)
    ensures Append(map[], "x", value) == map["x" := [value]]
  {
    assert GetAll(map[], "x") + [value] == [value];
  }

  lemma {:induction false} OneTrailerForwarded(value: string)
    ensures var trailers: HeaderMap := map["x" := [value]];
            ForwardedTrailers(trailers, []) == Some(trailers) && TrailersAllowed(trailers)
  {
    var trailers: HeaderMap := map["x" := [value]];
    assert GetAll(trailers, CONNECTION) == [];
    assert Nominations(trailers) == Some([]);
    forall n | n in trailers ensures !HopByHop(trailers, n) && n !in FORBIDDEN_TRAILERS {
      assert n == "x";
    }
    assert (map n | n in trailers && !HopByHop(trailers, n) :: trailers[n]) == trailers;
    assert trailers - (set n | n in []) == trailers;
  }

  /** The proxy accepts such a body, up to the last octet its limit has room for. */
  lemma {:induction false} OneTrailerAccepted(value: string)
    requires FieldContent(value) && |value| + 6 <= HEADER_SECTION_LIMIT
    ensures var body := Decode(LIMITS, InitialState(Chunked), map[], 0, OneTrailerBody(value));
            && body == Outcome("", Done(map["x" := [value]], "")) && ErrorFor(body.verdict).None?
            && ForwardedTrailers(map["x" := [value]], []) == Some(map["x" := [value]])
  {
    hide Decode, ParseFieldLine, LineText, FieldContent, ParseChunkSize, ForwardedTrailers, TrailersAllowed;
    var line := "x:" + value;
    OneTrailerLine(value);
    ZeroLine();
    var body := ChunkedBody([], "0", [line]);
    assert body.trailers[1..] == [] && SectionOctets([]) == 2;
    assert RenderLines([]) == "\r\n" && RenderLines(body.trailers) == line + "\r\n" + "\r\n";
    assert Render(body) + "" == OneTrailerBody(value);
    GrammarComplete(LIMITS, body, "");
    FirstField(value);
    OneTrailerForwarded(value);
  }

  /** An accepted body that no run can pass on: its trailer has an empty value. */
  lemma {:induction false} EmptyTrailerCannotBeSent()
    ensures var body := Decode(LIMITS, InitialState(Chunked), map[], 0, "0\r\nx:\r\n\r\n");
            ErrorFor(body.verdict).None? && CannotBeSent(body, [])
  {
    hide Decode, ErrorFor, ForwardedTrailers;
    OneTrailerAccepted("");
    assert OneTrailerBody("") == "0\r\nx:\r\n\r\n";
    var forwarded: HeaderMap := map["x" := [""]];
    assert "x" in forwarded && "" in forwarded["x"];
  }

  /** An accepted body whose re-framing the proxy itself would refuse: the space after the colon takes the
      trailer section one octet past the limit. */
  lemma {:induction false} LongTrailerOutgrowsTheLimit(emitted: string)
    ensures var value := seq(HEADER_SECTION_LIMIT - 6, _ => 'a');
            var body := Decode(LIMITS, InitialState(Chunked), map[], 0, OneTrailerBody(value));
            && ErrorFor(body.verdict).None?
            && (Reframed(emitted, body, []) ==> Decode(LIMITS, ChunkSize, map[], 0, emitted).verdict == TooLarge)
  {
    hide Decode, ErrorFor, ForwardedTrailers, SectionLength;
    var value := seq(HEADER_SECTION_LIMIT - 6, _ => 'a');
    assert FieldContent(value);
    OneTrailerAccepted(value);
    var fields := [Field("x", value)];
    RenderedSectionLength(fields);
    RenderedLength(fields);
    assert fields[1..] == [];
    FirstField(value);
    AddOne(map[], fields[0]);
    assert MapOf(fields) == map["x" := [value]];
  }

  /** The request body under any interleaving of steps, partial writes, read splits and drops. */
  method ForwardBody(framing: BodyFraming, nominations: seq<string>, connection: Connection, sink: Sink, steps: nat)
    returns (end: ForwardEnd)
    requires connection.Valid() && |connection.Unread()| <= REQUEST_LINE_LIMIT
    modifies connection, connection.buffer, connection.io, sink
    ensures connection.Valid() && old(sink.emitted) <= sink.emitted
    ensures var body := Decode(LIMITS, InitialState(framing), map[], 0, old(connection.Stream()));
            var emitted := sink.emitted[|old(sink.emitted)|..];
            && SentSoFar(framing.Chunked?, emitted, body, nominations)
            && match end
               case RequestSent =>
                 && ErrorFor(body.verdict).None?
                 && body.verdict.rest == connection.Stream()
                 && |connection.Unread()| <= REQUEST_LINE_LIMIT
                 && sink.flushed
                 && !CannotBeSent(body, nominations)
                 && if framing.Chunked? then Reframed(emitted, body, nominations)
                    else emitted == body.payload
               case OriginGone => sink.refused || CannotBeSent(body, nominations)
               case RequestRefused => ErrorFor(body.verdict).Some?
               case StillSending => true
  {
    hide Decode, EncodeFrames, Concat, ClosingText, Accounts, Budgeted, BodyDecoder.Valid, Owed, WellFormed;
    hide TrailersAllowed, GoodFrames, ForwardedTrailers, NothingToForward, SyntaxError, ErrorFor, SentSoFar, Reframed;
    hide CannotBeSent;
    ghost var base := sink.emitted;
    var writer := new RequestWriter(framing, nominations, connection, sink);
    ghost var body := writer.initial;
    for step := 0 to steps
      invariant writer.Valid(connection, sink) && !writer.complete && writer.initial == body && writer.base == base
      invariant fresh(writer) && fresh(writer.decoder)
    {
      var r;
      if writer.WaitingOnUpstream() {
        r := writer.StepUpstream(connection, sink);
        if r.StepFailed? {
          writer.PartialMeaning(connection, sink);
          return OriginGone;
        }
      } else {
        writer.PartialMeaning(connection, sink);
        r := writer.StepDownstream(connection, sink);
        if r.StepFailed? {
          return RequestRefused;
        }
      }
      if writer.complete {
        writer.CompleteMeaning(connection, sink);
        writer.PartialMeaning(connection, sink);
        return RequestSent;
      }
    }
    writer.PartialMeaning(connection, sink);
    return StillSending;
  }
}
