/**
 One exchange over a checked-out origin: the request head and body are written while the response is
 awaited, and the connection is pooled or discarded. Every await may end in a cancellation, and which
 branch of each `select!` makes progress is the scheduler's choice.
 */
module Exchanges {
  import opened HttpText
  import opened Numerals
  import opened Headers
  import opened ChunkedGrammar
  import opened Wire
  import opened Http1Connection
  import opened BodyDecoding
  import opened HeadReading
  import opened RequestWriting
  import opened OriginHeads
  import opened OriginBodies
  import opened IdlePools

  /** Partial writes until the whole head is out and flushed. */
  method WriteRequestHead(sink: Sink, bytes: string) returns (ok: bool)
    modifies sink
    ensures old(sink.emitted) <= sink.emitted <= old(sink.emitted) + bytes
    ensures ok ==> sink.emitted == old(sink.emitted) + bytes && sink.flushed
  {
    var offset := 0;
    while offset != |bytes|
      invariant 0 <= offset <= |bytes| && sink.emitted == old(sink.emitted) + bytes[..offset]
      decreases |bytes| - offset
    {
      var result := sink.Write(bytes[offset..]);
      if !result.Wrote? || result.count == 0 {
        return false;
      }
      assert bytes[..offset] + bytes[offset..][..result.count] == bytes[..offset + result.count];
      Assoc(old(sink.emitted), bytes[..offset], bytes[offset..][..result.count]);
      offset := offset + result.count;
    }
    assert bytes[..offset] == bytes;
    var result := sink.Flush();
    return result.Wrote?;
  }

  // ---- what the origin answers, as a function of its octets ----

  datatype FinalResponse = FinalResponse(head: ResponseHead, rest: string)

  lemma {:induction false} CutResponseShrinks(s: string)
    requires CutResponse(s).HeadAt?
    ensures |CutResponse(s).rest| < |s|
  {
  }

  /** The first response that is not informational, and the octets after its head. */
  function FinalHead(s: string, isHead: bool): Option<FinalResponse>
    decreases |s|
  {
    var cut := CutResponse(s);
    if !cut.HeadAt? then None
    else
      CutResponseShrinks(s);
      match ParseResponseHead(cut.line, cut.section, isHead)
      case Rejected(_) => None
      case Accepted(head) =>
        if head.status == 101 then None
        else if Informational(head.status) then FinalHead(cut.rest, isHead)
        else Some(FinalResponse(head, cut.rest))
  }

  /** The octets after the final response, if it is well formed to its end. */
  function MessageEnd(s: string, isHead: bool, fails: bool): Option<string>
  {
    match FinalHead(s, isHead)
    case None => None
    case Some(final) =>
      var outcome := ResponseOutcome(final.head.framing, final.rest, fails);
      if OriginErrorFor(outcome.verdict).None? && outcome.verdict.Done? then Some(outcome.verdict.rest) else None
  }

  // ---- the exchange ----

  datatype ExchangeEnd =
    | HeadUnsent
    | Cancelled
    | ClientDisconnected
    | RequestFailed(kind: ForwardErrorKind)
    | ResponseRefused
    | Undecided
    | Responded(head: ResponseHead, requestComplete: bool, stream: StreamEnd)

  /** The whole request reached the origin and the downstream stands at its next message. */
  ghost predicate RequestDelivered(body: Outcome, chunked: bool, nominations: seq<string>, emitted: string,
                                  rest: string)
  {
    && ErrorFor(body.verdict).None? && body.verdict.Done? && body.verdict.rest == rest
    && if chunked then Reframed(emitted, body, nominations) else emitted == body.payload
  }

  /** Responses an HTTP/1.0 client cannot be sent. */
  predicate UnsuitedToHttp10(head: ResponseHead)
  {
    && !head.framing.NoContent?
    && (head.coding.FinalNonChunked? || (head.coding.FinalChunked? && head.coding.hasPrior))
  }

  predicate MayPool(end: ExchangeEnd)
  {
    end.Responded? && end.requestComplete && !end.head.close && !end.head.framing.CloseDelimited?
  }

  lemma {:induction false} HeadTaken(s: string, isHead: bool, head: ResponseHead)
    requires CutResponse(s).HeadAt?
    requires ParseResponseHead(CutResponse(s).line, CutResponse(s).section, isHead) == Accepted(head)
    ensures FinalHead(s, isHead) ==
            if head.status == 101 then None
            else if Informational(head.status) then FinalHead(CutResponse(s).rest, isHead)
            else Some(FinalResponse(head, CutResponse(s).rest))
  {
    hide CutResponse, ParseResponseHead;
  }

  lemma {:induction false} AnswerEnds(s: string, isHead: bool, fails: bool, final: FinalResponse)
    requires FinalHead(s, isHead) == Some(final)
    ensures var outcome := ResponseOutcome(final.head.framing, final.rest, fails);
            OriginErrorFor(outcome.verdict).None? && outcome.verdict.Done? ==>
              MessageEnd(s, isHead, fails) == Some(outcome.verdict.rest)
  {
    hide FinalHead, ResponseOutcome;
  }

  /** One step of the request while the response is pending; a drop leaves it where it was. */
  method Step(writer: RequestWriter, downstream: Connection, sink: Sink) returns (r: StepResult)
    requires writer.Valid(downstream, sink) && !writer.complete
    modifies writer, writer.decoder, downstream, downstream.buffer, downstream.io, sink
    ensures downstream.Valid() && writer.initial == old(writer.initial)
    ensures !r.StepFailed? ==> writer.Valid(downstream, sink)
    ensures Underway(writer, sink)
  {
    hide RequestWriter.Valid, SentSoFar;
    writer.PartialMeaning(downstream, sink);
    if writer.WaitingOnUpstream() {
      r := writer.StepUpstream(downstream, sink);
      writer.PartialMeaning(downstream, sink);
    } else {
      r := writer.StepDownstream(downstream, sink);
    }
  }

  /** What the writer has sent is an unfinished message or its whole message. */
  ghost predicate Underway(writer: RequestWriter, sink: Sink)
    reads writer, sink
  {
    && writer.base <= sink.emitted
    && SentSoFar(writer.chunked, writer.Body(sink), writer.initial, writer.nominations)
  }

  /** The final response has arrived: decide whether the origin may be pooled, and stream the body. */
  method Answer(writer: RequestWriter, head: ResponseHead, nominations: seq<string>, downstream: Connection,
                reader: Connection, sink: Sink, socket: nat, key: string, pool: OriginPool, polls: nat)
    returns (end: ExchangeEnd)
    requires writer.Valid(downstream, sink)
    requires reader.Valid() && |reader.Unread()| <= REQUEST_LINE_LIMIT
    requires downstream != reader && downstream.buffer != reader.buffer && downstream.io != reader.io
    requires pool.Valid() && pool.puts < U64_END && !Pooled(pool.queue, socket)
    modifies reader, reader.buffer, reader.io
    modifies pool`entries, pool`queue, pool`nextSequence, pool`puts, pool.clock
    ensures downstream.Valid() && reader.Valid() && pool.Valid()
    ensures end.Responded? && end.head == head && end.requestComplete == writer.complete
    ensures Pooled(pool.queue, socket) <==>
              MayPool(end) && end.stream.Ended? && reader.Unread() == "" && !pool.closed && pool.capacity > 0
    ensures Underway(writer, sink) && writer.initial == old(writer.initial)
    ensures writer.complete ==>
              && sink.flushed && |downstream.Unread()| <= REQUEST_LINE_LIMIT
              && RequestDelivered(writer.initial, writer.chunked, writer.nominations, writer.Body(sink),
                                  downstream.Stream())
    ensures end.stream.Ended? ==>
              var outcome := ResponseOutcome(head.framing, old(reader.Stream()), reader.io.fails);
              OriginErrorFor(outcome.verdict).None? && outcome.verdict.Done? && outcome.verdict.rest == reader.Stream()
  {
    hide Decode, IdlePool.Valid, Pooled, Reframed, RequestWriter.Valid, OriginErrorFor, ErrorFor, ResponseOutcome;
    hide ForwardedTrailers, SentSoFar;
    writer.PartialMeaning(downstream, sink);
    if writer.complete {
      writer.CompleteMeaning(downstream, sink);
    }
    var poolable := writer.complete && !head.close && !head.framing.CloseDelimited?;
    ghost var rest := reader.Stream();
    var body := new StreamingOriginBody(reader, socket, key, pool, head.framing, nominations, poolable);
    var stream := Ended(map[]);
    if body.ready {
      var payload;
      payload, stream := StreamBody(body, polls);
      EndedIsDone(ResponseOutcome(head.framing, rest, reader.io.fails));
    } else {
      BodylessEnds(rest, reader.io.fails);
    }
    return Responded(head, writer.complete, stream);
  }

  lemma {:induction false} EndedIsDone(outcome: Outcome)
    ensures OriginErrorFor(outcome.verdict).None? ==> outcome.verdict.Done?
  {
  }

  lemma {:induction false} BodylessEnds(s: string, fails: bool)
    ensures var outcome := ResponseOutcome(NoContent, s, fails);
            outcome.verdict == Done(map[], s) && OriginErrorFor(outcome.verdict).None?
  {
  }

  /** The request is written while the response is awaited, until the final response is answered or the
      exchange is given up. */
  method Converse(writer: RequestWriter, http10: bool, isHead: bool, downstream: Connection, reader: Connection,
                  sink: Sink, socket: nat, key: string, pool: OriginPool, steps: nat, polls: nat)
    returns (end: ExchangeEnd)
    requires writer.Valid(downstream, sink)
    requires reader.Valid() && HeadReadAhead(reader.Unread())
    requires downstream != reader && downstream.buffer != reader.buffer && downstream.io != reader.io
    requires pool.Valid() && pool.puts < U64_END && !Pooled(pool.queue, socket)
    modifies writer, writer.decoder, downstream, downstream.buffer, downstream.io, sink
    modifies reader, reader.buffer, reader.io
    modifies pool`entries, pool`queue, pool`nextSequence, pool`puts, pool.clock
    ensures downstream.Valid() && reader.Valid() && pool.Valid()
    ensures Pooled(pool.queue, socket) <==>
              MayPool(end) && end.stream.Ended? && reader.Unread() == "" && !pool.closed && pool.capacity > 0
    ensures Underway(writer, sink) && writer.initial == old(writer.initial)
    ensures end.Responded? && end.requestComplete ==>
              && sink.flushed && |downstream.Unread()| <= REQUEST_LINE_LIMIT
              && RequestDelivered(old(writer.initial), writer.chunked, writer.nominations, writer.Body(sink),
                                  downstream.Stream())
    ensures end.Responded? ==>
              && FinalHead(old(reader.Stream()), isHead).Some?
              && FinalHead(old(reader.Stream()), isHead).value.head == end.head
    ensures end.Responded? && end.stream.Ended? ==>
              MessageEnd(old(reader.Stream()), isHead, reader.io.fails) == Some(reader.Stream())
  {
    hide Decode, IdlePool.Valid, FinalHead, MessageEnd, RequestDelivered, Pooled, Reframed, RequestWriter.Valid;
    hide HeadReadAhead, UnsuitedToHttp10, OriginErrorFor, ErrorFor, SentSoFar;
    for step := 0 to steps
      invariant writer.Valid(downstream, sink) && writer.initial == old(writer.initial)
      invariant reader.Valid() && HeadReadAhead(reader.Unread())
      invariant FinalHead(reader.Stream(), isHead) == FinalHead(old(reader.Stream()), isHead)
      invariant pool.Valid() && pool.queue == old(pool.queue) && pool.puts == old(pool.puts)
    {
      writer.PartialMeaning(downstream, sink);
      if * {
        return Cancelled;
      }
      ghost var answer := reader.Stream();
      var response := ReadResponseHead(reader, isHead);
      if response.ResponseFailed? {
        return ResponseRefused;
      }
      if response.ResponseParsed? {
        HeadTaken(answer, isHead, response.head);
        var head := response.head;
        if head.status == 101 || (http10 && UnsuitedToHttp10(head)) || Nominations(head.headers).None? {
          return ResponseRefused;
        }
        ShortIsReadAhead(reader.Unread());
        if Informational(head.status) {
          // Forwarded downstream, which may fail.
          if * {
            return ClientDisconnected;
          }
        } else {
          ghost var rest := reader.Stream();
          end := Answer(writer, head, Nominations(head.headers).value, downstream, reader, sink, socket,
                        key, pool, polls);
          AnswerEnds(old(reader.Stream()), isHead, reader.io.fails, FinalResponse(head, rest));
          return;
        }
      } else {
        // The client is watched for hanging up only while nothing is read from it.
        if writer.complete || writer.WaitingOnUpstream() {
          if * {
            return ClientDisconnected;
          }
        }
        if !writer.complete {
          var r := Step(writer, downstream, sink);
          if r.StepFailed? {
            return RequestFailed(r.kind);
          }
        }
      }
    }
    writer.PartialMeaning(downstream, sink);
    return Undecided;
  }

  /** The origin ends up pooled exactly when the request was written and flushed in full, the response
      was read to its framed end with no octet left over and neither asks for nor relies on closing;
      on every other path, cancelled ones included, it is discarded. */
  method Exchange(requestHead: string, http10: bool, isHead: bool, framing: BodyFraming, nominations: seq<string>,
                  downstream: Connection, reader: Connection, sink: Sink, socket: nat, key: string,
                  pool: OriginPool, steps: nat, polls: nat)
    returns (end: ExchangeEnd)
    requires downstream.Valid() && |downstream.Unread()| <= REQUEST_LINE_LIMIT
    requires reader.Valid() && reader.Unread() == ""
    requires downstream != reader && downstream.buffer != reader.buffer && downstream.io != reader.io
    requires pool.Valid() && pool.puts < U64_END && !Pooled(pool.queue, socket)
    modifies downstream, downstream.buffer, downstream.io, reader, reader.buffer, reader.io, sink
    modifies pool`entries, pool`queue, pool`nextSequence, pool`puts, pool.clock
    ensures downstream.Valid() && reader.Valid() && pool.Valid()
    ensures Pooled(pool.queue, socket) <==>
              MayPool(end) && end.stream.Ended? && reader.Unread() == "" && !pool.closed && pool.capacity > 0
    ensures var prefix := old(sink.emitted) + requestHead;
            || sink.emitted <= prefix
            || (prefix <= sink.emitted &&
                SentSoFar(framing.Chunked?, sink.emitted[|prefix|..],
                          Decode(LIMITS, InitialState(framing), map[], 0, old(downstream.Stream())), nominations))
    ensures old(sink.emitted) <= sink.emitted
    ensures end.Responded? && end.requestComplete ==>
              && sink.flushed && |downstream.Unread()| <= REQUEST_LINE_LIMIT
              && old(sink.emitted) + requestHead <= sink.emitted
              && RequestDelivered(Decode(LIMITS, InitialState(framing), map[], 0, old(downstream.Stream())),
                                  framing.Chunked?, nominations,
                                  sink.emitted[|old(sink.emitted) + requestHead|..], downstream.Stream())
    ensures end.Responded? ==>
              && FinalHead(old(reader.Stream()), isHead).Some?
              && FinalHead(old(reader.Stream()), isHead).value.head == end.head
    ensures end.Responded? && end.stream.Ended? ==>
              MessageEnd(old(reader.Stream()), isHead, reader.io.fails) == Some(reader.Stream())
  {
    hide Decode, IdlePool.Valid, FinalHead, MessageEnd, RequestDelivered, Pooled, RequestWriter.Valid;
    hide HeadReadAhead, SentSoFar;
    var headSent := WriteRequestHead(sink, requestHead);
    if !headSent {
      return HeadUnsent;
    }
    var writer := new RequestWriter(framing, nominations, downstream, sink);
    ShortIsReadAhead(reader.Unread());
    end := Converse(writer, http10, isHead, downstream, reader, sink, socket, key, pool, steps, polls);
  }
}
