/**
 The response body: the origin's decoder over the same grammar as the request's, and the body stream
 that owns the checked-out connection until it is pooled or discarded.
 */
module OriginBodies {
  import opened HttpText
  import opened Headers
  import opened ChunkedGrammar
  import opened Http1Connection
  import BodyDecoding
  import opened OriginHeads
  import opened IdlePools
  import opened Numerals

  const RESPONSE_BODY_FRAME_LIMIT: nat := APPLICATION_BUFFER_LIMIT - 18

  const ORIGIN_FORBIDDEN: set<string> := {
    "connection", "content-length", "host", "keep-alive", "proxy-authenticate", "proxy-authorization",
    "proxy-connection", "te", "trailer", "transfer-encoding", "upgrade", "via"
  }

  predicate OriginTrailersAllowed(trailers: HeaderMap)
  {
    forall n :: n in trailers ==> n !in ORIGIN_FORBIDDEN
  }

  function OriginErrorFor(verdict: Verdict): Option<OriginError>
  {
    match verdict
    case Done(trailers, _) => if OriginTrailersAllowed(trailers) then None else Some(Invalid)
    case Malformed => Some(Invalid)
    case TooLarge => Some(OriginError.HeadersTooLarge)
    case Truncated => Some(OriginError.Incomplete)
  }

  /** A response body as a function of the octets that follow the head and of how the stream ends. */
  function ResponseOutcome(framing: OriginFraming, s: string, fails: bool): Outcome
  {
    match framing
    case NoContent => Decode(LIMITS, Complete, map[], 0, s)
    case Sized(length) => Decode(LIMITS, Fixed(length), map[], 0, s)
    case ChunkedContent => Decode(LIMITS, ChunkSize, map[], 0, s)
    case CloseDelimited => Outcome(s, if fails then Truncated else Done(map[], ""))
  }

  function SameFraming(framing: BodyDecoding.BodyFraming): OriginFraming
  {
    match framing
    case NoBody => NoContent
    case ContentLength(length) => Sized(length)
    case Chunked => ChunkedContent
  }

  /** Trailer names that only the origin side refuses. */
  const ORIGIN_ONLY_FORBIDDEN: set<string> := {"keep-alive", "proxy-connection", "upgrade", "via"}

  function SameError(error: IngressError): OriginError
  {
    match error
    case HeadersTooLarge => OriginError.HeadersTooLarge
    case Incomplete => OriginError.Incomplete
    case _ => Invalid
  }

  /** The two sides judge a verdict alike, but for four trailer names. */
  lemma {:induction false} VerdictsAgree(verdict: Verdict)
    ensures OriginErrorFor(verdict).None? <==>
            && BodyDecoding.ErrorFor(verdict).None? && verdict.Done?
            && verdict.trailers.Keys !! ORIGIN_ONLY_FORBIDDEN
    ensures BodyDecoding.ErrorFor(verdict).Some? ==>
            OriginErrorFor(verdict) == Some(SameError(BodyDecoding.ErrorFor(verdict).value))
    ensures BodyDecoding.ErrorFor(verdict).None? && OriginErrorFor(verdict).Some? ==>
            OriginErrorFor(verdict).value == Invalid
  {
    assert ORIGIN_FORBIDDEN == BodyDecoding.FORBIDDEN_TRAILERS + ORIGIN_ONLY_FORBIDDEN;
  }

  // ---- the decoder ----

  datatype OriginState = Framed(inner: DecoderState) | UntilClose

  datatype OriginFrame =
    | OriginData(data: string)
    | OriginTrailers(trailers: HeaderMap)
    | OriginEnd
    | OriginFailed(error: OriginError)
    | OriginDropped

  datatype OriginRead = GotData(data: string) | NoData | DataFailed | DataDropped

  method ReadData(reader: Connection, maximum: nat) returns (r: OriginRead)
    requires reader.Valid() && 0 < maximum
    modifies reader, reader.buffer, reader.io
    ensures reader.Valid() && |reader.Unread()| <= old(|reader.Unread()|)
    ensures match r
            case GotData(data) =>
              && 0 < |data| <= maximum && |data| <= RESPONSE_BODY_FRAME_LIMIT
              && old(reader.Stream()) == data + reader.Stream()
              && (|data| + |reader.Unread()| <= RESPONSE_BODY_FRAME_LIMIT ||
                  |data| + |reader.Unread()| <= old(|reader.Unread()|))
            case NoData => old(reader.Stream()) == "" == reader.Stream() && !reader.io.fails
            case DataFailed => old(reader.Stream()) == "" && reader.io.fails
            case DataDropped => true
  {
    var bound := Min(maximum, RESPONSE_BODY_FRAME_LIMIT);
    if reader.start != reader.end {
      var data := TakeBuffered(reader, bound);
      return GotData(data);
    }
    r := ReadDirect(reader, bound);
  }

  method TakeBuffered(reader: Connection, bound: nat) returns (data: string)
    requires reader.Valid() && reader.start != reader.end && 0 < bound <= RESPONSE_BODY_FRAME_LIMIT
    modifies reader
    ensures reader.Valid() && 0 < |data| <= bound
    ensures old(reader.Stream()) == data + reader.Stream()
    ensures |data| + |reader.Unread()| == old(|reader.Unread()|)
  {
    var count := Min(Min(bound, APPLICATION_BUFFER_LIMIT), reader.end - reader.start);
    data := reader.buffer[reader.start..reader.start + count];
    ghost var unread := reader.Unread();
    assert data == unread[..count];
    reader.Consume(count);
    assert unread == data + reader.Unread();
    Assoc(data, reader.Unread(), reader.io.incoming);
  }

  /** An empty buffer is bypassed and the socket read straight into the frame. */
  method ReadDirect(reader: Connection, bound: nat) returns (r: OriginRead)
    requires reader.Valid() && reader.start == reader.end && 0 < bound <= RESPONSE_BODY_FRAME_LIMIT
    modifies reader, reader.buffer, reader.io
    ensures reader.Valid() && reader.Unread() == ""
    ensures match r
            case GotData(data) => 0 < |data| <= bound && old(reader.Stream()) == data + reader.Stream()
            case NoData => old(reader.Stream()) == "" == reader.Stream() && !reader.io.fails
            case DataFailed => old(reader.Stream()) == "" && reader.io.fails
            case DataDropped => true
  {
    reader.Compact();
    var got := reader.io.Read(Min(bound, APPLICATION_BUFFER_LIMIT));
    match got
    case ReadDropped => return DataDropped;
    case ReadFailed => return DataFailed;
    case Got(data) => return if data == "" then NoData else GotData(data);
  }

  class OriginDecoder {
    var state: OriginState
    const nominations: seq<string>

    constructor (framing: OriginFraming, nominations: seq<string>)
      ensures this.nominations == nominations
      ensures state == match framing
                       case NoContent => Framed(Complete)
                       case Sized(length) => Framed(Fixed(length))
                       case ChunkedContent => Framed(ChunkSize)
                       case CloseDelimited => UntilClose
    {
      this.nominations := nominations;
      state := match framing
               case NoContent => Framed(Complete)
               case Sized(length) => Framed(Fixed(length))
               case ChunkedContent => Framed(ChunkSize)
               case CloseDelimited => UntilClose;
    }

    ghost predicate Valid(reader: Connection)
      reads this, reader, reader.buffer
    {
      && reader.Valid() && |reader.Unread()| <= REQUEST_LINE_LIMIT
      && (state.Framed? ==> ValidState(LIMITS, state.inner, 0))
    }

    /** What the body will still deliver from the octets not yet consumed. */
    ghost function Remaining(reader: Connection): Outcome
      requires Valid(reader)
      reads this, reader, reader.buffer, reader.io
    {
      match state
      case Framed(inner) => Decode(LIMITS, inner, map[], 0, reader.Stream())
      case UntilClose => Outcome(reader.Stream(), if reader.io.fails then Truncated else Done(map[], ""))
    }

    /** What a frame says about the body as it was before the call. */
    ghost predicate Means(frame: OriginFrame, before: Outcome, reader: Connection)
      requires reader.Valid()
      reads this, reader, reader.buffer, reader.io
    {
      match frame
      case OriginData(data) =>
        && Valid(reader) && 0 < |data|
        && |data| + |reader.Unread()| <= RESPONSE_BODY_FRAME_LIMIT
        && before == Prepend(data, Remaining(reader))
      case OriginTrailers(trailers) =>
        && Valid(reader) && state == Framed(Complete) && trailers != map[]
        && Delivered(before, trailers, nominations, reader.Stream())
        && HeaderBytes(trailers) + |reader.Unread()| <= APPLICATION_BUFFER_LIMIT
      case OriginEnd =>
        && Valid(reader) && state == Framed(Complete)
        && Delivered(before, map[], nominations, reader.Stream())
      case OriginFailed(error) =>
        before.payload == "" && OriginErrorFor(before.verdict) == Some(error)
      case OriginDropped => true
    }

    /** The whole trailer section in one call; it is never resumed after a drop. */
    method ReadTrailers(reader: Connection) returns (r: OriginFrame)
      requires reader.Valid() && |reader.Unread()| <= REQUEST_LINE_LIMIT
      modifies reader, reader.buffer, reader.io
      ensures reader.Valid()
      ensures var verdict := DecodeTrailers(LIMITS, map[], 0, old(reader.Stream()));
              match r
              case OriginTrailers(trailers) =>
                && verdict.Done? && verdict.rest == reader.Stream()
                && OriginTrailersAllowed(verdict.trailers)
                && Sanitized(verdict.trailers) == Some(trailers)
                && HeaderBytes(verdict.trailers) + |reader.Unread()| <= APPLICATION_BUFFER_LIMIT
                && WellFormed(verdict.trailers)
                && |reader.Unread()| <= REQUEST_LINE_LIMIT
              case OriginFailed(error) => OriginErrorFor(verdict) == Some(error)
              case OriginDropped => true
              case _ => false
    {
      hide CutLine, NoCrlf, ParseFieldLine, WellFormed, DecodeTrailers, BoundedReadAhead, Sanitized, HeaderBytes;
      var headers: HeaderMap := map[];
      var rawOctets := 0;
      BodyDecoding.EmptyIsWellFormed();
      ShortReadAhead(reader.Unread());
      NoHeaderBytes();
      ghost var verdict := DecodeTrailers(LIMITS, map[], 0, reader.Stream());
      while true
        invariant reader.Valid() && WellFormed(headers) && BoundedReadAhead(reader.Unread())
        invariant rawOctets + |reader.Unread()| <= HEADER_SECTION_LIMIT && HeaderBytes(headers) <= rawOctets
        invariant DecodeTrailers(LIMITS, headers, rawOctets, reader.Stream()) == verdict
        decreases |reader.Stream()|
      {
        var remaining := HEADER_SECTION_LIMIT - rawOctets;
        var seek := reader.SeekLine(remaining);
        if seek.SeekCancelled? {
          return OriginDropped;
        }
        ghost var stream := reader.Stream();
        if seek.Refused? {
          BodyDecoding.TrailersRefused(headers, rawOctets, stream);
          return OriginFailed(if seek.cut.TooLong? then OriginError.HeadersTooLarge
                              else if seek.cut.Unfinished? then OriginError.Incomplete else Invalid);
        }
        var text := TakeTrailerLine(reader, seek.end, headers, rawOctets);
        rawOctets := rawOctets + |text| + 2;
        if text == "" {
          r := JudgeTrailers(headers, verdict);
          return;
        }
        var appended := AppendFieldLine(headers, text);
        if appended.None? {
          return OriginFailed(Invalid);
        }
        BodyDecoding.AppendedLine(headers, text);
        headers := appended.value;
        ShortReadAhead(reader.Unread());
      }
    }

    static method TakeTrailerLine(reader: Connection, end: nat, ghost headers: HeaderMap, ghost octets: nat)
      returns (text: string)
      requires reader.Valid() && FirstCrlf(reader.Unread(), end) && BoundedReadAhead(reader.Unread())
      requires octets + |reader.Unread()| <= HEADER_SECTION_LIMIT
      requires CutLine(reader.Stream(), HEADER_SECTION_LIMIT - octets) ==
               Line(reader.Stream()[..end], reader.Stream()[end + 2..])
      modifies reader
      ensures reader.Valid() && |text| == end
      ensures |reader.Unread()| + end + 2 == old(|reader.Unread()|) && |reader.Unread()| <= REQUEST_LINE_LIMIT
      ensures |reader.Stream()| < old(|reader.Stream()|)
      ensures octets + |text| + 2 <= HEADER_SECTION_LIMIT
      ensures DecodeTrailers(LIMITS, headers, octets, old(reader.Stream())) ==
              if text == "" then Done(headers, reader.Stream())
              else match AppendFieldLine(headers, text)
                   case None => Malformed
                   case Some(more) => DecodeTrailers(LIMITS, more, octets + |text| + 2, reader.Stream())
    {
      hide CutLine, NoCrlf, AppendFieldLine, DecodeTrailers;
      ghost var stream := reader.Stream();
      text := reader.buffer[reader.start..reader.start + end];
      assert text == stream[..end];
      BodyDecoding.TrailersLine(headers, octets, stream, text, stream[end + 2..]);
      LineLeavesReadAhead(reader.Unread(), end);
      reader.Consume(end + 2);
    }

    static method JudgeTrailers(headers: HeaderMap, ghost verdict: Verdict) returns (r: OriginFrame)
      requires verdict.Done? && verdict.trailers == headers
      ensures match r
              case OriginTrailers(trailers) => OriginTrailersAllowed(headers) && Sanitized(headers) == Some(trailers)
              case OriginFailed(error) => OriginErrorFor(verdict) == Some(error)
              case _ => false
    {
      hide Sanitized;
      if !OriginTrailersAllowed(headers) {
        return OriginFailed(Invalid);
      }
      assert CONNECTION in ORIGIN_FORBIDDEN;
      NoConnectionSanitizes(headers);
      var kept := SanitizeHopByHop(headers);
      return OriginTrailers(kept.value);
    }

    method ReadExactDelimiter(reader: Connection) returns (r: Option<OriginFrame>)
      requires Valid(reader) && state == Framed(ChunkDataEnd)
      modifies this, reader, reader.buffer, reader.io
      ensures reader.Valid()
      ensures match r
              case None =>
                && Valid(reader) && Remaining(reader) == old(Remaining(reader)) && !state.UntilClose?
                && |reader.Stream()| < |old(reader.Stream())|
              case Some(frame) => Means(frame, old(Remaining(reader)), reader)
    {
      hide CutLine, ParseChunkSize, DecodeTrailers;
      var ready := reader.EnsureBuffered(2);
      if ready.ReadCancelled? {
        return Some(OriginDropped);
      }
      if ready.ReadError? {
        return Some(OriginFailed(OriginError.Incomplete));
      }
      var delimiter := reader.buffer[reader.start..reader.start + 2];
      assert delimiter == reader.Unread()[..2];
      assert delimiter == reader.Stream()[..2];
      if delimiter != "\r\n" {
        return Some(OriginFailed(Invalid));
      }
      reader.Consume(2);
      state := Framed(ChunkSize);
      return None;
    }

    method ReadSize(reader: Connection) returns (r: Option<OriginFrame>)
      requires Valid(reader) && state == Framed(ChunkSize)
      modifies this, reader, reader.buffer, reader.io
      ensures reader.Valid()
      ensures match r
              case None =>
                && Valid(reader) && Remaining(reader) == old(Remaining(reader)) && !state.UntilClose?
                && |reader.Stream()| < |old(reader.Stream())|
              case Some(frame) => Means(frame, old(Remaining(reader)), reader)
    {
      hide CutLine, ParseChunkSize, DecodeTrailers;
      ghost var before := reader.Stream();
      var line := reader.ReadBodyLine(REQUEST_LINE_LIMIT);
      match line {
        case LineCancelled =>
          return Some(OriginDropped);
        case LineError(error) =>
          return Some(OriginFailed(if error == IngressError.Incomplete then OriginError.Incomplete else Invalid));
        case TextLine(text) =>
          CutLineFacts(before, REQUEST_LINE_LIMIT);
          var size := ParseChunkSize(text);
          if size.None? {
            return Some(OriginFailed(Invalid));
          }
          state := Framed(if size.value == 0 then Trailers else ChunkData(size.value));
          return None;
      }
    }

    method ReadPiece(reader: Connection) returns (r: OriginFrame)
      requires Valid(reader)
      requires state.Framed? ==> (state.inner.Fixed? || state.inner.ChunkData?) && state.inner.remaining > 0
      modifies this, reader, reader.buffer, reader.io
      ensures reader.Valid()
      ensures Means(r, old(Remaining(reader)), reader)
    {
      hide CutLine, ParseChunkSize, DecodeTrailers;
      var maximum := if state.Framed? then Min(state.inner.remaining, APPLICATION_BUFFER_LIMIT)
                     else APPLICATION_BUFFER_LIMIT;
      var read := ReadData(reader, maximum);
      match read {
        case DataDropped =>
          return OriginDropped;
        case DataFailed =>
          return OriginFailed(OriginError.Incomplete);
        case NoData =>
          if state.Framed? {
            return OriginFailed(OriginError.Incomplete);
          }
          state := Framed(Complete);
          EndDelivered(nominations, reader.Stream());
          return OriginEnd;
        case GotData(data) =>
          if state.Framed? {
            DecodePiece(LIMITS, state.inner, map[], 0, data, reader.Stream());
            state := Framed(AfterData(state.inner, |data|));
          }
          return OriginData(data);
      }
    }

    /** Once the trailers were delivered, only the end can follow. */
    lemma {:induction false} OnlyEndFollows(frame: OriginFrame, s: string, reader: Connection)
      requires reader.Valid() && Means(frame, Outcome("", Done(map[], s)), reader)
      ensures frame.OriginEnd? || frame.OriginDropped?
    {
    }

    lemma {:induction false} CompleteMeans(reader: Connection)
      requires Valid(reader) && state == Framed(Complete)
      ensures Means(OriginEnd, Remaining(reader), reader)
    {
    }

    /** One frame. A dropped call is never followed by another: the stream it read from is discarded. */
    method NextFrame(reader: Connection) returns (r: OriginFrame)
      requires Valid(reader)
      modifies this, reader, reader.buffer, reader.io
      ensures reader.Valid()
      ensures Means(r, old(Remaining(reader)), reader)
    {
      hide Decode, Means, Connection.Unread;
      ghost var outcome := Remaining(reader);
      while true
        invariant Valid(reader) && Remaining(reader) == outcome
        decreases |reader.Stream()|, if state.Framed? && state.inner.Fixed? then 1 else 0
      {
        if state.UntilClose? {
          r := ReadPiece(reader);
          return;
        }
        match state.inner {
          case Complete =>
            CompleteMeans(reader);
            return OriginEnd;
          case Fixed(remaining) =>
            if remaining == 0 {
              NothingLeft(reader.Stream());
              state := Framed(Complete);
            } else {
              r := ReadPiece(reader);
              return;
            }
          case ChunkSize =>
            var step := ReadSize(reader);
            if step.Some? {
              return step.value;
            }
          case ChunkData(_) =>
            r := ReadPiece(reader);
            return;
          case ChunkDataEnd =>
            var step := ReadExactDelimiter(reader);
            if step.Some? {
              return step.value;
            }
          case Trailers =>
            r := FinishTrailers(reader);
            return;
        }
      }
    }

    method FinishTrailers(reader: Connection) returns (r: OriginFrame)
      requires Valid(reader) && state == Framed(Trailers)
      modifies this, reader, reader.buffer, reader.io
      ensures reader.Valid()
      ensures Means(r, old(Remaining(reader)), reader)
    {
      hide CutLine, ParseChunkSize, DecodeTrailers, WellFormed, Sanitized, HeaderBytes;
      ghost var raw := DecodeTrailers(LIMITS, map[], 0, reader.Stream());
      var read := ReadTrailers(reader);
      if !read.OriginTrailers? {
        return read;
      }
      var trailers := RemoveEach(read.trailers, nominations);
      KeptTrailers(raw.trailers, nominations);
      state := Framed(Complete);
      return if trailers == map[] then OriginEnd else OriginTrailers(trailers);
    }
  }

  /** A body was consumed to its framed end and its trailers filtered. */
  ghost predicate Delivered(outcome: Outcome, trailers: HeaderMap, nominations: seq<string>, rest: string)
  {
    && outcome.payload == ""
    && outcome.verdict.Done? && outcome.verdict.rest == rest
    && OriginErrorFor(outcome.verdict).None?
    && ForwardedTrailers(outcome.verdict.trailers, nominations) == Some(trailers)
  }

  lemma {:induction false} EndDelivered(nominations: seq<string>, s: string)
    ensures Decode(LIMITS, Complete, map[], 0, s) == Outcome("", Done(map[], s))
    ensures Delivered(Outcome("", Done(map[], s)), map[], nominations, s)
  {
  }

  lemma {:induction false} NothingLeft(s: string)
    ensures Decode(LIMITS, Fixed(0), map[], 0, s) == Decode(LIMITS, Complete, map[], 0, s)
  {
  }

  lemma {:induction false} NoHeaderBytes()
    ensures HeaderBytes(map[]) == 0
  {
  }

  lemma {:induction false} ShortReadAhead(unread: string)
    requires |unread| <= REQUEST_LINE_LIMIT
    ensures BoundedReadAhead(unread)
  {
  }

  // ---- the body stream and the pool ----

  /** A checked origin at rest: its socket and the cursors of its buffer. */
  datatype HttpOrigin = HttpOrigin(socket: nat, start: nat, end: nat)

  type OriginPool = IdlePool<string, HttpOrigin>

  predicate OriginReusable(origin: HttpOrigin)
  {
    origin.start == origin.end
  }

  ghost predicate Pooled(queue: seq<Item<string, HttpOrigin>>, socket: nat)
  {
    exists x :: x in queue && x.entry.value.socket == socket
  }

  /** `put_if_reusable` as far as one socket is concerned. */
  method PutOrigin(pool: OriginPool, key: string, origin: HttpOrigin)
    requires pool.Valid() && pool.puts < U64_END && !Pooled(pool.queue, origin.socket)
    modifies pool`entries, pool`queue, pool`nextSequence, pool`puts, pool.clock
    ensures pool.Valid() && pool.puts <= old(pool.puts) + 1
    ensures Pooled(pool.queue, origin.socket) <==> OriginReusable(origin) && !pool.closed && pool.capacity > 0
    ensures forall x :: x in pool.queue ==> x in old(pool.queue) || x.entry.value == origin
  {
    hide Live, Without, Newest, IdlePool.Valid;
    ghost var before := pool.queue;
    assert forall x :: x in before ==> x.entry.value.socket != origin.socket;
    pool.PutIfReusable(key, origin, OriginReusable);
    if !OriginReusable(origin) || pool.closed {
      LiveMembers(before, pool.lifetime, pool.clock.time);
    } else {
      ghost var now, since :| old(pool.clock.time) <= now <= since == pool.clock.time &&
        pool.queue == Newest(Without(Live(before, pool.lifetime, now), key) +
                             [Item(key, IdlePools.Entry.Entry(origin, since, old(pool.puts)))], pool.capacity);
      var item := Item(key, IdlePools.Entry.Entry(origin, since, old(pool.puts)));
      PutMembers(before, item, pool.lifetime, now, pool.capacity);
      NewestMembers(Without(Live(before, pool.lifetime, now), key) + [item], pool.capacity);
      assert pool.capacity == 0 ==> pool.queue == [];
    }
  }

  class StreamingOriginBody {
    const reader: Connection
    const decoder: OriginDecoder
    const socket: nat
    const key: string
    const pool: OriginPool
    const poolable: bool
    // Whether the checked-out connection is still owned here.
    var ready: bool

    ghost predicate Valid()
      reads this, decoder, reader, reader.buffer
    {
      reader.Valid() && (ready ==> decoder.Valid(reader))
    }

    constructor (reader: Connection, socket: nat, key: string, pool: OriginPool, framing: OriginFraming,
                 nominations: seq<string>, poolable: bool)
      requires reader.Valid() && |reader.Unread()| <= REQUEST_LINE_LIMIT
      requires pool.Valid() && pool.puts < U64_END && !Pooled(pool.queue, socket)
      modifies pool`entries, pool`queue, pool`nextSequence, pool`puts, pool.clock
      ensures Valid() && fresh(decoder) && pool.Valid() && pool.puts <= old(pool.puts) + 1
      ensures this.reader == reader && this.socket == socket && this.pool == pool && this.poolable == poolable
      ensures decoder.nominations == nominations
      ensures ready <==> !framing.NoContent?
      ensures ready ==> decoder.Remaining(reader) == ResponseOutcome(framing, reader.Stream(), reader.io.fails)
      ensures ready ==> pool.queue == old(pool.queue) && pool.puts == old(pool.puts)
      ensures !ready ==>
                (Pooled(pool.queue, socket) <==>
                   poolable && reader.Unread() == "" && !pool.closed && pool.capacity > 0)
    {
      hide Decode, IdlePool.Valid;
      this.reader := reader;
      this.decoder := new OriginDecoder(framing, nominations);
      this.socket := socket;
      this.key := key;
      this.pool := pool;
      this.poolable := poolable;
      ready := !framing.NoContent?;
      new;
      if framing.NoContent? && poolable {
        PutOrigin(pool, key, HttpOrigin(socket, reader.start, reader.end));
      }
    }

    /** The origin goes back to the pool only from here, when the body has ended. */
    method Finish()
      requires ready && reader.Valid()
      requires pool.Valid() && pool.puts < U64_END && !Pooled(pool.queue, socket)
      modifies this, pool`entries, pool`queue, pool`nextSequence, pool`puts, pool.clock
      ensures !ready && pool.Valid() && pool.puts <= old(pool.puts) + 1
      ensures Pooled(pool.queue, socket) <==>
                poolable && reader.Unread() == "" && !pool.closed && pool.capacity > 0
    {
      hide IdlePool.Valid;
      ready := false;
      if poolable {
        PutOrigin(pool, key, HttpOrigin(socket, reader.start, reader.end));
      }
    }

    /** One `poll_frame` carried to completion, or to the point where the stream is dropped. */
    method PollFrame() returns (r: OriginFrame)
      requires Valid() && pool.Valid() && pool.puts < U64_END
      requires !Pooled(pool.queue, socket)
      modifies this, decoder, reader, reader.buffer, reader.io
      modifies pool`entries, pool`queue, pool`nextSequence, pool`puts, pool.clock
      ensures Valid() && pool.Valid() && pool.puts <= old(pool.puts) + 1
      ensures old(ready) ==> decoder.Means(r, old(decoder.Remaining(reader)), reader)
      ensures r.OriginData? || r.OriginTrailers? ==> ready && old(ready)
      ensures r.OriginFailed? || r.OriginDropped? || r.OriginEnd? ==> !ready
      ensures old(ready) && r.OriginEnd? ==>
                (Pooled(pool.queue, socket) <==>
                   poolable && reader.Unread() == "" && !pool.closed && pool.capacity > 0)
      ensures !(old(ready) && r.OriginEnd?) ==> pool.queue == old(pool.queue) && pool.puts == old(pool.puts)
    {
      hide Decode, IdlePool.Valid, Delivered, Pooled;
      if !ready {
        return OriginEnd;
      }
      if * {
        ready := false;
        return OriginDropped;
      }
      r := decoder.NextFrame(reader);
      if r.OriginEnd? {
        Finish();
      } else if r.OriginFailed? || r.OriginDropped? {
        ready := false;
      }
    }
  }

  datatype StreamEnd = Reading | Ended(trailers: HeaderMap) | Broken(error: OriginError) | Discarded

  /** Any number of polls. The origin is pooled exactly when the body was read to its framed end with
      nothing left over and the exchange allows it; a failed or dropped body never pools. */
  method StreamBody(body: StreamingOriginBody, polls: nat) returns (payload: string, end: StreamEnd)
    requires body.Valid() && body.ready && body.pool.Valid() && body.pool.puts < U64_END
    requires !Pooled(body.pool.queue, body.socket)
    modifies body, body.decoder, body.reader, body.reader.buffer, body.reader.io
    modifies body.pool`entries, body.pool`queue, body.pool`nextSequence, body.pool`puts, body.pool.clock
    ensures body.reader.Valid() && body.pool.Valid() && body.pool.puts <= old(body.pool.puts) + 1
    ensures var outcome := old(body.decoder.Remaining(body.reader));
            match end
            case Reading => payload <= outcome.payload
            case Ended(trailers) =>
              && outcome.payload == payload && OriginErrorFor(outcome.verdict).None?
              && outcome.verdict.rest == body.reader.Stream()
              && ForwardedTrailers(outcome.verdict.trailers, body.decoder.nominations) == Some(trailers)
            case Broken(error) => outcome.payload == payload && OriginErrorFor(outcome.verdict) == Some(error)
            case Discarded => payload <= outcome.payload
    ensures Pooled(body.pool.queue, body.socket) <==>
              && end.Ended? && body.poolable && body.reader.Unread() == ""
              && !body.pool.closed && body.pool.capacity > 0
  {
    hide Decode, IdlePool.Valid, Pooled, WellFormed, HeaderBytes, ForwardedTrailers, OriginErrorFor;
    payload := "";
    ghost var outcome := body.decoder.Remaining(body.reader);
    var trailers: Option<HeaderMap> := None;
    for poll := 0 to polls
      invariant body.Valid() && body.ready && body.pool.Valid()
      invariant body.pool.queue == old(body.pool.queue) && body.pool.puts == old(body.pool.puts)
      invariant trailers.None? ==> outcome == Prepend(payload, body.decoder.Remaining(body.reader))
      invariant trailers.Some? ==>
        && body.decoder.state == Framed(Complete)
        && Delivered(Outcome("", outcome.verdict), trailers.value, body.decoder.nominations, body.reader.Stream())
        && outcome.payload == payload
    {
      ghost var rest := body.reader.Stream();
      EndDelivered(body.decoder.nominations, rest);
      var frame := body.PollFrame();
      if trailers.Some? {
        body.decoder.OnlyEndFollows(frame, rest, body.reader);
      }
      match frame {
        case OriginData(data) =>
          Assoc(payload, data, body.decoder.Remaining(body.reader).payload);
          payload := payload + data;
        case OriginTrailers(received) =>
          trailers := Some(received);
        case OriginEnd =>
          return payload, Ended(if trailers.Some? then trailers.value else map[]);
        case OriginFailed(error) =>
          return payload, Broken(error);
        case OriginDropped =>
          return payload, Discarded;
      }
    }
    return payload, Reading;
  }

  // ---- both decoders on one stream ----

  predicate Decided(asked: BodyDecoding.BodyEnd, answered: StreamEnd)
  {
    !asked.StillReading? && (answered.Ended? || answered.Broken?)
  }

  /** How two runs over the same octets relate. Data delivered by either is a prefix of the other's; runs that
      come to an end have delivered the same payload and reached the same verdict, except that the origin's
      refuses four more trailer names; and where both succeed they stop at the same octet. */
  ghost predicate RunsAgree(asked: string, askedEnd: BodyDecoding.BodyEnd, askedRest: string,
                            answered: string, answeredEnd: StreamEnd, answeredRest: string, nominations: seq<string>)
  {
    && (asked <= answered || answered <= asked)
    && (Decided(askedEnd, answeredEnd) ==>
          && asked == answered
          && (askedEnd.Failed? ==> answeredEnd == Broken(SameError(askedEnd.error)))
          && (askedEnd.Finished? ==>
                if askedEnd.trailers.Keys !! ORIGIN_ONLY_FORBIDDEN then
                  && answeredEnd.Ended? && askedRest == answeredRest
                  && ForwardedTrailers(askedEnd.trailers, nominations) == Some(answeredEnd.trailers)
                else answeredEnd == Broken(Invalid)))
  }

  /** Two runs that each tell the truth about one outcome agree with each other. */
  lemma {:induction false} EndsAgree(whole: Outcome, asked: string, askedEnd: BodyDecoding.BodyEnd, askedRest: string,
                                     answered: string, answeredEnd: StreamEnd, answeredRest: string,
                                     nominations: seq<string>)
    requires match askedEnd
             case StillReading => asked <= whole.payload
             case Finished(trailers) =>
               whole == Outcome(asked, Done(trailers, askedRest)) && BodyDecoding.TrailersAllowed(trailers)
             case Failed(error) => whole.payload == asked && BodyDecoding.ErrorFor(whole.verdict) == Some(error)
    requires match answeredEnd
             case Ended(trailers) =>
               && whole.payload == answered && OriginErrorFor(whole.verdict).None? && whole.verdict.Done?
               && whole.verdict.rest == answeredRest
               && ForwardedTrailers(whole.verdict.trailers, nominations) == Some(trailers)
             case Broken(error) => whole.payload == answered && OriginErrorFor(whole.verdict) == Some(error)
             case _ => answered <= whole.payload
    ensures RunsAgree(asked, askedEnd, askedRest, answered, answeredEnd, answeredRest, nominations)
  {
    hide ForwardedTrailers, OriginErrorFor;
    VerdictsAgree(whole.verdict);
    assert asked == whole.payload[..|asked|] && answered == whole.payload[..|answered|];
  }

  /** The request decoder and the response decoder, each run over a connection of its own that carries the same
      octets, with whatever splits and drops: they decode the same message. */
  method DecodersAgree(framing: BodyDecoding.BodyFraming, nominations: seq<string>, connection: Connection,
                       reader: Connection, socket: nat, key: string, pool: OriginPool, poolable: bool,
                       calls: nat, polls: nat)
    returns (asked: string, askedEnd: BodyDecoding.BodyEnd, answered: string, answeredEnd: StreamEnd)
    requires connection.Valid() && |connection.Unread()| <= REQUEST_LINE_LIMIT
    requires reader.Valid() && |reader.Unread()| <= REQUEST_LINE_LIMIT
    requires connection != reader && connection.buffer != reader.buffer && connection.io != reader.io
    requires connection.Stream() == reader.Stream()
    requires pool.Valid() && pool.puts < U64_END && !Pooled(pool.queue, socket)
    modifies connection, connection.buffer, connection.io, reader, reader.buffer, reader.io
    modifies pool`entries, pool`queue, pool`nextSequence, pool`puts, pool.clock
    ensures connection.Valid() && reader.Valid()
    ensures RunsAgree(asked, askedEnd, connection.Stream(), answered, answeredEnd, reader.Stream(), nominations)
  {
    hide Decode, IdlePool.Valid, Pooled, ForwardedTrailers, OriginErrorFor, BodyDecoding.ErrorFor;
    var decoder := new BodyDecoding.BodyDecoder(framing);
    ghost var whole := Decode(LIMITS, BodyDecoding.InitialState(framing), map[], 0, connection.Stream());
    var body := new StreamingOriginBody(reader, socket, key, pool, SameFraming(framing), nominations, poolable);
    asked, askedEnd := BodyDecoding.ReadBody(decoder, connection, calls);
    if body.ready {
      answered, answeredEnd := StreamBody(body, polls);
    } else {
      EndDelivered(nominations, reader.Stream());
      answered, answeredEnd := "", Ended(map[]);
    }
    VerdictsAgree(whole.verdict);
    EndsAgree(whole, asked, askedEnd, connection.Stream(), answered, answeredEnd, reader.Stream(), nominations);
  }

}
