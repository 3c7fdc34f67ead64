/**
 The resumable request-body decoder. `NextFrame` may be dropped at any await and called again; every
 frame it returns is the next piece of the outcome `Decode` assigns to the whole octet stream.
 */
module BodyDecoding {
  import opened HttpText
  import opened Headers
  import opened ChunkedGrammar
  import opened Http1Connection

  datatype BodyFraming = NoBody | ContentLength(length: nat) | Chunked

  datatype FrameRead =
    | DataFrame(data: string)
    | TrailerFrame(trailers: HeaderMap)
    | EndOfBody
    | FrameError(error: IngressError)
    | FrameCancelled

  const FORBIDDEN_TRAILERS: set<string> := {
    "connection", "content-length", "host", "proxy-authorization",
    "proxy-authenticate", "te", "trailer", "transfer-encoding"
  }

  predicate TrailersAllowed(trailers: HeaderMap)
  {
    forall n :: n in trailers ==> n !in FORBIDDEN_TRAILERS
  }

  function SyntaxError(verdict: Verdict): Option<IngressError>
  {
    match verdict
    case Done(_, _) => None
    case Malformed => Some(BadRequest)
    case TooLarge => Some(HeadersTooLarge)
    case Truncated => Some(Incomplete)
  }

  /** The error the caller sees for a verdict; `None` is success. */
  function ErrorFor(verdict: Verdict): Option<IngressError>
  {
    if verdict.Done? && !TrailersAllowed(verdict.trailers) then Some(BadRequest) else SyntaxError(verdict)
  }

  function InitialState(framing: BodyFraming): DecoderState
  {
    match framing
    case NoBody => Complete
    case ContentLength(length) => Fixed(length)
    case Chunked => ChunkSize
  }

  /** Colon and CRLF of at least one field line. */
  function Overhead(headers: HeaderMap): nat
  {
    if headers == map[] then 0 else 3
  }

  class BodyDecoder {
    var state: DecoderState
    var trailerHeaders: HeaderMap
    var trailerOctets: nat

    constructor (framing: BodyFraming)
      ensures state == InitialState(framing) && trailerHeaders == map[] && trailerOctets == 0
    {
      state := InitialState(framing);
      trailerHeaders := map[];
      trailerOctets := 0;
    }

    /** What holds of decoder and connection between any two calls, dropped ones included. */
    ghost predicate Valid(connection: Connection)
      reads this, connection, connection.buffer
    {
      && connection.Valid()
      && ValidState(LIMITS, state, trailerOctets)
      && WellFormed(trailerHeaders)
      && HeaderBytes(trailerHeaders) + Overhead(trailerHeaders) <= trailerOctets
      && (if state.Trailers? then
            && trailerOctets + |connection.Unread()| <= HEADER_SECTION_LIMIT
            && BoundedReadAhead(connection.Unread())
          else
            && trailerHeaders == map[]
            && (trailerOctets == 0 || state.Complete?)
            && |connection.Unread()| <= REQUEST_LINE_LIMIT)
    }

    /** Everything this body will still deliver from the octets not yet consumed. */
    ghost function Remaining(connection: Connection): Outcome
      requires Valid(connection)
      reads this, connection, connection.buffer, connection.io
    {
      Decode(LIMITS, state, trailerHeaders, trailerOctets, connection.Stream())
    }

    /** What the trailer section still to be read amounts to. */
    ghost function Section(connection: Connection): Verdict
      requires Valid(connection) && state.Trailers?
      reads this, connection, connection.buffer, connection.io
    {
      DecodeTrailers(LIMITS, trailerHeaders, trailerOctets, connection.Stream())
    }

    ghost predicate SectionRead(connection: Connection, verdict: Verdict)
      reads this, connection, connection.buffer, connection.io
    {
      && connection.Valid()
      && verdict == Done(trailerHeaders, connection.Stream())
      && WellFormed(trailerHeaders)
      && HeaderBytes(trailerHeaders) + Overhead(trailerHeaders) + 2 <= trailerOctets
      && trailerOctets + |connection.Unread()| <= HEADER_SECTION_LIMIT
      && |connection.Unread()| <= REQUEST_LINE_LIMIT
    }

    /** Octets held for this body: partial trailers plus unread buffer contents. */
    ghost function Held(connection: Connection): nat
      requires connection.Valid()
      reads this, connection, connection.buffer
    {
      HeaderBytes(trailerHeaders) + |connection.Unread()|
    }

    /** Trailer lines one by one; each is consumed and recorded before the next await. */
    method ReadBodyTrailers(connection: Connection) returns (r: FrameRead)
      requires Valid(connection) && state.Trailers?
      modifies this, connection, connection.buffer, connection.io
      ensures state.Trailers? && connection.Valid()
      ensures r.EndOfBody? || r.FrameCancelled? || r.FrameError?
      ensures r.EndOfBody? ==> SectionRead(connection, old(Section(connection)))
      ensures r.FrameCancelled? ==> Valid(connection) && Section(connection) == old(Section(connection))
      ensures r.FrameError? ==> SyntaxError(old(Section(connection))) == Some(r.error)
    {
      hide CutLine, NoCrlf, ParseFieldLine, WellFormed, DecodeTrailers, BoundedReadAhead, SectionRead;
      while true
        invariant state.Trailers? && Valid(connection) && Section(connection) == old(Section(connection))
        decreases |connection.Stream()|
      {
        var seek := connection.SeekLine(HEADER_SECTION_LIMIT - trailerOctets);
        if seek.SeekCancelled? {
          return FrameCancelled;
        }
        if seek.Refused? {
          TrailersRefused(trailerHeaders, trailerOctets, connection.Stream());
          return FrameError(if seek.cut.TooLong? then HeadersTooLarge
                            else if seek.cut.Unfinished? then Incomplete else BadRequest);
        }
        var taken := TakeTrailerLine(connection, seek.end);
        if taken.Some? {
          return taken.value;
        }
      }
    }

    /** Consumes one buffered trailer line and records it; `None` asks for the next one. */
    method TakeTrailerLine(connection: Connection, relativeEnd: nat) returns (r: Option<FrameRead>)
      requires Valid(connection) && state.Trailers?
      requires FirstCrlf(connection.Unread(), relativeEnd)
      requires var s := connection.Stream();
               CutLine(s, HEADER_SECTION_LIMIT - trailerOctets) == Line(s[..relativeEnd], s[relativeEnd + 2..])
      modifies this, connection
      ensures state == old(state) && connection.Valid()
      ensures |connection.Stream()| < |old(connection.Stream())|
      ensures r.None? ==> Valid(connection) && Section(connection) == old(Section(connection))
      ensures r.Some? ==> r.value.EndOfBody? || r.value.FrameError?
      ensures r.Some? && r.value.EndOfBody? ==> SectionRead(connection, old(Section(connection)))
      ensures r.Some? && r.value.FrameError? ==> SyntaxError(old(Section(connection))) == Some(r.value.error)
    {
      hide CutLine, NoCrlf, ParseFieldLine, WellFormed, DecodeTrailers;
      var text := connection.buffer[connection.start..connection.start + relativeEnd];
      ghost var stream := connection.Stream();
      assert text == stream[..relativeEnd];
      TrailersLine(trailerHeaders, trailerOctets, stream, text, stream[relativeEnd + 2..]);
      LineLeavesReadAhead(connection.Unread(), relativeEnd);
      // The running total cannot pass the limit: the line was sought within what is left of it.
      trailerOctets := trailerOctets + relativeEnd + 2;
      connection.Consume(relativeEnd + 2);
      if relativeEnd == 0 {
        return Some(EndOfBody);
      }
      var appended := AppendFieldLine(trailerHeaders, text);
      if appended.None? {
        return Some(FrameError(BadRequest));
      }
      AppendedLine(trailerHeaders, text);
      trailerHeaders := appended.value;
      return None;
    }

    method ReadPiece(connection: Connection) returns (r: FrameRead)
      requires Valid(connection)
      requires (state.Fixed? || state.ChunkData?) && state.remaining > 0
      modifies this, connection, connection.buffer, connection.io
      ensures Valid(connection)
      ensures match r
              case DataFrame(data) =>
                && 0 < |data| && |data| + Held(connection) <= REQUEST_BODY_FRAME_LIMIT
                && old(Remaining(connection)) == Prepend(data, Remaining(connection))
                && !state.Complete?
              case FrameCancelled => Remaining(connection) == old(Remaining(connection))
              case _ => r == FrameError(Incomplete) && old(Remaining(connection)) == Outcome("", Truncated)
    {
      hide CutLine, ParseChunkSize, DecodeTrailers;
      var remaining := state.remaining;
      var maximum := Min(remaining, REQUEST_BODY_FRAME_LIMIT);
      var data := connection.ReadBodyData(maximum);
      match data {
        case DataCancelled =>
          return FrameCancelled;
        case Piece(piece) =>
          DecodePiece(LIMITS, state, trailerHeaders, trailerOctets, piece, connection.Stream());
          state := AfterData(state, |piece|);
          return DataFrame(piece);
        case _ =>
          return FrameError(Incomplete);
      }
    }

    method ReadSize(connection: Connection) returns (r: Option<FrameRead>)
      requires Valid(connection) && state.ChunkSize?
      modifies this, connection, connection.buffer, connection.io
      ensures Valid(connection)
      ensures match r
              case None =>
                && Remaining(connection) == old(Remaining(connection))
                && |connection.Stream()| < |old(connection.Stream())|
              case Some(FrameCancelled) => Remaining(connection) == old(Remaining(connection))
              case Some(FrameError(error)) =>
                && old(Remaining(connection)).payload == ""
                && ErrorFor(old(Remaining(connection)).verdict) == Some(error)
              case _ => false
    {
      hide CutLine, ParseChunkSize, DecodeTrailers;
      ghost var before := connection.Stream();
      var line := connection.ReadBodyLine(REQUEST_LINE_LIMIT);
      match line {
        case LineCancelled =>
          return Some(FrameCancelled);
        case LineError(error) =>
          return Some(FrameError(error));
        case TextLine(text) =>
          CutLineFacts(before, REQUEST_LINE_LIMIT);
          var size := ParseChunkSize(text);
          if size.None? {
            return Some(FrameError(BadRequest));
          }
          state := if size.value == 0 then Trailers else ChunkData(size.value);
          return None;
      }
    }

    method ReadDelimiter(connection: Connection) returns (r: Option<FrameRead>)
      requires Valid(connection) && state.ChunkDataEnd?
      modifies this, connection, connection.buffer, connection.io
      ensures Valid(connection)
      ensures match r
              case None =>
                && Remaining(connection) == old(Remaining(connection))
                && |connection.Stream()| < |old(connection.Stream())|
              case Some(FrameCancelled) => Remaining(connection) == old(Remaining(connection))
              case Some(FrameError(error)) =>
                && old(Remaining(connection)).payload == ""
                && ErrorFor(old(Remaining(connection)).verdict) == Some(error)
              case _ => false
    {
      hide CutLine, ParseChunkSize, DecodeTrailers;
      var ready := connection.EnsureBuffered(2);
      if ready.ReadCancelled? {
        return Some(FrameCancelled);
      }
      if ready.ReadError? {
        return Some(FrameError(Incomplete));
      }
      var delimiter := connection.buffer[connection.start..connection.start + 2];
      assert delimiter == connection.Unread()[..2];
      assert delimiter == connection.Stream()[..2];
      if delimiter != "\r\n" {
        return Some(FrameError(BadRequest));
      }
      connection.Consume(2);
      state := ChunkSize;
      return None;
    }

    method FinishTrailers(connection: Connection) returns (r: FrameRead)
      requires Valid(connection) && state.Trailers?
      modifies this, connection, connection.buffer, connection.io
      ensures connection.Valid()
      ensures !r.FrameError? ==> Valid(connection)
      ensures match r
              case TrailerFrame(trailers) =>
                && trailers != map[] && WellFormed(trailers) && TrailersAllowed(trailers)
                && old(Remaining(connection)) == Outcome("", Done(trailers, connection.Stream()))
                && state.Complete?
                && HeaderBytes(trailers) + 5 + Held(connection) <= HEADER_SECTION_LIMIT
              case EndOfBody =>
                && old(Remaining(connection)) == Outcome("", Done(map[], connection.Stream()))
                && state.Complete?
              case FrameError(error) =>
                && old(Remaining(connection)).payload == ""
                && ErrorFor(old(Remaining(connection)).verdict) == Some(error)
              case FrameCancelled => Remaining(connection) == old(Remaining(connection))
              case _ => false
    {
      hide CutLine, ParseChunkSize, DecodeTrailers, WellFormed;
      var read := ReadBodyTrailers(connection);
      if !read.EndOfBody? {
        return read;
      }
      if !TrailersAllowed(trailerHeaders) {
        return FrameError(BadRequest);
      }
      state := Complete;
      var trailers := trailerHeaders;
      trailerHeaders := map[];
      EmptyIsWellFormed();
      return if trailers == map[] then EndOfBody else TrailerFrame(trailers);
    }

    /** One frame; loops only over framing, so a dropped call loses nothing. */
    method NextFrame(connection: Connection) returns (r: FrameRead)
      requires Valid(connection)
      modifies this, connection, connection.buffer, connection.io
      ensures connection.Valid()
      ensures !r.FrameError? ==> Valid(connection)
      ensures match r
              case DataFrame(data) =>
                && 0 < |data| && |data| + Held(connection) <= REQUEST_BODY_FRAME_LIMIT
                && old(Remaining(connection)) == Prepend(data, Remaining(connection))
                && !state.Complete?
              case TrailerFrame(trailers) =>
                && trailers != map[] && WellFormed(trailers) && TrailersAllowed(trailers)
                && old(Remaining(connection)) == Outcome("", Done(trailers, connection.Stream()))
                && state.Complete?
                && HeaderBytes(trailers) + 5 + Held(connection) <= HEADER_SECTION_LIMIT
              case EndOfBody =>
                && old(Remaining(connection)) == Outcome("", Done(map[], connection.Stream()))
                && state.Complete?
              case FrameError(error) =>
                && old(Remaining(connection)).payload == ""
                && ErrorFor(old(Remaining(connection)).verdict) == Some(error)
              case FrameCancelled => Remaining(connection) == old(Remaining(connection))
    {
      ghost var outcome := Remaining(connection);
      while true
        invariant Valid(connection) && Remaining(connection) == outcome
        decreases |connection.Stream()|, if state.Fixed? then 1 else 0
      {
        hide CutLine, ParseChunkSize, DecodeTrailers, WellFormed, BoundedReadAhead;
        match state {
          case Complete =>
            return EndOfBody;
          case Fixed(remaining) =>
            if remaining == 0 {
              state := Complete;
            } else {
              r := ReadPiece(connection);
              return;
            }
          case ChunkSize =>
            var step := ReadSize(connection);
            if step.Some? {
              return step.value;
            }
          case ChunkData(_) =>
            r := ReadPiece(connection);
            return;
          case ChunkDataEnd =>
            var step := ReadDelimiter(connection);
            if step.Some? {
              return step.value;
            }
          case Trailers =>
            r := FinishTrailers(connection);
            return;
        }
      }
    }
  }

  lemma {:induction false} EmptyIsWellFormed()
    ensures WellFormed(map[])
  {
  }

  lemma {:induction false} TrailersRefused(headers: HeaderMap, octets: nat, s: string)
    requires octets <= HEADER_SECTION_LIMIT && !CutLine(s, HEADER_SECTION_LIMIT - octets).Line?
    ensures DecodeTrailers(LIMITS, headers, octets, s) ==
            match CutLine(s, HEADER_SECTION_LIMIT - octets)
            case BadEnding => Malformed
            case TooLong => TooLarge
            case _ => Truncated
  {
  }

  lemma {:induction false} TrailersLine(headers: HeaderMap, octets: nat, s: string, text: string, rest: string)
    requires octets <= HEADER_SECTION_LIMIT && CutLine(s, HEADER_SECTION_LIMIT - octets) == Line(text, rest)
    ensures octets + |text| + 2 <= HEADER_SECTION_LIMIT
    ensures DecodeTrailers(LIMITS, headers, octets, s) ==
            if text == "" then Done(headers, rest)
            else match AppendFieldLine(headers, text)
                 case None => Malformed
                 case Some(more) => DecodeTrailers(LIMITS, more, octets + |text| + 2, rest)
  {
    hide CutLine, AppendFieldLine;
    CutLineFacts(s, HEADER_SECTION_LIMIT - octets);
  }

  lemma {:induction false} AppendedLine(headers: HeaderMap, text: string)
    requires WellFormed(headers) && AppendFieldLine(headers, text).Some?
    ensures var more := AppendFieldLine(headers, text).value;
            more != map[] && WellFormed(more) && HeaderBytes(more) + 1 <= HeaderBytes(headers) + |text|
  {
    hide WellFormed;
    var field := ParseFieldLine(text).value;
    ParsedFieldGood(text);
    AppendWellFormed(headers, field);
    HeaderBytesAppend(headers, field.name, field.value);
    assert field.name in Append(headers, field.name, field.value);
  }

  datatype BodyEnd = StillReading | Finished(trailers: HeaderMap) | Failed(error: IngressError)

  /** Any number of calls, any of them dropped part-way, against any split of the stream: the data
      collected, the trailers, the error and the octet after the body are those of `Decode`. */
  method ReadBody(decoder: BodyDecoder, connection: Connection, calls: nat)
    returns (payload: string, end: BodyEnd)
    requires decoder.Valid(connection)
    modifies decoder, connection, connection.buffer, connection.io
    ensures connection.Valid()
    ensures match end
            case StillReading =>
              && decoder.Valid(connection)
              && old(decoder.Remaining(connection)) == Prepend(payload, decoder.Remaining(connection))
            case Finished(trailers) =>
              && decoder.Valid(connection) && decoder.state.Complete?
              && old(decoder.Remaining(connection)) == Outcome(payload, Done(trailers, connection.Stream()))
              && TrailersAllowed(trailers)
            case Failed(error) =>
              && old(decoder.Remaining(connection)).payload == payload
              && ErrorFor(old(decoder.Remaining(connection)).verdict) == Some(error)
  {
    hide Decode, WellFormed, BoundedReadAhead;
    payload := "";
    for call := 0 to calls
      invariant decoder.Valid(connection)
      invariant old(decoder.Remaining(connection)) == Prepend(payload, decoder.Remaining(connection))
    {
      ghost var before := decoder.Remaining(connection);
      var frame := decoder.NextFrame(connection);
      match frame {
        case DataFrame(data) =>
          Assoc(payload, data, decoder.Remaining(connection).payload);
          payload := payload + data;
        case TrailerFrame(trailers) =>
          return payload, Finished(trailers);
        case EndOfBody =>
          return payload, Finished(map[]);
        case FrameError(error) =>
          return payload, Failed(error);
        case FrameCancelled =>
      }
    }
    return payload, StillReading;
  }
}
