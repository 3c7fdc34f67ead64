/**
 The downstream connection: one fixed buffer with two cursors, and the resumable body decoder that
 reads from it.
 */
module Http1Connection {
  import opened HttpText
  import opened ChunkedGrammar
  import opened Wire

  const REQUEST_LINE_LIMIT: nat := 8192
  const HEADER_SECTION_LIMIT: nat := 65536
  const APPLICATION_BUFFER_LIMIT: nat := 65536
  const REQUEST_BODY_FRAME_LIMIT: nat := 32768
  const CONNECTION_BUFFER_LIMIT: nat := REQUEST_LINE_LIMIT + HEADER_SECTION_LIMIT

  const LIMITS: Limits := Limits(REQUEST_LINE_LIMIT, HEADER_SECTION_LIMIT)

  datatype IngressError = BadRequest | HeadersTooLarge | UnsupportedVersion | Incomplete

  datatype More = ReadSome | ReadNone | ReadError | ReadCancelled

  datatype LineRead = TextLine(text: string) | LineError(error: IngressError) | LineCancelled

  datatype LineSeek = LineAt(end: nat) | Refused(cut: Cut) | SeekCancelled

  datatype DataRead = Piece(data: string) | DataEnd | DataError | DataCancelled

  /** Syntax read-ahead: beyond 8 KiB the buffer holds no complete line in its older part. */
  ghost predicate BoundedReadAhead(unread: string)
  {
    |unread| > REQUEST_LINE_LIMIT ==> NoCrlf(unread[..|unread| - REQUEST_LINE_LIMIT])
  }

  class Connection {
    const io: Source
    const buffer: array<char>
    var start: nat
    var end: nat

    ghost predicate Valid()
      reads this
    {
      start <= end <= buffer.Length == CONNECTION_BUFFER_LIMIT
    }

    ghost function Unread(): string
      requires Valid()
      reads this, buffer
    {
      buffer[start..end]
    }

    /** Every octet not yet consumed: buffered ones first, then those still to arrive. */
    ghost function Stream(): string
      requires Valid()
      reads this, buffer, io
    {
      Unread() + io.incoming
    }

    constructor (io: Source)
      ensures Valid() && this.io == io && fresh(buffer)
      ensures Unread() == "" && Stream() == io.incoming
    {
      this.io := io;
      buffer := new char[CONNECTION_BUFFER_LIMIT](_ => ' ');
      start := 0;
      end := 0;
    }

    method Compact()
      requires Valid()
      modifies this, buffer
      ensures Valid() && Unread() == old(Unread())
      ensures start == 0 && end == old(end) - old(start)
    {
      if start == end {
        start := 0;
        end := 0;
      } else if start != 0 {
        var from := start;
        forall i | 0 <= i < end - start {
          buffer[i] := buffer[start + i];
        }
        end := end - start;
        start := 0;
      }
    }

    /** Reads into the buffer at `end`, up to 8 KiB further and never past `limit`. */
    method ReadMoreUntil(limit: nat) returns (r: More)
      requires Valid() && limit <= buffer.Length
      modifies this, buffer, io
      ensures Valid() && start == old(start) && Stream() == old(Stream())
      ensures r.ReadSome? ==> old(end) < end <= limit && end <= old(end) + REQUEST_LINE_LIMIT
      ensures r.ReadSome? ==> Unread() == old(Unread()) + Unread()[old(end) - old(start)..]
      ensures !r.ReadSome? ==> Unread() == old(Unread())
      ensures r.ReadNone? ==> old(end) >= limit || (io.incoming == "" && !io.fails)
      ensures r.ReadError? ==> io.incoming == "" && io.fails
    {
      if end >= limit {
        return ReadNone;
      }
      var room := Min(Min(end + REQUEST_LINE_LIMIT, limit), buffer.Length) - end;
      var got := io.Read(room);
      match got
      case ReadDropped => return ReadCancelled;
      case ReadFailed => return ReadError;
      case Got(data) =>
        Fill(data);
        return if data != "" then ReadSome else ReadNone;
    }

    /** Places received octets behind the buffered ones. */
    method Fill(data: string)
      requires Valid() && end + |data| <= buffer.Length
      modifies this, buffer
      ensures Valid() && start == old(start) && end == old(end) + |data|
      ensures Unread() == old(Unread()) + data
    {
      forall i | 0 <= i < |data| {
        buffer[end + i] := data[i];
      }
      end := end + |data|;
    }

    method Consume(count: nat)
      requires Valid() && count <= end - start
      modifies this
      ensures Valid() && start == old(start) + count && end == old(end)
      ensures Unread() == old(Unread())[count..]
      ensures Stream() == old(Stream())[count..]
    {
      start := start + count;
    }

    /** One CRLF-terminated line: exactly the line `CutLine` finds in the whole stream. */
    method ReadBodyLine(limit: nat) returns (r: LineRead)
      requires Valid() && limit <= buffer.Length
      modifies this, buffer, io
      ensures Valid() && (|Unread()| <= old(|Unread()|) || |Unread()| <= limit)
      ensures match r
              case TextLine(text) => CutLine(old(Stream()), limit) == Line(text, Stream())
              case LineError(error) =>
                (match CutLine(old(Stream()), limit)
                 case Line(_, _) => false
                 case Unfinished => error == Incomplete
                 case _ => error == BadRequest)
              case LineCancelled => Stream() == old(Stream())
    {
      ghost var stream := Stream();
      ghost var bound := if |Unread()| <= limit then limit else |Unread()|;
      while true
        invariant Valid() && Stream() == stream && |Unread()| <= bound
        decreases |io.incoming|
      {
        hide CutLine, CleanEndings, NoCrlf, FindCrlf;
        var available := buffer[start..end];
        assert available <= stream;
        FindCrlfFacts(available);
        var lineEnd := FindCrlf(available);
        match lineEnd
        case Some(p) =>
          var ok := ValidateLineEndings(available[..p + 2]);
          if !ok || p + 2 > limit {
            RefusedLine(stream, available, limit, p);
            return LineError(BadRequest);
          }
          CutFromFoundLine(stream, available, limit, p);
          Consume(p + 2);
          assert available[..p] == stream[..p];
          return TextLine(available[..p]);
        case None =>
          var ok := ValidateLineEndings(available);
          if !ok || |available| >= limit {
            RefusedPrefix(stream, available, limit);
            return LineError(BadRequest);
          }
          Compact();
          var more := ReadMoreUntil(limit);
          match more
          case ReadSome =>
          case ReadCancelled => return LineCancelled;
          case _ =>
            assert stream == available;
            CutFromWholeStream(stream, limit);
            return LineError(Incomplete);
      }
    }

    /** Reads until a whole line is buffered, telling apart why there may be none. */
    method SeekLine(limit: nat) returns (r: LineSeek)
      requires Valid() && limit <= buffer.Length
      requires |Unread()| <= limit && BoundedReadAhead(Unread())
      modifies this, buffer, io
      ensures Valid() && Stream() == old(Stream())
      ensures |Unread()| <= limit && BoundedReadAhead(Unread())
      ensures match r
              case LineAt(p) =>
                && FirstCrlf(Unread(), p)
                && CutLine(Stream(), limit) == Line(Stream()[..p], Stream()[p + 2..])
              case Refused(cut) => CutLine(Stream(), limit) == cut && !cut.Line?
              case SeekCancelled => true
    {
      ghost var stream := Stream();
      while true
        invariant Valid() && Stream() == stream && |Unread()| <= limit && BoundedReadAhead(Unread())
        decreases |io.incoming|
      {
        hide CutLine, CleanEndings, NoCrlf, FindCrlf;
        var available := buffer[start..end];
        assert available <= stream;
        FindCrlfFacts(available);
        var lineEnd := FindCrlf(available);
        match lineEnd
        case Some(p) =>
          var ok := ValidateLineEndings(available[..p + 2]);
          CutFromFoundLine(stream, available, limit, p);
          return if ok then LineAt(p) else Refused(BadEnding);
        case None =>
          var ok := ValidateLineEndings(available);
          if !ok {
            CutFromBadPrefix(stream, available, limit);
            return Refused(BadEnding);
          }
          if |available| >= limit {
            CutFromFullPrefix(stream, available, limit);
            return Refused(TooLong);
          }
          Compact();
          var more := ReadMoreUntil(limit);
          match more
          case ReadSome =>
            ReadKeepsBound(available, Unread());
          case ReadCancelled => return SeekCancelled;
          case _ =>
            assert stream == available;
            CutFromWholeStream(stream, limit);
            return Refused(Unfinished);
      }
    }

    /** Buffered octets first; an empty buffer is bypassed and the socket read directly. */
    method ReadBodyData(maximum: nat) returns (r: DataRead)
      requires Valid() && 0 < maximum
      modifies this, buffer, io
      ensures Valid() && |Unread()| <= old(|Unread()|)
      ensures match r
              case Piece(data) =>
                && 0 < |data| <= maximum
                && old(Stream()) == data + Stream()
                && (|data| <= REQUEST_BODY_FRAME_LIMIT || |data| <= old(|Unread()|))
                && (|data| + |Unread()| <= REQUEST_BODY_FRAME_LIMIT || |data| + |Unread()| <= old(|Unread()|))
              case DataCancelled => Stream() == old(Stream())
              case _ => old(Stream()) == ""
    {
      var available := end - start;
      if available != 0 {
        var count := Min(maximum, available);
        var data := buffer[start..start + count];
        Consume(count);
        assert old(Stream())[..count] == data;
        return Piece(data);
      }
      Compact();
      var got := io.Read(Min(maximum, REQUEST_BODY_FRAME_LIMIT));
      match got
      case ReadDropped => return DataCancelled;
      case ReadFailed => return DataError;
      case Got(data) =>
        return if data == "" then DataEnd else Piece(data);
    }

    /** Buffers at least `count` octets unless the stream ends before. */
    method EnsureBuffered(count: nat) returns (r: More)
      requires Valid() && count <= REQUEST_LINE_LIMIT
      modifies this, buffer, io
      ensures Valid() && Stream() == old(Stream())
      ensures |Unread()| <= if old(|Unread()|) < count then count else old(|Unread()|)
      ensures r.ReadSome? ==> count <= |Unread()|
      ensures r.ReadError? ==> |Stream()| < count
      ensures !r.ReadNone?
    {
      while end - start < count
        invariant Valid() && Stream() == old(Stream())
        invariant |Unread()| <= if old(|Unread()|) < count then count else old(|Unread()|)
        decreases |io.incoming|
      {
        Compact();
        var room := Min(Min(end + APPLICATION_BUFFER_LIMIT, count), buffer.Length) - end;
        var got := io.Read(room);
        match got
        case ReadDropped => return ReadCancelled;
        case ReadFailed => return ReadError;
        case Got(data) =>
          if data == "" {
            return ReadError;
          }
          Fill(data);
      }
      return ReadSome;
    }
  }

  lemma {:induction false} RefusedLine(s: string, seen: string, limit: nat, p: nat)
    requires seen <= s && FirstCrlf(seen, p)
    requires !CleanEndings(seen[..p + 2]) || p + 2 > limit
    ensures CutLine(s, limit).BadEnding? || CutLine(s, limit).TooLong?
  {
    if p + 2 > limit {
      NoCrlfBefore(seen, p, limit);
      CutFromLongPrefix(s, seen, limit);
    } else {
      CutFromFoundLine(s, seen, limit, p);
    }
  }

  lemma {:induction false} NoCrlfBefore(seen: string, p: nat, limit: nat)
    requires FirstCrlf(seen, p) && limit <= |seen| && limit < p + 2
    ensures NoCrlf(seen[..limit])
  {
    forall i | 0 <= i < limit ensures !CrlfAt(seen[..limit], i) {
      assert CrlfAt(seen[..limit], i) ==> CrlfAt(seen, i);
    }
  }

  lemma {:induction false} NoCrlfInside(seen: string, limit: nat)
    requires NoCrlf(seen) && limit <= |seen|
    ensures NoCrlf(seen[..limit])
  {
    forall i | 0 <= i < limit ensures !CrlfAt(seen[..limit], i) {
      assert !CrlfAt(seen, i);
    }
  }

  lemma {:induction false} RefusedPrefix(s: string, seen: string, limit: nat)
    requires seen <= s && NoCrlf(seen)
    requires !CleanEndings(seen) || |seen| >= limit
    ensures CutLine(s, limit).BadEnding? || CutLine(s, limit).TooLong?
  {
    if |seen| >= limit {
      NoCrlfInside(seen, limit);
      CutFromLongPrefix(s, seen, limit);
    } else {
      CutFromBadPrefix(s, seen, limit);
    }
  }

  lemma {:induction false} LineLeavesReadAhead(available: string, p: nat)
    requires FirstCrlf(available, p) && BoundedReadAhead(available)
    ensures |available[p + 2..]| <= REQUEST_LINE_LIMIT
  {
    if |available| > REQUEST_LINE_LIMIT {
      var older := available[..|available| - REQUEST_LINE_LIMIT];
      assert p + 2 <= |older| ==> CrlfAt(older, p);
    }
  }

  lemma {:induction false} ReadKeepsBound(before: string, after: string)
    requires NoCrlf(before) && before <= after && |after| <= |before| + REQUEST_LINE_LIMIT
    ensures BoundedReadAhead(after)
  {
    if |after| > REQUEST_LINE_LIMIT {
      var older := after[..|after| - REQUEST_LINE_LIMIT];
      assert older == before[..|older|];
      NoCrlfInside(before, |older|);
    }
  }
}
