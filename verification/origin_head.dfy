/**
 Response heads: parsing, the message body length rules of section 6.3 of RFC 9112, and reading one
 head from the origin connection. The origin's reader has the same buffer, cursors and read-ahead
 rule as the downstream connection and is modelled by the same class.
 */
module OriginHeads {
  import opened HttpText
  import opened Numerals
  import opened Headers
  import opened Http1Connection
  import opened RequestHeads
  import opened HeadReading

  datatype OriginError = Invalid | HeadersTooLarge | Incomplete

  datatype OriginFraming = NoContent | Sized(length: nat) | ChunkedContent | CloseDelimited

  datatype TransferCoding = Absent | FinalChunked(hasPrior: bool) | FinalNonChunked

  datatype ResponseHead = ResponseHead(
    version: Version,
    status: nat,
    headers: HeaderMap,
    framing: OriginFraming,
    coding: TransferCoding,
    close: bool)

  datatype Response<+T> = Accepted(value: T) | Rejected(error: OriginError)

  function ParseOriginTransferEncoding(values: seq<string>): Option<TransferCoding>
  {
    match QuotedMembers(values)
    case None => None
    case Some(codings) =>
      if codings == [] then Some(Absent)
      else
        var last := codings[|codings| - 1];
        if exists i :: 0 <= i < |codings| && !ValidTransferCoding(codings[i]) then None
        else if exists i :: 0 <= i < |codings| - 1 && IsChunkedCoding(codings[i]) then None
        else if IsChunkedCoding(last) && ';' in last then None
        else if IsChunkedCoding(last) then Some(FinalChunked(|codings| > 1))
        else Some(FinalNonChunked)
  }

  /** Both parsers agree on what is chunked and what is absent; only a response may end in another
      coding, which a request is refused for. */
  lemma {:induction false} CodingsAgree(values: seq<string>)
    ensures var asked, answered := ParseTransferEncoding(values), ParseOriginTransferEncoding(values);
            && (asked == Ok(true) <==> answered.Some? && answered.value.FinalChunked?)
            && (asked == Ok(false) <==> answered == Some(Absent))
            && (asked.Err? <==> answered.None? || answered.value.FinalNonChunked?)
  {
  }

  predicate ReasonText(reason: string)
  {
    forall c :: c in reason ==> !Control(c) || c == '\t'
  }

  datatype StatusLine = StatusLine(version: Version, status: nat)

  function Digit(c: char): nat
    requires IsDigit(c)
  {
    c as nat - '0' as nat
  }

  function ParseStatusLine(line: string): Option<StatusLine>
  {
    if !EndsWithCrlf(line) || |line| < 11 then None
    else
      var text := line[..|line| - 2];
      var version := if text[..9] == "HTTP/1.0 " then Some(Http10)
                     else if text[..9] == "HTTP/1.1 " then Some(Http11) else None;
      var rest := text[9..];
      if version.None? || |rest| < 4 then None
      else if !(IsDigit(rest[0]) && IsDigit(rest[1]) && IsDigit(rest[2]) && rest[3] == ' ') then None
      else if !ReasonText(rest[4..]) then None
      else
        var status := Digit(rest[0]) * 100 + Digit(rest[1]) * 10 + Digit(rest[2]);
        if 100 <= status <= 599 then Some(StatusLine(version.value, status)) else None
  }

  predicate Informational(status: nat)
  {
    100 <= status < 200
  }

  function CloseRequested(version: Version, tokens: seq<string>): bool
  {
    if version.Http10? then !ContainsToken(tokens, "keep-alive") else ContainsToken(tokens, "close")
  }

  predicate Bodyless(isHead: bool, status: nat)
  {
    isHead || Informational(status) || status == 204 || status == 304
  }

  function ResponseFraming(isHead: bool, status: nat, length: Option<nat>, coding: TransferCoding): OriginFraming
  {
    if Bodyless(isHead, status) then NoContent
    else if coding.FinalChunked? then ChunkedContent
    else if coding.FinalNonChunked? then CloseDelimited
    else if length.Some? then Sized(length.value)
    else CloseDelimited
  }

  function ParseResponseHead(line: string, section: string, isHead: bool): Response<ResponseHead>
  {
    match (ParseStatusLine(line), ParseFields(section))
    case (Some(first), Some(headers)) =>
      (match (ParseContentLength(headers), ParseOriginTransferEncoding(GetAll(headers, TRANSFER_ENCODING)),
              CommaTokens(headers, CONNECTION))
       case (Ok(length), Some(coding), Some(tokens)) =>
         if !coding.Absent? && (first.version.Http10? || length.Some?) then Rejected(Invalid)
         else if (Informational(first.status) || first.status == 204) && (length.Some? || !coding.Absent?) then
           Rejected(Invalid)
         else
           var framing := ResponseFraming(isHead, first.status, length, coding);
           Accepted(ResponseHead(first.version, first.status, headers, framing, coding,
                                 framing.CloseDelimited? || CloseRequested(first.version, tokens)))
       case _ => Rejected(Invalid))
    case _ => Rejected(Invalid)
  }

  /** Section 6.3 of RFC 9112 as a table over the accepted head alone: what decides each framing. */
  ghost predicate FramingRules(head: ResponseHead, isHead: bool)
  {
    var values := GetAll(head.headers, TRANSFER_ENCODING);
    var members := Members(GetAll(head.headers, CONTENT_LENGTH));
    && (head.framing.NoContent? <==> Bodyless(isHead, head.status))
    && (values != [] ==> members == [])
    && (head.framing.ChunkedContent? ==> ParseTransferEncoding(values) == Ok(true) && head.version.Http11?)
    && (head.framing.Sized? ==>
          && values == [] && members != [] && head.framing.length < U64_END
          && forall m :: m in members ==> Numeral(10, m) && ValueOf(10, m) == head.framing.length)
    && (head.framing.CloseDelimited? ==> head.close && members == [])
    && (head.status == 204 || Informational(head.status) ==> members == [] && values == [])
  }

  /** The codings are absent exactly when the field is. */
  lemma {:induction false} NoCodings(values: seq<string>)
    ensures ParseOriginTransferEncoding(values) == Some(Absent) <==> values == []
  {
  }

  lemma {:induction false} LengthMembers(headers: HeaderMap)
    requires ParseContentLength(headers).Ok?
    ensures var members := Members(GetAll(headers, CONTENT_LENGTH));
            match ParseContentLength(headers).value
            case None => members == []
            case Some(length) =>
              && members != [] && length < U64_END
              && forall m :: m in members ==> Numeral(10, m) && ValueOf(10, m) == length
  {
    var members := Members(GetAll(headers, CONTENT_LENGTH));
    var length := ParseContentLength(headers).value;
    if length.Some? {
      AgreedLengthExact(members, None, length.value);
    } else {
      AgreedOnSomething(members, None);
    }
  }

  lemma {:induction false} AgreedOnSomething(members: seq<string>, parsed: Option<nat>)
    requires AgreedLength(members, parsed) == Ok(None)
    ensures members == [] && parsed == None
    decreases |members|
  {
    if members != [] {
      AgreedOnSomething(members[1..], Some(ReadU64(10, members[0]).value));
    }
  }

  /** Every accepted response is framed by exactly one of the rules, and never by two fields. */
  lemma {:induction false} ResponseFramingRules(line: string, section: string, isHead: bool)
    requires ParseResponseHead(line, section, isHead).Accepted?
    ensures FramingRules(ParseResponseHead(line, section, isHead).value, isHead)
  {
    hide ParseStatusLine, ParseFields, ParseContentLength, Members, CommaTokens, ParseTransferEncoding;
    hide ParseOriginTransferEncoding;
    var head := ParseResponseHead(line, section, isHead).value;
    var values := GetAll(head.headers, TRANSFER_ENCODING);
    CodingsAgree(values);
    LengthMembers(head.headers);
    NoCodings(values);
  }

  // ---- reading one head ----

  function CutResponse(s: string): HeadCut
  {
    match CutLine(s, REQUEST_LINE_LIMIT)
    case Line(text, rest) => CutSection(text + "\r\n", rest)
    case Unfinished => HeadUnfinished
    case _ => HeadBad
  }

  function ResponseError(cut: HeadCut): OriginError
  {
    match cut
    case HeadBad => Invalid
    case HeadLarge => OriginError.HeadersTooLarge
    case _ => OriginError.Incomplete
  }

  datatype ResponseRead = ResponseParsed(head: ResponseHead) | ResponseFailed(error: OriginError) | ResponseCancelled

  method SeekStatusLine(reader: Connection) returns (r: LineSeek)
    requires reader.Valid() && reader.start == 0 && HeadReadAhead(reader.Unread())
    modifies reader, reader.buffer, reader.io
    ensures reader.Valid() && reader.start == 0 && HeadReadAhead(reader.Unread())
    ensures reader.Stream() == old(reader.Stream())
    ensures match r
            case LineAt(p) =>
              && LineInBuffer(reader.Unread(), p)
              && CutLine(reader.Stream(), REQUEST_LINE_LIMIT) == Line(reader.Unread()[..p], reader.Stream()[p + 2..])
            case Refused(cut) => CutLine(reader.Stream(), REQUEST_LINE_LIMIT) == cut && !cut.Line?
            case SeekCancelled => true
  {
    ghost var stream := reader.Stream();
    while true
      invariant reader.Valid() && reader.start == 0 && HeadReadAhead(reader.Unread())
      invariant reader.Stream() == stream
      decreases |reader.io.incoming|
    {
      hide CutLine, CleanEndings, NoCrlf, FindCrlf, HeadReadAhead, SurplusBounded;
      var available := reader.buffer[reader.start..reader.end];
      assert available <= stream;
      FindCrlfFacts(available);
      var lineEnd := FindCrlf(available);
      if lineEnd.Some? {
        var p := lineEnd.value;
        CutFromFoundLine(stream, available, REQUEST_LINE_LIMIT, p);
        var ok := ValidateLineEndings(available[..p + 2]);
        assert stream[..p] == available[..p];
        return if ok then LineAt(p) else Refused(BadEnding);
      }
      var ok := ValidateLineEndings(available);
      if !ok {
        CutFromBadPrefix(stream, available, REQUEST_LINE_LIMIT);
        return Refused(BadEnding);
      }
      if |available| >= REQUEST_LINE_LIMIT {
        CutFromFullPrefix(stream, available, REQUEST_LINE_LIMIT);
        return Refused(TooLong);
      }
      var more := reader.ReadMoreUntil(REQUEST_LINE_LIMIT);
      ShortIsReadAhead(reader.Unread());
      if more.ReadCancelled? {
        return SeekCancelled;
      }
      if !more.ReadSome? {
        assert stream == available;
        CutFromWholeStream(stream, REQUEST_LINE_LIMIT);
        return Refused(Unfinished);
      }
    }
  }

  /** One response head: a function of the stream alone, resumable after every drop, with at most
      one read-ahead step of surplus left behind it. */
  method ReadResponseHead(reader: Connection, isHead: bool) returns (r: ResponseRead)
    requires reader.Valid() && HeadReadAhead(reader.Unread())
    modifies reader, reader.buffer, reader.io
    ensures reader.Valid()
    ensures var cut := CutResponse(old(reader.Stream()));
            match r
            case ResponseParsed(head) =>
              && cut.HeadAt? && ParseResponseHead(cut.line, cut.section, isHead) == Accepted(head)
              && reader.Stream() == cut.rest
              && |reader.Unread()| <= REQUEST_LINE_LIMIT
            case ResponseFailed(error) =>
              if cut.HeadAt? then ParseResponseHead(cut.line, cut.section, isHead) == Rejected(error)
              else error == ResponseError(cut)
            case ResponseCancelled => reader.Stream() == old(reader.Stream()) && HeadReadAhead(reader.Unread())
  {
    hide CutSection, CutLine, ParseResponseHead, HeadReadAhead, LineInBuffer, FirstCrlf;
    reader.Compact();
    ghost var stream := reader.Stream();
    var line := SeekStatusLine(reader);
    if line.SeekCancelled? {
      return ResponseCancelled;
    }
    if line.Refused? {
      return ResponseFailed(if line.cut.Unfinished? then OriginError.Incomplete else Invalid);
    }
    var p := line.end;
    LineBounds(reader.Unread(), p);
    var text := reader.buffer[..p];
    assert text == reader.Unread()[..p];
    r := FinishResponseHead(reader, p, text, isHead);
  }

  method FinishResponseHead(reader: Connection, p: nat, text: string, isHead: bool) returns (r: ResponseRead)
    requires reader.Valid() && reader.start == 0 && LineInBuffer(reader.Unread(), p)
    requires text == reader.Unread()[..p]
    requires CutLine(reader.Stream(), REQUEST_LINE_LIMIT) == Line(text, reader.Stream()[p + 2..])
    modifies reader, reader.buffer, reader.io
    ensures reader.Valid()
    ensures var cut := CutResponse(old(reader.Stream()));
            match r
            case ResponseParsed(head) =>
              && cut.HeadAt? && ParseResponseHead(cut.line, cut.section, isHead) == Accepted(head)
              && reader.Stream() == cut.rest
              && |reader.Unread()| <= REQUEST_LINE_LIMIT
            case ResponseFailed(error) =>
              if cut.HeadAt? then ParseResponseHead(cut.line, cut.section, isHead) == Rejected(error)
              else error == ResponseError(cut)
            case ResponseCancelled => reader.Stream() == old(reader.Stream()) && HeadReadAhead(reader.Unread())
  {
    hide CutSection, CutLine, ParseResponseHead, FirstCrlf, SurplusBounded;
    LineBounds(reader.Unread(), p);
    ghost var stream := reader.Stream();
    ghost var rest := stream[p + 2..];
    assert CutResponse(stream) == CutSection(text + "\r\n", rest);
    var section := SeekSectionEnd(reader, p);
    if section.SoughtCancelled? {
      return ResponseCancelled;
    }
    if section.SoughtError? {
      return ResponseFailed(if section.error.BadRequest? then Invalid
                            else if section.error.HeadersTooLarge? then OriginError.HeadersTooLarge
                            else OriginError.Incomplete);
    }
    var end := section.end;
    var available := reader.buffer[reader.start..reader.end];
    var fields := available[p + 2..p + 2 + end];
    WindowOfStream(available, reader.io.incoming, p + 2, end);
    var head := ParseResponseHead(text + "\r\n", fields, isHead);
    if head.Rejected? {
      return ResponseFailed(head.error);
    }
    reader.Consume(p + 2 + end);
    return ResponseParsed(head.value);
  }
}
