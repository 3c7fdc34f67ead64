/**
 Request heads: parsing (section 6 of RFC 9112), and the rewriting that forwards a head to the origin.

 Whether a string parses as a URI authority is decided by a library; here it is the parameter
 `isAuthority`, the same for both parses.
 */
module RequestHeads {
  import opened HttpText
  import opened Splitting
  import opened Numerals
  import opened Quoting
  import opened Headers
  import opened ChunkedGrammar
  import opened Http1Connection
  import opened BodyDecoding

  datatype Version = Http10 | Http11

  datatype RequestHead = RequestHead(
    httpMethod: string,
    target: string,
    version: Version,
    headers: HeaderMap,
    framing: BodyFraming,
    close: bool,
    upgrade: bool,
    expectation: bool)

  datatype Parsed<+T> = Ok(value: T) | Err(error: IngressError)

  // ---- header section ----

  function ParseLines(headers: HeaderMap, s: string): Option<HeaderMap>
    decreases |s|
  {
    if s == "" then Some(headers)
    else
      FindCrlfFacts(s);
      match FindCrlf(s)
      case None => None
      case Some(p) =>
        if p == 0 then (if s[2..] == "" then Some(headers) else None)
        else
          match AppendFieldLine(headers, s[..p])
          case None => None
          case Some(more) => ParseLines(more, s[p + 2..])
  }

  predicate EndsWithCrlf(s: string)
  {
    |s| >= 2 && s[|s| - 2] == '\r' && s[|s| - 1] == '\n'
  }

  function ParseFields(section: string): Option<HeaderMap>
  {
    if EndsWithCrlf(section) then ParseLines(map[], section) else None
  }

  /** The cursor loop of the source. */
  method ParseFieldsLoop(section: string) returns (r: Option<HeaderMap>)
    ensures r == ParseFields(section)
  {
    if !EndsWithCrlf(section) {
      return None;
    }
    var headers: HeaderMap := map[];
    var cursor := 0;
    while cursor < |section|
      invariant 0 <= cursor <= |section|
      invariant ParseLines(headers, section[cursor..]) == ParseFields(section)
    {
      hide AppendFieldLine, FindCrlf;
      var rest := section[cursor..];
      FindCrlfFacts(rest);
      var relativeEnd := FindCrlf(rest);
      if relativeEnd.None? {
        return None;
      }
      var p := relativeEnd.value;
      assert FirstCrlf(rest, p);
      var line := rest[..p];
      cursor := cursor + p + 2;
      assert section[cursor..] == rest[p + 2..];
      if line == "" {
        if cursor != |section| {
          return None;
        }
        break;
      }
      var more := AppendFieldLine(headers, line);
      if more.None? {
        return None;
      }
      headers := more.value;
    }
    return Some(headers);
  }

  lemma {:induction false} ParseLinesWellFormed(headers: HeaderMap, s: string)
    requires WellFormed(headers) && ParseLines(headers, s).Some?
    ensures WellFormed(ParseLines(headers, s).value)
    decreases |s|
  {
    hide WellFormed, ParseFieldLine, FindCrlf;
    if s != "" {
      FindCrlfFacts(s);
      var p := FindCrlf(s).value;
      assert FirstCrlf(s, p);
      if p > 0 {
        var field := ParseFieldLine(s[..p]).value;
        ParsedFieldGood(s[..p]);
        AppendWellFormed(headers, field);
        ParseLinesWellFormed(Append(headers, field.name, field.value), s[p + 2..]);
      }
    }
  }

  lemma {:induction false} ParseOneLine(headers: HeaderMap, text: string, rest: string)
    requires text != "" && LineText(text)
    ensures ParseLines(headers, text + "\r\n" + rest) ==
            match AppendFieldLine(headers, text)
            case None => None
            case Some(more) => ParseLines(more, rest)
  {
    hide AppendFieldLine, FindCrlf;
    var s, p := text + "\r\n" + rest, |text|;
    assert s[p] == '\r' && s[p + 1] == '\n';
    forall i | 0 <= i < p ensures !CrlfAt(s, i) {
      assert s[i] == text[i] && !CrlfAt(text, i);
    }
    FindCrlfFacts(s);
    assert FirstCrlf(s, p);
    assert s[..p] == text && s[p + 2..] == rest;
  }

  /** Printed fields followed by the empty line are parsed back to the map they denote. */
  lemma {:induction false} FieldsRoundTrip(headers: HeaderMap, fields: seq<Field>)
    requires forall f :: f in fields ==> GoodField(f)
    ensures ParseLines(headers, RenderFields(fields) + "\r\n") == Some(AddFields(headers, fields))
    decreases |fields|
  {
    hide GoodField, ParseFieldLine, LineOf;
    if fields == [] {
    } else {
      var f := fields[0];
      assert f in fields;
      FieldLineIsALine(f);
      FieldRoundTrip(f);
      Assoc(LineOf(f) + "\r\n", RenderFields(fields[1..]), "\r\n");
      ParseOneLine(headers, LineOf(f), RenderFields(fields[1..]) + "\r\n");
      FieldsRoundTrip(Append(headers, f.name, f.value), fields[1..]);
    }
  }

  lemma {:induction false} FieldLineIsALine(field: Field)
    requires GoodField(field)
    ensures LineText(LineOf(field)) && LineOf(field) != ""
  {
    FieldLineIsPlain(field);
    PlainTextIsALine(LineOf(field));
  }

  lemma {:induction false} RenderedSectionParses(fields: seq<Field>)
    requires forall f :: f in fields ==> GoodField(f)
    ensures ParseFields(RenderFields(fields) + "\r\n") == Some(MapOf(fields))
  {
    FieldsRoundTrip(map[], fields);
  }

  // ---- framing fields ----

  /** The one value every `Content-Length` member agrees on. */
  function AgreedLength(members: seq<string>, parsed: Option<nat>): Parsed<Option<nat>>
  {
    if members == [] then Ok(parsed)
    else if !Numeral(10, members[0]) then Err(BadRequest)
    else
      match ReadU64(10, members[0])
      case None => Err(BadRequest)
      case Some(length) =>
        if parsed.Some? && parsed.value != length then Err(BadRequest)
        else AgreedLength(members[1..], Some(length))
  }

  function ParseContentLength(headers: HeaderMap): Parsed<Option<nat>>
  {
    AgreedLength(Members(GetAll(headers, CONTENT_LENGTH)), None)
  }

  /** A length is accepted exactly when every member is a numeral of that value and it fits u64. */
  lemma {:induction false} AgreedLengthExact(members: seq<string>, parsed: Option<nat>, length: nat)
    requires parsed.Some? ==> parsed.value < U64_END
    ensures AgreedLength(members, parsed) == Ok(Some(length)) <==>
            && (parsed.Some? || members != [])
            && (parsed.Some? ==> parsed.value == length)
            && (forall m :: m in members ==> Numeral(10, m) && ValueOf(10, m) == length)
            && length < U64_END
    decreases |members|
  {
    if members != [] {
      var m, rest := members[0], members[1..];
      assert m in members && forall x :: x in members <==> x == m || x in rest;
      if Numeral(10, m) {
        ReadU64Exact(10, m);
        if ValueOf(10, m) < U64_END {
          AgreedLengthExact(rest, Some(ValueOf(10, m)), length);
        }
      }
    }
  }

  /** `None` when a value has an unbalanced quoted string. */
  function QuotedMembers(values: seq<string>): Option<seq<string>>
  {
    if values == [] then Some([])
    else
      match (SplitQuoted(values[0], ','), QuotedMembers(values[1..]))
      case (Some(parts), Some(rest)) => Some(TrimEach(parts) + rest)
      case _ => None
  }

  predicate ValidCodingParameter(parameter: string)
  {
    match SplitQuoted(TrimOws(parameter), '=')
    case None => false
    case Some(fields) =>
      |fields| == 2 && ValidToken(TrimOws(fields[0])) && ValidParameterValue(TrimOws(fields[1]))
  }

  predicate ValidTransferCoding(value: string)
  {
    match SplitQuoted(value, ';')
    case None => false
    case Some(parts) =>
      ValidToken(TrimOws(parts[0])) && forall i :: 1 <= i < |parts| ==> ValidCodingParameter(parts[i])
  }

  predicate IsChunkedCoding(value: string)
  {
    SameIgnoringCase(TrimOws(Split(value, ';')[0]), "chunked")
  }

  /** Whether the codings of all Transfer-Encoding values end in one plain `chunked`. */
  function ParseTransferEncoding(values: seq<string>): Parsed<bool>
  {
    match QuotedMembers(values)
    case None => Err(BadRequest)
    case Some(codings) =>
      if codings == [] then Ok(false)
      else if exists i :: 0 <= i < |codings| && !ValidTransferCoding(codings[i]) then Err(BadRequest)
      else if !IsChunkedCoding(codings[|codings| - 1]) then Err(BadRequest)
      else if exists i :: 0 <= i < |codings| - 1 && IsChunkedCoding(codings[i]) then Err(BadRequest)
      else if ';' in codings[|codings| - 1] then Err(BadRequest)
      else Ok(true)
  }

  function ParseFraming(headers: HeaderMap): Parsed<BodyFraming>
  {
    match ParseContentLength(headers)
    case Err(error) => Err(error)
    case Ok(length) =>
      match ParseTransferEncoding(GetAll(headers, TRANSFER_ENCODING))
      case Err(error) => Err(error)
      case Ok(chunked) =>
        if length.Some? && chunked then Err(BadRequest)
        else if length.Some? then Ok(ContentLength(length.value))
        else if chunked then Ok(Chunked)
        else Ok(NoBody)
  }

  // ---- the whole head ----

  predicate HostChar(c: char)
  {
    ' ' < c < 127 as char && c != ',' && c != '@' && c != '/' && c != '?' && c != '#'
  }

  predicate HostOk(host: string, isAuthority: string -> bool)
  {
    host != "" && (forall c :: c in host ==> HostChar(c)) && isAuthority(host)
  }

  predicate HostsOk(version: Version, hosts: seq<string>, isAuthority: string -> bool)
  {
    && (version.Http11? ==> |hosts| == 1)
    && forall h :: h in hosts ==> HostOk(h, isAuthority)
  }

  function ParseVersion(text: string): Parsed<Version>
  {
    if text == "HTTP/1.0" then Ok(Http10)
    else if text == "HTTP/1.1" then Ok(Http11)
    else if |text| == 8 && text[..5] == "HTTP/" && IsDigit(text[5]) && text[6] == '.' && IsDigit(text[7]) then
      Err(UnsupportedVersion)
    else Err(BadRequest)
  }

  predicate ContainsToken(tokens: seq<string>, token: string)
  {
    exists t :: t in tokens && SameIgnoringCase(t, token)
  }

  predicate TargetText(target: string)
  {
    target != "" && forall c :: c in target ==> !Control(c) && c != ' '
  }

  datatype RequestLine = RequestLine(httpMethod: string, target: string, version: Version)

  function ParseRequestLine(line: string): Parsed<RequestLine>
  {
    var fields := Split(line, ' ');
    if |fields| != 3 then Err(BadRequest)
    else if !ValidToken(fields[0]) || !TargetText(fields[1]) then Err(BadRequest)
    else
      match ParseVersion(fields[2])
      case Err(error) => Err(error)
      case Ok(version) => Ok(RequestLine(fields[0], fields[1], version))
  }

  function ParseHead(requestLine: string, section: string, isAuthority: string -> bool): Parsed<RequestHead>
  {
    if !EndsWithCrlf(requestLine) then Err(BadRequest)
    else
      match ParseRequestLine(requestLine[..|requestLine| - 2])
      case Err(error) => Err(error)
      case Ok(line) =>
        match ParseFields(section)
        case None => Err(BadRequest)
        case Some(headers) => HeadFrom(line, headers, isAuthority)
  }

  /** The checks on a parsed request line and header map, in the order of the source. */
  function HeadFrom(line: RequestLine, headers: HeaderMap, isAuthority: string -> bool): Parsed<RequestHead>
  {
    if !HostsOk(line.version, GetAll(headers, HOST), isAuthority) then Err(BadRequest)
    else if line.version.Http10? && TRANSFER_ENCODING in headers then Err(BadRequest)
    else
      match ParseFraming(headers)
      case Err(error) => Err(error)
      case Ok(framing) =>
        match CommaTokens(headers, CONNECTION)
        case None => Err(BadRequest)
        case Some(tokens) =>
          var close := if line.version.Http10? then !ContainsToken(tokens, "keep-alive")
                       else ContainsToken(tokens, "close");
          var upgrade := UPGRADE in headers || ContainsToken(tokens, "upgrade");
          Ok(RequestHead(line.httpMethod, line.target, line.version, headers, framing, close, upgrade,
                         EXPECT in headers))
  }

  // ---- forwarding a head ----

  /** The target sent to the origin: always an absolute path, or `*` for a bare OPTIONS. */
  function OriginTarget(httpMethod: string, pathAndQuery: string): string
  {
    if httpMethod == "OPTIONS" && pathAndQuery == "" then "*"
    else if pathAndQuery == "" then "/"
    else if pathAndQuery[0] == '?' then "/" + pathAndQuery
    else pathAndQuery
  }

  function FramingFields(headers: HeaderMap, head: RequestHead): HeaderMap
  {
    match head.framing
    case NoBody => headers
    case ContentLength(length) => headers[CONTENT_LENGTH := [Print(10, length)]]
    case Chunked => headers[TRANSFER_ENCODING := GetAll(head.headers, TRANSFER_ENCODING)]
  }

  /** The header map sent to the origin; `None` if `Connection` were malformed. */
  function RewrittenHeaders(head: RequestHead, host: string): Option<HeaderMap>
  {
    match Sanitized(head.headers)
    case None => None
    case Some(kept) =>
      var expected := if head.version.Http10? then Remove(kept, EXPECT) else kept;
      var bare := expected - {HOST, CONTENT_LENGTH, TRANSFER_ENCODING};
      Some(FramingFields(WithVia(bare[HOST := [host]], head.version.Http10?), head))
  }

  function TargetLine(httpMethod: string, target: string): string
  {
    httpMethod + " " + (target + " " + "HTTP/1.1") + "\r\n"
  }

  /** Edits a copy of the map step by step and prints it in whatever order it iterates. */
  method SerializeRequestHead(head: RequestHead, pathAndQuery: string, host: string, order: seq<string>)
    returns (bytes: Option<string>, ghost fields: seq<Field>)
    requires WellFormed(head.headers) && FieldContent(host)
    requires head.framing.ContentLength? ==> head.framing.length < U64_END
    requires head.framing.Chunked? ==> GetAll(head.headers, TRANSFER_ENCODING) != []
    requires RewrittenHeaders(head, host).Some? ==> Ordering(RewrittenHeaders(head, host).value, order)
    ensures bytes.Some? <==> RewrittenHeaders(head, host).Some?
    ensures bytes.Some? ==>
              && (forall f :: f in fields ==> GoodField(f))
              && MapOf(fields) == RewrittenHeaders(head, host).value
              && bytes.value == TargetLine(head.httpMethod, OriginTarget(head.httpMethod, pathAndQuery)) +
                                (RenderFields(fields) + "\r\n")
  {
    fields := [];
    var headers := RewriteHeaders(head, host);
    if headers.None? {
      return None, [];
    }
    hide RewrittenHeaders, WellFormed, GoodField, FieldContent;
    RewrittenWellFormed(head, host);
    OwnedFieldsDenoteMap(headers.value, order);
    var owned := OwnedFields(Entries(headers.value, order));
    fields := owned;
    var target := OriginTarget(head.httpMethod, pathAndQuery);
    bytes := Some(TargetLine(head.httpMethod, target) + (RenderFields(owned) + "\r\n"));
  }

  /** Step by step on a copy of the request's map. */
  method RewriteHeaders(head: RequestHead, host: string) returns (r: Option<HeaderMap>)
    ensures r == RewrittenHeaders(head, host)
  {
    hide Sanitized;
    var headers := head.headers;
    var codings := GetAll(headers, TRANSFER_ENCODING);
    var sanitized := SanitizeHopByHop(headers);
    if sanitized.None? {
      return None;
    }
    headers := sanitized.value;
    if head.version.Http10? {
      headers := Remove(headers, EXPECT);
    }
    ghost var expected := headers;
    headers := Remove(headers, HOST);
    headers := Remove(headers, CONTENT_LENGTH);
    headers := Remove(headers, TRANSFER_ENCODING);
    assert headers == expected - {HOST, CONTENT_LENGTH, TRANSFER_ENCODING};
    headers := headers[HOST := [host]];
    headers := WithVia(headers, head.version.Http10?);
    match head.framing {
      case NoBody =>
      case ContentLength(length) =>
        headers := headers[CONTENT_LENGTH := [Print(10, length)]];
      case Chunked =>
        headers := headers[TRANSFER_ENCODING := codings];
    }
    return Some(headers);
  }

  // ---- the rewritten map ----

  predicate LowerLetters(s: string)
  {
    forall i :: 0 <= i < |s| ==> 'a' <= s[i] <= 'z' || s[i] == '-'
  }

  lemma {:induction false} LowerFixed(s: string)
    requires LowerLetters(s)
    ensures LowerAll(s) == s
  {
    if s != "" {
      LowerFixed(s[1..]);
    }
  }

  lemma {:induction false} LowerName(s: string)
    requires s != "" && LowerLetters(s)
    ensures GoodName(s)
  {
    LowerFixed(s);
  }

  lemma {:induction false} FramingNamesGood()
    ensures GoodName(HOST) && GoodName(VIA) && GoodName(CONTENT_LENGTH) && GoodName(TRANSFER_ENCODING)
  {
    hide GoodName;
    LowerName(HOST);
    LowerName(VIA);
    LowerName(CONTENT_LENGTH);
    LowerName(TRANSFER_ENCODING);
  }

  lemma {:induction false} PrintedLengthGood(length: nat)
    ensures FieldContent(Print(10, length))
  {
    var text := Print(10, length);
    assert text[0] in text && text[|text| - 1] in text;
  }

  lemma {:induction false} SetWellFormed(headers: HeaderMap, name: string, values: seq<string>)
    requires WellFormed(headers) && GoodName(name) && values != []
    requires forall v :: v in values ==> FieldContent(v)
    ensures WellFormed(headers[name := values])
  {
  }

  lemma {:induction false} RewrittenWellFormed(head: RequestHead, host: string)
    requires WellFormed(head.headers) && FieldContent(host)
    requires head.framing.Chunked? ==> GetAll(head.headers, TRANSFER_ENCODING) != []
    requires RewrittenHeaders(head, host).Some?
    ensures WellFormed(RewrittenHeaders(head, host).value)
  {
    hide WellFormed, GoodName, FieldContent, Sanitized;
    FramingNamesGood();
    SanitizedMeaning(head.headers);
    var kept := Sanitized(head.headers).value;
    var expected := if head.version.Http10? then Remove(kept, EXPECT) else kept;
    var bare := expected - {HOST, CONTENT_LENGTH, TRANSFER_ENCODING};
    SetWellFormed(bare, HOST, [host]);
    var hosted := bare[HOST := [host]];
    ViaWellFormed(hosted, head.version.Http10?);
    var via := WithVia(hosted, head.version.Http10?);
    match head.framing {
      case NoBody =>
      case ContentLength(length) =>
        PrintedLengthGood(length);
        SetWellFormed(via, CONTENT_LENGTH, [Print(10, length)]);
      case Chunked =>
        ValuesGood(head.headers, TRANSFER_ENCODING);
        SetWellFormed(via, TRANSFER_ENCODING, GetAll(head.headers, TRANSFER_ENCODING));
    }
  }

  lemma {:induction false} ValuesGood(headers: HeaderMap, name: string)
    requires WellFormed(headers)
    ensures forall v :: v in GetAll(headers, name) ==> FieldContent(v)
  {
  }

  lemma {:induction false} ViaWellFormed(headers: HeaderMap, http10: bool)
    requires WellFormed(headers)
    ensures WellFormed(WithVia(headers, http10))
  {
    hide WellFormed, GoodName;
    FramingNamesGood();
    var field := Field(VIA, if http10 then "1.0 vhrn" else "1.1 vhrn");
    AppendWellFormed(headers, field);
  }

  /** What the origin sees, name by name. */
  ghost predicate OriginSees(head: RequestHead, host: string, sent: HeaderMap, name: string)
  {
    GetAll(sent, name) ==
    if name == HOST then [host]
    else if name == CONTENT_LENGTH then
      (if head.framing.ContentLength? then [Print(10, head.framing.length)] else [])
    else if name == TRANSFER_ENCODING then
      (if head.framing.Chunked? then GetAll(head.headers, TRANSFER_ENCODING) else [])
    else
      (if HopByHop(head.headers, name) || (head.version.Http10? && name == EXPECT) then []
       else GetAll(head.headers, name))
      + if name == VIA then [if head.version.Http10? then "1.0 vhrn" else "1.1 vhrn"] else []
  }

  /** Exactly one Host, the given one; no hop-by-hop or nominated field but those put back; every
      other field value for value, except Expect from an HTTP/1.0 client. */
  lemma {:induction false} RewrittenMeaning(head: RequestHead, host: string, name: string)
    requires RewrittenHeaders(head, host).Some?
    ensures OriginSees(head, host, RewrittenHeaders(head, host).value, name)
  {
    hide HopByHop, Sanitized, GetAll, FIXED_HOP_HEADERS, CONNECTION;
    SanitizedMeaning(head.headers);
    var kept := Sanitized(head.headers).value;
    GetRemoved(kept, {EXPECT}, name);
    var expected := if head.version.Http10? then Remove(kept, EXPECT) else kept;
    GetRemoved(expected, {HOST, CONTENT_LENGTH, TRANSFER_ENCODING}, name);
    var bare := expected - {HOST, CONTENT_LENGTH, TRANSFER_ENCODING};
    GetSet(bare, HOST, [host], name);
    GetVia(bare[HOST := [host]], head.version.Http10?, name);
    var via := WithVia(bare[HOST := [host]], head.version.Http10?);
    match head.framing
    case NoBody =>
    case ContentLength(length) => GetSet(via, CONTENT_LENGTH, [Print(10, length)], name);
    case Chunked => GetSet(via, TRANSFER_ENCODING, GetAll(head.headers, TRANSFER_ENCODING), name);
  }

  lemma {:induction false} GetSet(headers: HeaderMap, changed: string, values: seq<string>, name: string)
    ensures GetAll(headers[changed := values], name) == if name == changed then values else GetAll(headers, name)
  {
  }

  lemma {:induction false} GetRemoved(headers: HeaderMap, names: set<string>, name: string)
    ensures GetAll(headers - names, name) == if name in names then [] else GetAll(headers, name)
  {
  }

  lemma {:induction false} GetVia(headers: HeaderMap, http10: bool, name: string)
    ensures GetAll(WithVia(headers, http10), name) ==
            GetAll(headers, name) +
            if name == VIA then [if http10 then "1.0 vhrn" else "1.1 vhrn"] else []
  {
  }

  // ---- the round trip ----

  lemma {:induction false} RequestLineRoundTrip(httpMethod: string, target: string)
    requires ValidToken(httpMethod) && TargetText(target)
    ensures EndsWithCrlf(TargetLine(httpMethod, target))
    ensures var line := TargetLine(httpMethod, target);
            ParseRequestLine(line[..|line| - 2]) == Ok(RequestLine(httpMethod, target, Http11))
  {
    var rest := target + " " + "HTTP/1.1";
    var line := TargetLine(httpMethod, target);
    assert line[..|line| - 2] == httpMethod + " " + rest;
    assert !TokenChar(' ');
    SplitFirst(httpMethod, ' ', rest);
    SplitFirst(target, ' ', "HTTP/1.1");
    SplitNone("HTTP/1.1", ' ');
    assert Split(httpMethod + " " + rest, ' ') == [httpMethod, target, "HTTP/1.1"];
  }

  lemma {:induction false} OneMember(value: string)
    requires ',' !in value && Trimmed(value)
    ensures Members([value]) == [value]
  {
    SplitNone(value, ',');
    assert [value][1..] == [];
  }

  lemma {:induction false} PrintedLengthParses(headers: HeaderMap, length: nat)
    requires GetAll(headers, CONTENT_LENGTH) == [Print(10, length)] && length < U64_END
    ensures ParseContentLength(headers) == Ok(Some(length))
  {
    var text := Print(10, length);
    PrintedLengthGood(length);
    assert ',' !in text;
    OneMember(text);
    PrintThenRead(10, length);
    assert [text][1..] == [];
    assert AgreedLength([text], None) == AgreedLength([], Some(length));
  }

  /** Framing depends on the two framing fields only. */
  lemma {:induction false} FramingKept(head: RequestHead, sent: HeaderMap)
    requires ParseFraming(head.headers) == Ok(head.framing)
    requires head.framing.ContentLength? ==> head.framing.length < U64_END
    requires GetAll(sent, CONTENT_LENGTH) ==
             if head.framing.ContentLength? then [Print(10, head.framing.length)] else []
    requires GetAll(sent, TRANSFER_ENCODING) ==
             if head.framing.Chunked? then GetAll(head.headers, TRANSFER_ENCODING) else []
    ensures ParseFraming(sent) == Ok(head.framing)
  {
    hide ValidTransferCoding, IsChunkedCoding, SplitQuoted;
    match head.framing
    case ContentLength(length) => PrintedLengthParses(sent, length);
    case _ =>
  }

  /** What an accepted head guarantees about its own parts. */
  ghost predicate HeadFacts(head: RequestHead, isAuthority: string -> bool)
  {
    && WellFormed(head.headers)
    && ParseFraming(head.headers) == Ok(head.framing)
    && CommaTokens(head.headers, CONNECTION).Some?
    && ValidToken(head.httpMethod) && TargetText(head.target)
    && (head.framing.ContentLength? ==> head.framing.length < U64_END)
    && (head.framing.Chunked? ==> GetAll(head.headers, TRANSFER_ENCODING) != [])
  }

  lemma {:induction false} FramingFacts(headers: HeaderMap, framing: BodyFraming)
    requires ParseFraming(headers) == Ok(framing)
    ensures framing.ContentLength? ==> framing.length < U64_END
    ensures framing.Chunked? ==> GetAll(headers, TRANSFER_ENCODING) != []
  {
    hide ValidTransferCoding, IsChunkedCoding, SplitQuoted;
    match framing
    case ContentLength(length) => AgreedLengthExact(Members(GetAll(headers, CONTENT_LENGTH)), None, length);
    case _ =>
  }

  lemma {:induction false} AcceptedHead(requestLine: string, section: string, isAuthority: string -> bool)
    requires ParseHead(requestLine, section, isAuthority).Ok?
    ensures HeadFacts(ParseHead(requestLine, section, isAuthority).value, isAuthority)
  {
    hide ParseFraming, ParseLines, WellFormed, CommaTokens, HostsOk, ContainsToken, Split;
    var head := ParseHead(requestLine, section, isAuthority).value;
    EmptyIsWellFormed();
    ParseLinesWellFormed(map[], section);
    FramingFacts(head.headers, head.framing);
  }

  lemma {:induction false} HostIsContent(host: string, isAuthority: string -> bool)
    requires HostOk(host, isAuthority)
    ensures FieldContent(host)
  {
    assert host[0] in host && host[|host| - 1] in host;
  }

  lemma {:induction false} OriginTargetText(httpMethod: string, pathAndQuery: string)
    requires forall c :: c in pathAndQuery ==> !Control(c) && c != ' '
    ensures TargetText(OriginTarget(httpMethod, pathAndQuery))
  {
  }

  /** What the origin makes of a forwarded head: `sent` is its parse of what was printed. */
  predicate SameRequest(head: RequestHead, target: string, rewritten: HeaderMap, sent: Parsed<RequestHead>)
  {
    && sent.Ok?
    && sent.value.httpMethod == head.httpMethod
    && sent.value.target == target
    && sent.value.version == Http11
    && sent.value.framing == head.framing
    && sent.value.headers == rewritten
    && !sent.value.close && !sent.value.upgrade
  }

  /** Forwarding preserves the head: for every accepted request, every acceptable origin host, every
      target and every iteration order of the map, the origin parses what is sent to the same method,
      the same body framing and exactly the rewritten fields, on a connection kept open. */
  lemma {:induction false} ForwardedHead(requestLine: string, section: string, pathAndQuery: string, host: string,
                                         fields: seq<Field>, isAuthority: string -> bool)
    requires HostOk(host, isAuthority)
    requires forall c :: c in pathAndQuery ==> !Control(c) && c != ' '
    requires forall f :: f in fields ==> GoodField(f)
    ensures var parsed := ParseHead(requestLine, section, isAuthority);
            parsed.Ok? ==>
              var rewritten := RewrittenHeaders(parsed.value, host);
              var target := OriginTarget(parsed.value.httpMethod, pathAndQuery);
              && rewritten.Some?
              && (MapOf(fields) == rewritten.value ==>
                    SameRequest(parsed.value, target, rewritten.value,
                                ParseHead(TargetLine(parsed.value.httpMethod, target),
                                          RenderFields(fields) + "\r\n", isAuthority)))
  {
    hide ParseHead, RewrittenHeaders, WellFormed, GoodField, OriginTarget, TargetLine, ParseFraming, CommaTokens,
         FieldContent, HopByHop, ValidToken, TargetText, HostOk;
    var parsed := ParseHead(requestLine, section, isAuthority);
    if parsed.Ok? {
      var head := parsed.value;
      AcceptedHead(requestLine, section, isAuthority);
      RewrittenExists(head, host);
      var sent := RewrittenHeaders(head, host).value;
      if MapOf(fields) == sent {
        OriginTargetText(head.httpMethod, pathAndQuery);
        var target := OriginTarget(head.httpMethod, pathAndQuery);
        RequestLineRoundTrip(head.httpMethod, target);
        RenderedSectionParses(fields);
        ParseHeadFrom(TargetLine(head.httpMethod, target), RenderFields(fields) + "\r\n", isAuthority,
                      RequestLine(head.httpMethod, target, Http11), sent);
        RewrittenHeadAccepted(head, host, sent, target, isAuthority);
      }
    }
  }

  lemma {:induction false} RewrittenExists(head: RequestHead, host: string)
    requires CommaTokens(head.headers, CONNECTION).Some?
    ensures RewrittenHeaders(head, host).Some?
  {
  }

  lemma {:induction false} ParseHeadFrom(requestLine: string, section: string, isAuthority: string -> bool,
                                         line: RequestLine, headers: HeaderMap)
    requires EndsWithCrlf(requestLine) && ParseRequestLine(requestLine[..|requestLine| - 2]) == Ok(line)
    requires ParseFields(section) == Some(headers)
    ensures ParseHead(requestLine, section, isAuthority) == HeadFrom(line, headers, isAuthority)
  {
    hide ParseRequestLine, ParseFields, HeadFrom;
  }

  lemma {:induction false} RewrittenHeadAccepted(head: RequestHead, host: string, sent: HeaderMap, target: string,
                                                 isAuthority: string -> bool)
    requires HeadFacts(head, isAuthority) && HostOk(host, isAuthority)
    requires RewrittenHeaders(head, host) == Some(sent)
    ensures var again := HeadFrom(RequestLine(head.httpMethod, target, Http11), sent, isAuthority);
            && again.Ok?
            && again.value.httpMethod == head.httpMethod && again.value.target == target
            && again.value.version == Http11
            && again.value.framing == head.framing && again.value.headers == sent
            && !again.value.close && !again.value.upgrade
  {
    hide RewrittenHeaders, WellFormed, ParseFraming, HopByHop, ValidToken, TargetText, HostOk;
    RewrittenMeaning(head, host, HOST);
    RewrittenMeaning(head, host, CONTENT_LENGTH);
    RewrittenMeaning(head, host, TRANSFER_ENCODING);
    RewrittenMeaning(head, host, CONNECTION);
    RewrittenMeaning(head, host, UPGRADE);
    AlwaysHop(head.headers);
    FramingKept(head, sent);
    NoUpgrade(head, host, sent);
  }

  lemma {:induction false} AlwaysHop(headers: HeaderMap)
    ensures HopByHop(headers, CONNECTION) && HopByHop(headers, UPGRADE)
  {
  }

  lemma {:induction false} NoUpgrade(head: RequestHead, host: string, sent: HeaderMap)
    requires RewrittenHeaders(head, host) == Some(sent)
    ensures UPGRADE !in sent
  {
  }
}
