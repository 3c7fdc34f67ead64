/**
 Message-body framing of sections 6.2, 6.3 and 7.1 of RFC 9112 as a function of the octet stream.

 `Decode` is what both body decoders are proved to compute whatever the split into reads; the
 chunked syntax tree and `Render` are an independent reading of the same grammar.
 */
module ChunkedGrammar {
  import opened HttpText
  import opened Numerals
  import opened Quoting
  import opened Headers

  // ---- chunk-size lines ----

  predicate QuotedOctet(c: char)
  {
    !Control(c) || c == '\t'
  }

  /** The inside of a quoted-string, read left to right. */
  predicate QuotedText(inner: string, escaped: bool)
  {
    if inner == "" then !escaped
    else if escaped then QuotedOctet(inner[0]) && QuotedText(inner[1..], false)
    else if inner[0] == '\\' then QuotedText(inner[1..], true)
    else inner[0] != '"' && QuotedOctet(inner[0]) && QuotedText(inner[1..], false)
  }

  predicate ValidParameterValue(value: string)
  {
    || ValidToken(value)
    || (|value| >= 2 && value[0] == '"' && value[|value| - 1] == '"' &&
        QuotedText(value[1..|value| - 1], false))
  }

  predicate ValidExtension(extension: string)
  {
    var text := TrimOws(extension);
    text != "" &&
    match SplitQuoted(text, '=')
    case None => false
    case Some(fields) =>
      || (|fields| == 1 && ValidToken(TrimOws(fields[0])))
      || (|fields| == 2 && ValidToken(TrimOws(fields[0])) && ValidParameterValue(TrimOws(fields[1])))
  }

  function ParseChunkSize(line: string): Option<nat>
  {
    match SplitQuoted(line, ';')
    case None => None
    case Some(parts) =>
      if !Numeral(16, parts[0]) then None
      else if exists i :: 1 <= i < |parts| && !ValidExtension(parts[i]) then None
      else ReadU64(16, parts[0])
  }

  /** Accepted exactly when the extensions are valid and the numeral's unbounded value fits u64. */
  lemma {:induction false} ParseChunkSizeExact(line: string, size: nat)
    ensures ParseChunkSize(line) == Some(size) <==>
            && SplitQuoted(line, ';').Some?
            && var parts := SplitQuoted(line, ';').value;
            && Numeral(16, parts[0])
            && (forall i :: 1 <= i < |parts| ==> ValidExtension(parts[i]))
            && ValueOf(16, parts[0]) == size < U64_END
  {
    if SplitQuoted(line, ';').Some? && Numeral(16, SplitQuoted(line, ';').value[0]) {
      ReadU64Exact(16, SplitQuoted(line, ';').value[0]);
    }
  }

  /** `{:x}` output is read back as the size it printed, as a one-line chunk header. */
  lemma {:induction false} ChunkSizeRoundTrip(size: nat)
    requires size < U64_END
    ensures ParseChunkSize(Print(16, size)) == Some(size)
    ensures PlainText(Print(16, size))
  {
    var text := Print(16, size);
    forall c | c in text ensures c != '"' && c != ';' && c != '\r' && c != '\n' {
      assert IsAlpha(c) || IsDigit(c);
    }
    SplitPlain(text, ';');
    PrintThenRead(16, size);
    assert SplitQuoted(text, ';').value == [text];
  }

  // ---- the decoder as a function of the stream ----

  datatype Limits = Limits(line: nat, trailers: nat)

  datatype DecoderState =
    | Complete
    | Fixed(remaining: nat)
    | ChunkSize
    | ChunkData(remaining: nat)
    | ChunkDataEnd
    | Trailers

  /** `Done` carries the raw trailers and the octets after the body. */
  datatype Verdict = Done(trailers: HeaderMap, rest: string) | Malformed | TooLarge | Truncated

  /** All data delivered, then the verdict. */
  datatype Outcome = Outcome(payload: string, verdict: Verdict)

  function Prepend(data: string, outcome: Outcome): Outcome
  {
    Outcome(data + outcome.payload, outcome.verdict)
  }

  predicate ValidState(limits: Limits, state: DecoderState, octets: nat)
  {
    (state.ChunkData? ==> state.remaining > 0) && octets <= limits.trailers
  }

  function DecodeTrailers(limits: Limits, headers: HeaderMap, octets: nat, s: string): (v: Verdict)
    requires octets <= limits.trailers
    decreases |s|
  {
    hide CutLine, AppendFieldLine;
    match CutLine(s, limits.trailers - octets)
    case BadEnding => Malformed
    case TooLong => TooLarge
    case Unfinished => Truncated
    case Line(text, rest) =>
      LineShorter(s, limits.trailers - octets);
      if text == "" then Done(headers, rest)
      else
        match AppendFieldLine(headers, text)
        case None => Malformed
        case Some(more) => DecodeTrailers(limits, more, octets + |text| + 2, rest)
  }

  function Decode(limits: Limits, state: DecoderState, headers: HeaderMap, octets: nat, s: string): Outcome
    requires ValidState(limits, state, octets)
    decreases |s|
  {
    match state
    case Complete => Outcome("", Done(map[], s))
    case Fixed(remaining) =>
      if |s| < remaining then Outcome(s, Truncated)
      else Outcome(s[..remaining], Done(map[], s[remaining..]))
    case ChunkSize =>
      (match CutLine(s, limits.line)
       case BadEnding => Outcome("", Malformed)
       case TooLong => Outcome("", Malformed)
       case Unfinished => Outcome("", Truncated)
       case Line(text, rest) =>
         LineShorter(s, limits.line);
         match ParseChunkSize(text)
         case None => Outcome("", Malformed)
         case Some(size) =>
           if size == 0 then Decode(limits, Trailers, headers, octets, rest)
           else Decode(limits, ChunkData(size), headers, octets, rest))
    case ChunkData(remaining) =>
      if |s| < remaining then Outcome(s, Truncated)
      else Prepend(s[..remaining], Decode(limits, ChunkDataEnd, headers, octets, s[remaining..]))
    case ChunkDataEnd =>
      if |s| < 2 then Outcome("", Truncated)
      else if s[..2] != "\r\n" then Outcome("", Malformed)
      else Decode(limits, ChunkSize, headers, octets, s[2..])
    case Trailers => Outcome("", DecodeTrailers(limits, headers, octets, s))
  }

  function AfterData(state: DecoderState, count: nat): DecoderState
    requires state.Fixed? || state.ChunkData?
    requires count <= state.remaining
  {
    match state
    case Fixed(remaining) => Fixed(remaining - count)
    case ChunkData(remaining) => if remaining == count then ChunkDataEnd else ChunkData(remaining - count)
  }

  /** Taking any first piece of the data leaves the outcome of the whole unchanged. */
  lemma {:induction false} DecodePiece(limits: Limits, state: DecoderState, headers: HeaderMap, octets: nat,
                                       piece: string, rest: string)
    requires ValidState(limits, state, octets)
    requires (state.Fixed? || state.ChunkData?) && 0 < |piece| <= state.remaining
    ensures Decode(limits, state, headers, octets, piece + rest) ==
            Prepend(piece, Decode(limits, AfterData(state, |piece|), headers, octets, rest))
  {
    hide CutLine, ParseChunkSize;
    var s, n, k := piece + rest, state.remaining, |piece|;
    if |s| >= n {
      assert s[..n] == piece + rest[..n - k];
      assert s[n..] == rest[n - k..];
      if n == k {
        assert rest[..0] == "" && rest[0..] == rest && piece + "" == piece;
      } else if state.ChunkData? {
        var tail := Decode(limits, ChunkDataEnd, headers, octets, rest[n - k..]);
        Assoc(piece, rest[..n - k], tail.payload);
      }
    }
  }

  lemma {:induction false} DecodeChunkLine(limits: Limits, headers: HeaderMap, octets: nat, text: string,
                                           rest: string, size: nat)
    requires octets <= limits.trailers
    requires LineText(text) && |text| + 2 <= limits.line && ParseChunkSize(text) == Some(size)
    ensures Decode(limits, ChunkSize, headers, octets, text + "\r\n" + rest) ==
            Decode(limits, if size == 0 then Trailers else ChunkData(size), headers, octets, rest)
  {
    hide CutLine, ParseChunkSize;
    CutRendered(text, rest, limits.line);
  }

  lemma {:induction false} DecodeDelimiter(limits: Limits, headers: HeaderMap, octets: nat, rest: string)
    requires octets <= limits.trailers
    ensures Decode(limits, ChunkDataEnd, headers, octets, "\r\n" + rest) ==
            Decode(limits, ChunkSize, headers, octets, rest)
  {
  }

  lemma {:induction false} DecodeTrailerLine(limits: Limits, headers: HeaderMap, octets: nat, text: string,
                                             rest: string)
    requires LineText(text) && octets + |text| + 2 <= limits.trailers
    ensures DecodeTrailers(limits, headers, octets, text + "\r\n" + rest) ==
            if text == "" then Done(headers, rest)
            else match AppendFieldLine(headers, text)
                 case None => Malformed
                 case Some(more) => DecodeTrailers(limits, more, octets + |text| + 2, rest)
  {
    hide CutLine, AppendFieldLine;
    CutRendered(text, rest, limits.trailers - octets);
  }

  lemma {:induction false} TrailersStayWellFormed(limits: Limits, headers: HeaderMap, octets: nat, s: string)
    requires octets <= limits.trailers && WellFormed(headers)
    ensures var v := DecodeTrailers(limits, headers, octets, s);
            v.Done? ==> WellFormed(v.trailers)
    decreases |s|
  {
    hide CutLine, ParseFieldLine, WellFormed, LineText;
    match CutLine(s, limits.trailers - octets)
    case Line(text, rest) =>
      CutLineFacts(s, limits.trailers - octets);
      if text != "" && ParseFieldLine(text).Some? {
        var field := ParseFieldLine(text).value;
        ParsedFieldGood(text);
        AppendWellFormed(headers, field);
        TrailersStayWellFormed(limits, Append(headers, field.name, field.value), octets + |text| + 2, rest);
      }
    case _ =>
  }

  // ---- a body is recognised only once it is whole ----

  predicate Shorter(part: Outcome, whole: Outcome)
  {
    part.verdict == Truncated && part.payload <= whole.payload
  }

  lemma {:induction false} TrailersPrefix(limits: Limits, headers: HeaderMap, octets: nat, s: string, p: string)
    requires octets <= limits.trailers && p <= s
    ensures var v := DecodeTrailers(limits, headers, octets, s);
            v.Done? && |p| + |v.rest| < |s| ==> DecodeTrailers(limits, headers, octets, p) == Truncated
    decreases |s|
  {
    hide CutLine, ParseFieldLine;
    var v := DecodeTrailers(limits, headers, octets, s);
    if !v.Done? || |s| <= |p| + |v.rest| {
      return;
    }
    var limit := limits.trailers - octets;
    CutLineFacts(s, limit);
    CutOfPrefix(s, p, limit);
    var cut := CutLine(s, limit);
    if cut.text != "" && |cut.text| + 2 <= |p| {
      var field := ParseFieldLine(cut.text).value;
      TrailersPrefix(limits, Append(headers, field.name, field.value), octets + |cut.text| + 2, cut.rest,
                     p[|cut.text| + 2..]);
    }
  }

  lemma {:induction false} DataPrefix(limits: Limits, state: DecoderState, headers: HeaderMap, octets: nat,
                                      s: string, p: string)
    requires ValidState(limits, state, octets) && p <= s
    requires (state.Fixed? || state.ChunkData?) && |p| < state.remaining <= |s|
    ensures Shorter(Decode(limits, state, headers, octets, p), Decode(limits, state, headers, octets, s))
  {
  }

  /** Bodies delimit themselves: decoded from any strict prefix, a body is unfinished and what data
      was delivered is a prefix of its payload. No prefix is ever taken for a shorter message. */
  lemma {:induction false} PrefixTruncated(limits: Limits, state: DecoderState, headers: HeaderMap, octets: nat,
                                           s: string, p: string)
    requires ValidState(limits, state, octets) && p <= s
    requires var o := Decode(limits, state, headers, octets, s); o.verdict.Done? && |p| + |o.verdict.rest| < |s|
    ensures Shorter(Decode(limits, state, headers, octets, p), Decode(limits, state, headers, octets, s))
    decreases |s|
  {
    hide CutLine, ParseChunkSize, DecodeTrailers, ValidExtension;
    if state.ChunkSize? {
      CutLineFacts(s, limits.line);
      CutOfPrefix(s, p, limits.line);
      var cut := CutLine(s, limits.line);
      var size := ParseChunkSize(cut.text).value;
      var next := if size == 0 then Trailers else ChunkData(size);
      if |cut.text| + 2 <= |p| {
        PrefixTruncated(limits, next, headers, octets, cut.rest, p[|cut.text| + 2..]);
      }
    } else if state.ChunkDataEnd? {
      if 2 <= |p| {
        assert p[..2] == s[..2];
        PrefixTruncated(limits, ChunkSize, headers, octets, s[2..], p[2..]);
      }
    } else if state.Trailers? {
      TrailersPrefix(limits, headers, octets, s, p);
    } else if state.Fixed? || (state.ChunkData? && |p| < state.remaining) {
      DataPrefix(limits, state, headers, octets, s, p);
    } else {
      var n := state.remaining;
      PrefixTruncated(limits, ChunkDataEnd, headers, octets, s[n..], p[n..]);
      assert p[..n] == s[..n];
    }
  }

  // ---- the grammar as a syntax tree ----

  datatype Chunk = Chunk(line: string, data: string)

  /** chunked-body = *chunk last-chunk trailer-section CRLF */
  datatype ChunkedBody = ChunkedBody(chunks: seq<Chunk>, last: string, trailers: seq<string>)

  ghost predicate LineWithin(text: string, limit: nat)
  {
    LineText(text) && |text| + 2 <= limit
  }

  ghost predicate ValidChunk(limits: Limits, chunk: Chunk)
  {
    LineWithin(chunk.line, limits.line) && chunk.data != "" && ParseChunkSize(chunk.line) == Some(|chunk.data|)
  }

  function SectionOctets(lines: seq<string>): nat
  {
    if lines == [] then 2 else |lines[0]| + 2 + SectionOctets(lines[1..])
  }

  ghost predicate ValidTrailerLines(lines: seq<string>)
  {
    forall l :: l in lines ==>
      l != "" && LineText(l) && ParseFieldLine(l).Some?
  }

  /** Every chunk-size line is within its limit; the trailer section may have any length. */
  ghost predicate ValidLines(limits: Limits, body: ChunkedBody)
  {
    && (forall c :: c in body.chunks ==> ValidChunk(limits, c))
    && LineWithin(body.last, limits.line) && ParseChunkSize(body.last) == Some(0)
    && ValidTrailerLines(body.trailers)
  }

  ghost predicate ValidBody(limits: Limits, body: ChunkedBody)
  {
    ValidLines(limits, body) && SectionOctets(body.trailers) <= limits.trailers
  }

  function RenderLines(lines: seq<string>): string
  {
    if lines == [] then "\r\n" else lines[0] + "\r\n" + RenderLines(lines[1..])
  }

  function RenderChunk(chunk: Chunk): string
  {
    chunk.line + "\r\n" + chunk.data + "\r\n"
  }

  function RenderChunks(chunks: seq<Chunk>): string
  {
    if chunks == [] then "" else RenderChunk(chunks[0]) + RenderChunks(chunks[1..])
  }

  function Render(body: ChunkedBody): string
  {
    RenderChunks(body.chunks) + body.last + "\r\n" + RenderLines(body.trailers)
  }

  function Data(chunks: seq<Chunk>): string
  {
    if chunks == [] then "" else chunks[0].data + Data(chunks[1..])
  }

  function AddLines(headers: HeaderMap, lines: seq<string>): HeaderMap
    requires forall l :: l in lines ==> ParseFieldLine(l).Some?
    decreases |lines|
  {
    if lines == [] then headers
    else
      assert lines[0] in lines;
      var field := ParseFieldLine(lines[0]).value;
      AddLines(Append(headers, field.name, field.value), lines[1..])
  }

  lemma {:induction false} SectionAtLeast(lines: seq<string>)
    ensures SectionOctets(lines) >= 2
  {
  }

  lemma {:induction false} TrailersComplete(limits: Limits, headers: HeaderMap, octets: nat, lines: seq<string>,
                                            rest: string)
    requires ValidTrailerLines(lines) && octets + SectionOctets(lines) <= limits.trailers
    ensures DecodeTrailers(limits, headers, octets, RenderLines(lines) + rest) ==
            Done(AddLines(headers, lines), rest)
    decreases |lines|
  {
    hide CutLine, ParseFieldLine, LineText, DecodeTrailers;
    if lines == [] {
      PlainTextIsALine("");
      DecodeTrailerLine(limits, headers, octets, "", rest);
      assert "" + "\r\n" == "\r\n";
    } else {
      var l := lines[0];
      assert l in lines;
      SectionAtLeast(lines[1..]);
      Assoc(l + "\r\n", RenderLines(lines[1..]), rest);
      DecodeTrailerLine(limits, headers, octets, l, RenderLines(lines[1..]) + rest);
      var field := ParseFieldLine(l).value;
      assert ValidTrailerLines(lines[1..]) by {
        assert forall x :: x in lines[1..] ==> x in lines;
      }
      TrailersComplete(limits, Append(headers, field.name, field.value), octets + |l| + 2, lines[1..], rest);
    }
  }

  /** A trailer section that does not fit is refused as too large, wherever the limit falls in it. */
  lemma {:induction false} TrailersOverlong(limits: Limits, headers: HeaderMap, octets: nat, lines: seq<string>,
                                            rest: string)
    requires ValidTrailerLines(lines) && octets <= limits.trailers < octets + SectionOctets(lines)
    ensures DecodeTrailers(limits, headers, octets, RenderLines(lines) + rest) == TooLarge
    decreases |lines|
  {
    hide CutLine, ParseFieldLine, LineText, DecodeTrailers;
    var text := if lines == [] then "" else lines[0];
    var after := if lines == [] then rest else RenderLines(lines[1..]) + rest;
    assert RenderLines(lines) + rest == text + "\r\n" + after;
    if lines == [] {
      PlainTextIsALine("");
    } else {
      assert text in lines;
    }
    if limits.trailers < octets + |text| + 2 {
      OverlongTrailerLine(limits, headers, octets, text, after);
    } else {
      DecodeTrailerLine(limits, headers, octets, text, after);
      var field := ParseFieldLine(text).value;
      assert ValidTrailerLines(lines[1..]) by {
        assert forall x :: x in lines[1..] ==> x in lines;
      }
      TrailersOverlong(limits, Append(headers, field.name, field.value), octets + |text| + 2, lines[1..], rest);
    }
  }

  lemma {:induction false} OverlongTrailerLine(limits: Limits, headers: HeaderMap, octets: nat, text: string,
                                               rest: string)
    requires LineText(text) && octets <= limits.trailers < octets + |text| + 2
    ensures DecodeTrailers(limits, headers, octets, text + "\r\n" + rest) == TooLarge
  {
    hide CutLine, AppendFieldLine;
    CutOverlong(text, rest, limits.trailers - octets);
  }

  /** What a trailer section amounts to under a limit. */
  function SectionVerdict(limits: Limits, lines: seq<string>, rest: string): Verdict
    requires forall l :: l in lines ==> ParseFieldLine(l).Some?
  {
    if SectionOctets(lines) <= limits.trailers then Done(AddLines(map[], lines), rest) else TooLarge
  }

  lemma {:induction false} RenderOnwards(body: ChunkedBody, rest: string)
    requires body.chunks != []
    ensures Render(body) + rest ==
            body.chunks[0].line + "\r\n" +
            (body.chunks[0].data + ("\r\n" + (Render(body.(chunks := body.chunks[1..])) + rest)))
  {
  }

  /** Every syntax tree is decoded to its data and then, exactly when its trailer section fits the limit,
      to its trailers and what follows; a section that does not fit is refused as too large. */
  lemma {:induction false} GrammarDecoded(limits: Limits, body: ChunkedBody, rest: string)
    requires ValidLines(limits, body)
    ensures Decode(limits, ChunkSize, map[], 0, Render(body) + rest) ==
            Outcome(Data(body.chunks), SectionVerdict(limits, body.trailers, rest))
    decreases |body.chunks|
  {
    hide CutLine, ParseChunkSize, LineText, DecodeTrailers;
    if body.chunks == [] {
      hide RenderLines, AddLines;
      var after := RenderLines(body.trailers) + rest;
      assert Render(body) + rest == body.last + "\r\n" + after;
      DecodeChunkLine(limits, map[], 0, body.last, after, 0);
      if SectionOctets(body.trailers) <= limits.trailers {
        TrailersComplete(limits, map[], 0, body.trailers, rest);
      } else {
        TrailersOverlong(limits, map[], 0, body.trailers, rest);
      }
    } else {
      hide SectionVerdict;
      var chunk, shorter := body.chunks[0], body.(chunks := body.chunks[1..]);
      assert chunk in body.chunks;
      GrammarDecoded(limits, shorter, rest);
      RenderOnwards(body, rest);
      hide Decode, Render;
      var next := Render(shorter) + rest;
      DecodeDelimiter(limits, map[], 0, next);
      DecodePiece(limits, ChunkData(|chunk.data|), map[], 0, chunk.data, "\r\n" + next);
      DecodeChunkLine(limits, map[], 0, chunk.line, chunk.data + ("\r\n" + next), |chunk.data|);
    }
  }

  /** Every syntax tree within the limits is decoded to its data, its trailers and what follows. */
  lemma {:induction false} GrammarComplete(limits: Limits, body: ChunkedBody, rest: string)
    requires ValidBody(limits, body)
    ensures Decode(limits, ChunkSize, map[], 0, Render(body) + rest) ==
            Outcome(Data(body.chunks), Done(AddLines(map[], body.trailers), rest))
  {
    hide Decode, Render, AddLines;
    GrammarDecoded(limits, body, rest);
  }

  lemma {:induction false} TrailersSound(limits: Limits, headers: HeaderMap, octets: nat, s: string)
    returns (lines: seq<string>)
    requires octets <= limits.trailers
    requires DecodeTrailers(limits, headers, octets, s).Done?
    ensures ValidTrailerLines(lines) && octets + SectionOctets(lines) <= limits.trailers
    ensures var v := DecodeTrailers(limits, headers, octets, s);
            s == RenderLines(lines) + v.rest && v.trailers == AddLines(headers, lines)
    decreases |s|
  {
    hide CutLine, ParseFieldLine, LineText;
    var cut := CutLine(s, limits.trailers - octets);
    CutLineFacts(s, limits.trailers - octets);
    if cut.text == "" {
      lines := [];
      assert "" + "\r\n" == "\r\n";
    } else {
      var field := ParseFieldLine(cut.text).value;
      var tail := TrailersSound(limits, Append(headers, field.name, field.value), octets + |cut.text| + 2, cut.rest);
      lines := [cut.text] + tail;
      TrailersSoundStep(limits, headers, octets, s, tail, DecodeTrailers(limits, headers, octets, s).rest);
    }
  }

  lemma {:induction false} TrailersSoundStep(limits: Limits, headers: HeaderMap, octets: nat, s: string,
                                             tail: seq<string>, rest: string)
    requires octets <= limits.trailers
    requires CutLine(s, limits.trailers - octets).Line? && CutLine(s, limits.trailers - octets).text != ""
    requires ParseFieldLine(CutLine(s, limits.trailers - octets).text).Some? && ValidTrailerLines(tail)
    ensures var cut := CutLine(s, limits.trailers - octets);
            var lines := [cut.text] + tail;
            var field := ParseFieldLine(cut.text).value;
            && ValidTrailerLines(lines)
            && SectionOctets(lines) == |cut.text| + 2 + SectionOctets(tail)
            && (cut.rest == RenderLines(tail) + rest ==> s == RenderLines(lines) + rest)
            && AddLines(Append(headers, field.name, field.value), tail) == AddLines(headers, lines)
  {
    hide CutLine, ParseFieldLine, LineText;
    var cut := CutLine(s, limits.trailers - octets);
    CutLineFacts(s, limits.trailers - octets);
    var lines := [cut.text] + tail;
    assert lines[1..] == tail;
    Assoc(cut.text + "\r\n", RenderLines(tail), rest);
  }

  /** Whatever is decoded successfully is the rendering of a syntax tree within the limits. */
  lemma {:induction false} GrammarSound(limits: Limits, s: string) returns (body: ChunkedBody)
    requires Decode(limits, ChunkSize, map[], 0, s).verdict.Done?
    ensures Denotes(limits, s, Decode(limits, ChunkSize, map[], 0, s), body)
    decreases |s|
  {
    hide CutLine, ParseChunkSize, LineText, ParseFieldLine, DecodeTrailers;
    var cut := CutLine(s, limits.line);
    CutLineFacts(s, limits.line);
    var size := ParseChunkSize(cut.text).value;
    var outcome := Decode(limits, ChunkSize, map[], 0, s);
    if size == 0 {
      var lines := TrailersSound(limits, map[], 0, cut.rest);
      body := ChunkedBody([], cut.text, lines);
      RenderLast(body, outcome.verdict.rest);
    } else {
      ChunkSound(limits, s, cut.text, cut.rest, size);
      var data, next := cut.rest[..size], cut.rest[size + 2..];
      var tail := GrammarSound(limits, next);
      body := tail.(chunks := [Chunk(cut.text, data)] + tail.chunks);
      assert body.(chunks := body.chunks[1..]) == tail;
      RenderOnwards(body, outcome.verdict.rest);
    }
  }

  lemma {:induction false} RenderLast(body: ChunkedBody, rest: string)
    requires body.chunks == []
    ensures Render(body) + rest == body.last + "\r\n" + (RenderLines(body.trailers) + rest)
  {
  }

  lemma {:induction false} ChunkSound(limits: Limits, s: string, text: string, rest: string, size: nat)
    requires CutLine(s, limits.line) == Line(text, rest) && ParseChunkSize(text) == Some(size) && size > 0
    requires Decode(limits, ChunkSize, map[], 0, s).verdict.Done?
    ensures size + 2 <= |rest|
    ensures rest == rest[..size] + ("\r\n" + rest[size + 2..])
    ensures Decode(limits, ChunkSize, map[], 0, s) ==
            Prepend(rest[..size], Decode(limits, ChunkSize, map[], 0, rest[size + 2..]))
  {
    hide CutLine, ParseChunkSize, DecodeTrailers;
    assert Decode(limits, ChunkSize, map[], 0, s) == Decode(limits, ChunkData(size), map[], 0, rest);
    var end := rest[size..];
    assert end == end[..2] + end[2..];
    assert end[2..] == rest[size + 2..];
  }

  ghost predicate Denotes(limits: Limits, s: string, outcome: Outcome, body: ChunkedBody)
  {
    && outcome.verdict.Done?
    && ValidBody(limits, body)
    && s == Render(body) + outcome.verdict.rest
    && outcome.payload == Data(body.chunks)
    && outcome.verdict.trailers == AddLines(map[], body.trailers)
  }

  /** The decoder succeeds exactly on the renderings of the grammar, with exactly their meaning. */
  lemma {:induction false} DecodeIffGrammar(limits: Limits, s: string, outcome: Outcome)
    requires outcome.verdict.Done?
    ensures Decode(limits, ChunkSize, map[], 0, s) == outcome <==>
            exists body :: Denotes(limits, s, outcome, body)
  {
    hide Decode, ValidBody, Render, Data, AddLines;
    if Decode(limits, ChunkSize, map[], 0, s) == outcome {
      var body := GrammarSound(limits, s);
      assert Denotes(limits, s, outcome, body);
    }
    if body :| Denotes(limits, s, outcome, body) {
      GrammarComplete(limits, body, outcome.verdict.rest);
    }
  }

  /** Nothing after the body changes its decoding: the next message starts at the very next octet. */
  lemma {:induction false} DecodeIgnoresWhatFollows(limits: Limits, s: string, extra: string)
    requires Decode(limits, ChunkSize, map[], 0, s).verdict.Done?
    ensures var o := Decode(limits, ChunkSize, map[], 0, s);
            Decode(limits, ChunkSize, map[], 0, s + extra) ==
            Outcome(o.payload, Done(o.verdict.trailers, o.verdict.rest + extra))
  {
    hide Decode, ValidBody, Render, Data, AddLines;
    var o := Decode(limits, ChunkSize, map[], 0, s);
    var body := GrammarSound(limits, s);
    GrammarComplete(limits, body, o.verdict.rest + extra);
    Assoc(Render(body), o.verdict.rest, extra);
  }
}
