/**
 A whole request, from the client's octets to the origin's: reading the head, rewriting it, and the
 exchange that sends it with its re-framed body. What reaches the origin is measured by splitting it at
 its first line and its first empty line, without the proxy's own limits.
 */
module Forwarding {
  import opened HttpText
  import opened Numerals
  import opened Headers
  import opened ChunkedGrammar
  import opened Wire
  import opened Http1Connection
  import opened BodyDecoding
  import opened RequestHeads
  import opened HeadReading
  import opened RequestWriting
  import opened OriginBodies
  import opened IdlePools
  import opened Exchanges

  // ---- taking a request apart ----

  datatype Message = Message(line: string, section: string, content: string)

  /** The request line to its first CRLF, the header section to its first empty line, and the rest. */
  function SplitMessage(s: string): Option<Message>
  {
    FindCrlfFacts(s);
    match FindCrlf(s)
    case None => None
    case Some(p) =>
      assert FirstCrlf(s, p);
      SectionEndFacts(s[p + 2..]);
      match SectionEnd(s[p + 2..])
      case None => None
      case Some(end) =>
        assert IsSectionEnd(s[p + 2..], end);
        Some(Message(s[..p + 2], s[p + 2..][..end], s[p + 2..][end..]))
  }

  /** A printed field section ends where its empty line does, whatever follows. */
  lemma {:induction false} RenderedSectionEnds(fields: seq<Field>, rest: string)
    requires forall f :: f in fields ==> GoodField(f)
    ensures IsSectionEnd(RenderFields(fields) + "\r\n" + rest, |RenderFields(fields)| + 2)
    decreases |fields|
  {
    hide GoodField, LineOf;
    var s := RenderFields(fields) + "\r\n" + rest;
    if fields != [] {
      var line, t := LineOf(fields[0]), RenderFields(fields[1..]) + "\r\n" + rest;
      assert fields[0] in fields && forall f :: f in fields[1..] ==> f in fields;
      RenderedSectionEnds(fields[1..], rest);
      FieldLineIsPlain(fields[0]);
      NonEmptyLine(fields[0]);
      assert s == line + "\r\n" + t;
      LineBeforeSection(line, t, |RenderFields(fields[1..])| + 2);
    }
  }

  /** A plain line in front of a section moves its end. */
  lemma {:induction false} LineBeforeSection(line: string, t: string, end: nat)
    requires line != "" && (forall c :: c in line ==> c != '\r' && c != '\n')
    requires IsSectionEnd(t, end)
    ensures IsSectionEnd(line + "\r\n" + t, |line| + 2 + end)
  {
    var s := line + "\r\n" + t;
    var n := |line| + 2;
    assert s[n..] == t;
    forall i | 0 <= i < n ensures CrlfAt(s, i) <==> i == |line| {
      if i < |line| {
        assert s[i] == line[i] && line[i] in line;
      }
    }
    assert forall i :: 0 <= i < |t| ==> s[n + i] == t[i];
    assert forall i :: 0 <= i < |t| ==> (CrlfAt(s, n + i) <==> CrlfAt(t, i));
    forall i | n <= i < |s| ensures DoubleCrlfAt(s, i) <==> DoubleCrlfAt(t, i - n) {
      assert CrlfAt(s, n + (i - n)) <==> CrlfAt(t, i - n);
      if i + 2 < |s| {
        assert CrlfAt(s, n + (i - n + 2)) <==> CrlfAt(t, i - n + 2);
      }
    }
    if CrlfAt(t, 0) {
      assert CrlfAt(s, n);
      assert DoubleCrlfAt(s, |line|);
    } else {
      assert DoubleCrlfAt(s, n + (end - 4));
      forall i | 0 <= i < n + end - 4 ensures !DoubleCrlfAt(s, i) {
        if i == |line| {
          assert !CrlfAt(s, n);
        } else if n <= i {
          assert !DoubleCrlfAt(t, i - n);
        }
      }
    }
  }

  lemma {:induction false} TargetLinePlain(httpMethod: string, target: string)
    requires ValidToken(httpMethod) && TargetText(target)
    ensures forall c :: c in httpMethod + " " + (target + " " + "HTTP/1.1") ==> c != '\r' && c != '\n'
  {
    assert !TokenChar('\r') && !TokenChar('\n');
  }

  lemma {:induction false} PlainLineFirst(text: string, rest: string)
    requires forall c :: c in text ==> c != '\r' && c != '\n'
    ensures FirstCrlf(text + "\r\n" + rest, |text|)
  {
    var s := text + "\r\n" + rest;
    forall i | 0 <= i < |text| ensures !CrlfAt(s, i) {
      assert s[i] == text[i] && text[i] in text;
    }
  }

  /** A printed head is split back off exactly. */
  lemma {:induction false} HeadSplits(httpMethod: string, target: string, fields: seq<Field>, content: string)
    requires ValidToken(httpMethod) && TargetText(target) && forall f :: f in fields ==> GoodField(f)
    ensures var line, section := TargetLine(httpMethod, target), RenderFields(fields) + "\r\n";
            SplitMessage(line + section + content) == Some(Message(line, section, content))
  {
    hide GoodField, ValidToken, TargetText, FindCrlf, SectionEnd, RenderFields, FirstCrlf, NoCrlf,
         IsSectionEnd, NoSectionEnd;
    var text := httpMethod + " " + (target + " " + "HTTP/1.1");
    var line, section := TargetLine(httpMethod, target), RenderFields(fields) + "\r\n";
    var s := line + section + content;
    TargetLinePlain(httpMethod, target);
    assert s == text + "\r\n" + (section + content);
    PlainLineFirst(text, section + content);
    FindCrlfFacts(s);
    var t := s[|line|..];
    assert t == section + content;
    RenderedSectionEnds(fields, content);
    SectionEndFacts(t);
    assert s[..|line|] == line && t[..|section|] == section && t[|section|..] == content;
  }

  // ---- what the origin receives ----

  /** The octets are one request: its head parses to the client's method and framing and to the rewritten
      fields, and under the framing it announces its content is the client's body, with the trailers to
      forward and nothing after them. */
  ghost predicate OneRequest(emitted: string, head: RequestHead, target: string, rewritten: HeaderMap,
                             body: Outcome, nominations: seq<string>, isAuthority: string -> bool)
  {
    && SplitMessage(emitted).Some?
    && var message := SplitMessage(emitted).value;
    && SameRequest(head, target, rewritten, ParseHead(message.line, message.section, isAuthority))
    && OneBody(message.content, head.framing, body, nominations)
  }

  ghost predicate OneBody(content: string, framing: BodyFraming, body: Outcome, nominations: seq<string>)
  {
    forall limits: Limits :: Admits(limits, body, nominations) ==>
      WholeMessage(Decode(limits, InitialState(framing), map[], 0, content), body, nominations)
  }

  /** Re-framed or passed through, a delivered body is read back under the framing of its head. */
  lemma {:induction false} DeliveredBody(framing: BodyFraming, stream: string, nominations: seq<string>,
                                         emitted: string, rest: string)
    requires var body := Decode(LIMITS, InitialState(framing), map[], 0, stream);
             RequestDelivered(body, framing.Chunked?, nominations, emitted, rest)
    ensures OneBody(emitted, framing, Decode(LIMITS, InitialState(framing), map[], 0, stream), nominations)
  {
    hide DecodeTrailers, CutLine, ForwardedTrailers, SectionLength;
    var body := Decode(LIMITS, InitialState(framing), map[], 0, stream);
    if !framing.Chunked? {
      NothingForwarded(nominations);
      assert emitted + "" == emitted;
      forall limits: Limits | Admits(limits, body, nominations)
        ensures WholeMessage(Decode(limits, InitialState(framing), map[], 0, emitted), body, nominations)
      {
        assert emitted[..|emitted|] == emitted;
      }
    }
  }

  lemma {:induction false} SentMessage(head: RequestHead, pathAndQuery: string, fields: seq<Field>, content: string)
    requires ValidToken(head.httpMethod) && forall f :: f in fields ==> GoodField(f)
    requires forall c :: c in pathAndQuery ==> !Control(c) && c != ' '
    ensures var line := TargetLine(head.httpMethod, OriginTarget(head.httpMethod, pathAndQuery));
            var section := RenderFields(fields) + "\r\n";
            SplitMessage(line + section + content) == Some(Message(line, section, content))
  {
    hide GoodField, ValidToken, TargetText, OriginTarget, TargetLine, SplitMessage;
    OriginTargetText(head.httpMethod, pathAndQuery);
    HeadSplits(head.httpMethod, OriginTarget(head.httpMethod, pathAndQuery), fields, content);
  }

  lemma {:induction false} NominationsExist(headers: HeaderMap)
    requires CommaTokens(headers, CONNECTION).Some?
    ensures Nominations(headers).Some?
  {
  }

  /** The client's request, as its stream spells it, became one request at the origin. */
  ghost predicate Forwarded(stream: string, head: RequestHead, host: string, pathAndQuery: string,
                            isAuthority: string -> bool, sent: string, rest: string)
  {
    && CutHead(stream).HeadAt? && Nominations(head.headers).Some? && RewrittenHeaders(head, host).Some?
    && var body := Decode(LIMITS, InitialState(head.framing), map[], 0, CutHead(stream).rest);
    && OneRequest(sent, head, OriginTarget(head.httpMethod, pathAndQuery), RewrittenHeaders(head, host).value, body,
                  Nominations(head.headers).value, isAuthority)
    && body.verdict.Done? && body.verdict.rest == rest
  }

  /** A printed head followed by a delivered body is the client's request. */
  lemma {:induction false} ForwardedRequest(stream: string, head: RequestHead, host: string, pathAndQuery: string,
                                            isAuthority: string -> bool, fields: seq<Field>, content: string,
                                            rest: string)
    requires HostOk(host, isAuthority) && forall c :: c in pathAndQuery ==> !Control(c) && c != ' '
    requires CutHead(stream).HeadAt?
    requires ParseHead(CutHead(stream).line, CutHead(stream).section, isAuthority) == Ok(head)
    requires Nominations(head.headers).Some? && RewrittenHeaders(head, host).Some?
    requires MapOf(fields) == RewrittenHeaders(head, host).value && forall f :: f in fields ==> GoodField(f)
    requires RequestDelivered(Decode(LIMITS, InitialState(head.framing), map[], 0, CutHead(stream).rest),
                              head.framing.Chunked?, Nominations(head.headers).value, content, rest)
    ensures Forwarded(stream, head, host, pathAndQuery, isAuthority,
                      TargetLine(head.httpMethod, OriginTarget(head.httpMethod, pathAndQuery)) +
                      (RenderFields(fields) + "\r\n") + content, rest)
  {
    hide Decode, CutHead, ParseHead, RewrittenHeaders, OneBody, SplitMessage, HostOk, Nominations, OriginTarget;
    hide TargetLine, Reframed, ErrorFor, MapOf, GoodField, SameRequest, HeadFacts, RenderFields;
    AcceptedHead(CutHead(stream).line, CutHead(stream).section, isAuthority);
    ForwardedHead(CutHead(stream).line, CutHead(stream).section, pathAndQuery, host, fields, isAuthority);
    DeliveredBody(head.framing, CutHead(stream).rest, Nominations(head.headers).value, content, rest);
    AcceptedMethod(head, isAuthority);
    SentMessage(head, pathAndQuery, fields, content);
  }

  lemma {:induction false} AcceptedMethod(head: RequestHead, isAuthority: string -> bool)
    requires HeadFacts(head, isAuthority)
    ensures ValidToken(head.httpMethod)
  {
  }

  /** The rewritten head as printed; for an accepted head there is always one. */
  method PrintHead(head: RequestHead, host: string, pathAndQuery: string, isAuthority: string -> bool)
    returns (bytes: string, ghost fields: seq<Field>)
    requires HeadFacts(head, isAuthority) && HostOk(host, isAuthority)
    ensures Nominations(head.headers).Some? && RewrittenHeaders(head, host).Some?
    ensures MapOf(fields) == RewrittenHeaders(head, host).value && forall f :: f in fields ==> GoodField(f)
    ensures bytes == TargetLine(head.httpMethod, OriginTarget(head.httpMethod, pathAndQuery)) +
                     (RenderFields(fields) + "\r\n")
  {
    hide RewrittenHeaders, WellFormed, Nominations, CommaTokens, OriginTarget, TargetLine, MapOf, GoodField;
    HostIsContent(host, isAuthority);
    RewrittenExists(head, host);
    NominationsExist(head.headers);
    var order := IterationOrder(RewrittenHeaders(head, host).value);
    var serialized;
    serialized, fields := SerializeRequestHead(head, pathAndQuery, host, order);
    bytes := serialized.value;
  }

  datatype Served =
    | HeadUnread(read: HeadRead)
    | Answered(head: RequestHead, end: ExchangeEnd)

  /** One request served: whatever the splits, drops and partial writes, a completed exchange has sent the
      origin exactly one request, the client's, and the connection stands at the client's next head. */
  method Serve(downstream: Connection, reader: Connection, sink: Sink, host: string, pathAndQuery: string,
               isAuthority: string -> bool, socket: nat, key: string, pool: OriginPool, steps: nat, polls: nat)
    returns (served: Served)
    requires downstream.Valid() && HeadReadAhead(downstream.Unread())
    requires HostOk(host, isAuthority) && forall c :: c in pathAndQuery ==> !Control(c) && c != ' '
    requires reader.Valid() && reader.Unread() == ""
    requires downstream != reader && downstream.buffer != reader.buffer && downstream.io != reader.io
    requires pool.Valid() && pool.puts < U64_END && !Pooled(pool.queue, socket)
    modifies downstream, downstream.buffer, downstream.io, reader, reader.buffer, reader.io, sink
    modifies pool`entries, pool`queue, pool`nextSequence, pool`puts, pool.clock
    ensures downstream.Valid() && old(sink.emitted) <= sink.emitted
    ensures served.HeadUnread? ==> !served.read.HeadParsed? && sink.emitted == old(sink.emitted)
    ensures served.Answered? ==>
              var cut := CutHead(old(downstream.Stream()));
              cut.HeadAt? && ParseHead(cut.line, cut.section, isAuthority) == Ok(served.head)
    ensures served.Answered? && served.end.Responded? && served.end.requestComplete ==>
              && Forwarded(old(downstream.Stream()), served.head, host, pathAndQuery, isAuthority,
                           sink.emitted[|old(sink.emitted)|..], downstream.Stream())
              && HeadReadAhead(downstream.Unread())
  {
    hide Decode, CutHead, ParseHead, RewrittenHeaders, IdlePool.Valid, Pooled, FinalHead, MessageEnd, SentSoFar;
    hide HeadReadAhead, RequestDelivered, Forwarded, HostOk, Nominations, OriginTarget, TargetLine, Control;
    hide MapOf, GoodField, HeadFacts, RenderFields, MayPool;
    var read := ReadHead(downstream, isAuthority);
    if !read.HeadParsed? {
      return HeadUnread(read);
    }
    var head := read.head;
    ghost var stream := old(downstream.Stream());
    AcceptedHead(CutHead(stream).line, CutHead(stream).section, isAuthority);
    var bytes, fields := PrintHead(head, host, pathAndQuery, isAuthority);
    var end := Exchange(bytes, head.version.Http10?, head.httpMethod == "HEAD", head.framing,
                        Nominations(head.headers).value, downstream, reader, sink, socket, key, pool, steps, polls);
    if end.Responded? && end.requestComplete {
      SuffixOfSum(old(sink.emitted), bytes, sink.emitted);
      ForwardedRequest(stream, head, host, pathAndQuery, isAuthority, fields,
                       sink.emitted[|old(sink.emitted) + bytes|..], downstream.Stream());
      ShortIsReadAhead(downstream.Unread());
    }
    return Answered(head, end);
  }

  lemma {:induction false} SuffixOfSum(before: string, bytes: string, after: string)
    requires before + bytes <= after
    ensures after[|before|..] == bytes + after[|before + bytes|..]
  {
  }
}
