/**
 Reading one request head out of the connection buffer. The verdict is a function of the octet stream
 (`CutHead`), and a head that is read leaves at most one read-ahead step of surplus octets behind.
 */
module HeadReading {
  import opened HttpText
  import opened Http1Connection
  import opened RequestHeads

  predicate RequestLineText(text: string)
  {
    forall c :: c in text ==> ' ' <= c < 127 as char
  }

  /** What of an unfinished line can be judged: a trailing CR may be half of its terminator. */
  function WithoutTrailingCr(s: string): string
  {
    if s != "" && s[|s| - 1] == '\r' then s[..|s| - 1] else s
  }

  predicate DoubleCrlfAt(s: string, i: int)
  {
    CrlfAt(s, i) && CrlfAt(s, i + 2)
  }

  function DoubleCrlfEnd(s: string, from: nat): Option<nat>
    requires from <= |s|
    decreases |s| - from
  {
    if from == |s| then None
    else if DoubleCrlfAt(s, from) then Some(from + 4)
    else DoubleCrlfEnd(s, from + 1)
  }

  /** Length of the header section, empty line included. */
  function SectionEnd(s: string): Option<nat>
  {
    if CrlfAt(s, 0) then Some(2) else DoubleCrlfEnd(s, 0)
  }

  datatype HeadCut = HeadAt(line: string, section: string, rest: string) | NoHead | HeadBad | HeadLarge | HeadUnfinished

  function CutSection(line: string, s: string): HeadCut
  {
    var window := Window(s, HEADER_SECTION_LIMIT);
    match SectionEnd(window)
    case Some(end) =>
      if end <= |window| && CleanEndings(window[..end]) then HeadAt(line, s[..end], s[end..]) else HeadBad
    case None =>
      if !CleanEndings(window) then HeadBad
      else if |s| >= HEADER_SECTION_LIMIT then HeadLarge
      else HeadUnfinished
  }

  /** The next head of a whole stream. */
  function CutHead(s: string): HeadCut
  {
    match CutLine(s, REQUEST_LINE_LIMIT)
    case Line(text, rest) => if RequestLineText(text) then CutSection(text + "\r\n", rest) else HeadBad
    case Unfinished =>
      if s == "" then NoHead
      else if RequestLineText(WithoutTrailingCr(s)) then HeadUnfinished
      else HeadBad
    case _ => HeadBad
  }

  // ---- the end of the header section ----

  lemma {:induction false} DoubleCrlfEndFacts(s: string, from: nat)
    requires from <= |s|
    ensures match DoubleCrlfEnd(s, from)
            case None => forall i :: from <= i < |s| ==> !DoubleCrlfAt(s, i)
            case Some(end) =>
              from + 4 <= end <= |s| && DoubleCrlfAt(s, end - 4) &&
              forall i :: from <= i < end - 4 ==> !DoubleCrlfAt(s, i)
    decreases |s| - from
  {
    if from < |s| && !DoubleCrlfAt(s, from) {
      DoubleCrlfEndFacts(s, from + 1);
    }
  }

  ghost predicate IsSectionEnd(s: string, end: int)
  {
    if CrlfAt(s, 0) then end == 2
    else 4 <= end <= |s| && DoubleCrlfAt(s, end - 4) && forall i :: 0 <= i < end - 4 ==> !DoubleCrlfAt(s, i)
  }

  ghost predicate NoSectionEnd(s: string)
  {
    !CrlfAt(s, 0) && forall i :: 0 <= i < |s| ==> !DoubleCrlfAt(s, i)
  }

  lemma {:induction false} SectionEndFacts(s: string)
    ensures SectionEnd(s).None? <==> NoSectionEnd(s)
    ensures forall end: nat :: SectionEnd(s) == Some(end) <==> IsSectionEnd(s, end)
  {
    DoubleCrlfEndFacts(s, 0);
  }

  lemma {:induction false} SectionEndGrows(before: string, after: string, end: nat)
    requires before <= after && IsSectionEnd(before, end)
    ensures end <= |before| && IsSectionEnd(after, end)
  {
    if !CrlfAt(before, 0) {
      assert !CrlfAt(after, 0);
      assert DoubleCrlfAt(after, end - 4);
      forall i | 0 <= i < end - 4 ensures !DoubleCrlfAt(after, i) {
        assert !DoubleCrlfAt(before, i);
      }
    }
  }

  lemma {:induction false} CutSectionFound(line: string, s: string, seen: string, end: nat)
    requires seen <= s && |seen| <= HEADER_SECTION_LIMIT && IsSectionEnd(seen, end)
    ensures end <= |seen|
    ensures CutSection(line, s) ==
            if CleanEndings(seen[..end]) then HeadAt(line, s[..end], s[end..]) else HeadBad
  {
    var window := Window(s, HEADER_SECTION_LIMIT);
    SectionEndGrows(seen, window, end);
    SectionEndFacts(window);
    assert window[..end] == seen[..end];
  }

  lemma {:induction false} CutSectionBad(line: string, s: string, seen: string)
    requires seen <= s && |seen| <= HEADER_SECTION_LIMIT && NoSectionEnd(seen) && !CleanEndings(seen)
    ensures CutSection(line, s) == HeadBad
  {
    var window := Window(s, HEADER_SECTION_LIMIT);
    assert seen <= window;
    var bad :| 0 <= bad < |seen| && !CleanAt(seen, bad);
    assert !CleanAt(window, bad);
    SectionEndFacts(window);
    if SectionEnd(window).Some? {
      var end := SectionEnd(window).value;
      assert IsSectionEnd(window, end);
      SectionEndBeyond(seen, window, end);
      assert !CleanAt(window[..end], bad);
    }
  }

  lemma {:induction false} SectionEndBeyond(before: string, after: string, end: nat)
    requires before <= after && NoSectionEnd(before) && IsSectionEnd(after, end)
    ensures |before| < end <= |after|
  {
    if CrlfAt(after, 0) {
      assert |before| >= 2 ==> CrlfAt(before, 0);
    } else {
      assert end <= |before| ==> DoubleCrlfAt(before, end - 4);
    }
  }

  lemma {:induction false} CutSectionFull(line: string, s: string, seen: string)
    requires seen <= s && |seen| == HEADER_SECTION_LIMIT && NoSectionEnd(seen) && CleanEndings(seen)
    ensures CutSection(line, s) == HeadLarge
  {
    assert Window(s, HEADER_SECTION_LIMIT) == seen;
    SectionEndFacts(seen);
  }

  lemma {:induction false} CutSectionWhole(line: string, s: string)
    requires |s| < HEADER_SECTION_LIMIT && NoSectionEnd(s) && CleanEndings(s)
    ensures CutSection(line, s) == HeadUnfinished
  {
    SectionEndFacts(s);
  }

  // ---- the request line ----

  lemma {:induction false} BadPrefixRefused(s: string, seen: string)
    requires seen <= s && |seen| <= REQUEST_LINE_LIMIT && NoCrlf(seen)
    requires !CleanEndings(seen) || !RequestLineText(WithoutTrailingCr(seen))
    ensures CutHead(s) == HeadBad
  {
    hide CutSection;
    if !CleanEndings(seen) {
      CutFromBadPrefix(s, seen, REQUEST_LINE_LIMIT);
    } else {
      var judged := WithoutTrailingCr(seen);
      var bad :| bad in judged && !(' ' <= bad < 127 as char);
      var i :| 0 <= i < |judged| && judged[i] == bad;
      assert s[i] == bad;
      BadOctetStays(s, seen, i);
    }
  }

  lemma {:induction false} BadOctetStays(s: string, seen: string, i: nat)
    requires seen <= s && NoCrlf(seen) && i < |WithoutTrailingCr(seen)|
    requires !(' ' <= s[i] < 127 as char)
    ensures CutHead(s) == HeadBad
  {
    hide CutSection;
    var cut := CutLine(s, REQUEST_LINE_LIMIT);
    if cut.Line? {
      CutLineFacts(s, REQUEST_LINE_LIMIT);
      var p := |cut.text|;
      assert s[p] == '\r' && s[p + 1] == '\n';
      assert p + 1 < |seen| ==> CrlfAt(seen, p);
      assert i < p;
      assert cut.text[i] == s[i] && s[i] in cut.text;
    } else if cut.Unfinished? {
      var judged := WithoutTrailingCr(s);
      assert i < |judged| && judged[i] == s[i] && judged[i] in judged;
    }
  }

  /** Older than the last read-ahead step, there is no end of the section yet. */
  ghost predicate SurplusBounded(section: string)
  {
    |section| > REQUEST_LINE_LIMIT ==> NoSectionEnd(section[..|section| - REQUEST_LINE_LIMIT])
  }

  ghost predicate LineInBuffer(unread: string, p: nat)
  {
    && FirstCrlf(unread, p) && p + 2 <= REQUEST_LINE_LIMIT
    && |unread| <= p + 2 + HEADER_SECTION_LIMIT
    && SurplusBounded(unread[p + 2..])
  }

  /** Read-ahead between two calls: one step, or the request line and a section not yet ended. */
  ghost predicate HeadReadAhead(unread: string)
  {
    |unread| > REQUEST_LINE_LIMIT ==> exists p: nat :: LineInBuffer(unread, p)
  }

  lemma {:induction false} NoSectionEndPrefix(before: string, after: string)
    requires before <= after && NoSectionEnd(after)
    ensures NoSectionEnd(before)
  {
    assert CrlfAt(before, 0) ==> CrlfAt(after, 0);
    forall i | 0 <= i < |before| ensures !DoubleCrlfAt(before, i) {
      assert DoubleCrlfAt(before, i) ==> DoubleCrlfAt(after, i);
    }
  }

  lemma {:induction false} ReadKeepsSurplus(before: string, after: string)
    requires NoSectionEnd(before) && before <= after && |after| <= |before| + REQUEST_LINE_LIMIT
    ensures SurplusBounded(after)
  {
    if |after| > REQUEST_LINE_LIMIT {
      var older := after[..|after| - REQUEST_LINE_LIMIT];
      assert older == before[..|older|];
      NoSectionEndPrefix(older, before);
    }
  }

  lemma {:induction false} SurplusAfterSection(section: string, end: nat)
    requires SurplusBounded(section) && IsSectionEnd(section, end) && end <= |section|
    ensures |section| - end <= REQUEST_LINE_LIMIT
  {
    if |section| > REQUEST_LINE_LIMIT {
      var older := section[..|section| - REQUEST_LINE_LIMIT];
      SectionEndBeyond(older, section, end);
    }
  }

  // ---- the reader ----

  datatype HeadRead =
    | HeadParsed(head: RequestHead)
    | NoMoreRequests
    | HeadError(error: IngressError)
    | HeadCancelled

  datatype Sought = SoughtAt(end: nat) | SoughtNone | SoughtError(error: IngressError) | SoughtCancelled

  /** The error or absence a verdict on the stream stands for; `fails` is how the stream ends. */
  ghost predicate Refuses(cut: HeadCut, fails: bool, result: Sought)
  {
    match result
    case SoughtNone => cut.NoHead? && !fails
    case SoughtError(error) =>
      (match cut
       case NoHead => error == Incomplete && fails
       case HeadBad => error == BadRequest
       case HeadLarge => error == HeadersTooLarge
       case HeadUnfinished => error == Incomplete
       case HeadAt(_, _, _) => false)
    case _ => false
  }

  method ValidateRequestLinePrefix(bytes: string) returns (ok: bool)
    ensures ok <==> RequestLineText(bytes)
  {
    for i := 0 to |bytes|
      invariant forall c :: c in bytes[..i] ==> ' ' <= c < 127 as char
    {
      if bytes[i] < ' ' || bytes[i] >= 127 as char {
        assert bytes[i] in bytes;
        return false;
      }
      assert bytes[..i + 1] == bytes[..i] + [bytes[i]];
    }
    assert bytes[..|bytes|] == bytes;
    return true;
  }

  method SeekRequestLine(connection: Connection) returns (r: Sought)
    requires connection.Valid() && connection.start == 0 && HeadReadAhead(connection.Unread())
    modifies connection, connection.buffer, connection.io
    ensures connection.Valid() && connection.start == 0 && HeadReadAhead(connection.Unread())
    ensures connection.Stream() == old(connection.Stream())
    ensures match r
            case SoughtCancelled => true
            case SoughtAt(p) =>
              && LineInBuffer(connection.Unread(), p)
              && var text := connection.Unread()[..p];
                 && RequestLineText(text)
                 && CutLine(connection.Stream(), REQUEST_LINE_LIMIT) == Line(text, connection.Stream()[p + 2..])
            case _ => Refuses(CutHead(connection.Stream()), connection.io.fails, r)
  {
    ghost var stream := connection.Stream();
    while true
      invariant connection.Valid() && connection.start == 0 && HeadReadAhead(connection.Unread())
      invariant connection.Stream() == stream
      decreases |connection.io.incoming|
    {
      hide CutLine, CleanEndings, NoCrlf, FindCrlf, CutSection, RequestLineText, HeadReadAhead, SurplusBounded;
      var available := connection.buffer[connection.start..connection.end];
      assert available <= stream;
      FindCrlfFacts(available);
      var lineEnd := FindCrlf(available);
      if lineEnd.Some? {
        r := JudgeRequestLine(available, lineEnd.value, stream);
        return;
      }
      var ok := ValidateLineEndings(available);
      var plain := ValidateRequestLinePrefix(WithoutTrailingCr(available));
      if !ok || !plain {
        BadPrefixRefused(stream, available);
        return SoughtError(BadRequest);
      }
      if |available| >= REQUEST_LINE_LIMIT {
        CutFromFullPrefix(stream, available, REQUEST_LINE_LIMIT);
        return SoughtError(BadRequest);
      }
      var wasEmpty := available == "";
      var more := connection.ReadMoreUntil(REQUEST_LINE_LIMIT);
      ShortIsReadAhead(connection.Unread());
      if more.ReadCancelled? {
        return SoughtCancelled;
      }
      if !more.ReadSome? {
        assert stream == available;
        CutFromWholeStream(stream, REQUEST_LINE_LIMIT);
        return if wasEmpty && more.ReadNone? then SoughtNone else SoughtError(Incomplete);
      }
    }
  }

  lemma {:induction false} ShortIsReadAhead(unread: string)
    requires |unread| <= REQUEST_LINE_LIMIT
    ensures HeadReadAhead(unread)
  {
  }

  method JudgeRequestLine(available: string, p: nat, ghost stream: string) returns (r: Sought)
    requires available <= stream && HeadReadAhead(available) && FirstCrlf(available, p)
    ensures match r
            case SoughtAt(end) =>
              && end == p && LineInBuffer(available, p) && RequestLineText(available[..p])
              && CutLine(stream, REQUEST_LINE_LIMIT) == Line(available[..p], stream[p + 2..])
            case SoughtError(error) => error == BadRequest && CutHead(stream) == HeadBad
            case _ => false
  {
    hide CutLine, CleanEndings, NoCrlf, CutSection, RequestLineText;
    CutFromFoundLine(stream, available, REQUEST_LINE_LIMIT, p);
    var ok := ValidateLineEndings(available[..p + 2]);
    if !ok {
      return SoughtError(BadRequest);
    }
    assert stream[..p] == available[..p];
    var plain := ValidateRequestLinePrefix(available[..p]);
    return if plain then SoughtAt(p) else SoughtError(BadRequest);
  }

  method SeekSectionEnd(connection: Connection, p: nat) returns (r: Sought)
    requires connection.Valid() && connection.start == 0 && LineInBuffer(connection.Unread(), p)
    modifies connection, connection.buffer, connection.io
    ensures connection.Valid() && connection.start == 0 && LineInBuffer(connection.Unread(), p)
    ensures connection.Stream() == old(connection.Stream())
    ensures connection.Unread()[..p] == old(connection.Unread())[..p]
    ensures var rest := connection.Stream()[p + 2..];
            match r
            case SoughtCancelled => true
            case SoughtNone => false
            case SoughtAt(end) =>
              && p + 2 + end <= |connection.Unread()| <= p + 2 + end + REQUEST_LINE_LIMIT
              && forall line :: CutSection(line, rest) == HeadAt(line, rest[..end], rest[end..])
            case SoughtError(_) => forall line :: Refuses(CutSection(line, rest), connection.io.fails, r)
  {
    ghost var stream := connection.Stream();
    ghost var rest := stream[p + 2..];
    while true
      invariant connection.Valid() && connection.start == 0 && LineInBuffer(connection.Unread(), p)
      invariant connection.Stream() == stream
      invariant connection.Unread()[..p] == old(connection.Unread())[..p]
      decreases |connection.io.incoming|
    {
      hide CutSection, CleanEndings, SectionEnd, IsSectionEnd, NoSectionEnd, FirstCrlf;
      var available := connection.buffer[connection.start..connection.end];
      var section := available[p + 2..];
      assert available <= stream && section <= rest;
      SectionEndFacts(section);
      var found := SectionEnd(section);
      if found.Some? {
        r := JudgeSection(section, found.value, rest, connection.io.fails);
        return;
      }
      var ok := ValidateLineEndings(section);
      if !ok {
        forall line ensures CutSection(line, rest) == HeadBad { CutSectionBad(line, rest, section); }
        return SoughtError(BadRequest);
      }
      if |section| >= HEADER_SECTION_LIMIT {
        forall line ensures CutSection(line, rest) == HeadLarge { CutSectionFull(line, rest, section); }
        return SoughtError(HeadersTooLarge);
      }
      var more := connection.ReadMoreUntil(p + 2 + HEADER_SECTION_LIMIT);
      if more.ReadCancelled? {
        return SoughtCancelled;
      }
      if !more.ReadSome? {
        assert stream == available && rest == section;
        forall line ensures CutSection(line, rest) == HeadUnfinished { CutSectionWhole(line, rest); }
        return SoughtError(Incomplete);
      }
      GrownBuffer(available, connection.Unread(), p);
    }
  }

  lemma {:induction false} GrownBuffer(before: string, after: string, p: nat)
    requires LineInBuffer(before, p) && before <= after && |after| <= |before| + REQUEST_LINE_LIMIT
    requires |after| <= p + 2 + HEADER_SECTION_LIMIT && NoSectionEnd(before[p + 2..])
    ensures LineInBuffer(after, p) && after[..p] == before[..p]
  {
    ReadKeepsSurplus(before[p + 2..], after[p + 2..]);
    forall i | 0 <= i < p ensures !CrlfAt(after, i) {
      assert !CrlfAt(before, i);
    }
  }

  method JudgeSection(section: string, end: nat, ghost rest: string, ghost fails: bool) returns (r: Sought)
    requires section <= rest && |section| <= HEADER_SECTION_LIMIT
    requires SurplusBounded(section) && IsSectionEnd(section, end)
    ensures match r
            case SoughtAt(e) =>
              && e == end <= |section| <= end + REQUEST_LINE_LIMIT
              && forall line :: CutSection(line, rest) == HeadAt(line, rest[..end], rest[end..])
            case SoughtError(_) => forall line :: Refuses(CutSection(line, rest), fails, r)
            case _ => false
  {
    hide CutSection, CleanEndings;
    forall line: string
      ensures end <= |section|
      ensures CutSection(line, rest) ==
              if CleanEndings(section[..end]) then HeadAt(line, rest[..end], rest[end..]) else HeadBad
    {
      CutSectionFound(line, rest, section, end);
    }
    CutSectionFound("", rest, section, end);
    SurplusAfterSection(section, end);
    var ok := ValidateLineEndings(section[..end]);
    return if ok then SoughtAt(end) else SoughtError(BadRequest);
  }

  /** One head, or why there is none: a function of the stream alone, whatever the reads and drops. */
  method ReadHead(connection: Connection, isAuthority: string -> bool) returns (r: HeadRead)
    requires connection.Valid() && HeadReadAhead(connection.Unread())
    modifies connection, connection.buffer, connection.io
    ensures connection.Valid()
    ensures match r
            case HeadParsed(head) =>
              && CutHead(old(connection.Stream())).HeadAt?
              && var cut := CutHead(old(connection.Stream()));
                 && ParseHead(cut.line, cut.section, isAuthority) == Ok(head)
                 && connection.Stream() == cut.rest
                 && |connection.Unread()| <= REQUEST_LINE_LIMIT
            case NoMoreRequests => CutHead(old(connection.Stream())).NoHead? && !connection.io.fails
            case HeadError(error) =>
              var cut := CutHead(old(connection.Stream()));
              if cut.HeadAt? then ParseHead(cut.line, cut.section, isAuthority) == Err(error)
              else Refuses(cut, connection.io.fails, SoughtError(error))
            case HeadCancelled =>
              connection.Stream() == old(connection.Stream()) && HeadReadAhead(connection.Unread())
  {
    hide CutSection, ParseHead, HeadReadAhead, LineInBuffer, FirstCrlf, RequestLineText;
    connection.Compact();
    ghost var stream := connection.Stream();
    var line := SeekRequestLine(connection);
    match line {
      case SoughtNone => return NoMoreRequests;
      case SoughtError(error) => return HeadError(error);
      case SoughtCancelled => return HeadCancelled;
      case SoughtAt(p) =>
        LineBounds(connection.Unread(), p);
        var text := connection.buffer[..p];
        assert text == connection.Unread()[..p];
        r := FinishHead(connection, p, text, isAuthority);
    }
  }

  lemma {:induction false} LineBounds(unread: string, p: nat)
    requires LineInBuffer(unread, p)
    ensures p + 2 <= |unread|
  {
  }

  method FinishHead(connection: Connection, p: nat, text: string, isAuthority: string -> bool) returns (r: HeadRead)
    requires connection.Valid() && connection.start == 0 && LineInBuffer(connection.Unread(), p)
    requires text == connection.Unread()[..p] && RequestLineText(text)
    requires CutLine(connection.Stream(), REQUEST_LINE_LIMIT) == Line(text, connection.Stream()[p + 2..])
    modifies connection, connection.buffer, connection.io
    ensures connection.Valid()
    ensures match r
            case HeadParsed(head) =>
              && CutHead(old(connection.Stream())).HeadAt?
              && var cut := CutHead(old(connection.Stream()));
                 && ParseHead(cut.line, cut.section, isAuthority) == Ok(head)
                 && connection.Stream() == cut.rest
                 && |connection.Unread()| <= REQUEST_LINE_LIMIT
            case NoMoreRequests => false
            case HeadError(error) =>
              var cut := CutHead(old(connection.Stream()));
              if cut.HeadAt? then ParseHead(cut.line, cut.section, isAuthority) == Err(error)
              else Refuses(cut, connection.io.fails, SoughtError(error))
            case HeadCancelled =>
              connection.Stream() == old(connection.Stream()) && HeadReadAhead(connection.Unread())
  {
    hide CutSection, ParseHead, RequestLineText, FirstCrlf, SurplusBounded;
    LineBounds(connection.Unread(), p);
    ghost var stream := connection.Stream();
    ghost var rest := stream[p + 2..];
    assert CutHead(stream) == CutSection(text + "\r\n", rest);
    var section := SeekSectionEnd(connection, p);
    if section.SoughtCancelled? {
      return HeadCancelled;
    }
    if section.SoughtError? {
      return HeadError(section.error);
    }
    var end := section.end;
    var available := connection.buffer[connection.start..connection.end];
    var fields := available[p + 2..p + 2 + end];
    WindowOfStream(available, connection.io.incoming, p + 2, end);
    var head := ParseHead(text + "\r\n", fields, isAuthority);
    if head.Err? {
      return HeadError(head.error);
    }
    connection.Consume(p + 2 + end);
    return HeadParsed(head.value);
  }
}
