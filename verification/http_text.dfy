/**
 Octet strings and the lexical rules shared by both HTTP/1 parsers.

 An octet is a `char`, a message is a `string`: the parsers only compare octets with ASCII
 constants, so every octet from 0x80 upwards behaves alike.
 */
module HttpText {

  datatype Option<+T> = None | Some(value: T)

  function Min(a: nat, b: nat): (m: nat)
  {
    if a <= b then a else b
  }

  function Lower(c: char): char
  {
    if 'A' <= c <= 'Z' then (c as int + 32) as char else c
  }

  function LowerAll(s: string): string
  {
    if s == "" then "" else [Lower(s[0])] + LowerAll(s[1..])
  }

  lemma {:induction false} LowerAllIndex(s: string)
    ensures |LowerAll(s)| == |s|
    ensures forall i :: 0 <= i < |s| ==> LowerAll(s)[i] == Lower(s[i])
  {
    if s != "" {
      LowerAllIndex(s[1..]);
    }
  }

  lemma {:induction false} LowerFixed(s: string)
    requires forall c :: c in s ==> !('A' <= c <= 'Z')
    ensures LowerAll(s) == s
  {
    LowerAllIndex(s);
    forall i | 0 <= i < |s| ensures LowerAll(s)[i] == s[i] {
      assert s[i] in s;
    }
  }

  predicate SameIgnoringCase(a: string, b: string)
  {
    LowerAll(a) == LowerAll(b)
  }

  predicate IsDigit(c: char)
  {
    '0' <= c <= '9'
  }

  predicate IsAlpha(c: char)
  {
    'a' <= c <= 'z' || 'A' <= c <= 'Z'
  }

  predicate TokenChar(c: char)
  {
    IsAlpha(c) || IsDigit(c) ||
    c == '!' || c == '#' || c == '$' || c == '%' || c == '&' || c == '\'' || c == '*' || c == '+' ||
    c == '-' || c == '.' || c == '^' || c == '_' || c == '`' || c == '|' || c == '~'
  }

  predicate ValidToken(s: string)
  {
    s != "" && forall c :: c in s ==> TokenChar(c)
  }

  predicate IsOws(c: char)
  {
    c == ' ' || c == '\t'
  }

  predicate Control(c: char)
  {
    c < ' ' || c == 127 as char
  }

  /** The octets `HeaderValue` accepts. */
  predicate PlainValue(s: string)
  {
    forall c :: c in s ==> !Control(c) || c == '\t'
  }

  /** A field value after trimming: acceptable octets that `trim_ows` leaves alone. */
  predicate FieldContent(s: string)
  {
    PlainValue(s) && Trimmed(s)
  }

  // ---- trimming ----

  function TrimStart(s: string): string
  {
    if s != "" && IsOws(s[0]) then TrimStart(s[1..]) else s
  }

  function TrimEnd(s: string): string
  {
    if s != "" && IsOws(s[|s| - 1]) then TrimEnd(s[..|s| - 1]) else s
  }

  function TrimOws(s: string): string
  {
    TrimEnd(TrimStart(s))
  }

  predicate Trimmed(s: string)
  {
    s != "" ==> !IsOws(s[0]) && !IsOws(s[|s| - 1])
  }

  lemma {:induction false} TrimStartFacts(s: string)
    ensures var t := TrimStart(s);
            |t| <= |s| && (t != "" ==> !IsOws(t[0])) && forall c :: c in t ==> c in s
  {
    if s != "" && IsOws(s[0]) {
      TrimStartFacts(s[1..]);
    }
  }

  lemma {:induction false} TrimEndFacts(s: string)
    ensures var t := TrimEnd(s);
            |t| <= |s| && t == s[..|t|] && (t != "" ==> !IsOws(t[|t| - 1]))
  {
    if s != "" && IsOws(s[|s| - 1]) {
      TrimEndFacts(s[..|s| - 1]);
    }
  }

  /** Trimming only removes octets and leaves no optional whitespace at either end. */
  lemma {:induction false} TrimFacts(s: string)
    ensures var t := TrimOws(s);
            |t| <= |s| && Trimmed(t) && forall c :: c in t ==> c in s
  {
    TrimStartFacts(s);
    TrimEndFacts(TrimStart(s));
  }

  lemma {:induction false} TrimLeadingSpace(s: string)
    requires Trimmed(s)
    ensures TrimOws(" " + s) == s
  {
    assert (" " + s)[1..] == s;
    assert TrimStart(" " + s) == TrimStart(s) == s;
  }

  // ---- line endings ----

  predicate CrlfAt(s: string, i: int)
  {
    0 <= i && i + 1 < |s| && s[i] == '\r' && s[i + 1] == '\n'
  }

  predicate NoCrlf(s: string)
  {
    forall i :: 0 <= i < |s| ==> !CrlfAt(s, i)
  }

  /** Position of the first CRLF at or after `from`. */
  function FindCrlfFrom(s: string, from: nat): Option<nat>
    requires from <= |s|
    decreases |s| - from
  {
    if from == |s| then None
    else if CrlfAt(s, from) then Some(from)
    else FindCrlfFrom(s, from + 1)
  }

  function FindCrlf(s: string): Option<nat>
  {
    FindCrlfFrom(s, 0)
  }

  lemma {:induction false} FindCrlfFromFacts(s: string, from: nat)
    requires from <= |s|
    ensures var r := FindCrlfFrom(s, from);
            match r
            case None => forall i :: from <= i < |s| ==> !CrlfAt(s, i)
            case Some(p) => from <= p && CrlfAt(s, p) && forall i :: from <= i < p ==> !CrlfAt(s, i)
    decreases |s| - from
  {
    if from < |s| && !CrlfAt(s, from) {
      FindCrlfFromFacts(s, from + 1);
    }
  }

  predicate FirstCrlf(s: string, p: int)
  {
    CrlfAt(s, p) && forall i :: 0 <= i < p ==> !CrlfAt(s, i)
  }

  /** `FindCrlf` finds the first CRLF, and finds none exactly when there is none. */
  lemma {:induction false} FindCrlfFacts(s: string)
    ensures FindCrlf(s).None? <==> NoCrlf(s)
    ensures forall p: nat :: FindCrlf(s) == Some(p) <==> FirstCrlf(s, p)
  {
    FindCrlfFromFacts(s, 0);
  }

  predicate CleanAt(s: string, i: int)
    requires 0 <= i < |s|
  {
    && (s[i] == '\n' ==> i > 0 && s[i - 1] == '\r')
    && (s[i] == '\r' && i + 1 < |s| ==> s[i + 1] == '\n')
  }

  /** No bare LF and no CR followed by anything but LF; a CR may still end the string. */
  predicate CleanEndings(s: string)
  {
    forall i :: 0 <= i < |s| ==> CleanAt(s, i)
  }

  method ValidateLineEndings(bytes: string) returns (ok: bool)
    ensures ok <==> CleanEndings(bytes)
  {
    for index := 0 to |bytes|
      invariant forall i :: 0 <= i < index ==> CleanAt(bytes, i)
    {
      var byte := bytes[index];
      if byte == '\n' && (index == 0 || bytes[index - 1] != '\r') {
        assert !CleanAt(bytes, index);
        return false;
      }
      if byte == '\r' && index + 1 < |bytes| && bytes[index + 1] != '\n' {
        assert !CleanAt(bytes, index);
        return false;
      }
    }
    return true;
  }

  // ---- cutting one line off a stream ----

  datatype Cut = Line(text: string, rest: string) | BadEnding | TooLong | Unfinished

  function Window(s: string, limit: nat): string
  {
    if |s| <= limit then s else s[..limit]
  }

  /** The next CRLF-terminated line of at most `limit` octets, terminator included, of a whole
      stream. The verdict looks at the first `limit` octets only. */
  function CutLine(s: string, limit: nat): Cut
  {
    var window := Window(s, limit);
    match FindCrlf(window)
    case Some(p) =>
      if p + 2 <= |window| && CleanEndings(window[..p + 2]) then Line(s[..p], s[p + 2..]) else BadEnding
    case None =>
      if !CleanEndings(window) then BadEnding
      else if |s| >= limit then TooLong
      else Unfinished
  }

  lemma {:induction false} CutLineFacts(s: string, limit: nat)
    requires CutLine(s, limit).Line?
    ensures var text, rest := CutLine(s, limit).text, CutLine(s, limit).rest;
            && s == text + "\r\n" + rest
            && |text| + 2 <= limit
            && LineText(text)
  {
    var window := Window(s, limit);
    FindCrlfFacts(window);
    var p := FindCrlf(window).value;
    assert FirstCrlf(window, p);
    var text := s[..p];
    assert window[..p + 2] == text + "\r\n";
    assert s[..p + 2] == text + "\r\n";
    assert s == s[..p + 2] + s[p + 2..];
    forall i | 0 <= i < p ensures !CrlfAt(text, i) {
      assert !CrlfAt(window, i);
    }
  }

  lemma {:induction false} LineShorter(s: string, limit: nat)
    requires CutLine(s, limit).Line?
    ensures |CutLine(s, limit).rest| < |s| && |CutLine(s, limit).text| + 2 <= limit
  {
    hide CutLine;
    CutLineFacts(s, limit);
  }

  /** A line found in the octets read so far is the line of the stream, wherever reads split it. */
  lemma {:induction false} CutFromFoundLine(s: string, seen: string, limit: nat, p: nat)
    requires seen <= s && FirstCrlf(seen, p) && p + 2 <= limit
    ensures CutLine(s, limit) == if CleanEndings(seen[..p + 2]) then Line(s[..p], s[p + 2..]) else BadEnding
  {
    var window := Window(s, limit);
    assert CrlfAt(window, p);
    forall i | 0 <= i < p ensures !CrlfAt(window, i) {
      assert !CrlfAt(seen, i);
    }
    FindCrlfFacts(window);
    assert window[..p + 2] == seen[..p + 2];
  }

  lemma {:induction false} CutFromBadPrefix(s: string, seen: string, limit: nat)
    requires seen <= s && |seen| <= limit
    requires NoCrlf(seen) && !CleanEndings(seen)
    ensures CutLine(s, limit) == BadEnding
  {
    var window := Window(s, limit);
    assert seen <= window;
    var bad :| 0 <= bad < |seen| && !CleanAt(seen, bad);
    assert !CleanAt(window, bad);
    FindCrlfFacts(window);
    if FindCrlf(window).Some? {
      var p := FindCrlf(window).value;
      assert CrlfAt(window, p);
      assert p + 1 < |seen| ==> CrlfAt(seen, p);
      assert !CleanAt(window[..p + 2], bad);
    }
  }

  lemma {:induction false} CutFromFullPrefix(s: string, seen: string, limit: nat)
    requires seen <= s && |seen| == limit
    requires NoCrlf(seen) && CleanEndings(seen)
    ensures CutLine(s, limit) == TooLong
  {
    assert Window(s, limit) == seen;
    FindCrlfFacts(seen);
  }

  /** When more than `limit` octets were read at once, the line is refused either way. */
  lemma {:induction false} CutFromLongPrefix(s: string, seen: string, limit: nat)
    requires seen <= s && |seen| >= limit
    requires NoCrlf(seen[..limit])
    ensures CutLine(s, limit).BadEnding? || CutLine(s, limit).TooLong?
  {
    assert Window(s, limit) == seen[..limit];
    FindCrlfFacts(seen[..limit]);
  }

  lemma {:induction false} CutFromWholeStream(s: string, limit: nat)
    requires |s| < limit
    requires NoCrlf(s) && CleanEndings(s)
    ensures CutLine(s, limit) == Unfinished
  {
    FindCrlfFacts(s);
  }

  ghost predicate LineText(text: string)
  {
    NoCrlf(text) && CleanEndings(text + "\r\n")
  }

  /** A rendered line is cut back off exactly. */
  lemma {:induction false} CutRendered(text: string, rest: string, limit: nat)
    requires LineText(text) && |text| + 2 <= limit
    ensures CutLine(text + "\r\n" + rest, limit) == Line(text, rest)
  {
    var seen := text + "\r\n";
    var s := seen + rest;
    var p := |text|;
    assert seen[p] == '\r' && seen[p + 1] == '\n';
    forall i | 0 <= i < p ensures !CrlfAt(seen, i) {
      assert seen[i] == text[i];
      assert !CrlfAt(text, i);
    }
    assert seen[..p + 2] == seen;
    CutFromFoundLine(s, seen, limit, p);
    assert s[..p] == text && s[p + 2..] == rest;
  }

  /** A prefix of a stream either holds its first line whole or none of a line at all. */
  lemma {:induction false} CutOfPrefix(s: string, p: string, limit: nat)
    requires p <= s && CutLine(s, limit).Line?
    ensures var text := CutLine(s, limit).text;
            && |text| + 2 <= |s|
            && CutLine(s, limit).rest == s[|text| + 2..]
            && CutLine(p, limit) == if |text| + 2 <= |p| then Line(text, p[|text| + 2..]) else Unfinished
  {
    hide CutLine;
    CutLineFacts(s, limit);
    var text := CutLine(s, limit).text;
    var line := text + "\r\n";
    if |line| <= |p| {
      assert p == line + p[|line|..];
      CutRendered(text, p[|line|..], limit);
    } else {
      assert p == line[..|p|];
      PrefixOfLine(text, p);
      CutFromWholeStream(p, limit);
    }
  }

  lemma {:induction false} PrefixOfLine(text: string, p: string)
    requires LineText(text) && p <= text + "\r\n" && |p| < |text| + 2
    ensures NoCrlf(p) && CleanEndings(p)
  {
    var line := text + "\r\n";
    forall i | 0 <= i < |p| ensures !CrlfAt(p, i) && CleanAt(p, i) {
      assert CleanAt(line, i);
      assert i + 1 < |text| ==> !CrlfAt(text, i) && p[i] == text[i];
      assert i + 1 < |p| ==> p[i + 1] == line[i + 1];
    }
  }

  /** A rendered line that does not fit is told from its first `limit` octets. */
  lemma {:induction false} CutOverlong(text: string, rest: string, limit: nat)
    requires LineText(text) && limit < |text| + 2
    ensures CutLine(text + "\r\n" + rest, limit) == TooLong
  {
    var window := Window(text + "\r\n" + rest, limit);
    assert window <= text + "\r\n";
    PrefixOfLine(text, window);
    FindCrlfFacts(window);
  }

  predicate PlainText(text: string)
  {
    forall c :: c in text ==> c != '\r' && c != '\n'
  }

  /** Text without CR and LF satisfies both side conditions of a line. */
  lemma {:induction false} PlainTextIsALine(text: string)
    requires PlainText(text)
    ensures LineText(text)
  {
    forall i | 0 <= i < |text| ensures !CrlfAt(text, i) {
      assert text[i] in text;
    }
    var line := text + "\r\n";
    forall i | 0 <= i < |line| ensures CleanAt(line, i) {
      if i < |text| {
        assert line[i] == text[i] && text[i] in text;
      }
    }
  }

  lemma {:induction false} Assoc<T>(a: seq<T>, b: seq<T>, c: seq<T>)
    ensures a + b + c == a + (b + c)
  {
  }

  /** A window of what is buffered is a window of the whole stream. */
  lemma {:induction false} WindowOfStream(seen: string, later: string, from: nat, length: nat)
    requires from + length <= |seen|
    ensures seen[from..from + length] == (seen + later)[from..][..length]
    ensures (seen + later)[from + length..] == (seen + later)[from..][length..]
  {
  }
}
