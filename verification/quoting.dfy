/**
 Splitting a field at delimiters outside quoted strings (section 5.6.4 of RFC 9110).
 */
module Quoting {
  import opened HttpText
  import opened Splitting

  datatype Quote = Bare | Quoted | Escaped

  function Advance(q: Quote, c: char): Quote
  {
    match q
    case Escaped => Quoted
    case Quoted => if c == '\\' then Escaped else if c == '"' then Bare else Quoted
    case Bare => if c == '"' then Quoted else Bare
  }

  /** Quoting state after the first `i` octets. */
  function QuoteAt(s: string, i: nat): Quote
    requires i <= |s|
  {
    if i == 0 then Bare else Advance(QuoteAt(s, i - 1), s[i - 1])
  }

  predicate Delimits(s: string, i: nat, delimiter: char)
    requires i < |s|
  {
    s[i] == delimiter && QuoteAt(s, i) == Bare
  }

  function WithLast(pieces: seq<string>, c: char): (r: seq<string>)
    requires |pieces| > 0
    ensures |r| == |pieces|
  {
    pieces[..|pieces| - 1] + [pieces[|pieces| - 1] + [c]]
  }

  /** The pieces of the first `i` octets: an unquoted delimiter opens a new one. */
  function Pieces(s: string, delimiter: char, i: nat): (r: seq<string>)
    requires i <= |s|
    ensures |r| > 0
  {
    if i == 0 then [""]
    else
      var before := Pieces(s, delimiter, i - 1);
      if Delimits(s, i - 1, delimiter) then before + [""] else WithLast(before, s[i - 1])
  }

  function SplitQuoted(s: string, delimiter: char): (r: Option<seq<string>>)
    ensures r.Some? ==> |r.value| > 0
  {
    if QuoteAt(s, |s|) == Bare then Some(Pieces(s, delimiter, |s|)) else None
  }

  /** The single pass of the source: a start index, two flags, slices pushed at delimiters. */
  method SplitQuotedScan(value: string, delimiter: char) returns (r: Option<seq<string>>)
    requires delimiter != '"'
    ensures r == SplitQuoted(value, delimiter)
  {
    var fields: seq<string> := [];
    var start := 0;
    var quoted := false;
    var escaped := false;
    for index := 0 to |value|
      invariant 0 <= start <= index
      invariant escaped ==> quoted
      invariant QuoteAt(value, index) == if escaped then Escaped else if quoted then Quoted else Bare
      invariant fields + [value[start..index]] == Pieces(value, delimiter, index)
    {
      var byte := value[index];
      PiecesStep(value, delimiter, index, fields, start);
      if escaped {
        escaped := false;
      } else if quoted && byte == '\\' {
        escaped := true;
      } else if byte == '"' {
        quoted := !quoted;
      } else if byte == delimiter && !quoted {
        fields := fields + [value[start..index]];
        start := index + 1;
        assert value[start..index + 1] == "";
      }
    }
    if quoted || escaped {
      return None;
    }
    assert value[start..] == value[start..|value|];
    fields := fields + [value[start..]];
    return Some(fields);
  }

  lemma {:induction false} PiecesStep(value: string, delimiter: char, index: nat, fields: seq<string>, start: nat)
    requires start <= index < |value|
    requires fields + [value[start..index]] == Pieces(value, delimiter, index)
    ensures Pieces(value, delimiter, index + 1) ==
            if Delimits(value, index, delimiter) then fields + [value[start..index]] + [""]
            else fields + [value[start..index + 1]]
  {
    var before := Pieces(value, delimiter, index);
    assert before[..|before| - 1] == fields && before[|before| - 1] == value[start..index];
    assert value[start..index + 1] == value[start..index] + [value[index]];
  }

  lemma {:induction false} JoinedLonger(pieces: seq<string>, c: char, delimiter: char)
    requires pieces != []
    ensures Joined(WithLast(pieces, c), delimiter) == Joined(pieces, delimiter) + [c]
  {
    var init, last := pieces[..|pieces| - 1], pieces[|pieces| - 1];
    assert pieces == init + [last];
    if init == [] {
      assert WithLast(pieces, c) == [last + [c]];
    } else {
      JoinedSnoc(init, last, delimiter);
      JoinedSnoc(init, last + [c], delimiter);
    }
  }

  /** Joining the pieces with the delimiter restores the octets they were cut from. */
  lemma {:induction false} JoinRestores(s: string, delimiter: char, i: nat)
    requires i <= |s|
    ensures Joined(Pieces(s, delimiter, i), delimiter) == s[..i]
  {
    if i > 0 {
      JoinRestores(s, delimiter, i - 1);
      var before := Pieces(s, delimiter, i - 1);
      assert s[..i] == s[..i - 1] + [s[i - 1]];
      if Delimits(s, i - 1, delimiter) {
        JoinedSnoc(before, "", delimiter);
      } else {
        JoinedLonger(before, s[i - 1], delimiter);
      }
    }
  }

  /** A piece read by itself: no delimiter outside quotes. */
  predicate Undivided(piece: string, delimiter: char)
  {
    forall j :: 0 <= j < |piece| ==> !Delimits(piece, j, delimiter)
  }

  lemma {:induction false} QuotePrefix(s: string, t: string, i: nat)
    requires i <= |s| && s <= t
    ensures QuoteAt(s, i) == QuoteAt(t, i)
  {
    if i > 0 {
      QuotePrefix(s, t, i - 1);
    }
  }

  lemma {:induction false} UndividedExtend(piece: string, c: char, delimiter: char)
    requires Undivided(piece, delimiter)
    requires !(c == delimiter && QuoteAt(piece, |piece|) == Bare)
    ensures Undivided(piece + [c], delimiter)
    ensures QuoteAt(piece + [c], |piece| + 1) == Advance(QuoteAt(piece, |piece|), c)
  {
    forall j | 0 <= j <= |piece| ensures !Delimits(piece + [c], j, delimiter) {
      QuotePrefix(piece, piece + [c], j);
      if j < |piece| {
        assert !Delimits(piece, j, delimiter);
      }
    }
    QuotePrefix(piece, piece + [c], |piece|);
  }

  /** Each finished piece is balanced and undivided; the last one carries the quoting state on. */
  lemma {:induction false} PiecesUndivided(s: string, delimiter: char, i: nat)
    requires delimiter != '"' && delimiter != '\\' && i <= |s|
    ensures var r := Pieces(s, delimiter, i);
            && (forall k :: 0 <= k < |r| ==> Undivided(r[k], delimiter))
            && (forall k :: 0 <= k < |r| - 1 ==> QuoteAt(r[k], |r[k]|) == Bare)
            && QuoteAt(r[|r| - 1], |r[|r| - 1]|) == QuoteAt(s, i)
  {
    if i > 0 {
      PiecesUndivided(s, delimiter, i - 1);
      var before := Pieces(s, delimiter, i - 1);
      if !Delimits(s, i - 1, delimiter) {
        UndividedExtend(before[|before| - 1], s[i - 1], delimiter);
      }
    }
  }

  /** Main result on splitting: acceptance, restoration and indivisibility of the pieces. */
  lemma {:induction false} SplitQuotedMeaning(s: string, delimiter: char)
    requires delimiter != '"' && delimiter != '\\'
    ensures SplitQuoted(s, delimiter).Some? <==> QuoteAt(s, |s|) == Bare
    ensures SplitQuoted(s, delimiter).Some? ==>
              var pieces := SplitQuoted(s, delimiter).value;
              && Joined(pieces, delimiter) == s
              && forall k :: 0 <= k < |pieces| ==>
                               Undivided(pieces[k], delimiter) && QuoteAt(pieces[k], |pieces[k]|) == Bare
  {
    JoinRestores(s, delimiter, |s|);
    PiecesUndivided(s, delimiter, |s|);
    assert s[..|s|] == s;
  }

  lemma {:induction false} PlainIsOnePiece(s: string, delimiter: char, i: nat)
    requires i <= |s|
    requires forall c :: c in s ==> c != '"' && c != delimiter
    ensures QuoteAt(s, i) == Bare && Pieces(s, delimiter, i) == [s[..i]]
  {
    if i > 0 {
      PlainIsOnePiece(s, delimiter, i - 1);
      assert s[i - 1] in s;
      assert s[..i] == s[..i - 1] + [s[i - 1]];
    }
  }

  /** Text with neither quotes nor delimiters is a single field. */
  lemma {:induction false} SplitPlain(s: string, delimiter: char)
    requires forall c :: c in s ==> c != '"' && c != delimiter
    ensures SplitQuoted(s, delimiter) == Some([s])
  {
    PlainIsOnePiece(s, delimiter, |s|);
    assert s[..|s|] == s;
  }
}
