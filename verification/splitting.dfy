/**
 `split` on one octet and its inverse.
 */
module Splitting {

  /** `split` at every occurrence of one octet. */
  function Split(s: string, delimiter: char): (r: seq<string>)
    ensures |r| > 0
  {
    if s == "" then [""]
    else if s[0] == delimiter then [""] + Split(s[1..], delimiter)
    else
      var rest := Split(s[1..], delimiter);
      [[s[0]] + rest[0]] + rest[1..]
  }

  lemma {:induction false} SplitNone(a: string, d: char)
    requires d !in a
    ensures Split(a, d) == [a]
  {
    if a != "" {
      SplitNone(a[1..], d);
      assert [a[0]] + a[1..] == a;
    }
  }

  lemma {:induction false} SplitFirst(a: string, d: char, b: string)
    requires d !in a
    ensures Split(a + [d] + b, d) == [a] + Split(b, d)
  {
    var s := a + [d] + b;
    if a == "" {
      assert s[1..] == b;
    } else {
      SplitFirst(a[1..], d, b);
      assert s[1..] == a[1..] + [d] + b;
      assert [a[0]] + a[1..] == a;
    }
  }

  /** `join` with the delimiter between the parts. */
  function Joined(parts: seq<string>, delimiter: char): string
  {
    if parts == [] then ""
    else if |parts| == 1 then parts[0]
    else parts[0] + [delimiter] + Joined(parts[1..], delimiter)
  }

  /** Splitting a join gives the parts back. */
  lemma {:induction false} SplitJoined(parts: seq<string>, d: char)
    requires parts != [] && forall p :: p in parts ==> d !in p
    ensures Split(Joined(parts, d), d) == parts
    decreases |parts|
  {
    assert parts[0] in parts;
    if |parts| == 1 {
      SplitNone(parts[0], d);
      assert parts == [parts[0]];
    } else {
      SplitFirst(parts[0], d, Joined(parts[1..], d));
      SplitJoined(parts[1..], d);
    }
  }

  /** Joining a split gives the text back, and no part holds the delimiter. */
  lemma {:induction false} JoinedSplit(s: string, d: char)
    ensures Joined(Split(s, d), d) == s
    ensures forall p :: p in Split(s, d) ==> d !in p
  {
    if s != "" {
      var rest := Split(s[1..], d);
      JoinedSplit(s[1..], d);
      if s[0] == d {
        assert ([""] + rest)[1..] == rest;
      } else {
        var first := [s[0]] + rest[0];
        assert rest[0] in rest;
        assert ([first] + rest[1..])[1..] == rest[1..];
      }
    }
  }

  lemma {:induction false} JoinedSnoc(parts: seq<string>, last: string, d: char)
    requires parts != []
    ensures Joined(parts + [last], d) == Joined(parts, d) + [d] + last
    decreases |parts|
  {
    assert (parts + [last])[1..] == parts[1..] + [last];
    if |parts| == 1 {
      assert parts[1..] + [last] == [last];
    } else {
      JoinedSnoc(parts[1..], last, d);
    }
  }

  /** A delimiter splits the text into the parts before it and the parts after it. */
  lemma {:induction false} SplitAround(a: string, d: char, b: string)
    ensures Split(a + [d] + b, d) == Split(a, d) + Split(b, d)
  {
    var s := a + [d] + b;
    if a == "" {
      assert s[1..] == b;
    } else {
      SplitAround(a[1..], d, b);
      assert s[0] == a[0] && s[1..] == a[1..] + [d] + b;
      SplitStep(a[0], Split(a[1..], d), Split(b, d));
    }
  }

  lemma {:induction false} SplitStep(c: char, rest: seq<string>, more: seq<string>)
    requires rest != []
    ensures [""] + (rest + more) == [""] + rest + more
    ensures [[c] + (rest + more)[0]] + (rest + more)[1..] == [[c] + rest[0]] + rest[1..] + more
  {
  }

  lemma {:induction false} DelimiterAtAnEnd(s: string, d: char)
    requires s != ""
    ensures s[0] == d || s[|s| - 1] == d ==> "" in Split(s, d)
  {
    if s[0] == d {
      assert Split(s, d) == [""] + Split(s[1..], d);
    }
    if s[|s| - 1] == d {
      assert s == s[..|s| - 1] + [d] + "";
      SplitAround(s[..|s| - 1], d, "");
      assert Split("", d) == [""];
    }
  }
}
