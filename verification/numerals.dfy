/**
 Unsigned 64-bit numerals: the checked folds that read them and the digit strings that print them.
 */
module Numerals {
  import opened HttpText

  const U64_END: nat := 0x1_0000_0000_0000_0000

  function HexValue(c: char): (v: Option<nat>)
    ensures v.Some? ==> v.value < 16
  {
    if '0' <= c <= '9' then Some(c as int - '0' as int)
    else if 'a' <= c <= 'f' then Some(c as int - 'a' as int + 10)
    else if 'A' <= c <= 'F' then Some(c as int - 'A' as int + 10)
    else None
  }

  predicate IsHexDigit(c: char)
  {
    HexValue(c).Some?
  }

  predicate Numeral(base: nat, s: string)
  {
    s != "" && forall c :: c in s ==> HexValue(c).Some? && HexValue(c).value < base
  }

  /** The value of a numeral in unbounded arithmetic. */
  function ValueOf(base: nat, s: string): nat
    requires s == "" || Numeral(base, s)
  {
    if s == "" then 0
    else
      assert s[|s| - 1] in s;
      ValueOf(base, s[..|s| - 1]) * base + HexValue(s[|s| - 1]).value
  }

  /** `checked_mul` then `checked_add` on u64. */
  function CheckedStep(base: nat, c: char, value: nat): (r: Option<nat>)
    requires HexValue(c).Some?
    ensures r.Some? ==> r.value < U64_END
  {
    var product := value * base;
    if product >= U64_END then None
    else
      var sum := product + HexValue(c).value;
      if sum >= U64_END then None else Some(sum)
  }

  /** The checked steps, digit by digit. */
  function CheckedFold(base: nat, s: string, value: nat): (r: Option<nat>)
    requires s == "" || Numeral(base, s)
    ensures r.Some? && value < U64_END ==> r.value < U64_END
  {
    if s == "" then Some(value)
    else
      assert s[0] in s;
      match CheckedStep(base, s[0], value)
      case None => None
      case Some(next) => CheckedFold(base, s[1..], next)
  }

  function ReadU64(base: nat, s: string): (r: Option<nat>)
    requires Numeral(base, s)
  {
    CheckedFold(base, s, 0)
  }

  lemma {:induction false} FoldSnoc(base: nat, s: string, c: char, value: nat)
    requires s == "" || Numeral(base, s)
    requires HexValue(c).Some? && HexValue(c).value < base
    ensures Numeral(base, s + [c])
    ensures CheckedFold(base, s + [c], value) ==
            match CheckedFold(base, s, value)
            case None => None
            case Some(v) => CheckedFold(base, [c], v)
    decreases |s|
  {
    hide CheckedStep;
    var t := s + [c];
    if s == "" {
      assert t == [c];
    } else {
      assert s[0] in s && t[0] == s[0];
      assert t[1..] == s[1..] + [c];
      var first := CheckedStep(base, s[0], value);
      if first.Some? {
        FoldSnoc(base, s[1..], c, first.value);
      }
    }
  }

  lemma {:induction false} ValueSnoc(base: nat, s: string, c: char)
    requires s == "" || Numeral(base, s)
    requires HexValue(c).Some? && HexValue(c).value < base
    ensures Numeral(base, s + [c])
    ensures ValueOf(base, s + [c]) == ValueOf(base, s) * base + HexValue(c).value
  {
  }

  /** A numeral is accepted exactly when its unbounded value fits 64 bits, and read as that value. */
  lemma {:induction false} ReadU64Exact(base: nat, s: string)
    requires base > 0 && (s == "" || Numeral(base, s))
    ensures CheckedFold(base, s, 0) == if ValueOf(base, s) < U64_END then Some(ValueOf(base, s)) else None
    decreases |s|
  {
    hide CheckedFold, ValueOf;
    if s == "" {
      ReadNothing(base);
    } else {
      var init, c := s[..|s| - 1], s[|s| - 1];
      assert c in s && s == init + [c];
      ReadU64Exact(base, init);
      FoldSnoc(base, init, c, 0);
      ValueSnoc(base, init, c);
      ReadOneMore(base, c, ValueOf(base, init), ValueOf(base, s));
    }
  }

  lemma {:induction false} ReadNothing(base: nat)
    ensures CheckedFold(base, "", 0) == Some(0) && ValueOf(base, "") == 0
  {
  }

  lemma {:induction false} ReadOneMore(base: nat, c: char, before: nat, after: nat)
    requires base > 0 && HexValue(c).Some? && HexValue(c).value < base
    requires after == before * base + HexValue(c).value
    ensures Numeral(base, [c])
    ensures before < U64_END ==> CheckedFold(base, [c], before) == if after < U64_END then Some(after) else None
    ensures before >= U64_END ==> after >= U64_END
  {
  }

  // ---- printing ----

  function DigitChar(d: nat): (c: char)
    requires d < 16
    ensures HexValue(c) == Some(d)
    ensures d < 10 ==> IsDigit(c)
    ensures IsAlpha(c) || IsDigit(c)
  {
    if d < 10 then ('0' as int + d) as char else ('a' as int + d - 10) as char
  }

  /** The shortest numeral, as `{:x}` (base 16) and `to_string` (base 10) print it. */
  function Print(base: nat, n: nat): (s: string)
    requires 2 <= base <= 16
    ensures Numeral(base, s)
    ensures base == 10 ==> forall c :: c in s ==> IsDigit(c)
    ensures forall c :: c in s ==> IsAlpha(c) || IsDigit(c)
    decreases n
  {
    if n < base then [DigitChar(n)]
    else
      LeadingSmaller(base, n);
      Print(base, n / base) + [DigitChar(n % base)]
  }

  lemma {:induction false} LeadingSmaller(base: nat, n: nat)
    requires 2 <= base <= n
    ensures 0 <= n / base < n && 0 <= n % base < base
  {
  }

  lemma {:induction false} PrintValue(base: nat, n: nat)
    requires 2 <= base <= 16
    ensures ValueOf(base, Print(base, n)) == n
    decreases n
  {
    hide ValueOf, HexValue, DigitChar;
    if n < base {
      PrintDigit(base, n);
    } else {
      var q, r := n / base, n % base;
      DivideBack(n, base);
      PrintValue(base, q);
      ValueSnoc(base, Print(base, q), DigitChar(r));
    }
  }

  lemma {:induction false} PrintDigit(base: nat, n: nat)
    requires 2 <= base <= 16 && n < base
    ensures ValueOf(base, Print(base, n)) == n
  {
  }

  lemma {:induction false} DivideBack(n: nat, base: nat)
    requires base >= 2
    ensures n / base * base + n % base == n
    ensures 0 <= n % base < base
    ensures n > 0 ==> n / base < n
  {
  }

  /** Printing then reading any u64 is the identity. */
  lemma {:induction false} PrintThenRead(base: nat, n: nat)
    requires 2 <= base <= 16 && n < U64_END
    ensures ReadU64(base, Print(base, n)) == Some(n)
  {
    PrintValue(base, n);
    ReadU64Exact(base, Print(base, n));
  }

  function Power16(k: nat): nat
  {
    if k == 0 then 1 else 16 * Power16(k - 1)
  }

  lemma {:induction false} HexLength(n: nat, k: nat)
    requires k > 0 && n < Power16(k)
    ensures |Print(16, n)| <= k
    decreases k
  {
    assert Power16(1) == 16 * Power16(0);
    if n >= 16 {
      HexLength(n / 16, k - 1);
    }
  }

  /** A chunk size below 2^20 needs at most five hexadecimal digits. */
  lemma {:induction false} ShortHex(n: nat)
    requires n < 0x10_0000
    ensures |Print(16, n)| <= 5
  {
    assert Power16(5) == 16 * Power16(4) == 16 * 16 * Power16(3);
    assert Power16(3) == 16 * Power16(2) == 16 * 16 * Power16(1) == 0x1000;
    HexLength(n, 5);
  }

  // ---- canonical decimal numerals ----

  /** No superfluous leading zero. */
  predicate Canonical(s: string)
  {
    Numeral(10, s) && (|s| == 1 || s[0] != '0')
  }

  lemma {:induction false} PrintCanonical(n: nat)
    ensures Canonical(Print(10, n)) && (n > 0 ==> Print(10, n)[0] != '0')
    decreases n
  {
    if n >= 10 {
      DivideBack(n, 10);
      PrintCanonical(n / 10);
    }
  }

  /** A canonical numeral is what printing its value gives. */
  lemma {:induction false} CanonicalPrints(s: string)
    requires Canonical(s)
    ensures Print(10, ValueOf(10, s)) == s
    ensures |s| > 1 ==> ValueOf(10, s) >= 10
    decreases |s|
  {
    hide HexValue, Print, DigitChar;
    var init, c := s[..|s| - 1], s[|s| - 1];
    assert c in s && s == init + [c];
    if init == "" {
      PrintsOne(c);
      ValueSnoc(10, "", c);
      assert "" + [c] == [c] == s;
    } else {
      CanonicalPrints(init);
      if |init| == 1 {
        NonZeroDigit(init);
      }
      PrintsMore(ValueOf(10, init), c);
    }
  }

  lemma {:induction false} PrintsOne(c: char)
    requires HexValue(c).Some? && HexValue(c).value < 10
    ensures Print(10, HexValue(c).value) == [c] && ValueOf(10, "") == 0
  {
  }

  lemma {:induction false} PrintsMore(before: nat, c: char)
    requires before > 0 && HexValue(c).Some? && HexValue(c).value < 10
    ensures Print(10, before * 10 + HexValue(c).value) == Print(10, before) + [c]
  {
  }

  lemma {:induction false} NonZeroDigit(s: string)
    requires Numeral(10, s) && |s| == 1 && s[0] != '0'
    ensures ValueOf(10, s) >= 1
  {
  }

}
