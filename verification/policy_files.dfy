/**
 Policy files: what the command line writes and the proxy's strict loader reads back.
 */
module PolicyFiles {
  import opened HttpText
  import opened Splitting
  import opened LoopbackAuthorities

  // ---- trimming ----

  function StripStart(s: string, f: char -> bool): string
  {
    if s != "" && f(s[0]) then StripStart(s[1..], f) else s
  }

  function StripEnd(s: string, f: char -> bool): string
  {
    if s != "" && f(s[|s| - 1]) then StripEnd(s[..|s| - 1], f) else s
  }

  /** `trim_matches`. */
  function Strip(s: string, f: char -> bool): string
  {
    StripEnd(StripStart(s, f), f)
  }

  lemma {:induction false} StripNothing(s: string, f: char -> bool)
    requires s != "" ==> !f(s[0]) && !f(s[|s| - 1])
    ensures Strip(s, f) == s
  {
  }

  /** Unicode's White_Space, as `str::trim` uses it. */
  predicate Whitespace(c: char)
  {
    || AsciiSpace(c)
    || c as int == 0x85 || c as int == 0xA0 || c as int == 0x1680 || 0x2000 <= c as int <= 0x200A
    || c as int == 0x2028 || c as int == 0x2029 || c as int == 0x202F || c as int == 0x205F || c as int == 0x3000
  }

  function StripPrefix(s: string, prefix: string): string
  {
    if prefix <= s then s[|prefix|..] else s
  }

  function Bare(input: string): string
  {
    Strip(StripPrefix(Strip(input, Whitespace), "*."), (c: char) => c == '.')
  }

  // ---- domains ----

  predicate Alnum(c: char)
  {
    IsAlpha(c) || IsDigit(c)
  }

  predicate DomainChar(c: char)
  {
    Alnum(c) || c == '-' || c == '_' || c == '.'
  }

  predicate PolicyChar(c: char)
  {
    'a' <= c <= 'z' || IsDigit(c) || c == '-' || c == '_' || c == '.'
  }

  predicate NoEmptyLabel(s: string)
  {
    forall part :: part in Split(s, '.') ==> part != ""
  }

  /** The proxy's `valid_policy_domain`. */
  predicate ValidPolicyDomain(value: string)
  {
    && value != "" && Ascii(value) && NoEmptyLabel(value)
    && (forall c :: c in value ==> PolicyChar(c))
    && exists c :: c in value && Alnum(c)
  }

  /** The command line's `normalize_domain`; `None` is an error. */
  function NormalizeDomain(input: string): Option<string>
  {
    var value := Bare(input);
    var lower := LowerAll(value);
    if !Ascii(value) then None
    else if lower == "" || !NoEmptyLabel(lower) then None
    else if !(forall c :: c in lower ==> DomainChar(c)) then None
    else if !(exists c :: c in lower && Alnum(c)) then None
    else Some(lower)
  }

  lemma {:induction false} LoweredChars(s: string)
    requires Ascii(s)
    ensures Ascii(LowerAll(s))
    ensures (forall c :: c in LowerAll(s) ==> DomainChar(c)) ==> forall c :: c in LowerAll(s) ==> PolicyChar(c)
  {
    LowerAllIndex(s);
    forall c | c in LowerAll(s) ensures c < 128 as char && !('A' <= c <= 'Z') {
      var i :| 0 <= i < |s| && LowerAll(s)[i] == c;
      assert s[i] in s;
    }
  }

  /** Normalizing yields valid policy domains only, and leaves every valid policy domain alone: the
      two components agree on what a normal domain is. */
  lemma {:induction false} NormalizedIsValid(input: string)
    requires NormalizeDomain(input).Some?
    ensures ValidPolicyDomain(NormalizeDomain(input).value)
  {
    hide Bare, NoEmptyLabel, DomainChar, PolicyChar;
    LoweredChars(Bare(input));
  }

  lemma {:induction false} ValidIsNormal(value: string)
    requires ValidPolicyDomain(value)
    ensures NormalizeDomain(value) == Some(value)
  {
    hide NoEmptyLabel, Strip;
    LowerFixed(value);
    BareFixed(value);
    assert forall c :: c in value ==> DomainChar(c);
  }

  lemma {:induction false} BareFixed(value: string)
    requires ValidPolicyDomain(value)
    ensures Bare(value) == value
  {
    hide NoEmptyLabel, Strip;
    DelimiterAtAnEnd(value, '.');
    assert value[0] in value && value[|value| - 1] in value;
    NotEmptyLabelled(value);
    StripNothing(value, Whitespace);
    StripNothing(value, (c: char) => c == '.');
    assert PolicyChar(value[0]);
  }

  lemma {:induction false} NotEmptyLabelled(value: string)
    requires NoEmptyLabel(value)
    ensures "" !in Split(value, '.')
  {
  }

  lemma {:induction false} NormalizeIdempotent(input: string)
    requires NormalizeDomain(input).Some?
    ensures NormalizeDomain(NormalizeDomain(input).value) == NormalizeDomain(input)
  {
    hide NormalizeDomain, ValidPolicyDomain;
    NormalizedIsValid(input);
    ValidIsNormal(NormalizeDomain(input).value);
  }

  // ---- lists of entries ----

  ghost predicate DistinctList<T(!new)>(items: seq<T>)
  {
    forall i, j :: 0 <= i < j < |items| ==> items[i] != items[j]
  }

  /** First occurrences, in order. */
  function Dedup<T(==)>(items: seq<T>): seq<T>
  {
    if items == [] then []
    else
      var before := Dedup(items[..|items| - 1]);
      if items[|items| - 1] in before then before else before + [items[|items| - 1]]
  }

  /** `x` is met before `y` is. */
  ghost predicate MetBefore<T(!new)>(items: seq<T>, x: T, y: T)
  {
    exists p: nat :: p < |items| && items[p] == x && y !in items[..p + 1]
  }

  lemma {:induction false} MetBeforeSnoc<T(!new)>(items: seq<T>, last: T, x: T, y: T)
    ensures MetBefore(items, x, y) ==> MetBefore(items + [last], x, y)
    ensures x in items && y !in items && y == last ==> MetBefore(items + [last], x, y)
  {
    if MetBefore(items, x, y) {
      var p: nat :| p < |items| && items[p] == x && y !in items[..p + 1];
      assert (items + [last])[..p + 1] == items[..p + 1];
    }
    if x in items && y !in items {
      var p: nat :| p < |items| && items[p] == x;
      assert (items + [last])[p] == x && (items + [last])[..p + 1] == items[..p + 1];
    }
  }

  lemma {:induction false} DedupFacts<T(!new)>(items: seq<T>)
    ensures DistinctList(Dedup(items))
    ensures forall x :: x in Dedup(items) <==> x in items
    ensures DistinctList(items) ==> Dedup(items) == items
  {
    if items != [] {
      var init, last := items[..|items| - 1], items[|items| - 1];
      DedupFacts(init);
      assert items == init + [last];
      if DistinctList(items) {
        assert forall i, j :: 0 <= i < j < |init| ==> items[i] != items[j];
        assert DistinctList(init);
        assert last !in init;
      }
    }
  }

  /** Entries are kept in the order in which each is first met. */
  lemma {:induction false} DedupOrder<T(!new)>(items: seq<T>, i: nat, j: nat)
    requires i < j < |Dedup(items)|
    ensures MetBefore(items, Dedup(items)[i], Dedup(items)[j])
  {
    hide MetBefore;
    var init, last := items[..|items| - 1], items[|items| - 1];
    assert items == init + [last];
    var x, y := Dedup(items)[i], Dedup(items)[j];
    DedupFacts(init);
    assert x in Dedup(init);
    if j < |Dedup(init)| {
      DedupOrder(init, i, j);
    }
    MetBeforeSnoc(init, last, x, y);
  }

  /** `normalize_domains`: fails on the first bad entry, keeps first occurrences. */
  method NormalizeDomains(domains: seq<string>) returns (r: Option<seq<string>>)
    ensures r.Some? <==> forall d :: d in domains ==> NormalizeDomain(d).Some?
    ensures r.Some? ==>
              && |domains| == |NormalizedEach(domains)|
              && r.value == Dedup(NormalizedEach(domains))
    ensures r.Some? ==> forall i, j :: 0 <= i < j < |r.value| ==>
              MetBefore(NormalizedEach(domains), r.value[i], r.value[j])
  {
    hide NormalizeDomain, Dedup, NormalizedEach;
    var result := [];
    NothingNormalized();
    for i := 0 to |domains|
      invariant forall j :: 0 <= j < i ==> NormalizeDomain(domains[j]).Some?
      invariant result == Dedup(NormalizedEach(domains[..i]))
    {
      var value := NormalizeDomain(domains[i]);
      if value.None? {
        assert domains[i] in domains;
        return None;
      }
      NormalizedSnoc(domains[..i], domains[i]);
      assert domains[..i + 1] == domains[..i] + [domains[i]];
      DedupSnoc(NormalizedEach(domains[..i]), value.value);
      if value.value !in result {
        result := result + [value.value];
      }
    }
    assert domains[..|domains|] == domains;
    forall i: nat, j: nat | i < j < |result| ensures MetBefore(NormalizedEach(domains), result[i], result[j]) {
      DedupOrder(NormalizedEach(domains), i, j);
    }
    return Some(result);
  }

  lemma {:induction false} NothingNormalized()
    ensures Dedup(NormalizedEach([])) == []
  {
  }

  function NormalizedEach(domains: seq<string>): (r: seq<string>)
    ensures |r| == |domains|
  {
    seq(|domains|, i requires 0 <= i < |domains| =>
      if NormalizeDomain(domains[i]).Some? then NormalizeDomain(domains[i]).value else "")
  }

  lemma {:induction false} NormalizedSnoc(domains: seq<string>, d: string)
    requires NormalizeDomain(d).Some?
    ensures NormalizedEach(domains + [d]) == NormalizedEach(domains) + [NormalizeDomain(d).value]
  {
    hide NormalizeDomain;
  }

  lemma {:induction false} DedupSnoc<T>(items: seq<T>, last: T)
    ensures Dedup(items + [last]) == if last in Dedup(items) then Dedup(items) else Dedup(items) + [last]
  {
  }

  // ---- the files ----

  /** One entry a line, each line ended. */
  function LinesText(entries: seq<string>): string
  {
    if entries == [] then "" else LinesText(entries[..|entries| - 1]) + entries[|entries| - 1] + "\n"
  }

  predicate LineEntry(entry: string)
  {
    entry != "" && forall c :: c in entry ==> c != '\n' && c != '\r'
  }

  /** `strict_lines`: at most one final newline, and no empty body. */
  function StrictLines(contents: string): Option<seq<string>>
  {
    if contents == "" then Some([])
    else
      var body := if contents[|contents| - 1] == '\n' then contents[..|contents| - 1] else contents;
      if body == "" then None else Some(Split(body, '\n'))
  }

  lemma {:induction false} LinesTextJoined(entries: seq<string>)
    requires entries != []
    ensures LinesText(entries) == Joined(entries, '\n') + "\n"
  {
    var init, last := entries[..|entries| - 1], entries[|entries| - 1];
    assert entries == init + [last];
    if init != [] {
      LinesTextJoined(init);
      JoinedSnoc(init, last, '\n');
    }
  }

  /** What was written line by line is read back line by line. */
  lemma {:induction false} StrictLinesRoundTrip(entries: seq<string>)
    requires forall e :: e in entries ==> LineEntry(e)
    ensures StrictLines(LinesText(entries)) == Some(entries)
  {
    hide LinesText, Split, Joined;
    if entries == [] {
      NoLines();
    } else {
      LinesTextJoined(entries);
      assert entries[0] in entries;
      assert forall e :: e in entries ==> '\n' !in e;
      SplitJoined(entries, '\n');
      JoinedStartsWith(entries, '\n');
      var text := LinesText(entries);
      assert text[..|text| - 1] == Joined(entries, '\n');
    }
  }

  lemma {:induction false} NoLines()
    ensures LinesText([]) == ""
  {
  }

  lemma {:induction false} JoinedStartsWith(parts: seq<string>, d: char)
    requires parts != []
    ensures parts[0] <= Joined(parts, d)
  {
  }

  // ---- the public layer ----

  /** A domain pattern, or an address that is matched whole. */
  datatype PolicyEntry = DomainEntry(domain: string) | AddressEntry(octets: seq<nat>)

  /** `DomainPattern::from_str` of a value that is not an address. */
  function PatternOf(value: string): Option<string>
  {
    var lower := LowerAll(Bare(value));
    if ValidPolicyDomain(lower) then Some(lower) else None
  }

  function EntryOf(value: string): Option<PolicyEntry>
  {
    if !ValidPolicyDomain(value) then None
    else if QuadOf(value).Some? then Some(AddressEntry(QuadOf(value).value))
    else match PatternOf(value)
         case Some(domain) => Some(DomainEntry(domain))
         case None => None
  }

  function EntryText(entry: PolicyEntry): string
    requires entry.AddressEntry? ==> |entry.octets| == 4
  {
    match entry
    case DomainEntry(domain) => domain
    case AddressEntry(octets) => QuadText(octets)
  }

  /** A normal domain is an entry that stands for exactly that text. */
  lemma {:induction false} EntryOfValid(value: string)
    requires ValidPolicyDomain(value)
    ensures EntryOf(value).Some?
    ensures EntryOf(value).value.AddressEntry? ==> Octets(EntryOf(value).value.octets)
    ensures EntryText(EntryOf(value).value) == value
  {
    hide ValidPolicyDomain, QuadOf, QuadText, Bare;
    if QuadOf(value).Some? {
      QuadCanonical(value);
    } else {
      BareFixed(value);
      ValidChars(value);
      LowerFixed(value);
    }
  }

  lemma {:induction false} ValidChars(value: string)
    requires ValidPolicyDomain(value)
    ensures LineEntry(value) && forall c :: c in value ==> PolicyChar(c)
  {
  }

  /** `parse_domain_layer`: the set of entries, or an error if any line is not one. */
  function ParseDomainLayer(contents: string): Option<set<PolicyEntry>>
  {
    match StrictLines(contents)
    case None => None
    case Some(lines) =>
      if forall l :: l in lines ==> EntryOf(l).Some? then Some(set l | l in lines :: EntryOf(l).value)
      else None
  }

  function EntryTexts(entries: set<PolicyEntry>): set<string>
    requires forall e :: e in entries && e.AddressEntry? ==> |e.octets| == 4
  {
    set e | e in entries :: EntryText(e)
  }

  /** Every public policy file the command line writes is accepted by the strict loader, and yields
      exactly the written set. */
  lemma {:induction false} WrittenDomainsAccepted(domains: seq<string>)
    requires forall d :: d in domains ==> ValidPolicyDomain(d)
    ensures ParseDomainLayer(LinesText(domains)).Some?
    ensures var entries := ParseDomainLayer(LinesText(domains)).value;
            && (forall e :: e in entries && e.AddressEntry? ==> |e.octets| == 4)
            && EntryTexts(entries) == set d | d in domains
            && |entries| == |set d | d in domains|
  {
    hide ValidPolicyDomain, LinesText, StrictLines, EntryOf, EntryText;
    forall d | d in domains
      ensures LineEntry(d) && EntryOf(d).Some?
      ensures EntryOf(d).value.AddressEntry? ==> |EntryOf(d).value.octets| == 4
      ensures EntryText(EntryOf(d).value) == d
    {
      EntryOfValid(d);
      ValidChars(d);
    }
    StrictLinesRoundTrip(domains);
    var entries := ParseDomainLayer(LinesText(domains)).value;
    var texts := set d | d in domains;
    forall t ensures t in EntryTexts(entries) <==> t in texts {
      if t in texts {
        assert EntryOf(t).value in entries;
      }
    }
    SameSize(texts, entries);
  }

  lemma {:induction false} SameSize(texts: set<string>, entries: set<PolicyEntry>)
    requires forall t :: t in texts ==> EntryOf(t).Some? && EntryOf(t).value in entries
    requires forall e :: e in entries ==> exists t :: t in texts && EntryOf(t).value == e
    requires forall t :: t in texts ==>
               (EntryOf(t).value.AddressEntry? ==> |EntryOf(t).value.octets| == 4) && EntryText(EntryOf(t).value) == t
    ensures |entries| == |texts|
    decreases texts
  {
    hide EntryOf, EntryText;
    if texts == {} {
      assert entries == {};
    } else {
      var t :| t in texts;
      var e := EntryOf(t).value;
      assert EntryText(e) == t;
      forall u | u in texts - {t} ensures EntryOf(u).value in entries - {e} {
        assert EntryText(EntryOf(u).value) == u;
      }
      SameSize(texts - {t}, entries - {e});
    }
  }

  // ---- reading back on the command line ----

  function WithoutCr(line: string): string
  {
    if line != "" && line[|line| - 1] == '\r' then line[..|line| - 1] else line
  }

  /** `str::lines`. */
  function Lines(s: string): seq<string>
  {
    var parts := Split(s, '\n');
    var ended := parts[..|parts| - 1];
    seq(|ended|, i requires 0 <= i < |ended| => WithoutCr(ended[i])) +
    if parts[|parts| - 1] == "" then [] else [parts[|parts| - 1]]
  }

  lemma {:induction false} LinesRoundTrip(entries: seq<string>)
    requires forall e :: e in entries ==> LineEntry(e)
    ensures Lines(LinesText(entries)) == entries
  {
    hide LinesText;
    if entries == [] {
      NoLines();
      assert Split("", '\n') == [""];
    } else {
      LinesTextJoined(entries);
      assert forall e :: e in entries ==> '\n' !in e;
      SplitJoined(entries, '\n');
      var text := Joined(entries, '\n');
      assert text + "\n" == text + "\n" + "";
      SplitAround(text, '\n', "");
      assert Split("", '\n') == [""];
      var parts := Split(LinesText(entries), '\n');
      assert parts[..|parts| - 1] == entries;
      forall i | 0 <= i < |entries| ensures WithoutCr(entries[i]) == entries[i] {
        assert entries[i] in entries;
        assert entries[i][|entries[i]| - 1] in entries[i];
      }
    }
  }

  /** The command line reads its own files back as the lists it wrote. */
  lemma {:induction false} WrittenDomainsReadBack(domains: seq<string>)
    requires DistinctList(domains) && forall d :: d in domains ==> ValidPolicyDomain(d)
    ensures forall l :: l in Lines(LinesText(domains)) ==> NormalizeDomain(l).Some?
    ensures Dedup(NormalizedEach(Lines(LinesText(domains)))) == domains
  {
    hide ValidPolicyDomain, LinesText, Lines, NormalizeDomain;
    forall d | d in domains ensures LineEntry(d) && NormalizeDomain(d) == Some(d) {
      ValidChars(d);
      ValidIsNormal(d);
    }
    LinesRoundTrip(domains);
    assert NormalizedEach(domains) == domains;
    DedupFacts(domains);
  }

  // ---- the local layer ----

  function AuthorityTexts(authorities: seq<LoopbackAuthority>): (r: seq<string>)
    requires forall a :: a in authorities ==> ValidAuthority(a)
    ensures |r| == |authorities|
  {
    seq(|authorities|, i requires 0 <= i < |authorities| && ValidAuthority(authorities[i]) => Text(authorities[i]))
  }

  /** A line of the local layer: an authority in its canonical text. */
  function LocalEntry(line: string, ipv6: Ipv6Reader): Option<LoopbackAuthority>
  {
    match ParseForProxy(line, ipv6)
    case Refused(_) => None
    case Authority(authority) =>
      ParsersAgree(line, ipv6);
      ParsedIsValid(line, ipv6);
      if Text(authority) == line then Some(authority) else None
  }

  function ParseLocalLayer(contents: string, ipv6: Ipv6Reader): Option<set<LoopbackAuthority>>
  {
    match StrictLines(contents)
    case None => None
    case Some(lines) =>
      if forall l :: l in lines ==> LocalEntry(l, ipv6).Some? then Some(set l | l in lines :: LocalEntry(l, ipv6).value)
      else None
  }

  /** Every loopback file the command line writes is accepted by the strict loader, and yields exactly
      the written authorities. */
  lemma {:induction false} WrittenAuthoritiesAccepted(authorities: seq<LoopbackAuthority>, ipv6: Ipv6Reader)
    requires ReadsLoopback(ipv6) && forall a :: a in authorities ==> ValidAuthority(a)
    ensures ParseLocalLayer(LinesText(AuthorityTexts(authorities)), ipv6) == Some(set a | a in authorities)
  {
    hide LinesText, StrictLines, Text, ParseForProxy, LocalEntry;
    var lines := AuthorityTexts(authorities);
    forall i | 0 <= i < |lines| ensures LineEntry(lines[i]) && LocalEntry(lines[i], ipv6) == Some(authorities[i]) {
      assert authorities[i] in authorities;
      TextIsPlain(authorities[i]);
      CanonicalEntry(authorities[i], ipv6);
    }
    StrictLinesRoundTrip(lines);
    var read := set l | l in lines :: LocalEntry(l, ipv6).value;
    forall a ensures a in read <==> a in authorities {
      if a in authorities {
        var i :| 0 <= i < |authorities| && authorities[i] == a;
        assert lines[i] in lines;
      }
    }
    assert read == set a | a in authorities;
  }

  lemma {:induction false} CanonicalEntry(authority: LoopbackAuthority, ipv6: Ipv6Reader)
    requires ReadsLoopback(ipv6) && ValidAuthority(authority)
    ensures LocalEntry(Text(authority), ipv6) == Some(authority)
  {
    hide Text, ParseForProxy;
    TextRoundTrip(authority, ipv6);
  }
}
