/**
 Loopback authorities: the one text each has, and the two components' parsers of it.

 Parsing an IPv6 address is a library's; here it is the parameter `ipv6`, which says of a text whether
 it is an address and, if so, whether it is the loopback one.
 */
module LoopbackAuthorities {
  import opened HttpText
  import opened Numerals
  import opened Splitting

  datatype LoopbackHost = Localhost | Ipv4(octets: seq<nat>) | Ipv6Loopback

  datatype LoopbackAuthority = LoopbackAuthority(host: LoopbackHost, port: nat)

  type Ipv6Reader = string -> Option<bool>

  /** What the parsers need of the address library: it reads the one loopback text it prints. */
  predicate ReadsLoopback(ipv6: Ipv6Reader)
  {
    ipv6("::1") == Some(true)
  }

  predicate Octets(octets: seq<nat>)
  {
    |octets| == 4 && forall o :: o in octets ==> o < 256
  }

  predicate ValidAuthority(authority: LoopbackAuthority)
  {
    && 0 < authority.port < 65536
    && (authority.host.Ipv4? ==> Octets(authority.host.octets) && authority.host.octets[0] == 127)
  }

  predicate Ascii(s: string)
  {
    forall c :: c in s ==> c < 128 as char
  }

  predicate AsciiSpace(c: char)
  {
    c == ' ' || 9 as char <= c <= 13 as char
  }

  /** `input.trim() == input`, for ASCII input. */
  predicate Untrimmed(s: string)
  {
    s != "" ==> !AsciiSpace(s[0]) && !AsciiSpace(s[|s| - 1])
  }

  // ---- dotted quads ----

  predicate OctetText(part: string)
  {
    Canonical(part) && ValueOf(10, part) < 256
  }

  /** Four canonical numerals below 256, and nothing else. */
  function QuadOf(value: string): Option<seq<nat>>
  {
    var parts := Split(value, '.');
    if |parts| == 4 && OctetText(parts[0]) && OctetText(parts[1]) && OctetText(parts[2]) && OctetText(parts[3])
    then Some([ValueOf(10, parts[0]), ValueOf(10, parts[1]), ValueOf(10, parts[2]), ValueOf(10, parts[3])])
    else None
  }

  /** Fills an array of four octets part by part. */
  method ParseIpv4(value: string) returns (r: Option<seq<nat>>)
    ensures r == QuadOf(value)
  {
    hide Split, ValueOf;
    var octets := new nat[4](_ => 0);
    var parts := Split(value, '.');
    for i := 0 to 4
      invariant i <= |parts| && forall j :: 0 <= j < i ==> OctetText(parts[j]) && octets[j] == ValueOf(10, parts[j])
    {
      if i == |parts| {
        return None;
      }
      var part := parts[i];
      if part == "" || !Numeral(10, part) || (|part| > 1 && part[0] == '0') {
        return None;
      }
      if ValueOf(10, part) >= 256 {
        return None;
      }
      octets[i] := ValueOf(10, part);
    }
    if |parts| != 4 {
      return None;
    }
    assert octets[..] == [octets[0], octets[1], octets[2], octets[3]];
    return Some(octets[..]);
  }

  function QuadText(octets: seq<nat>): string
    requires |octets| == 4
  {
    Joined([Print(10, octets[0]), Print(10, octets[1]), Print(10, octets[2]), Print(10, octets[3])], '.')
  }

  lemma {:induction false} OctetPrints(octet: nat)
    requires octet < 256
    ensures OctetText(Print(10, octet)) && ValueOf(10, Print(10, octet)) == octet
    ensures '.' !in Print(10, octet)
  {
    PrintCanonical(octet);
    PrintValue(10, octet);
  }

  /** Printing then parsing any four octets is the identity. */
  lemma {:induction false} QuadRoundTrip(octets: seq<nat>)
    requires Octets(octets)
    ensures QuadOf(QuadText(octets)) == Some(octets)
  {
    hide OctetText, Joined, Split, Print, ValueOf;
    assert octets[0] in octets && octets[1] in octets && octets[2] in octets && octets[3] in octets;
    OctetPrints(octets[0]);
    OctetPrints(octets[1]);
    OctetPrints(octets[2]);
    OctetPrints(octets[3]);
    SplitJoined([Print(10, octets[0]), Print(10, octets[1]), Print(10, octets[2]), Print(10, octets[3])], '.');
    assert octets == [octets[0], octets[1], octets[2], octets[3]];
  }

  /** A dotted quad has one text: what is parsed is printed back as it was. */
  lemma {:induction false} QuadCanonical(value: string)
    requires QuadOf(value).Some?
    ensures Octets(QuadOf(value).value) && QuadText(QuadOf(value).value) == value
  {
    hide Joined, Split;
    var parts := Split(value, '.');
    JoinedSplit(value, '.');
    CanonicalPrints(parts[0]);
    CanonicalPrints(parts[1]);
    CanonicalPrints(parts[2]);
    CanonicalPrints(parts[3]);
    assert parts == [parts[0], parts[1], parts[2], parts[3]];
  }

  // ---- ports ----

  function PortOf(value: string): Option<nat>
  {
    if Numeral(10, value) && 0 < ValueOf(10, value) < 65536 then Some(ValueOf(10, value)) else None
  }

  lemma {:induction false} PortRoundTrip(port: nat)
    requires 0 < port < 65536
    ensures PortOf(Print(10, port)) == Some(port) && ':' !in Print(10, port)
  {
    PrintValue(10, port);
  }

  // ---- the last colon ----

  /** `rsplit_once`: the text before and after the last colon. */
  function BeforeLast(s: string): Option<string>
  {
    if s == "" then None
    else if s[|s| - 1] == ':' then Some(s[..|s| - 1])
    else BeforeLast(s[..|s| - 1])
  }

  function AfterLast(s: string): string
  {
    if s == "" || s[|s| - 1] == ':' then "" else AfterLast(s[..|s| - 1]) + [s[|s| - 1]]
  }

  lemma {:induction false} LastColon(host: string, port: string)
    requires ':' !in port
    ensures BeforeLast(host + ":" + port) == Some(host) && AfterLast(host + ":" + port) == port
    decreases |port|
  {
    var s := host + ":" + port;
    if port == "" {
      assert s[..|s| - 1] == host;
    } else {
      var init := port[..|port| - 1];
      LastColon(host, init);
      assert s[..|s| - 1] == host + ":" + init;
      assert init + [port[|port| - 1]] == port;
    }
  }

  // ---- the two parsers ----

  function Bracketed(host: string): Option<string>
  {
    if |host| >= 2 && host[0] == '[' && host[|host| - 1] == ']' then Some(host[1..|host| - 1]) else None
  }

  function HostText(host: LoopbackHost): string
    requires host.Ipv4? ==> |host.octets| == 4
  {
    match host
    case Localhost => "localhost"
    case Ipv4(octets) => QuadText(octets)
    case Ipv6Loopback => "[::1]"
  }

  /** `Display`, the same in both components. */
  function Text(authority: LoopbackAuthority): string
    requires authority.host.Ipv4? ==> |authority.host.octets| == 4
  {
    HostText(authority.host) + ":" + Print(10, authority.port)
  }

  /** The command line's parser: the quad check includes the leading 127. */
  function ParseForPolicy(input: string, ipv6: Ipv6Reader): Option<LoopbackAuthority>
  {
    if input == "" || !Ascii(input) || !Untrimmed(input) then None
    else
      match (BeforeLast(input), PortOf(AfterLast(input)))
      case (Some(host), Some(port)) =>
        if SameIgnoringCase(host, "localhost") then Some(LoopbackAuthority(Localhost, port))
        else if Bracketed(host).Some? then
          (if ipv6(Bracketed(host).value) == Some(true) then Some(LoopbackAuthority(Ipv6Loopback, port)) else None)
        else
          (match QuadOf(host)
           case Some(octets) => if octets[0] == 127 then Some(LoopbackAuthority(Ipv4(octets), port)) else None
           case None => None)
      case _ => None
  }

  datatype AuthorityError = InvalidHost | MissingPort | InvalidPort | NonLoopback

  datatype AuthorityResult = Authority(value: LoopbackAuthority) | Refused(error: AuthorityError)

  /** The proxy's parser, which tells its errors apart. */
  function ParseForProxy(input: string, ipv6: Ipv6Reader): AuthorityResult
  {
    if input == "" || !Ascii(input) || !Untrimmed(input) then Refused(InvalidHost)
    else
      match BeforeLast(input)
      case None => Refused(MissingPort)
      case Some(host) =>
        var port := AfterLast(input);
        if port == "" then Refused(MissingPort)
        else if PortOf(port).None? then Refused(InvalidPort)
        else if SameIgnoringCase(host, "localhost") then Authority(LoopbackAuthority(Localhost, PortOf(port).value))
        else if Bracketed(host).Some? then
          (match ipv6(Bracketed(host).value)
           case None => Refused(InvalidHost)
           case Some(loopback) =>
             if loopback then Authority(LoopbackAuthority(Ipv6Loopback, PortOf(port).value))
             else Refused(NonLoopback))
        else
          (match QuadOf(host)
           case None => Refused(InvalidHost)
           case Some(octets) =>
             if octets[0] != 127 then Refused(NonLoopback)
             else Authority(LoopbackAuthority(Ipv4(octets), PortOf(port).value)))
  }

  /** Both components read exactly the same authorities out of exactly the same texts. */
  lemma {:induction false} ParsersAgree(input: string, ipv6: Ipv6Reader)
    ensures ParseForPolicy(input, ipv6) ==
            match ParseForProxy(input, ipv6)
            case Authority(value) => Some(value)
            case Refused(_) => None
  {
    hide QuadOf, Numeral, SameIgnoringCase;
    assert PortOf("").None? by {
      assert !Numeral(10, "") by { EmptyIsNoNumeral(); }
    }
  }

  lemma {:induction false} EmptyIsNoNumeral()
    ensures !Numeral(10, "")
  {
  }

  lemma {:induction false} ParsedIsValid(input: string, ipv6: Ipv6Reader)
    requires ParseForPolicy(input, ipv6).Some?
    ensures ValidAuthority(ParseForPolicy(input, ipv6).value)
  {
    hide Split, Joined, SameIgnoringCase, Numeral;
    var host := BeforeLast(input).value;
    if QuadOf(host).Some? {
      QuadCanonical(host);
    }
  }

  // ---- printing and parsing ----

  predicate HostChar(c: char)
  {
    IsAlpha(c) || IsDigit(c) || c == '.' || c == ':' || c == '[' || c == ']'
  }

  lemma {:induction false} QuadChars(octets: seq<nat>)
    requires Octets(octets)
    ensures QuadText(octets) != "" && forall c :: c in QuadText(octets) ==> IsDigit(c) || c == '.'
  {
    hide Print;
    var a, b, c, d := Print(10, octets[0]), Print(10, octets[1]), Print(10, octets[2]), Print(10, octets[3]);
    JoinedFour(a, b, c, d, '.');
  }

  lemma {:induction false} JoinedFour(a: string, b: string, c: string, d: string, dot: char)
    ensures Joined([a, b, c, d], dot) == a + [dot] + (b + [dot] + (c + [dot] + d))
  {
    assert [a, b, c, d][1..] == [b, c, d] && [b, c, d][1..] == [c, d] && [c, d][1..] == [d];
    assert Joined([c, d], dot) == c + [dot] + d;
    assert Joined([b, c, d], dot) == b + [dot] + Joined([c, d], dot);
  }

  lemma {:induction false} HostChars(host: LoopbackHost)
    requires host.Ipv4? ==> Octets(host.octets)
    ensures HostText(host) != "" && forall c :: c in HostText(host) ==> HostChar(c)
  {
    if host.Ipv4? {
      QuadChars(host.octets);
    }
  }

  lemma {:induction false} TextIsPlain(authority: LoopbackAuthority)
    requires ValidAuthority(authority)
    ensures Text(authority) != "" && Ascii(Text(authority)) && Untrimmed(Text(authority))
    ensures forall c :: c in Text(authority) ==> c != '\n' && c != '\r'
  {
    hide QuadText, Print;
    HostChars(authority.host);
    var host, port := HostText(authority.host), Print(10, authority.port);
    assert forall c :: c in port ==> IsAlpha(c) || IsDigit(c);
    var text := host + ":" + port;
    assert forall c :: c in text ==> HostChar(c);
    assert text[0] in text && text[|text| - 1] in text;
  }

  lemma {:induction false} HostsDiffer(host: LoopbackHost, ipv6: Ipv6Reader)
    requires host.Ipv4? ==> Octets(host.octets)
    requires ReadsLoopback(ipv6)
    ensures SameIgnoringCase(HostText(host), "localhost") <==> host.Localhost?
    ensures Bracketed(HostText(host)).Some? <==> host.Ipv6Loopback?
    ensures host.Ipv6Loopback? ==> ipv6(Bracketed(HostText(host)).value) == Some(true)
    ensures host.Ipv4? ==> QuadOf(HostText(host)) == Some(host.octets)
  {
    hide QuadText, QuadOf;
    LowerAllIndex("localhost");
    if host.Ipv4? {
      QuadIsNoName(host.octets);
      QuadRoundTrip(host.octets);
    } else if host.Ipv6Loopback? {
      assert "[::1]"[1..4] == "::1";
      LowerAllIndex("[::1]");
    }
  }

  lemma {:induction false} QuadIsNoName(octets: seq<nat>)
    requires Octets(octets)
    ensures !SameIgnoringCase(QuadText(octets), "localhost") && Bracketed(QuadText(octets)).None?
  {
    hide QuadText;
    QuadChars(octets);
    var text := QuadText(octets);
    LowerAllIndex(text);
    LowerAllIndex("localhost");
    assert text[0] in text;
    assert LowerAll(text)[0] != 'l' && LowerAll("localhost")[0] == 'l';
  }

  /** Printing then parsing any loopback authority gives it back, in both components. */
  lemma {:induction false} TextRoundTrip(authority: LoopbackAuthority, ipv6: Ipv6Reader)
    requires ValidAuthority(authority) && ReadsLoopback(ipv6)
    ensures ParseForPolicy(Text(authority), ipv6) == Some(authority)
    ensures ParseForProxy(Text(authority), ipv6) == Authority(authority)
  {
    hide QuadOf, QuadText, SameIgnoringCase, Print, PortOf;
    TextIsPlain(authority);
    PortRoundTrip(authority.port);
    LastColon(HostText(authority.host), Print(10, authority.port));
    HostsDiffer(authority.host, ipv6);
    ParsersAgree(Text(authority), ipv6);
  }

  /** Normalizing is idempotent, whatever spelling came in. */
  lemma {:induction false} NormalizeAuthorityIdempotent(input: string, ipv6: Ipv6Reader)
    requires ReadsLoopback(ipv6)
    ensures var parsed := ParseForPolicy(input, ipv6);
            parsed.Some? ==> ValidAuthority(parsed.value) && ParseForPolicy(Text(parsed.value), ipv6) == parsed
  {
    hide ParseForPolicy, Text;
    if ParseForPolicy(input, ipv6).Some? {
      ParsedIsValid(input, ipv6);
      TextRoundTrip(ParseForPolicy(input, ipv6).value, ipv6);
    }
  }
}
