/**
 Destination authorities: parsing, and the canonical text that names the same destination again.

 IPv6 addresses are numbers here; reading and printing them is a library's, given as a parameter with
 the two facts stated in `Faithful`.
 */
module TargetAuthorities {
  import opened HttpText
  import opened Numerals
  import opened Splitting
  import opened LoopbackAuthorities

  datatype Ipv6Library = Ipv6Library(parse: string -> Option<nat>, text: nat -> string, loopback: nat -> bool)

  predicate AddressChar(c: char)
  {
    IsHexDigit(c) || c == ':' || c == '.'
  }

  /** What is printed is read back, and is made of address characters only. */
  ghost predicate Faithful(ipv6: Ipv6Library)
  {
    && (forall a: nat :: ipv6.parse(ipv6.text(a)) == Some(a))
    && (forall a: nat, c: char :: c in ipv6.text(a) ==> AddressChar(c))
    && ipv6.parse("::1").Some? && ipv6.loopback(ipv6.parse("::1").value)
  }

  // ---- domain names ----

  predicate ValidLabel(part: string)
  {
    && part != "" && |part| <= 63
    && part[0] != '-' && part[|part| - 1] != '-'
    && forall c :: c in part ==> IsAlpha(c) || IsDigit(c) || c == '-'
  }

  predicate ValidDomain(value: string)
  {
    Ascii(value) && |value| <= 253 && forall part :: part in Split(value, '.') ==> ValidLabel(part)
  }

  function WithoutFinalDot(value: string): string
  {
    if value != "" && value[|value| - 1] == '.' then value[..|value| - 1] else value
  }

  /** `DomainName::from_str`, of text without whitespace. */
  function DomainNameOf(value: string): Option<string>
  {
    if value == "" then None
    else if ValidDomain(WithoutFinalDot(value)) then Some(LowerAll(WithoutFinalDot(value)))
    else None
  }

  // ---- authorities ----

  datatype PublicHost = Dns(name: string) | AddressV4(octets: seq<nat>) | AddressV6(address: nat)

  datatype ParsedHost = Local(host: LoopbackHost) | Public(destination: PublicHost)

  datatype ParsedAuthority = ParsedAuthority(host: ParsedHost, scope: Option<string>, port: nat, explicitPort: bool)

  predicate AuthorityOctet(c: char)
  {
    ' ' < c < 127 as char && c != '@' && c != '/' && c != '?' && c != '#'
  }

  function FirstIndex(s: string, c: char): Option<nat>
  {
    if s == "" then None
    else if s[0] == c then Some(0)
    else match FirstIndex(s[1..], c)
         case None => None
         case Some(i) => Some(i + 1)
  }

  lemma {:induction false} FirstIndexFacts(s: string, c: char)
    ensures FirstIndex(s, c).None? <==> c !in s
    ensures FirstIndex(s, c).Some? ==> FirstIndex(s, c).value < |s| && s[FirstIndex(s, c).value] == c
  {
    if s != "" && s[0] != c {
      FirstIndexFacts(s[1..], c);
      assert s == [s[0]] + s[1..];
    }
  }

  lemma {:induction false} FirstIndexAt(a: string, c: char, b: string)
    requires c !in a
    ensures FirstIndex(a + [c] + b, c) == Some(|a|)
  {
    if a != "" {
      FirstIndexAt(a[1..], c, b);
      assert (a + [c] + b)[1..] == a[1..] + [c] + b;
    }
  }

  /** Where the zone marker `%25` first stands. */
  function ZoneMark(s: string): Option<nat>
  {
    if |s| < 3 then None
    else if s[..3] == "%25" then Some(0)
    else match ZoneMark(s[1..])
         case None => None
         case Some(i) => Some(i + 1)
  }

  lemma {:induction false} ZoneMarkFacts(s: string)
    ensures ZoneMark(s).Some? ==> ZoneMark(s).value + 3 <= |s|
    ensures '%' !in s ==> ZoneMark(s).None?
  {
    if |s| >= 3 {
      ZoneMarkFacts(s[1..]);
      assert s[0] in s && forall c :: c in s[1..] ==> c in s;
    }
  }

  lemma {:induction false} ZoneMarkAt(address: string, zone: string)
    requires '%' !in address
    ensures ZoneMark(address + "%25" + zone) == Some(|address|)
  {
    var s := address + "%25" + zone;
    if address == "" {
      assert s[..3] == "%25";
    } else {
      ZoneMarkAt(address[1..], zone);
      assert s[1..] == address[1..] + "%25" + zone;
      assert s[0] == address[0] && address[0] in address;
    }
  }

  predicate ZoneChar(c: char)
  {
    IsAlpha(c) || IsDigit(c) || c == '-' || c == '.' || c == '_' || c == '~'
  }

  predicate ValidZone(zone: string)
  {
    zone != "" && forall c :: c in zone ==> ZoneChar(c)
  }

  datatype ScopedAddress = ScopedAddress(address: nat, scope: Option<string>)

  function ParseIpv6Host(host: string, ipv6: Ipv6Library): Option<ScopedAddress>
  {
    ZoneMarkFacts(host);
    match ZoneMark(host)
    case None =>
      (match ipv6.parse(host)
       case None => None
       case Some(address) => Some(ScopedAddress(address, None)))
    case Some(mark) =>
      var zone := host[mark + 3..];
      if !ValidZone(zone) then None
      else match ipv6.parse(host[..mark])
           case None => None
           case Some(address) => Some(ScopedAddress(address, Some(zone)))
  }

  datatype Port = Port(number: nat, given: bool)

  /** The port after a bracketed host. */
  function ParseAuthorityPort(suffix: string, defaultPort: Option<nat>, portRequired: bool): Option<Port>
  {
    if suffix != "" && suffix[0] == ':' then
      (match PortOf(suffix[1..])
       case None => None
       case Some(port) => Some(Port(port, true)))
    else if suffix == "" && !portRequired && defaultPort.Some? then Some(Port(defaultPort.value, false))
    else None
  }

  function ParseBracketed(value: string, defaultPort: Option<nat>, portRequired: bool, ipv6: Ipv6Library):
    Option<ParsedAuthority>
  {
    FirstIndexFacts(value, ']');
    match FirstIndex(value, ']')
    case None => None
    case Some(close) =>
      match (ParseAuthorityPort(value[close + 1..], defaultPort, portRequired), ParseIpv6Host(value[..close], ipv6))
      case (Some(port), Some(scoped)) =>
        var host := if scoped.scope.None? && ipv6.loopback(scoped.address) then Local(Ipv6Loopback)
                    else Public(AddressV6(scoped.address));
        Some(ParsedAuthority(host, scoped.scope, port.number, port.given))
      case _ => None
  }

  predicate DigitsAndDots(host: string)
  {
    forall c :: c in host ==> IsDigit(c) || c == '.'
  }

  function ParsePlainHost(host: string): Option<ParsedHost>
  {
    if host == "" then None
    else
      match QuadOf(host)
      case Some(octets) => Some(if octets[0] == 127 then Local(Ipv4(octets)) else Public(AddressV4(octets)))
      case None =>
        if DigitsAndDots(host) then None
        else match DomainNameOf(host)
             case None => None
             case Some(name) => Some(if name == "localhost" then Local(Localhost) else Public(Dns(name)))
  }

  function ParsePlain(value: string, defaultPort: Option<nat>, portRequired: bool): Option<ParsedAuthority>
  {
    var host := if BeforeLast(value).Some? then BeforeLast(value).value else value;
    if '[' in value || ']' in value || (BeforeLast(value).Some? && ':' in host) then None
    else
      var port := if BeforeLast(value).Some? then
                    (match PortOf(AfterLast(value))
                     case None => None
                     case Some(number) => Some(Port(number, true)))
                  else if !portRequired && defaultPort.Some? then Some(Port(defaultPort.value, false))
                  else None;
      match (port, ParsePlainHost(host))
      case (Some(p), Some(h)) => Some(ParsedAuthority(h, None, p.number, p.given))
      case _ => None
  }

  function ParseAuthority(value: string, defaultPort: Option<nat>, portRequired: bool, ipv6: Ipv6Library):
    Option<ParsedAuthority>
  {
    if value == "" || exists c :: c in value && !AuthorityOctet(c) then None
    else if value[0] == '[' then ParseBracketed(value[1..], defaultPort, portRequired, ipv6)
    else ParsePlain(value, defaultPort, portRequired)
  }

  // ---- the canonical text ----

  function PublicHostText(host: PublicHost, scope: Option<string>, ipv6: Ipv6Library): string
    requires host.AddressV4? ==> |host.octets| == 4
  {
    match host
    case Dns(name) => name
    case AddressV4(octets) => QuadText(octets)
    case AddressV6(address) =>
      "[" + (ipv6.text(address) + if scope.Some? then "%25" + scope.value else "") + "]"
  }

  function PortSuffix(port: nat, given: bool): string
  {
    if given then ":" + Print(10, port) else ""
  }

  /** `canonical_public_authority` of a parsed public authority. */
  function CanonicalText(parsed: ParsedAuthority, ipv6: Ipv6Library): string
    requires parsed.host.Public?
    requires parsed.host.destination.AddressV4? ==> |parsed.host.destination.octets| == 4
  {
    PublicHostText(parsed.host.destination, parsed.scope, ipv6) + PortSuffix(parsed.port, parsed.explicitPort)
  }

  // ---- what a parse guarantees ----

  predicate NormalName(name: string)
  {
    ValidDomain(name) && LowerAll(name) == name && !DigitsAndDots(name) && name != "localhost" && name != ""
  }

  predicate PortKept(parsed: ParsedAuthority, defaultPort: Option<nat>, portRequired: bool)
  {
    if parsed.explicitPort then 0 < parsed.port < 65536 else !portRequired && defaultPort == Some(parsed.port)
  }

  predicate HostKept(parsed: ParsedAuthority, ipv6: Ipv6Library)
  {
    match parsed.host
    case Local(host) => parsed.scope.None? && (host.Ipv4? ==> Octets(host.octets) && host.octets[0] == 127)
    case Public(Dns(name)) => parsed.scope.None? && NormalName(name)
    case Public(AddressV4(octets)) => parsed.scope.None? && Octets(octets) && octets[0] != 127
    case Public(AddressV6(address)) =>
      if parsed.scope.Some? then ValidZone(parsed.scope.value) else !ipv6.loopback(address)
  }

  lemma {:induction false} SplitLower(s: string, d: char)
    requires !IsAlpha(d)
    ensures |Split(LowerAll(s), d)| == |Split(s, d)|
    ensures forall i :: 0 <= i < |Split(s, d)| ==> Split(LowerAll(s), d)[i] == LowerAll(Split(s, d)[i])
  {
    if s != "" {
      SplitLower(s[1..], d);
      assert LowerAll(s)[1..] == LowerAll(s[1..]);
      assert Lower(s[0]) == d <==> s[0] == d;
      var rest := Split(s[1..], d);
      if s[0] != d {
        assert ([s[0]] + rest[0])[1..] == rest[0];
        assert LowerAll([s[0]] + rest[0]) == [Lower(s[0])] + LowerAll(rest[0]);
      }
    }
  }

  lemma {:induction false} LowerLabel(part: string)
    requires ValidLabel(part)
    ensures ValidLabel(LowerAll(part))
  {
    LowerAllIndex(part);
    var lower := LowerAll(part);
    forall c | c in lower ensures IsAlpha(c) || IsDigit(c) || c == '-' {
      var i :| 0 <= i < |lower| && lower[i] == c;
      assert part[i] in part;
    }
    assert part[0] in part && part[|part| - 1] in part;
  }

  lemma {:induction false} LowerDomain(value: string)
    requires ValidDomain(value)
    ensures ValidDomain(LowerAll(value))
  {
    hide ValidLabel;
    LowerAllIndex(value);
    SplitLower(value, '.');
    var lower := LowerAll(value);
    forall part | part in Split(lower, '.') ensures ValidLabel(part) {
      var i :| 0 <= i < |Split(lower, '.')| && Split(lower, '.')[i] == part;
      assert Split(value, '.')[i] in Split(value, '.');
      LowerLabel(Split(value, '.')[i]);
    }
    forall c | c in lower ensures c < 128 as char {
      var i :| 0 <= i < |lower| && lower[i] == c;
      assert value[i] in value;
    }
  }

  lemma {:induction false} LowerTwice(s: string)
    ensures LowerAll(LowerAll(s)) == LowerAll(s)
  {
    LowerAllIndex(s);
    LowerAllIndex(LowerAll(s));
  }

  lemma {:induction false} LowerKeepsALetter(host: string)
    requires !DigitsAndDots(host)
    ensures !DigitsAndDots(LowerAll(WithoutFinalDot(host)))
  {
    var c :| c in host && !(IsDigit(c) || c == '.');
    var i :| 0 <= i < |host| && host[i] == c;
    var bare := WithoutFinalDot(host);
    assert i < |bare| && bare[i] == c;
    LowerAllIndex(bare);
    assert LowerAll(bare)[i] in LowerAll(bare);
  }

  lemma {:induction false} ParsedNameIsNormal(host: string)
    requires !DigitsAndDots(host) && DomainNameOf(host).Some? && DomainNameOf(host).value != "localhost"
    ensures NormalName(DomainNameOf(host).value)
  {
    hide ValidDomain, DigitsAndDots;
    LowerDomain(WithoutFinalDot(host));
    LowerTwice(WithoutFinalDot(host));
    LowerKeepsALetter(host);
    NoLettersInNothing();
  }

  lemma {:induction false} NoLettersInNothing()
    ensures DigitsAndDots("")
  {
  }

  lemma {:induction false} PlainHostKept(host: string, parsed: ParsedAuthority, ipv6: Ipv6Library)
    requires ParsePlainHost(host) == Some(parsed.host) && parsed.scope.None?
    ensures HostKept(parsed, ipv6)
  {
    hide QuadOf, QuadText, ValidDomain, DigitsAndDots;
    if QuadOf(host).Some? {
      QuadCanonical(host);
    } else if DomainNameOf(host).value != "localhost" {
      ParsedNameIsNormal(host);
    }
  }

  lemma {:induction false} ParsedKept(value: string, defaultPort: Option<nat>, portRequired: bool, ipv6: Ipv6Library)
    requires ParseAuthority(value, defaultPort, portRequired, ipv6).Some?
    ensures var parsed := ParseAuthority(value, defaultPort, portRequired, ipv6).value;
            HostKept(parsed, ipv6) && PortKept(parsed, defaultPort, portRequired)
  {
    hide ParsePlainHost, Numeral, BeforeLast, AfterLast, FirstIndex, ZoneMark, NormalName, Octets;
    if value[0] == '[' {
      FirstIndexFacts(value[1..], ']');
      ZoneMarkFacts(value[1..][..FirstIndex(value[1..], ']').value]);
    } else {
      var parsed := ParseAuthority(value, defaultPort, portRequired, ipv6).value;
      var host := if BeforeLast(value).Some? then BeforeLast(value).value else value;
      PlainHostKept(host, parsed, ipv6);
    }
  }

  // ---- reparsing ----

  lemma {:induction false} NoColon(s: string)
    requires ':' !in s
    ensures BeforeLast(s).None?
  {
    if s != "" {
      assert forall c :: c in s[..|s| - 1] ==> c in s;
      NoColon(s[..|s| - 1]);
      assert s[|s| - 1] in s;
    }
  }

  predicate PlainChar(c: char)
  {
    IsAlpha(c) || IsDigit(c) || c == '-' || c == '.'
  }

  lemma {:induction false} PortDigits(port: nat)
    requires 0 < port < 65536
    ensures PortOf(Print(10, port)) == Some(port)
    ensures forall c :: c in Print(10, port) ==> IsDigit(c)
  {
    PortRoundTrip(port);
  }

  lemma {:induction false} PlainReparse(host: string, found: ParsedHost, port: nat, given: bool,
                                        defaultPort: Option<nat>, portRequired: bool, ipv6: Ipv6Library)
    requires host != "" && forall c :: c in host ==> PlainChar(c)
    requires ParsePlainHost(host) == Some(found)
    requires PortKept(ParsedAuthority(found, None, port, given), defaultPort, portRequired)
    ensures ParseAuthority(host + PortSuffix(port, given), defaultPort, portRequired, ipv6) ==
            Some(ParsedAuthority(found, None, port, given))
  {
    hide ParsePlainHost, PortOf, Print, BeforeLast, AfterLast;
    var value := host + PortSuffix(port, given);
    if given {
      PortDigits(port);
      LastColon(host, Print(10, port));
      assert value == host + ":" + Print(10, port);
      assert forall c :: c in value ==> PlainChar(c) || c == ':';
    } else {
      assert value == host;
      NoColon(host);
    }
    assert forall c :: c in value ==> AuthorityOctet(c) && c != '[' && c != ']';
    assert value[0] in value;
  }

  lemma {:induction false} QuadIsDigits(value: string)
    ensures QuadOf(value).Some? ==> DigitsAndDots(value)
  {
    hide QuadOf, QuadText;
    if QuadOf(value).Some? {
      QuadCanonical(value);
      QuadChars(QuadOf(value).value);
    }
  }

  lemma {:induction false} NameReparse(name: string)
    requires NormalName(name)
    ensures ParsePlainHost(name) == Some(Public(Dns(name)))
    ensures forall c :: c in name ==> PlainChar(c)
  {
    hide QuadOf, QuadText, LowerAll;
    QuadIsDigits(name);
    DelimiterAtAnEnd(name, '.');
    assert WithoutFinalDot(name) == name;
    NameChars(name);
  }

  lemma {:induction false} NameChars(name: string)
    requires forall part :: part in Split(name, '.') ==> ValidLabel(part)
    ensures forall c :: c in name ==> PlainChar(c)
  {
    JoinedSplit(name, '.');
    JoinedChars(Split(name, '.'));
  }

  lemma {:induction false} JoinedChars(parts: seq<string>)
    requires forall p, c :: p in parts && c in p ==> PlainChar(c)
    ensures forall c :: c in Joined(parts, '.') ==> PlainChar(c)
    decreases |parts|
  {
    if |parts| > 1 {
      assert forall p :: p in parts[1..] ==> p in parts;
      JoinedChars(parts[1..]);
      assert parts[0] in parts;
    } else if |parts| == 1 {
      assert parts[0] in parts;
    }
  }

  lemma {:induction false} QuadReparse(octets: seq<nat>)
    requires Octets(octets)
    ensures ParsePlainHost(QuadText(octets)) ==
            Some(if octets[0] == 127 then Local(Ipv4(octets)) else Public(AddressV4(octets)))
    ensures QuadText(octets) != "" && forall c :: c in QuadText(octets) ==> PlainChar(c)
  {
    hide QuadOf, QuadText, DomainNameOf;
    QuadRoundTrip(octets);
    QuadChars(octets);
  }

  /** The inside of the brackets of an IPv6 authority. */
  function Inside(address: nat, scope: Option<string>, ipv6: Ipv6Library): string
  {
    ipv6.text(address) + if scope.Some? then "%25" + scope.value else ""
  }

  lemma {:induction false} InsideReparse(address: nat, scope: Option<string>, ipv6: Ipv6Library)
    requires Faithful(ipv6) && (scope.Some? ==> ValidZone(scope.value))
    ensures ParseIpv6Host(Inside(address, scope, ipv6), ipv6) == Some(ScopedAddress(address, scope))
    ensures forall c :: c in Inside(address, scope, ipv6) ==> AuthorityOctet(c) && c != ']'
  {
    hide ZoneMark;
    AddressText(address, ipv6);
    var text := ipv6.text(address);
    if scope.Some? {
      var zone := scope.value;
      ZoneMarkAt(text, zone);
      ScopedText(text, zone);
    } else {
      assert text + "" == text;
      ZoneMarkFacts(text);
    }
  }

  lemma {:induction false} ScopedText(text: string, zone: string)
    ensures var inside := text + ("%25" + zone);
            inside == text + "%25" + zone && inside[..|text|] == text && inside[|text| + 3..] == zone
  {
  }

  lemma {:induction false} AddressText(address: nat, ipv6: Ipv6Library)
    requires Faithful(ipv6)
    ensures ipv6.parse(ipv6.text(address)) == Some(address)
    ensures '%' !in ipv6.text(address)
    ensures forall c :: c in ipv6.text(address) ==> AuthorityOctet(c) && c != ']'
  {
    assert forall c :: c in ipv6.text(address) ==> AddressChar(c);
  }

  lemma {:induction false} SuffixReparse(parsed: ParsedAuthority, defaultPort: Option<nat>, portRequired: bool)
    requires PortKept(parsed, defaultPort, portRequired)
    ensures var suffix := PortSuffix(parsed.port, parsed.explicitPort);
            && ParseAuthorityPort(suffix, defaultPort, portRequired) == Some(Port(parsed.port, parsed.explicitPort))
            && forall c :: c in suffix ==> AuthorityOctet(c)
  {
    hide PortOf, Print;
    if parsed.explicitPort {
      PortDigits(parsed.port);
      assert (":" + Print(10, parsed.port))[1..] == Print(10, parsed.port);
    }
  }

  lemma {:induction false} BracketsReparse(inside: string, suffix: string, scoped: ScopedAddress, port: Port,
                                           defaultPort: Option<nat>, portRequired: bool, ipv6: Ipv6Library)
    requires ParseIpv6Host(inside, ipv6) == Some(scoped)
    requires ParseAuthorityPort(suffix, defaultPort, portRequired) == Some(port)
    requires forall c :: c in inside ==> AuthorityOctet(c) && c != ']'
    requires forall c :: c in suffix ==> AuthorityOctet(c)
    ensures ParseAuthority("[" + (inside + "]" + suffix), defaultPort, portRequired, ipv6) ==
            Some(ParsedAuthority(if scoped.scope.None? && ipv6.loopback(scoped.address) then Local(Ipv6Loopback)
                                 else Public(AddressV6(scoped.address)),
                                 scoped.scope, port.number, port.given))
  {
    hide ParseIpv6Host, ParseAuthorityPort, FirstIndex;
    var tail := inside + "]" + suffix;
    var value := "[" + tail;
    assert value[1..] == tail;
    FirstIndexAt(inside, ']', suffix);
    assert tail[..|inside|] == inside && tail[|inside| + 1..] == suffix;
    assert forall c :: c in value ==> AuthorityOctet(c);
  }

  lemma {:induction false} BracketedReparse(parsed: ParsedAuthority, address: nat, defaultPort: Option<nat>,
                                            portRequired: bool, ipv6: Ipv6Library)
    requires Faithful(ipv6) && parsed.host == Public(AddressV6(address))
    requires HostKept(parsed, ipv6) && PortKept(parsed, defaultPort, portRequired)
    ensures ParseAuthority(CanonicalText(parsed, ipv6), defaultPort, portRequired, ipv6) == Some(parsed)
  {
    hide ParseIpv6Host, ParseAuthorityPort, ParseAuthority, PortSuffix, Inside, CanonicalText, AuthorityOctet;
    InsideReparse(address, parsed.scope, ipv6);
    SuffixReparse(parsed, defaultPort, portRequired);
    BracketedText(parsed, address, ipv6);
    BracketsReparse(Inside(address, parsed.scope, ipv6), PortSuffix(parsed.port, parsed.explicitPort),
                    ScopedAddress(address, parsed.scope), Port(parsed.port, parsed.explicitPort),
                    defaultPort, portRequired, ipv6);
  }

  lemma {:induction false} BracketedText(parsed: ParsedAuthority, address: nat, ipv6: Ipv6Library)
    requires parsed.host == Public(AddressV6(address))
    ensures CanonicalText(parsed, ipv6) ==
            "[" + (Inside(address, parsed.scope, ipv6) + "]" + PortSuffix(parsed.port, parsed.explicitPort))
  {
  }

  /** A canonical authority is a fixed point: parsed again in the same place it names the same host,
      scope, port and explicit-port flag, and it stays public. */
  lemma {:induction false} CanonicalIsFixed(value: string, defaultPort: Option<nat>, portRequired: bool,
                                         ipv6: Ipv6Library)
    requires Faithful(ipv6)
    requires ParseAuthority(value, defaultPort, portRequired, ipv6).Some?
    requires ParseAuthority(value, defaultPort, portRequired, ipv6).value.host.Public?
    ensures var parsed := ParseAuthority(value, defaultPort, portRequired, ipv6).value;
            && (parsed.host.destination.AddressV4? ==> |parsed.host.destination.octets| == 4)
            && ParseAuthority(CanonicalText(parsed, ipv6), defaultPort, portRequired, ipv6) == Some(parsed)
  {
    hide ParseAuthority, Faithful, QuadText, ParsePlainHost, ValidDomain;
    ParsedKept(value, defaultPort, portRequired, ipv6);
    var parsed := ParseAuthority(value, defaultPort, portRequired, ipv6).value;
    var destination := parsed.host.destination;
    if destination.AddressV6? {
      BracketedReparse(parsed, destination.address, defaultPort, portRequired, ipv6);
    } else if destination.AddressV4? {
      QuadReparse(destination.octets);
      PlainReparse(QuadText(destination.octets), parsed.host, parsed.port, parsed.explicitPort, defaultPort,
                   portRequired, ipv6);
    } else {
      NameReparse(destination.name);
      PlainReparse(destination.name, parsed.host, parsed.port, parsed.explicitPort, defaultPort, portRequired, ipv6);
    }
  }

  /** A local authority's canonical text is local again, with the same host and port: no spelling of a
      loopback destination ever turns into a public one, nor the other way round. */
  lemma {:induction false} LocalStaysLocal(value: string, defaultPort: Option<nat>, portRequired: bool,
                                        ipv6: Ipv6Library)
    requires Faithful(ipv6)
    requires ParseAuthority(value, defaultPort, portRequired, ipv6).Some?
    requires ParseAuthority(value, defaultPort, portRequired, ipv6).value.host.Local?
    requires defaultPort.Some? ==> 0 < defaultPort.value < 65536
    ensures var parsed := ParseAuthority(value, defaultPort, portRequired, ipv6).value;
            && ValidAuthority(LoopbackAuthority(parsed.host.host, parsed.port))
            && ParseAuthority(Text(LoopbackAuthority(parsed.host.host, parsed.port)),
                              defaultPort, portRequired, ipv6) ==
               Some(parsed.(explicitPort := true))
  {
    hide ParseAuthority, QuadText, ParsePlainHost;
    ParsedKept(value, defaultPort, portRequired, ipv6);
    var parsed := ParseAuthority(value, defaultPort, portRequired, ipv6).value;
    var host := parsed.host.host;
    if host.Ipv6Loopback? {
      LoopbackReparse(parsed.port, defaultPort, portRequired, ipv6);
    } else {
      if host.Ipv4? {
        QuadReparse(host.octets);
      } else {
        LocalhostReparse();
      }
      PlainReparse(HostText(host), Local(host), parsed.port, true, defaultPort, portRequired, ipv6);
      Assoc(HostText(host), ":", Print(10, parsed.port));
    }
  }

  lemma {:induction false} LocalhostReparse()
    ensures ParsePlainHost("localhost") == Some(Local(Localhost))
    ensures forall c :: c in "localhost" ==> PlainChar(c)
  {
    hide QuadOf, ValidLabel, DigitsAndDots, LowerAll;
    LowerLetters("localhost");
    LocalhostLabel();
    SplitNone("localhost", '.');
    QuadIsDigits("localhost");
  }

  lemma {:induction false} LocalhostLabel()
    ensures ValidLabel("localhost") && !DigitsAndDots("localhost") && LowerAll("localhost") == "localhost"
  {
    hide LowerAll;
    var name := "localhost";
    assert |name| == 9 && name[0] == 'l' && name[8] == 't';
    LowerLetters(name);
    LowerFixed(name);
    assert name[0] in name;
  }

  lemma {:induction false} LowerLetters(name: string)
    requires name == "localhost"
    ensures forall c :: c in name ==> 'a' <= c <= 'z'
  {
  }

  lemma {:induction false} LoopbackReparse(port: nat, defaultPort: Option<nat>, portRequired: bool, ipv6: Ipv6Library)
    requires Faithful(ipv6) && 0 < port < 65536
    ensures ParseAuthority("[::1]" + ":" + Print(10, port), defaultPort, portRequired, ipv6) ==
            Some(ParsedAuthority(Local(Ipv6Loopback), None, port, true))
  {
    hide PortOf, Print, ParseAuthority, ParseAuthorityPort, PortSuffix;
    var address := ipv6.parse("::1").value;
    SuffixReparse(ParsedAuthority(Local(Ipv6Loopback), None, port, true), defaultPort, portRequired);
    ZoneMarkFacts("::1");
    BracketsReparse("::1", PortSuffix(port, true), ScopedAddress(address, None), Port(port, true),
                    defaultPort, portRequired, ipv6);
    LoopbackText(port);
  }

  lemma {:induction false} LoopbackText(port: nat)
    ensures "[::1]" + ":" + Print(10, port) == "[" + ("::1" + "]" + PortSuffix(port, true))
  {
    hide Print;
  }
}
