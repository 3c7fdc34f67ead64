/**
 Public policy decisions: a domain entry covers exactly the names whose labels end in its labels.
 */
module DomainMatching {
  import opened Splitting
  import opened PolicyFiles

  /** `strip_suffix` of the pattern leaves nothing, or something that ends in a dot. */
  predicate Matches(pattern: string, host: string)
  {
    || host == pattern
    || (|pattern| < |host| && host[|host| - |pattern|..] == pattern && host[|host| - |pattern| - 1] == '.')
  }

  function Labels(name: string): seq<string>
  {
    Split(name, '.')
  }

  predicate Suffix<T(==)>(part: seq<T>, whole: seq<T>)
  {
    |part| <= |whole| && whole[|whole| - |part|..] == part
  }

  lemma {:induction false} JoinedApart(a: seq<string>, b: seq<string>, d: char)
    requires a != [] && b != []
    ensures Joined(a + b, d) == Joined(a, d) + [d] + Joined(b, d)
    decreases |a|
  {
    assert (a + b)[1..] == a[1..] + b;
    if |a| == 1 {
      assert a[1..] + b == b;
    } else {
      JoinedApart(a[1..], b, d);
    }
  }

  /** Matching is label suffix, for every pattern and every host. */
  lemma {:induction false} MatchesIffLabelSuffix(pattern: string, host: string)
    ensures Matches(pattern, host) <==> Suffix(Labels(pattern), Labels(host))
  {
    hide Split, Joined;
    if host != pattern && Matches(pattern, host) {
      var before := host[..|host| - |pattern| - 1];
      assert host == before + "." + pattern;
      SplitAround(before, '.', pattern);
      assert Labels(host)[|Labels(host)| - |Labels(pattern)|..] == Labels(pattern);
    }
    if Suffix(Labels(pattern), Labels(host)) {
      JoinedSplit(pattern, '.');
      JoinedSplit(host, '.');
      var before := Labels(host)[..|Labels(host)| - |Labels(pattern)|];
      assert Labels(host) == before + Labels(pattern);
      if before == [] {
        assert Labels(host) == Labels(pattern);
      } else {
        JoinedApart(before, Labels(pattern), '.');
        var text := Joined(before, '.');
        assert host == text + "." + pattern;
      }
    }
  }

  /** Whatever covers a name covers every name below it. */
  lemma {:induction false} MatchesBelow(pattern: string, host: string, below: string)
    requires Matches(pattern, host) && Matches(host, below)
    ensures Matches(pattern, below)
  {
  }

  // ---- decisions ----

  datatype Mode = Enforce | Report | Open

  datatype RequestedHost = DnsHost(name: string) | Ipv4Host(octets: seq<nat>) | Ipv6Host(text: string)

  datatype Decision = Decision(allowed: bool, recordDenial: bool)

  predicate Covered(entries: set<PolicyEntry>, host: RequestedHost)
  {
    match host
    case DnsHost(name) => exists e :: e in entries && e.DomainEntry? && Matches(e.domain, name)
    case Ipv4Host(octets) => AddressEntry(octets) in entries
    case Ipv6Host(_) => false
  }

  function Decide(mode: Mode, entries: set<PolicyEntry>, host: RequestedHost): Decision
  {
    match mode
    case Enforce => Decision(Covered(entries, host), !Covered(entries, host))
    case Report => Decision(true, !Covered(entries, host))
    case Open => Decision(true, false)
  }

  /** Adding entries never refuses what was allowed and never starts recording a denial. */
  lemma {:induction false} DecideMonotone(mode: Mode, fewer: set<PolicyEntry>, more: set<PolicyEntry>,
                                       host: RequestedHost)
    requires fewer <= more
    ensures Decide(mode, fewer, host).allowed ==> Decide(mode, more, host).allowed
    ensures Decide(mode, more, host).recordDenial ==> Decide(mode, fewer, host).recordDenial
  {
  }

  /** Under one policy, a name below an allowed one is allowed. */
  lemma {:induction false} DecideBelow(mode: Mode, entries: set<PolicyEntry>, name: string, below: string)
    requires Matches(name, below) && Decide(mode, entries, DnsHost(name)).allowed
    ensures Decide(mode, entries, DnsHost(below)).allowed
  {
  }
}
