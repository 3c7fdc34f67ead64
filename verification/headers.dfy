/**
 Header maps, the hop-by-hop rules of section 7.6.1 of RFC 9110, and field lines.

 A header map takes a lower-case name to the list of its values in arrival order; the order of
 different names is not part of the value, because removal may permute it.
 */
module Headers {
  import opened HttpText
  import opened Splitting

  type HeaderMap = map<string, seq<string>>

  datatype Field = Field(name: string, value: string)

  function GetAll(headers: HeaderMap, name: string): seq<string>
  {
    if name in headers then headers[name] else []
  }

  function Append(headers: HeaderMap, name: string, value: string): HeaderMap
  {
    headers[name := GetAll(headers, name) + [value]]
  }

  function Remove(headers: HeaderMap, name: string): HeaderMap
  {
    headers - {name}
  }

  predicate GoodName(name: string)
  {
    ValidToken(name) && LowerAll(name) == name
  }

  ghost predicate GoodField(field: Field)
  {
    GoodName(field.name) && FieldContent(field.value)
  }

  /** What every parsed map satisfies: canonical names, trimmed printable values, no empty list. */
  ghost predicate WellFormed(headers: HeaderMap)
  {
    forall n :: n in headers ==>
      GoodName(n) && headers[n] != [] && forall v :: v in headers[n] ==> FieldContent(v)
  }

  function AddFields(headers: HeaderMap, fields: seq<Field>): HeaderMap
    decreases |fields|
  {
    if fields == [] then headers
    else AddFields(Append(headers, fields[0].name, fields[0].value), fields[1..])
  }

  /** The map a list of fields denotes. */
  function MapOf(fields: seq<Field>): HeaderMap
  {
    AddFields(map[], fields)
  }

  lemma {:induction false} LowerIdempotent(s: string)
    ensures LowerAll(LowerAll(s)) == LowerAll(s)
  {
    if s != "" {
      LowerIdempotent(s[1..]);
      assert LowerAll(s)[1..] == LowerAll(s[1..]);
    }
  }

  lemma {:induction false} LowerKeepsToken(s: string)
    requires ValidToken(s)
    ensures GoodName(LowerAll(s))
  {
    var t := LowerAll(s);
    LowerAllIndex(s);
    forall c | c in t ensures TokenChar(c) {
      var i :| 0 <= i < |t| && t[i] == c;
      assert s[i] in s;
    }
    LowerIdempotent(s);
  }

  // ---- field lines ----

  function FirstColon(s: string, from: nat): Option<nat>
    requires from <= |s|
    decreases |s| - from
  {
    if from == |s| then None else if s[from] == ':' then Some(from) else FirstColon(s, from + 1)
  }

  lemma {:induction false} FirstColonFacts(s: string, from: nat)
    requires from <= |s|
    ensures FirstColon(s, from).Some? ==> from <= FirstColon(s, from).value < |s|
    ensures forall p :: from <= p < |s| && s[p] == ':' && (forall i :: from <= i < p ==> s[i] != ':') ==>
              FirstColon(s, from) == Some(p)
    decreases |s| - from
  {
    if from < |s| && s[from] != ':' {
      FirstColonFacts(s, from + 1);
    }
  }

  /** One field line without its CRLF; `None` is a malformed line. */
  function ParseFieldLine(line: string): (r: Option<Field>)
  {
    if line != "" && IsOws(line[0]) then None
    else
      FirstColonFacts(line, 0);
      var colon := FirstColon(line, 0);
      if colon.None? then None
      else
        var name := line[..colon.value];
        var value := TrimOws(line[colon.value + 1..]);
        if !ValidToken(name) then None
        else if !PlainValue(value) then None
        else Some(Field(LowerAll(name), value))
  }

  function AppendFieldLine(headers: HeaderMap, line: string): Option<HeaderMap>
  {
    match ParseFieldLine(line)
    case Some(field) => Some(Append(headers, field.name, field.value))
    case None => None
  }

  lemma {:induction false} ParsedFieldGood(line: string)
    requires ParseFieldLine(line).Some?
    ensures GoodField(ParseFieldLine(line).value)
    ensures |ParseFieldLine(line).value.name| + |ParseFieldLine(line).value.value| + 1 <= |line|
  {
    FirstColonFacts(line, 0);
    var colon := FirstColon(line, 0).value;
    LowerKeepsToken(line[..colon]);
    LowerAllIndex(line[..colon]);
    TrimFacts(line[colon + 1..]);
  }

  lemma {:induction false} AppendWellFormed(headers: HeaderMap, field: Field)
    requires WellFormed(headers) && GoodField(field)
    ensures WellFormed(Append(headers, field.name, field.value))
  {
  }

  function LineOf(field: Field): string
  {
    field.name + ": " + field.value
  }

  /** A printed field is read back as itself. */
  lemma {:induction false} FieldRoundTrip(field: Field)
    requires GoodField(field)
    ensures ParseFieldLine(LineOf(field)) == Some(field)
  {
    var line, n := LineOf(field), |field.name|;
    ColonAfterName(field);
    assert line[..n] == field.name;
    assert line[0] == field.name[0] && field.name[0] in field.name;
    assert line[n + 1..] == " " + field.value;
    TrimLeadingSpace(field.value);
  }

  lemma {:induction false} FieldLineIsPlain(field: Field)
    requires GoodField(field)
    ensures forall c :: c in LineOf(field) ==> c != '\r' && c != '\n'
  {
  }

  lemma {:induction false} ColonAfterName(field: Field)
    requires GoodField(field)
    ensures FirstColon(LineOf(field), 0) == Some(|field.name|)
  {
    var line := LineOf(field);
    var n := |field.name|;
    assert line[n] == ':';
    forall i | 0 <= i < n ensures line[i] != ':' {
      assert line[i] == field.name[i] && field.name[i] in field.name;
    }
    FirstColonFacts(line, 0);
  }

  // ---- printing ----

  function RenderFields(fields: seq<Field>): string
  {
    if fields == [] then "" else LineOf(fields[0]) + "\r\n" + RenderFields(fields[1..])
  }

  lemma {:induction false} RenderAppend(a: seq<Field>, b: seq<Field>)
    ensures RenderFields(a + b) == RenderFields(a) + RenderFields(b)
  {
    hide LineOf;
    if a == [] {
      assert a + b == b;
    } else {
      RenderAppend(a[1..], b);
      assert (a + b)[1..] == a[1..] + b;
      Assoc(LineOf(a[0]) + "\r\n", RenderFields(a[1..]), RenderFields(b));
    }
  }

  // ---- hop-by-hop fields ----

  const CONNECTION := "connection"
  const HOST := "host"
  const VIA := "via"
  const EXPECT := "expect"
  const UPGRADE := "upgrade"
  const CONTENT_LENGTH := "content-length"
  const TRANSFER_ENCODING := "transfer-encoding"

  const FIXED_HOP_HEADERS: seq<string> := [
    "keep-alive", "proxy-connection", "proxy-authenticate", "proxy-authorization",
    "te", "trailer", "transfer-encoding", "upgrade"
  ]

  function TrimEach(parts: seq<string>): (r: seq<string>)
    ensures |r| == |parts|
  {
    seq(|parts|, i requires 0 <= i < |parts| => TrimOws(parts[i]))
  }

  /** The comma-separated members of every value of one field. */
  function Members(values: seq<string>): seq<string>
  {
    if values == [] then [] else TrimEach(Split(values[0], ',')) + Members(values[1..])
  }

  function LowerEach(parts: seq<string>): (r: seq<string>)
    ensures |r| == |parts|
  {
    seq(|parts|, i requires 0 <= i < |parts| => LowerAll(parts[i]))
  }

  /** Tokens of a list field; `None` if any member is not a token. */
  function CommaTokens(headers: HeaderMap, name: string): Option<seq<string>>
  {
    var members := Members(GetAll(headers, name));
    if forall m :: m in members ==> ValidToken(m) then Some(members) else None
  }

  /** Field names nominated by every `Connection` value. */
  function Nominations(headers: HeaderMap): Option<seq<string>>
  {
    match CommaTokens(headers, CONNECTION)
    case Some(tokens) => Some(LowerEach(tokens))
    case None => None
  }

  predicate HopByHop(headers: HeaderMap, name: string)
  {
    || name == CONNECTION
    || name in FIXED_HOP_HEADERS
    || (Nominations(headers).Some? && name in Nominations(headers).value)
  }

  /** Everything but the hop-by-hop fields; `None` when `Connection` is malformed. */
  function Sanitized(headers: HeaderMap): (r: Option<HeaderMap>)
  {
    if Nominations(headers).None? then None
    else Some(map n | n in headers && !HopByHop(headers, n) :: headers[n])
  }

  method RemoveEach(headers: HeaderMap, names: seq<string>) returns (kept: HeaderMap)
    ensures kept == headers - set n | n in names
  {
    kept := headers;
    ghost var removed := {};
    for i := 0 to |names|
      invariant kept == headers - removed
      invariant removed == set n | n in names[..i]
    {
      kept := Remove(kept, names[i]);
      removed := removed + {names[i]};
      assert names[..i + 1] == names[..i] + [names[i]];
    }
    assert names[..|names|] == names;
  }

  /** In-place removal in the order of the source: Connection, nominated names, fixed names. */
  method SanitizeHopByHop(headers: HeaderMap) returns (r: Option<HeaderMap>)
    ensures r == Sanitized(headers)
  {
    var nominated := Nominations(headers);
    if nominated.None? {
      return None;
    }
    var kept := Remove(headers, CONNECTION);
    kept := RemoveEach(kept, nominated.value);
    kept := RemoveEach(kept, FIXED_HOP_HEADERS);
    assert kept == Sanitized(headers).value;
    return Some(kept);
  }

  /** Nothing hop-by-hop survives, everything else survives unchanged, and a second pass is a no-op. */
  lemma {:induction false} SanitizedMeaning(headers: HeaderMap)
    requires Sanitized(headers).Some?
    ensures var r := Sanitized(headers).value;
            && (forall n :: GetAll(r, n) == if HopByHop(headers, n) then [] else GetAll(headers, n))
            && (forall n :: n in r <==> n in headers && !HopByHop(headers, n))
            && (WellFormed(headers) ==> WellFormed(r))
            && Sanitized(r) == Some(r)
  {
    var r := Sanitized(headers).value;
    assert GetAll(r, CONNECTION) == [];
    assert CommaTokens(r, CONNECTION) == Some([]);
    assert Nominations(r) == Some([]);
    assert r == map n | n in r && !HopByHop(r, n) :: r[n];
  }

  function WithVia(headers: HeaderMap, http10: bool): HeaderMap
  {
    Append(headers, VIA, if http10 then "1.0 vhrn" else "1.1 vhrn")
  }

  // ---- sizes ----

  function ValueBytes(name: string, values: seq<string>): nat
  {
    if values == [] then 0
    else ValueBytes(name, values[..|values| - 1]) + |name| + |values[|values| - 1]|
  }

  /** Name and value octets of every field, counted as `header_field_bytes` does. */
  ghost function HeaderBytes(headers: HeaderMap): nat
  {
    if headers == map[] then 0
    else
      var n :| n in headers;
      ValueBytes(n, headers[n]) + HeaderBytes(headers - {n})
  }

  lemma {:induction false} HeaderBytesSplit(headers: HeaderMap, name: string)
    requires name in headers
    ensures HeaderBytes(headers) == ValueBytes(name, headers[name]) + HeaderBytes(headers - {name})
    decreases |headers|
  {
    var n :| n in headers && HeaderBytes(headers) == ValueBytes(n, headers[n]) + HeaderBytes(headers - {n});
    if n != name {
      HeaderBytesSplit(headers - {n}, name);
      HeaderBytesSplit(headers - {name}, n);
      assert headers - {n} - {name} == headers - {name} - {n};
    }
  }

  lemma {:induction false} HeaderBytesAppend(headers: HeaderMap, name: string, value: string)
    ensures HeaderBytes(Append(headers, name, value)) == HeaderBytes(headers) + |name| + |value|
  {
    var after := Append(headers, name, value);
    var values := GetAll(headers, name);
    HeaderBytesSplit(after, name);
    assert after - {name} == headers - {name};
    assert (values + [value])[..|values|] == values;
    if name in headers {
      HeaderBytesSplit(headers, name);
    } else {
      assert headers - {name} == headers;
    }
  }

  lemma {:induction false} HeaderBytesMonotone(small: HeaderMap, large: HeaderMap)
    requires forall n :: n in small ==> n in large && small[n] == large[n]
    ensures HeaderBytes(small) <= HeaderBytes(large)
    decreases |large|
  {
    if large == map[] {
      assert small == map[];
    } else {
      var n :| n in large;
      HeaderBytesSplit(large, n);
      HeaderBytesMonotone(small - {n}, large - {n});
      if n in small {
        HeaderBytesSplit(small, n);
      } else {
        assert small - {n} == small;
      }
    }
  }

  function FieldBytes(fields: seq<Field>): nat
  {
    if fields == [] then 0 else |fields[0].name| + |fields[0].value| + FieldBytes(fields[1..])
  }

  lemma {:induction false} AddFieldsBytes(headers: HeaderMap, fields: seq<Field>)
    ensures HeaderBytes(AddFields(headers, fields)) == HeaderBytes(headers) + FieldBytes(fields)
    decreases |fields|
  {
    if fields != [] {
      HeaderBytesAppend(headers, fields[0].name, fields[0].value);
      AddFieldsBytes(Append(headers, fields[0].name, fields[0].value), fields[1..]);
    }
  }

  ghost function ValueCount(headers: HeaderMap): nat
  {
    if headers == map[] then 0
    else
      var n :| n in headers;
      |headers[n]| + ValueCount(headers - {n})
  }

  /** Octets of a trailer section that spells the map as the proxy prints it. */
  ghost function SectionLength(headers: HeaderMap): nat
  {
    HeaderBytes(headers) + 4 * ValueCount(headers) + 2
  }

  lemma {:induction false} ValueCountSplit(headers: HeaderMap, name: string)
    requires name in headers
    ensures ValueCount(headers) == |headers[name]| + ValueCount(headers - {name})
    decreases |headers|
  {
    var n :| n in headers && ValueCount(headers) == |headers[n]| + ValueCount(headers - {n});
    if n != name {
      ValueCountSplit(headers - {n}, name);
      ValueCountSplit(headers - {name}, n);
      assert headers - {n} - {name} == headers - {name} - {n};
    }
  }

  lemma {:induction false} AddFieldsCount(headers: HeaderMap, fields: seq<Field>)
    ensures ValueCount(AddFields(headers, fields)) == ValueCount(headers) + |fields|
    decreases |fields|
  {
    if fields != [] {
      var name, more := fields[0].name, Append(headers, fields[0].name, fields[0].value);
      AddFieldsCount(more, fields[1..]);
      ValueCountSplit(more, name);
      assert more - {name} == headers - {name};
      if name in headers {
        ValueCountSplit(headers, name);
      } else {
        assert headers - {name} == headers;
      }
    }
  }

  lemma {:induction false} RenderedLength(fields: seq<Field>)
    ensures |RenderFields(fields)| == FieldBytes(fields) + 4 * |fields|
  {
    if fields != [] {
      RenderedLength(fields[1..]);
    }
  }

  /** A printed section is as long as its map requires, in whatever order it was printed. */
  lemma {:induction false} RenderedSectionLength(fields: seq<Field>)
    ensures |RenderFields(fields)| + 2 == SectionLength(MapOf(fields))
  {
    RenderedLength(fields);
    AddFieldsBytes(map[], fields);
    AddFieldsCount(map[], fields);
  }

  /** Trailers that may be forwarded: neither hop-by-hop nor nominated by the request's Connection. */
  function ForwardedTrailers(trailers: HeaderMap, nominations: seq<string>): Option<HeaderMap>
  {
    match Sanitized(trailers)
    case None => None
    case Some(kept) => Some(kept - set n | n in nominations)
  }

  lemma {:induction false} NoConnectionSanitizes(trailers: HeaderMap)
    requires CONNECTION !in trailers
    ensures Sanitized(trailers).Some?
  {
  }

  /** Filtering never adds octets and never breaks a field. */
  lemma {:induction false} KeptTrailers(trailers: HeaderMap, nominations: seq<string>)
    requires WellFormed(trailers) && Sanitized(trailers).Some?
    ensures var kept := Sanitized(trailers).value - set n | n in nominations;
            && ForwardedTrailers(trailers, nominations) == Some(kept)
            && WellFormed(kept)
            && HeaderBytes(kept) <= HeaderBytes(trailers)
  {
    SanitizedMeaning(trailers);
    HeaderBytesMonotone(Sanitized(trailers).value - (set n | n in nominations), trailers);
  }

  // ---- taking a map apart ----

  /** What `HeaderMap::into_iter` yields: only the first value of a name carries the name. */
  datatype Entry = Entry(name: Option<string>, value: string)

  function GroupEntries(name: string, values: seq<string>): (r: seq<Entry>)
    ensures |r| == |values|
    ensures r != [] ==> r[0].name == Some(name)
  {
    if values == [] then []
    else
      var init := values[..|values| - 1];
      GroupEntries(name, init) + [Entry(if init == [] then Some(name) else None, values[|values| - 1])]
  }

  function Entries(headers: HeaderMap, order: seq<string>): seq<Entry>
    requires forall n :: n in order ==> n in headers
  {
    if order == [] then []
    else Entries(headers, order[..|order| - 1]) + GroupEntries(order[|order| - 1], headers[order[|order| - 1]])
  }

  ghost predicate Ordering(headers: HeaderMap, order: seq<string>)
  {
    && (forall n :: n in headers <==> n in order)
    && (forall i, j :: 0 <= i < j < |order| ==> order[i] != order[j])
  }

  /** Each entry given the name in force. */
  function Expand(entries: seq<Entry>): (r: seq<Field>)
    requires entries != [] ==> entries[0].name.Some?
    ensures |r| == |entries|
  {
    if entries == [] then []
    else
      var before := Expand(entries[..|entries| - 1]);
      var last := entries[|entries| - 1];
      before + [Field(if last.name.Some? then last.name.value else before[|before| - 1].name, last.value)]
  }

  /** The peeking loop of the source; its two `expect`s never fail. */
  method OwnedFields(entries: seq<Entry>) returns (fields: seq<Field>)
    requires entries != [] ==> entries[0].name.Some?
    ensures fields == Expand(entries)
  {
    fields := [];
    var currentName: Option<string> := None;
    for i := 0 to |entries|
      invariant fields == Expand(entries[..i])
      invariant 0 < i < |entries| && entries[i].name.None? ==>
                  currentName == Some(fields[i - 1].name)
    {
      assert entries[..i + 1][..i] == entries[..i];
      var entry := entries[i];
      var repeatedNext := i + 1 < |entries| && entries[i + 1].name.None?;
      var name;
      if entry.name.Some? {
        name := entry.name.value;
        if repeatedNext {
          currentName := Some(name);
        }
      } else {
        name := currentName.value;
        if !repeatedNext {
          currentName := None;
        }
      }
      fields := fields + [Field(name, entry.value)];
    }
    assert entries[..|entries|] == entries;
  }

  function Named(name: string, values: seq<string>): (r: seq<Field>)
    ensures |r| == |values|
    ensures forall i :: 0 <= i < |r| ==> r[i] == Field(name, values[i])
  {
    if values == [] then []
    else Named(name, values[..|values| - 1]) + [Field(name, values[|values| - 1])]
  }

  lemma {:induction false} ExpandGroup(before: seq<Entry>, name: string, values: seq<string>)
    requires before != [] ==> before[0].name.Some?
    ensures var all := before + GroupEntries(name, values);
            && (all != [] ==> all[0].name.Some?)
            && Expand(all) == Expand(before) + Named(name, values)
    decreases |values|
  {
    var all := before + GroupEntries(name, values);
    if values == [] {
      assert all == before;
    } else {
      var init, value := values[..|values| - 1], values[|values| - 1];
      var shorter := before + GroupEntries(name, init);
      ExpandGroup(before, name, init);
      var entry := Entry(if init == [] then Some(name) else None, value);
      Assoc(before, GroupEntries(name, init), [entry]);
      Assoc(Expand(before), Named(name, init), [Field(name, value)]);
    }
  }

  lemma {:induction false} AddFieldsSplit(headers: HeaderMap, a: seq<Field>, b: seq<Field>)
    ensures AddFields(headers, a + b) == AddFields(AddFields(headers, a), b)
    decreases |a|
  {
    if a == [] {
      assert a + b == b;
    } else {
      assert (a + b)[1..] == a[1..] + b;
      AddFieldsSplit(Append(headers, a[0].name, a[0].value), a[1..], b);
    }
  }

  lemma {:induction false} AddNamed(headers: HeaderMap, name: string, values: seq<string>)
    requires values != []
    ensures AddFields(headers, Named(name, values)) == headers[name := GetAll(headers, name) + values]
    decreases |values|
  {
    var init, last := values[..|values| - 1], values[|values| - 1];
    AddFieldsSplit(headers, Named(name, init), [Field(name, last)]);
    AddOne(AddFields(headers, Named(name, init)), Field(name, last));
    assert values == init + [last];
    if init == [] {
      assert values == [last];
    } else {
      AddNamed(headers, name, init);
      AppendTwice(headers, name, init, last);
    }
  }

  lemma {:induction false} AddOne(headers: HeaderMap, field: Field)
    ensures AddFields(headers, [field]) == Append(headers, field.name, field.value)
  {
  }

  lemma {:induction false} AppendTwice(headers: HeaderMap, name: string, init: seq<string>, last: string)
    ensures Append(headers[name := GetAll(headers, name) + init], name, last) ==
            headers[name := GetAll(headers, name) + (init + [last])]
  {
    Assoc(GetAll(headers, name), init, [last]);
  }

  lemma {:induction false} ExpandEntries(headers: HeaderMap, order: seq<string>)
    requires forall n :: n in order ==> n in headers && headers[n] != []
    requires forall i, j :: 0 <= i < j < |order| ==> order[i] != order[j]
    ensures var entries := Entries(headers, order);
            && (entries != [] ==> entries[0].name.Some?)
            && MapOf(Expand(entries)) == (map n | n in order && n in headers :: headers[n])
    decreases |order|
  {
    if order != [] {
      var init, last := order[..|order| - 1], order[|order| - 1];
      assert last in order && last !in init;
      ExpandEntries(headers, init);
      var before := Entries(headers, init);
      ExpandGroup(before, last, headers[last]);
      AddFieldsSplit(map[], Expand(before), Named(last, headers[last]));
      AddNamed(MapOf(Expand(before)), last, headers[last]);
      assert order == init + [last];
      Restricted(headers, init, last);
    }
  }

  lemma {:induction false} ExpandStays(headers: HeaderMap, order: seq<string>)
    requires forall n :: n in order ==> n in headers && headers[n] != []
    requires forall i, j :: 0 <= i < j < |order| ==> order[i] != order[j]
    ensures var entries := Entries(headers, order);
            && (entries != [] ==> entries[0].name.Some?)
            && forall f :: f in Expand(entries) ==> f.name in headers && f.value in headers[f.name]
    decreases |order|
  {
    ExpandEntries(headers, order);
    if order != [] {
      var init, last := order[..|order| - 1], order[|order| - 1];
      assert last in order;
      ExpandStays(headers, init);
      ExpandGroup(Entries(headers, init), last, headers[last]);
    }
  }

  lemma {:induction false} Restricted(headers: HeaderMap, init: seq<string>, last: string)
    requires last in headers && last !in init
    ensures var m := map n | n in init && n in headers :: headers[n];
            m[last := GetAll(m, last) + headers[last]] ==
            map n | n in init + [last] && n in headers :: headers[n]
  {
    var m := map n | n in init && n in headers :: headers[n];
    assert last !in m;
    assert GetAll(m, last) + headers[last] == headers[last];
  }

  /** Whatever order the map iterates in, the owned fields denote exactly the map. */
  lemma {:induction false} OwnedFieldsDenoteMap(headers: HeaderMap, order: seq<string>)
    requires WellFormed(headers) && Ordering(headers, order)
    ensures var entries := Entries(headers, order);
            && (entries != [] ==> entries[0].name.Some?)
            && MapOf(Expand(entries)) == headers
            && FieldBytes(Expand(entries)) == HeaderBytes(headers)
            && forall f :: f in Expand(entries) ==> GoodField(f)
  {
    ExpandEntries(headers, order);
    ExpandStays(headers, order);
    var fields := Expand(Entries(headers, order));
    assert MapOf(fields) == headers;
    AddFieldsBytes(map[], fields);
  }
}
