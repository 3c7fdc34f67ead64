/**
 Layered domain policy: resolution with provenance, and the batch deny that reports what still allows
 each removed domain.
 */
module PolicyLayers {
  import opened HttpText
  import opened PolicyFiles

  datatype LayerSource =
    BaseLayer | HarnessLayer(name: string) | GlobalLayer | ProjectLayer(path: string) | RunLayer(id: string)

  datatype Layer = Layer(domains: seq<string>, source: LayerSource)

  datatype ResolvedDomain = ResolvedDomain(domain: string, sources: seq<LayerSource>)

  // ---- the meaning of resolution ----

  datatype Tagged = Tagged(domain: string, source: LayerSource)

  function Names(tags: seq<Tagged>): (r: seq<string>)
    ensures |r| == |tags|
  {
    seq(|tags|, i requires 0 <= i < |tags| => tags[i].domain)
  }

  /** The sources of one domain, in the order they were met. */
  function SourcesOf(tags: seq<Tagged>, domain: string): seq<LayerSource>
  {
    if tags == [] then []
    else
      var last := tags[|tags| - 1];
      SourcesOf(tags[..|tags| - 1], domain) + if last.domain == domain then [last.source] else []
  }

  /** Each domain once, where it first appears, with all its sources. */
  function Resolved(tags: seq<Tagged>): (r: seq<ResolvedDomain>)
    ensures |r| == |Dedup(Names(tags))|
  {
    var domains := Dedup(Names(tags));
    seq(|domains|, i requires 0 <= i < |domains| => ResolvedDomain(domains[i], SourcesOf(tags, domains[i])))
  }

  function TagAll(domains: seq<string>, source: LayerSource): (r: seq<Tagged>)
    ensures |r| == |domains|
  {
    seq(|domains|, i requires 0 <= i < |domains| =>
      Tagged(if NormalizeDomain(domains[i]).Some? then NormalizeDomain(domains[i]).value else "", source))
  }

  function Flatten(layers: seq<Layer>): seq<Tagged>
  {
    if layers == [] then []
    else Flatten(layers[..|layers| - 1]) + TagAll(layers[|layers| - 1].domains, layers[|layers| - 1].source)
  }

  // ---- one step ----

  /** The hash index holds exactly the output's domains, each at its place. */
  ghost predicate IndexAgrees(index: map<string, nat>, output: seq<ResolvedDomain>)
  {
    && (forall d :: d in index ==> index[d] < |output| && output[index[d]].domain == d)
    && (forall i :: 0 <= i < |output| ==> output[i].domain in index && index[output[i].domain] == i)
  }

  lemma {:induction false} NamesSnoc(tags: seq<Tagged>, tag: Tagged)
    ensures Names(tags + [tag]) == Names(tags) + [tag.domain]
  {
  }

  lemma {:induction false} SourcesSnoc(tags: seq<Tagged>, tag: Tagged, domain: string)
    ensures SourcesOf(tags + [tag], domain) ==
            if tag.domain == domain then SourcesOf(tags, domain) + [tag.source] else SourcesOf(tags, domain)
  {
  }

  lemma {:induction false} NoSources(tags: seq<Tagged>, domain: string)
    requires domain !in Names(tags)
    ensures SourcesOf(tags, domain) == []
  {
    if tags != [] {
      var init, last := tags[..|tags| - 1], tags[|tags| - 1];
      assert tags == init + [last];
      NamesSnoc(init, last);
      assert last.domain in Names(tags);
      NoSources(init, domain);
    }
  }

  function Recorded(output: seq<ResolvedDomain>, at: Option<nat>, tag: Tagged): seq<ResolvedDomain>
    requires at.Some? ==> at.value < |output|
  {
    match at
    case Some(i) => output[i := ResolvedDomain(output[i].domain, output[i].sources + [tag.source])]
    case None => output + [ResolvedDomain(tag.domain, [tag.source])]
  }

  lemma {:induction false} ResolvedStep(tags: seq<Tagged>, tag: Tagged, at: Option<nat>)
    requires at.Some? ==> at.value < |Resolved(tags)| && Resolved(tags)[at.value].domain == tag.domain
    requires at.None? ==> tag.domain !in Dedup(Names(tags))
    ensures Resolved(tags + [tag]) == Recorded(Resolved(tags), at, tag)
  {
    hide Dedup, SourcesOf;
    var domains, after := Dedup(Names(tags)), Dedup(Names(tags + [tag]));
    NamesSnoc(tags, tag);
    DedupSnoc(Names(tags), tag.domain);
    DedupFacts(Names(tags));
    DedupFacts(Names(tags + [tag]));
    assert tag.domain in domains <==> at.Some?;
    forall i | 0 <= i < |after|
      ensures Resolved(tags + [tag])[i] == Recorded(Resolved(tags), at, tag)[i]
    {
      SourcesSnoc(tags, tag, after[i]);
      if i == |domains| {
        NoSources(tags, tag.domain);
      }
    }
  }

  lemma {:induction false} IndexFinds(index: map<string, nat>, tags: seq<Tagged>, domain: string)
    requires IndexAgrees(index, Resolved(tags))
    ensures domain in index <==> domain in Dedup(Names(tags))
  {
    hide Dedup, SourcesOf;
    if domain in Dedup(Names(tags)) {
      var i :| 0 <= i < |Dedup(Names(tags))| && Dedup(Names(tags))[i] == domain;
      assert Resolved(tags)[i].domain == domain;
    }
  }

  predicate AllNormal(domains: seq<string>)
  {
    forall d :: d in domains ==> NormalizeDomain(d).Some?
  }

  /** One domain of one layer: found through the index, or appended. */
  method Record(output: seq<ResolvedDomain>, index: map<string, nat>, domain: string, source: LayerSource,
                ghost tags: seq<Tagged>) returns (grown: seq<ResolvedDomain>, indexed: map<string, nat>)
    requires output == Resolved(tags) && IndexAgrees(index, output)
    ensures grown == Resolved(tags + [Tagged(domain, source)]) && IndexAgrees(indexed, grown)
  {
    hide Resolved;
    ghost var tag := Tagged(domain, source);
    IndexFinds(index, tags, domain);
    if domain in index {
      var i := index[domain];
      ResolvedStep(tags, tag, Some(i));
      return output[i := ResolvedDomain(output[i].domain, output[i].sources + [source])], index;
    }
    ResolvedStep(tags, tag, None);
    return output + [ResolvedDomain(domain, [source])], index[domain := |output|];
  }

  /** Grows the output and its index layer by layer; fails on the first entry that is no domain. */
  method ResolveLayers(layers: seq<Layer>) returns (r: Option<seq<ResolvedDomain>>)
    ensures r.Some? <==> forall l :: l in layers ==> AllNormal(l.domains)
    ensures r.Some? ==> r.value == Resolved(Flatten(layers))
  {
    hide NormalizeDomain, Resolved, Flatten, TagAll, IndexAgrees;
    var output: seq<ResolvedDomain> := [];
    var index: map<string, nat> := map[];
    NothingResolved();
    for l := 0 to |layers|
      invariant forall j :: 0 <= j < l ==> AllNormal(layers[j].domains)
      invariant output == Resolved(Flatten(layers[..l])) && IndexAgrees(index, output)
    {
      var layer := layers[l];
      NothingTagged(Flatten(layers[..l]), layer.source);
      for d := 0 to |layer.domains|
        invariant forall j :: 0 <= j < d ==> NormalizeDomain(layer.domains[j]).Some?
        invariant output == Resolved(Flatten(layers[..l]) + TagAll(layer.domains[..d], layer.source))
        invariant IndexAgrees(index, output)
      {
        var value := NormalizeDomain(layer.domains[d]);
        if value.None? {
          assert layer in layers && layer.domains[d] in layer.domains;
          return None;
        }
        TagOneMore(Flatten(layers[..l]), layer.domains, d, layer.source);
        output, index := Record(output, index, value.value, layer.source,
                                Flatten(layers[..l]) + TagAll(layer.domains[..d], layer.source));
      }
      assert layer.domains[..|layer.domains|] == layer.domains;
      FlattenOneMore(layers, l);
    }
    assert layers[..|layers|] == layers;
    return Some(output);
  }

  lemma {:induction false} NothingResolved()
    ensures Resolved(Flatten([])) == [] && IndexAgrees(map[], [])
  {
  }

  lemma {:induction false} NothingTagged(tags: seq<Tagged>, source: LayerSource)
    ensures tags + TagAll([], source) == tags
  {
  }

  lemma {:induction false} TagOneMore(tags: seq<Tagged>, domains: seq<string>, d: nat, source: LayerSource)
    requires d < |domains| && NormalizeDomain(domains[d]).Some?
    ensures tags + TagAll(domains[..d + 1], source) ==
            tags + TagAll(domains[..d], source) + [Tagged(NormalizeDomain(domains[d]).value, source)]
  {
    hide NormalizeDomain;
  }

  lemma {:induction false} FlattenOneMore(layers: seq<Layer>, l: nat)
    requires l < |layers|
    ensures Flatten(layers[..l + 1]) == Flatten(layers[..l]) + TagAll(layers[l].domains, layers[l].source)
  {
    assert layers[..l + 1][..l] == layers[..l];
  }

  // ---- what the output says ----

  /** The sources of the layers that contain a domain, in layer order. */
  function LayersWith(layers: seq<Layer>, domain: string): seq<LayerSource>
  {
    if layers == [] then []
    else
      var last := layers[|layers| - 1];
      LayersWith(layers[..|layers| - 1], domain) + if domain in last.domains then [last.source] else []
  }

  /** A list as it is stored: normal domains, none twice. */
  ghost predicate Stored(domains: seq<string>)
  {
    DistinctList(domains) && forall d :: d in domains ==> ValidPolicyDomain(d)
  }

  lemma {:induction false} StoredTags(domains: seq<string>, source: LayerSource)
    requires forall d :: d in domains ==> ValidPolicyDomain(d)
    ensures Names(TagAll(domains, source)) == domains
    ensures forall i :: 0 <= i < |domains| ==> TagAll(domains, source)[i] == Tagged(domains[i], source)
    ensures AllNormal(domains)
  {
    hide NormalizeDomain, ValidPolicyDomain;
    forall d | d in domains ensures NormalizeDomain(d) == Some(d) {
      ValidIsNormal(d);
    }
    forall i | 0 <= i < |domains| ensures TagAll(domains, source)[i] == Tagged(domains[i], source) {
      assert domains[i] in domains;
    }
  }

  lemma {:induction false} SourcesApart(a: seq<Tagged>, b: seq<Tagged>, domain: string)
    ensures SourcesOf(a + b, domain) == SourcesOf(a, domain) + SourcesOf(b, domain)
  {
    hide SourcesOf;
    SourcesOfNothing(domain);
    if b == [] {
      assert a + b == a && SourcesOf(a, domain) + [] == SourcesOf(a, domain);
    } else {
      var init, last := b[..|b| - 1], b[|b| - 1];
      SourcesApart(a, init, domain);
      assert a + b == a + init + [last] && b == init + [last];
      SourcesSnoc(a + init, last, domain);
      SourcesSnoc(init, last, domain);
      Assoc(SourcesOf(a, domain), SourcesOf(init, domain), [last.source]);
    }
  }

  lemma {:induction false} SourcesOfNothing(domain: string)
    ensures SourcesOf([], domain) == []
  {
  }

  lemma {:induction false} SourcesInLayer(domains: seq<string>, source: LayerSource, domain: string)
    requires Stored(domains)
    ensures SourcesOf(TagAll(domains, source), domain) == if domain in domains then [source] else []
  {
    hide ValidPolicyDomain, TagAll, SourcesOf, NormalizeDomain, Names;
    StoredTags(domains, source);
    if domains == [] {
      SourcesOfNothing(domain);
      assert TagAll(domains, source) == [];
    } else {
      var init, last := domains[..|domains| - 1], domains[|domains| - 1];
      assert domains == init + [last];
      StoredTags(init, source);
      SourcesInLayer(init, source, domain);
      assert TagAll(domains, source) == TagAll(init, source) + [Tagged(last, source)];
      SourcesSnoc(TagAll(init, source), Tagged(last, source), domain);
    }
  }

  lemma {:induction false} SourcesAreLayers(layers: seq<Layer>, domain: string)
    requires forall l :: l in layers ==> Stored(l.domains)
    ensures SourcesOf(Flatten(layers), domain) == LayersWith(layers, domain)
  {
    hide Stored, TagAll;
    if layers != [] {
      var init, last := layers[..|layers| - 1], layers[|layers| - 1];
      assert last in layers && forall l :: l in init ==> l in layers;
      SourcesAreLayers(init, domain);
      SourcesApart(Flatten(init), TagAll(last.domains, last.source), domain);
      SourcesInLayer(last.domains, last.source, domain);
    }
  }

  /** The domains of all layers, one layer after the other. */
  function Listed(layers: seq<Layer>): seq<string>
  {
    if layers == [] then [] else Listed(layers[..|layers| - 1]) + layers[|layers| - 1].domains
  }

  lemma {:induction false} NamesListed(layers: seq<Layer>)
    requires forall l :: l in layers ==> Stored(l.domains)
    ensures Names(Flatten(layers)) == Listed(layers)
  {
    hide ValidPolicyDomain, TagAll, DistinctList;
    if layers != [] {
      var init, last := layers[..|layers| - 1], layers[|layers| - 1];
      NamesListed(init);
      StoredTags(last.domains, last.source);
      var a, b := Flatten(init), TagAll(last.domains, last.source);
      assert Names(a + b) == Names(a) + Names(b);
    }
  }

  /** Of stored lists, resolution never fails; it gives every domain exactly once, in the order of first
      appearance through the layers, and as its sources exactly the layers that contain it, in order. */
  lemma {:induction false} ResolvedMeaning(layers: seq<Layer>)
    requires forall l :: l in layers ==> Stored(l.domains)
    ensures forall l :: l in layers ==> AllNormal(l.domains)
    ensures var output := Resolved(Flatten(layers));
            && (forall i, j :: 0 <= i < j < |output| ==> output[i].domain != output[j].domain)
            && (forall i, j :: 0 <= i < j < |output| ==>
                  MetBefore(Listed(layers), output[i].domain, output[j].domain))
            && (forall i :: 0 <= i < |output| ==> output[i].sources == LayersWith(layers, output[i].domain))
            && (forall d :: Lists(output, d) <==> InSomeLayer(layers, d))
  {
    hide MetBefore, Listed, Names, Stored, Flatten, NormalizeDomain, Dedup, SourcesOf, LayersWith;
    var tags := Flatten(layers);
    DedupFacts(Names(tags));
    NamesListed(layers);
    forall i: nat, j: nat | i < j < |Dedup(Names(tags))|
      ensures MetBefore(Listed(layers), Dedup(Names(tags))[i], Dedup(Names(tags))[j])
    {
      DedupOrder(Names(tags), i, j);
    }
    forall l | l in layers ensures AllNormal(l.domains) {
      StoredIsNormal(l.domains, l.source);
    }
    var output := Resolved(tags);
    forall i | 0 <= i < |output| ensures output[i].sources == LayersWith(layers, output[i].domain) {
      SourcesAreLayers(layers, output[i].domain);
    }
    forall d ensures Lists(output, d) <==> InSomeLayer(layers, d) {
      NamesOfLayers(layers, d);
      if d in Names(tags) {
        var i :| 0 <= i < |Dedup(Names(tags))| && Dedup(Names(tags))[i] == d;
        assert output[i].domain == d;
      }
    }
  }

  lemma {:induction false} ResolvedSources(layers: seq<Layer>, output: seq<ResolvedDomain>, i: nat)
    requires forall l :: l in layers ==> Stored(l.domains)
    requires output == Resolved(Flatten(layers)) && i < |output|
    ensures output[i].sources == LayersWith(layers, output[i].domain)
  {
    hide Stored, Flatten, Dedup, SourcesOf, LayersWith;
    SourcesAreLayers(layers, output[i].domain);
  }

  lemma {:induction false} StoredIsNormal(domains: seq<string>, source: LayerSource)
    requires Stored(domains)
    ensures AllNormal(domains)
  {
    hide ValidPolicyDomain, NormalizeDomain;
    StoredTags(domains, source);
  }

  predicate Lists(output: seq<ResolvedDomain>, domain: string)
  {
    exists i :: 0 <= i < |output| && output[i].domain == domain
  }

  predicate InSomeLayer(layers: seq<Layer>, domain: string)
  {
    exists l :: l in layers && domain in l.domains
  }

  lemma {:induction false} NamesOfLayers(layers: seq<Layer>, domain: string)
    requires forall l :: l in layers ==> Stored(l.domains)
    ensures domain in Names(Flatten(layers)) <==> InSomeLayer(layers, domain)
  {
    hide ValidPolicyDomain, TagAll, DistinctList;
    if layers != [] {
      var init, last := layers[..|layers| - 1], layers[|layers| - 1];
      assert layers == init + [last];
      NamesOfLayers(init, domain);
      StoredTags(last.domains, last.source);
      var a, b := Flatten(init), TagAll(last.domains, last.source);
      assert Names(a + b) == Names(a) + Names(b);
      assert InSomeLayer(layers, domain) <==> InSomeLayer(init, domain) || domain in last.domains;
    }
  }
}
