/**
 Batch deny over the stored policy: nothing changes unless the whole batch is in the selected scope, and
 the report says what else still allows each domain. Labels stand for the strings the report prints.
 */
module PolicyStores {
  import opened HttpText
  import opened PolicyFiles
  import opened PolicyLayers

  const BASE_ALLOWLIST: seq<string> := [
    "github.com", "githubusercontent.com", "registry.npmjs.org", "pypi.org", "files.pythonhosted.org", "astral.sh"
  ]

  datatype Harness = Harness(name: string, domains: seq<string>)

  /** A project is known by the key of its path; the key is a digest, here any value. */
  datatype Identity = Identity(key: string, path: string)

  datatype Project = Project(identity: Identity, domains: seq<string>)

  datatype Run = Run(id: string, project: Identity, harness: Harness, base: seq<string>, domains: seq<string>)

  datatype Policy = Policy(global: seq<string>, projects: seq<Project>, runs: seq<Run>)

  datatype Label = OfBase | OfHarness(name: string) | OfGlobal | OfProject(path: string) | OfRun(id: string)

  datatype DenyEntry = DenyEntry(domain: string, sources: seq<Label>)

  datatype DenyReport = DenyReport(selected: Label, missing: seq<DenyEntry>, remaining: seq<DenyEntry>)

  datatype DenyResult = Denied(report: DenyReport) | BadInput | NoPolicyFile

  // ---- provenance ----

  function HarnessLabels(harnesses: seq<Harness>, domain: string): seq<Label>
  {
    if harnesses == [] then []
    else
      var last := harnesses[|harnesses| - 1];
      HarnessLabels(harnesses[..|harnesses| - 1], domain) +
      if domain in last.domains then [OfHarness(last.name)] else []
  }

  function ProjectLabels(projects: seq<Project>, domain: string): seq<Label>
  {
    if projects == [] then []
    else
      var last := projects[|projects| - 1];
      ProjectLabels(projects[..|projects| - 1], domain) +
      if domain in last.domains then [OfProject(last.identity.path)] else []
  }

  function RunLabels(runs: seq<Run>, key: Option<string>, domain: string): seq<Label>
  {
    if runs == [] then []
    else
      var last := runs[|runs| - 1];
      RunLabels(runs[..|runs| - 1], key, domain) +
      if (key.Some? ==> key.value == last.project.key) && domain in last.domains then [OfRun(last.id)] else []
  }

  /** Everything in the reporting scope that allows a domain, in report order: a project's scope leaves
      out other projects and other projects' runs. */
  function Candidates(policy: Policy, harnesses: seq<Harness>, key: Option<string>, domain: string): seq<Label>
  {
    (if domain in BASE_ALLOWLIST then [OfBase] else []) +
    HarnessLabels(harnesses, domain) +
    (if domain in policy.global then [OfGlobal] else []) +
    (if key.None? then ProjectLabels(policy.projects, domain) else []) +
    RunLabels(policy.runs, key, domain)
  }

  function Push(sources: seq<Label>, source: Label, selected: Option<Label>): seq<Label>
  {
    if selected == Some(source) || source in sources then sources else sources + [source]
  }

  function PushAll(candidates: seq<Label>, selected: Option<Label>): seq<Label>
  {
    if candidates == [] then []
    else Push(PushAll(candidates[..|candidates| - 1], selected), candidates[|candidates| - 1], selected)
  }

  lemma {:induction false} PushSnoc(candidates: seq<Label>, last: Label, selected: Option<Label>)
    ensures PushAll(candidates + [last], selected) == Push(PushAll(candidates, selected), last, selected)
  {
  }

  lemma {:induction false} PushAfter(seen: seq<Label>, more: seq<Label>, last: Label, selected: Option<Label>)
    ensures PushAll(seen + (more + [last]), selected) == Push(PushAll(seen + more, selected), last, selected)
  {
    Assoc(seen, more, [last]);
    PushSnoc(seen + more, last, selected);
  }

  lemma {:induction false} NothingPushed(selected: Option<Label>)
    ensures PushAll([], selected) == []
  {
  }

  /** Exactly the candidates other than the selected scope, each once. */
  lemma {:induction false} PushAllMeaning(candidates: seq<Label>, selected: Option<Label>)
    ensures forall l :: l in PushAll(candidates, selected) <==> l in candidates && selected != Some(l)
    ensures DistinctList(PushAll(candidates, selected))
  {
    if candidates != [] {
      var init, last := candidates[..|candidates| - 1], candidates[|candidates| - 1];
      PushAllMeaning(init, selected);
      assert candidates == init + [last];
    }
  }

  function OtherSources(policy: Policy, harnesses: seq<Harness>, key: Option<string>, domain: string,
                        selected: Option<Label>): seq<Label>
  {
    PushAll(Candidates(policy, harnesses, key, domain), selected)
  }

  /** The report's sources, one by one. */
  lemma {:induction false} OtherSourcesMeaning(policy: Policy, harnesses: seq<Harness>, key: Option<string>,
                                            domain: string,
                                               selected: Option<Label>, source: Label)
    ensures source in OtherSources(policy, harnesses, key, domain, selected) <==>
            && selected != Some(source)
            && match source
               case OfBase => domain in BASE_ALLOWLIST
               case OfHarness(name) => exists h :: h in harnesses && h.name == name && domain in h.domains
               case OfGlobal => domain in policy.global
               case OfProject(path) =>
                 key.None? && exists p :: p in policy.projects && p.identity.path == path && domain in p.domains
               case OfRun(id) =>
                 exists r :: r in policy.runs && r.id == id &&
                   (key.Some? ==> key.value == r.project.key) && domain in r.domains
    ensures DistinctList(OtherSources(policy, harnesses, key, domain, selected))
  {
    hide BASE_ALLOWLIST;
    PushAllMeaning(Candidates(policy, harnesses, key, domain), selected);
    HarnessLabelsMeaning(harnesses, domain, source);
    ProjectLabelsMeaning(policy.projects, domain, source);
    RunLabelsMeaning(policy.runs, key, domain, source);
  }

  lemma {:induction false} HarnessLabelsMeaning(harnesses: seq<Harness>, domain: string, source: Label)
    ensures source in HarnessLabels(harnesses, domain) <==>
            source.OfHarness? && exists h :: h in harnesses && h.name == source.name && domain in h.domains
  {
    if harnesses != [] {
      var init, last := harnesses[..|harnesses| - 1], harnesses[|harnesses| - 1];
      HarnessLabelsMeaning(init, domain, source);
      assert harnesses == init + [last];
    }
  }

  lemma {:induction false} ProjectLabelsMeaning(projects: seq<Project>, domain: string, source: Label)
    ensures source in ProjectLabels(projects, domain) <==>
            source.OfProject? && exists p :: p in projects && p.identity.path == source.path && domain in p.domains
  {
    if projects != [] {
      var init, last := projects[..|projects| - 1], projects[|projects| - 1];
      ProjectLabelsMeaning(init, domain, source);
      assert projects == init + [last];
    }
  }

  lemma {:induction false} RunLabelsMeaning(runs: seq<Run>, key: Option<string>, domain: string, source: Label)
    ensures source in RunLabels(runs, key, domain) <==>
            source.OfRun? &&
            exists r :: r in runs && r.id == source.id &&
              (key.Some? ==> key.value == r.project.key) && domain in r.domains
  {
    if runs != [] {
      var init, last := runs[..|runs| - 1], runs[|runs| - 1];
      RunLabelsMeaning(init, key, domain, source);
      assert runs == init + [last];
    }
  }

  // ---- lists ----

  /** `retain`: what is not removed stays, in order. */
  function Kept(domains: seq<string>, remove: set<string>): seq<string>
  {
    if domains == [] then []
    else
      var last := domains[|domains| - 1];
      Kept(domains[..|domains| - 1], remove) + if last in remove then [] else [last]
  }

  lemma {:induction false} KeptStored(domains: seq<string>, remove: set<string>)
    requires Stored(domains)
    ensures Stored(Kept(domains, remove))
    ensures forall d :: d in Kept(domains, remove) <==> d in domains && d !in remove
  {
    hide ValidPolicyDomain;
    if domains != [] {
      var init, last := domains[..|domains| - 1], domains[|domains| - 1];
      KeptStored(init, remove);
      assert domains == init + [last];
    }
  }

  function Missing(batch: seq<string>, selected: seq<string>): seq<string>
  {
    if batch == [] then []
    else
      var last := batch[|batch| - 1];
      Missing(batch[..|batch| - 1], selected) + if last in selected then [] else [last]
  }

  lemma {:induction false} MissingMeaning(batch: seq<string>, selected: seq<string>)
    ensures forall d :: d in Missing(batch, selected) <==> d in batch && d !in selected
  {
    if batch != [] {
      var init, last := batch[..|batch| - 1], batch[|batch| - 1];
      MissingMeaning(init, selected);
      assert batch == init + [last];
    }
  }

  lemma {:induction false} OnlyNothingIsMissingNowhere(items: seq<string>)
    ensures Missing(Dedup(items), []) == [] ==> items == []
  {
    DedupFacts(items);
    if items != [] {
      assert items[0] in items;
    }
  }

  function Entries(policy: Policy, harnesses: seq<Harness>, key: Option<string>, domains: seq<string>,
                   selected: Option<Label>): (r: seq<DenyEntry>)
    ensures |r| == |domains|
  {
    seq(|domains|, i requires 0 <= i < |domains| =>
      DenyEntry(domains[i], OtherSources(policy, harnesses, key, domains[i], selected)))
  }

  function FindProject(projects: seq<Project>, identity: Identity): Option<nat>
  {
    if projects == [] then None
    else
      match FindProject(projects[..|projects| - 1], identity)
      case Some(i) => Some(i)
      case None => if projects[|projects| - 1].identity == identity then Some(|projects| - 1) else None
  }

  lemma {:induction false} FindProjectFacts(projects: seq<Project>, identity: Identity)
    ensures FindProject(projects, identity).Some? ==>
              FindProject(projects, identity).value < |projects| &&
              projects[FindProject(projects, identity).value].identity == identity
    ensures FindProject(projects, identity).None? ==>
            forall i :: 0 <= i < |projects| ==> projects[i].identity != identity
  {
    if projects != [] {
      FindProjectFacts(projects[..|projects| - 1], identity);
    }
  }

  // ---- the selected scope ----

  function Selected(policy: Policy, project: Option<Identity>): (r: seq<string>)
  {
    if project.None? then policy.global
    else
      FindProjectFacts(policy.projects, project.value);
      match FindProject(policy.projects, project.value)
      case Some(i) => policy.projects[i].domains
      case None => []
  }

  predicate HasFile(policy: Policy, project: Option<Identity>)
  {
    project.None? || FindProject(policy.projects, project.value).Some?
  }

  function SelectedLabel(project: Option<Identity>): Label
  {
    if project.None? then OfGlobal else OfProject(project.value.path)
  }

  function Key(project: Option<Identity>): Option<string>
  {
    if project.None? then None else Some(project.value.key)
  }

  /** The policy with the selected scope's list replaced and nothing else. */
  function WithSelected(policy: Policy, project: Option<Identity>, domains: seq<string>): Policy
    requires HasFile(policy, project)
  {
    if project.None? then policy.(global := domains)
    else
      FindProjectFacts(policy.projects, project.value);
      var i := FindProject(policy.projects, project.value).value;
      policy.(projects := policy.projects[i := Project(project.value, domains)])
  }

  /** In the report of a refused batch the selected scope is left out by construction already. */
  lemma {:induction false} MissingIsNotSelected(policy: Policy, harnesses: seq<Harness>, project: Option<Identity>,
                                             domain: string)
    requires domain !in Selected(policy, project)
    ensures forall s :: s in OtherSources(policy, harnesses, Key(project), domain, Some(SelectedLabel(project))) <==>
                        s in OtherSources(policy, harnesses, Key(project), domain, None)
  {
    hide BASE_ALLOWLIST, OtherSources;
    forall s
      ensures s in OtherSources(policy, harnesses, Key(project), domain, Some(SelectedLabel(project))) <==>
              s in OtherSources(policy, harnesses, Key(project), domain, None)
    {
      OtherSourcesMeaning(policy, harnesses, Key(project), domain, Some(SelectedLabel(project)), s);
      OtherSourcesMeaning(policy, harnesses, Key(project), domain, None, s);
    }
  }

  // ---- runs as the snapshot shows them ----

  function RunIds(sources: seq<LayerSource>): seq<string>
  {
    if sources == [] then []
    else
      var last := sources[|sources| - 1];
      RunIds(sources[..|sources| - 1]) + if last.RunLayer? then [last.id] else []
  }

  function PushIds(sources: seq<Label>, ids: seq<string>, selected: Option<Label>): seq<Label>
  {
    if ids == [] then sources
    else Push(PushIds(sources, ids[..|ids| - 1], selected), OfRun(ids[|ids| - 1]), selected)
  }

  /** A run's resolution names the run itself exactly for the domains it brought along. */
  ghost predicate RunSourcesRight(run: Run, effective: seq<ResolvedDomain>)
  {
    && (forall i :: 0 <= i < |effective| ==>
          RunIds(effective[i].sources) == if effective[i].domain in run.domains then [run.id] else [])
    && (forall d :: d in run.domains ==> Lists(effective, d))
  }

  function SharedLayers(run: Run, global: seq<string>, project: seq<string>): seq<Layer>
  {
    [Layer(run.base, BaseLayer), Layer(run.harness.domains, HarnessLayer(run.harness.name)),
     Layer(global, GlobalLayer), Layer(project, ProjectLayer(run.project.path))]
  }

  function RunLayers(run: Run, global: seq<string>, project: seq<string>): seq<Layer>
  {
    SharedLayers(run, global, project) + [Layer(run.domains, RunLayer(run.id))]
  }

  ghost predicate StoredRun(run: Run)
  {
    Stored(run.base) && Stored(run.harness.domains) && Stored(run.domains)
  }

  lemma {:induction false} RunIdsSnoc(sources: seq<LayerSource>, last: LayerSource)
    ensures RunIds(sources + [last]) == if last.RunLayer? then RunIds(sources) + [last.id] else RunIds(sources)
  {
  }

  lemma {:induction false} NoRunIds(layers: seq<Layer>, domain: string)
    requires forall l :: l in layers ==> !l.source.RunLayer?
    ensures RunIds(LayersWith(layers, domain)) == []
  {
    hide RunIds;
    if layers == [] {
      NothingRun();
    } else {
      var init, last := layers[..|layers| - 1], layers[|layers| - 1];
      NoRunIds(init, domain);
      assert last in layers && forall l :: l in init ==> l in layers;
      RunIdsSnoc(LayersWith(init, domain), last.source);
      assert LayersWith(init, domain) + [] == LayersWith(init, domain);
    }
  }

  lemma {:induction false} NothingRun()
    ensures RunIds([]) == []
  {
  }

  lemma {:induction false} LastLayerIds(layers: seq<Layer>, last: Layer, domain: string)
    requires forall l :: l in layers ==> !l.source.RunLayer?
    requires last.source.RunLayer?
    ensures RunIds(LayersWith(layers + [last], domain)) == if domain in last.domains then [last.source.id] else []
  {
    hide RunIds;
    assert (layers + [last])[..|layers|] == layers;
    NoRunIds(layers, domain);
    RunIdsSnoc(LayersWith(layers, domain), last.source);
    assert LayersWith(layers, domain) + [] == LayersWith(layers, domain);
  }

  lemma {:induction false} LayersStored(run: Run, global: seq<string>, project: seq<string>)
    requires StoredRun(run) && Stored(global) && Stored(project)
    ensures forall l :: l in RunLayers(run, global, project) ==> Stored(l.domains)
  {
    hide Stored;
  }

  lemma {:induction false} RunResolvedRight(run: Run, global: seq<string>, project: seq<string>)
    requires StoredRun(run) && Stored(global) && Stored(project)
    ensures var layers := RunLayers(run, global, project);
            && (forall l :: l in layers ==> AllNormal(l.domains))
            && RunSourcesRight(run, Resolved(Flatten(layers)))
  {
    hide Stored, Resolved, Flatten, AllNormal, LayersWith, RunIds, SharedLayers, InSomeLayer, Lists;
    var shared, last := SharedLayers(run, global, project), Layer(run.domains, RunLayer(run.id));
    var layers := shared + [last];
    LayersStored(run, global, project);
    ResolvedMeaning(layers);
    var effective := Resolved(Flatten(layers));
    SharedAreNoRuns(run, global, project);
    forall i | 0 <= i < |effective|
      ensures RunIds(effective[i].sources) == if effective[i].domain in run.domains then [run.id] else []
    {
      LastLayerIds(shared, last, effective[i].domain);
      ResolvedSources(layers, effective, i);
    }
    forall d | d in run.domains ensures Lists(effective, d) {
      LastLayerLists(shared, last, d);
      assert InSomeLayer(layers, d);
    }
  }

  lemma {:induction false} LastLayerLists(layers: seq<Layer>, last: Layer, domain: string)
    requires domain in last.domains
    ensures InSomeLayer(layers + [last], domain)
  {
  }

  lemma {:induction false} SharedAreNoRuns(run: Run, global: seq<string>, project: seq<string>)
    ensures forall l :: l in SharedLayers(run, global, project) ==> !l.source.RunLayer?
  {
  }

  method FindDomain(effective: seq<ResolvedDomain>, domain: string) returns (at: Option<nat>)
    ensures at.Some? ==> at.value < |effective| && effective[at.value].domain == domain
    ensures at.None? ==> forall i :: 0 <= i < |effective| ==> effective[i].domain != domain
  {
    for i := 0 to |effective|
      invariant forall j :: 0 <= j < i ==> effective[j].domain != domain
    {
      if effective[i].domain == domain {
        return Some(i);
      }
    }
    return None;
  }

  /** The last loop of the report: the run sources among a resolved domain's sources. */
  method AddRunSources(sources: seq<Label>, run: Run, effective: seq<ResolvedDomain>, domain: string,
                       selected: Option<Label>) returns (r: seq<Label>)
    requires RunSourcesRight(run, effective)
    ensures r == if domain in run.domains then Push(sources, OfRun(run.id), selected) else sources
  {
    hide RunIds, PushIds, Push;
    var at := FindDomain(effective, domain);
    if at.None? {
      return sources;
    }
    NothingRun();
    PushIdsSnoc(sources, [], run.id, selected);
    var found := effective[at.value].sources;
    r := sources;
    for i := 0 to |found|
      invariant r == PushIds(sources, RunIds(found[..i]), selected)
    {
      assert found[..i + 1] == found[..i] + [found[i]];
      RunIdsSnoc(found[..i], found[i]);
      if found[i].RunLayer? {
        PushIdsSnoc(sources, RunIds(found[..i]), found[i].id, selected);
        r := Push(r, OfRun(found[i].id), selected);
      }
    }
    assert found[..|found|] == found;
    PushIdsSnoc(sources, [], run.id, selected);
    assert [] + [run.id] == [run.id];
  }

  lemma {:induction false} PushIdsSnoc(sources: seq<Label>, ids: seq<string>, last: string, selected: Option<Label>)
    ensures PushIds(sources, ids + [last], selected) == Push(PushIds(sources, ids, selected), OfRun(last), selected)
    ensures PushIds(sources, [], selected) == sources
  {
  }

  // ---- the store ----

  ghost predicate StoredPolicy(policy: Policy)
  {
    && Stored(policy.global)
    && (forall p :: p in policy.projects ==> Stored(p.domains))
    && (forall i, j :: 0 <= i < j < |policy.projects| ==>
          policy.projects[i].identity.key != policy.projects[j].identity.key)
    && (forall r :: r in policy.runs ==> StoredRun(r) && FindProject(policy.projects, r.project).Some?)
  }

  class PolicyStore {
    const harnesses: seq<Harness>
    var global: seq<string>
    var projects: seq<Project>
    var runs: seq<Run>

    function State(): Policy
      reads this
    {
      Policy(global, projects, runs)
    }

    ghost predicate Valid()
      reads this
    {
      StoredPolicy(State())
    }

    /** `snapshot_locked`, as far as runs go: every run resolved against the policy of the moment. */
    method Snapshot() returns (effective: seq<seq<ResolvedDomain>>)
      requires Valid()
      ensures |effective| == |runs| && forall i :: 0 <= i < |runs| ==> RunSourcesRight(runs[i], effective[i])
    {
      hide Stored, RunSourcesRight, Resolved, Flatten, AllNormal;
      effective := [];
      for i := 0 to |runs|
        invariant |effective| == i && forall j :: 0 <= j < i ==> RunSourcesRight(runs[j], effective[j])
      {
        var run := runs[i];
        assert run in runs;
        FindProjectFacts(projects, run.project);
        var project := projects[FindProject(projects, run.project).value];
        assert project in projects;
        var layers := RunLayers(run, global, project.domains);
        RunResolvedRight(run, global, project.domains);
        var resolved := ResolveLayers(layers);
        effective := effective + [resolved.value];
      }
    }

    method SourcesFor(key: Option<string>, domain: string, selected: Option<Label>, effective: seq<seq<ResolvedDomain>>)
      returns (sources: seq<Label>)
      requires |effective| == |runs| && forall i :: 0 <= i < |runs| ==> RunSourcesRight(runs[i], effective[i])
      ensures sources == OtherSources(State(), harnesses, key, domain, selected)
    {
      hide RunSourcesRight, BASE_ALLOWLIST, Push, PushAll, HarnessLabels, ProjectLabels, RunLabels;
      NothingPushed(selected);
      ghost var seen: seq<Label> := [];
      sources := [];
      if domain in BASE_ALLOWLIST {
        PushSnoc(seen, OfBase, selected);
        sources := Push(sources, OfBase, selected);
        seen := seen + [OfBase];
      }
      sources := AddHarnesses(seen, sources, domain, selected);
      seen := seen + HarnessLabels(harnesses, domain);
      if domain in global {
        PushSnoc(seen, OfGlobal, selected);
        sources := Push(sources, OfGlobal, selected);
        seen := seen + [OfGlobal];
      }
      if key.None? {
        sources := AddProjects(seen, sources, domain, selected);
        seen := seen + ProjectLabels(projects, domain);
      }
      sources := AddRuns(seen, sources, key, domain, selected, effective);
      seen := seen + RunLabels(runs, key, domain);
      assert seen == Candidates(State(), harnesses, key, domain);
    }

    method AddHarnesses(ghost seen: seq<Label>, sources: seq<Label>, domain: string, selected: Option<Label>)
      returns (r: seq<Label>)
      requires sources == PushAll(seen, selected)
      ensures r == PushAll(seen + HarnessLabels(harnesses, domain), selected)
    {
      hide Push, PushAll;
      r := sources;
      assert seen + HarnessLabels(harnesses[..0], domain) == seen;
      for i := 0 to |harnesses|
        invariant r == PushAll(seen + HarnessLabels(harnesses[..i], domain), selected)
      {
        assert harnesses[..i + 1][..i] == harnesses[..i];
        ghost var before := HarnessLabels(harnesses[..i], domain);
        if domain in harnesses[i].domains {
          PushAfter(seen, before, OfHarness(harnesses[i].name), selected);
          r := Push(r, OfHarness(harnesses[i].name), selected);
        } else {
          assert before + [] == before;
        }
      }
      assert harnesses[..|harnesses|] == harnesses;
    }

    method AddProjects(ghost seen: seq<Label>, sources: seq<Label>, domain: string, selected: Option<Label>)
      returns (r: seq<Label>)
      requires sources == PushAll(seen, selected)
      ensures r == PushAll(seen + ProjectLabels(projects, domain), selected)
    {
      hide Push, PushAll;
      r := sources;
      assert seen + ProjectLabels(projects[..0], domain) == seen;
      for i := 0 to |projects|
        invariant r == PushAll(seen + ProjectLabels(projects[..i], domain), selected)
      {
        assert projects[..i + 1][..i] == projects[..i];
        ghost var before := ProjectLabels(projects[..i], domain);
        if domain in projects[i].domains {
          PushAfter(seen, before, OfProject(projects[i].identity.path), selected);
          r := Push(r, OfProject(projects[i].identity.path), selected);
        } else {
          assert before + [] == before;
        }
      }
      assert projects[..|projects|] == projects;
    }

    method AddRuns(ghost seen: seq<Label>, sources: seq<Label>, key: Option<string>, domain: string,
                   selected: Option<Label>, effective: seq<seq<ResolvedDomain>>) returns (r: seq<Label>)
      requires sources == PushAll(seen, selected)
      requires |effective| == |runs| && forall i :: 0 <= i < |runs| ==> RunSourcesRight(runs[i], effective[i])
      ensures r == PushAll(seen + RunLabels(runs, key, domain), selected)
    {
      hide Push, PushAll, RunSourcesRight;
      r := sources;
      assert seen + RunLabels(runs[..0], key, domain) == seen;
      for i := 0 to |runs|
        invariant r == PushAll(seen + RunLabels(runs[..i], key, domain), selected)
      {
        assert runs[..i + 1][..i] == runs[..i];
        ghost var before := RunLabels(runs[..i], key, domain);
        PushAfter(seen, before, OfRun(runs[i].id), selected);
        assert before + [] == before;
        if key.None? || key.value == runs[i].project.key {
          r := AddRunSources(r, runs[i], effective[i], domain, selected);
        }
      }
      assert runs[..|runs|] == runs;
    }

    method Report(key: Option<string>, domains: seq<string>, selected: Option<Label>,
                  effective: seq<seq<ResolvedDomain>>)
      returns (entries: seq<DenyEntry>)
      requires |effective| == |runs| && forall i :: 0 <= i < |runs| ==> RunSourcesRight(runs[i], effective[i])
      ensures entries == Entries(State(), harnesses, key, domains, selected)
    {
      hide RunSourcesRight, OtherSources;
      entries := [];
      for i := 0 to |domains|
        invariant |entries| == i
        invariant forall j :: 0 <= j < i ==>
                    entries[j] == DenyEntry(domains[j], OtherSources(State(), harnesses, key, domains[j], selected))
      {
        var sources := SourcesFor(key, domains[i], selected, effective);
        entries := entries + [DenyEntry(domains[i], sources)];
      }
    }

    /** Removes the whole batch from the selected scope, or nothing at all. The report describes the
        policy that was actually left behind. The expectation that there is a file to write can fail
        for an empty batch only, which the command line refuses before it gets here. */
    method Deny(project: Option<Identity>, domains: seq<string>) returns (r: DenyResult)
      requires Valid()
      modifies this`global, this`projects
      ensures Valid() && runs == old(runs)
      ensures r.BadInput? <==> !AllNormal(domains)
      ensures var batch := Dedup(NormalizedEach(domains));
              var before := old(State());
              var missing := Missing(batch, Selected(before, project));
              match r
              case BadInput => State() == before
              case NoPolicyFile => domains == [] && !HasFile(before, project) && State() == before
              case Denied(report) =>
                && report.selected == SelectedLabel(project)
                && if missing != [] then
                     && State() == before && report.remaining == []
                     && report.missing ==
                         Entries(before, harnesses, Key(project), missing, Some(SelectedLabel(project)))
                   else
                     && HasFile(before, project) && report.missing == []
                     && State() == WithSelected(before, project, Kept(Selected(before, project), set d | d in batch))
                     && report.remaining == Entries(State(), harnesses, Key(project), batch, None)
    {
      hide Stored, NormalizeDomain, Dedup, NormalizedEach, RunSourcesRight, OtherSources, Kept, Missing, RunIds;
      hide FindProject, Entries;
      var normalized := NormalizeDomains(domains);
      if normalized.None? {
        return BadInput;
      }
      var batch := normalized.value;
      var effective := Snapshot();
      var selected := Selected(State(), project);
      MissingMeaning(batch, selected);
      var missing := Missing(batch, selected);
      if missing != [] {
        var entries := Report(Key(project), missing, Some(SelectedLabel(project)), effective);
        return Denied(DenyReport(SelectedLabel(project), entries, []));
      }
      if !HasFile(State(), project) {
        OnlyNothingIsMissingNowhere(NormalizedEach(domains));
        return NoPolicyFile;
      }
      var retained := Kept(selected, set d | d in batch);
      if project.None? {
        KeptStored(global, set d | d in batch);
        global := retained;
      } else {
        FindProjectFacts(projects, project.value);
        var i := FindProject(projects, project.value).value;
        assert projects[i] in projects;
        KeptStored(projects[i].domains, set d | d in batch);
        ReplacedProject(State(), i, project.value, retained);
        projects := projects[i := Project(project.value, retained)];
      }
      var entries := Report(Key(project), batch, None, effective);
      return Denied(DenyReport(SelectedLabel(project), [], entries));
    }
  }

  lemma {:induction false} ReplacedProject(policy: Policy, i: nat, identity: Identity, domains: seq<string>)
    requires StoredPolicy(policy) && i < |policy.projects| && policy.projects[i].identity == identity
    requires Stored(domains)
    ensures StoredPolicy(policy.(projects := policy.projects[i := Project(identity, domains)]))
  {
    hide Stored;
    var after := policy.projects[i := Project(identity, domains)];
    forall r | r in policy.runs ensures FindProject(after, r.project).Some? {
      SameIdentities(policy.projects, after, r.project);
    }
    forall p | p in after ensures Stored(p.domains) {
      var j :| 0 <= j < |after| && after[j] == p;
      assert j != i ==> p == policy.projects[j] && p in policy.projects;
    }
  }

  lemma {:induction false} SameIdentities(a: seq<Project>, b: seq<Project>, identity: Identity)
    requires |a| == |b| && forall i :: 0 <= i < |a| ==> a[i].identity == b[i].identity
    ensures FindProject(a, identity) == FindProject(b, identity)
  {
    if a != [] {
      SameIdentities(a[..|a| - 1], b[..|b| - 1], identity);
    }
  }
}
