/** Export and merge are inverse: every reference of an export resolves inside it, and merging
    it into an empty config gives back exactly the exported objects. */
module ExportTheorems {
  import opened Wrappers
  import opened Bytes
  import opened Reachability
  import opened Tags
  import opened Fragments
  import opened MergeTheorems

  // ------------------------------------------ merging a self-contained fragment

  /** Every outbound has a non-empty tag, and no two of them share one. */
  ghost predicate WellTagged(os: seq<Outbound>)
  {
    && (forall i :: 0 <= i < |os| ==> os[i].tag.Some? && os[i].tag.value != "")
    && (forall i, j :: 0 <= i < j < |os| ==> os[i].Tag() != os[j].Tag())
  }

  function EndpointOf(n: Outbound): Endpoint
    requires n.HasPort()
  {
    (n.Host(), n.port.value)
  }

  ghost predicate DistinctEndpoints(nodes: seq<Outbound>)
  {
    && (forall i :: 0 <= i < |nodes| ==> nodes[i].HasPort())
    && (forall i, j :: 0 <= i < j < |nodes| ==> EndpointOf(nodes[i]) != EndpointOf(nodes[j]))
  }

  predicate Identity(remap: map<string, string>) { forall x :: x in remap ==> remap[x] == x }

  /** Groups as pairs of an object and its own tag. */
  function Paired(gs: seq<Outbound>): (r: seq<(Outbound, string)>)
    ensures |r| == |gs| && forall i :: 0 <= i < |r| ==> r[i] == (gs[i], gs[i].Tag())
  {
    seq(|gs|, i requires 0 <= i < |gs| => (gs[i], gs[i].Tag()))
  }

  function OwnNodes(gs: seq<Outbound>): (r: seq<Node>)
    ensures |r| == |gs| && forall i :: 0 <= i < |r| ==> r[i] == Node(gs[i].Tag(), gs[i].members)
  {
    seq(|gs|, i requires 0 <= i < |gs| => Node(gs[i].Tag(), gs[i].members))
  }

  function TagSet(os: seq<Outbound>): set<string> { set i | 0 <= i < |os| :: os[i].Tag() }

  /** A fragment whose references all resolve inside it: nodes, then groups, then builtins. */
  ghost predicate SelfContained(frag: Fragment, groups: seq<Outbound>, builtins: seq<Outbound>)
  {
    && frag.outbounds == groups + builtins
    && (forall i :: 0 <= i < |groups| ==> IsGroup(groups[i].kind))
    && (forall i :: 0 <= i < |builtins| ==> IsBuiltin(builtins[i].kind))
    && WellTagged(frag.nodes + groups + builtins) && DistinctEndpoints(frag.nodes)
    && (forall i :: 0 <= i < |groups| ==>
          Leads(OwnNodes(groups), TagSet(frag.nodes) + TagSet(builtins), groups[i].Tag()))
    && (forall i, s :: 0 <= i < |groups| && s in groups[i].members ==> s in TagSet(frag.nodes + groups + builtins))
    && (forall i :: 0 <= i < |frag.rules| ==>
          frag.rules[i].outbound.Some? && frag.rules[i].outbound.value in TagSet(frag.nodes + groups + builtins))
  }

  const EMPTY: Config := Config([], [], None)
  const NO_REPORT: Report := Report(0, 0, 0, 0, 0, [], [])

  /** The merge state after a part of a self-contained fragment has been taken over as it is. */
  ghost predicate TakenOver(m: Merging, outbounds: seq<Outbound>, groups: seq<Outbound>, renamed: seq<(string, string)>)
  {
    && m.outbounds == outbounds && m.groups == Paired(groups) && Identity(m.remap)
    && ToSet(m.taken) == TagSet(outbounds) + TagSet(groups) && m.report.renamed == renamed
  }

  lemma TagSetConcat(a: seq<Outbound>, b: seq<Outbound>)
    ensures TagSet(a + b) == TagSet(a) + TagSet(b)
  {
    var c := a + b;
    forall x | x in TagSet(a) + TagSet(b) ensures x in TagSet(c) {
      if x in TagSet(a) {
        var i :| 0 <= i < |a| && a[i].Tag() == x;
        assert c[i].Tag() == x;
      } else {
        var i :| 0 <= i < |b| && b[i].Tag() == x;
        assert c[|a| + i].Tag() == x;
      }
    }
    forall x | x in TagSet(c) ensures x in TagSet(a) + TagSet(b) {
      var i :| 0 <= i < |c| && c[i].Tag() == x;
      if i >= |a| {
        assert b[i - |a|].Tag() == x;
      }
    }
  }

  lemma TagSetOne(o: Outbound)
    ensures TagSet([o]) == {o.Tag()}
  {
    assert [o][0].Tag() in TagSet([o]);
  }

  lemma ToSetPush(taken: seq<string>, tag: string)
    ensures ToSet(taken + [tag]) == ToSet(taken) + {tag}
  {
  }

  /** A tag that differs from those of all earlier outbounds is not in their set. */
  lemma LaterTagIsNew(os: seq<Outbound>, k: nat)
    requires WellTagged(os) && k < |os|
    ensures os[k].Tag() !in TagSet(os[..k])
  {
  }

  lemma TagSetSnoc(os: seq<Outbound>, o: Outbound)
    ensures TagSet(os + [o]) == TagSet(os) + {o.Tag()}
  {
    TagSetConcat(os, [o]);
    TagSetOne(o);
  }

  ghost function Endpoints(nodes: seq<Outbound>): set<Endpoint>
    requires DistinctEndpoints(nodes)
  {
    set i | 0 <= i < |nodes| :: EndpointOf(nodes[i])
  }

  lemma NodeTakenOver(m: Merging, nodes: seq<Outbound>, n: Outbound)
    requires TakenOver(m, nodes, [], []) && n.Tag() !in TagSet(nodes)
    requires n.tag.Some? && n.tag.value != "" && n.HasPort() && EndpointOf(n) !in m.hostPort
    ensures var m' := AddNode(m, n);
            && TakenOver(m', nodes + [n], [], [])
            && m'.hostPort.Keys == m.hostPort.Keys + {EndpointOf(n)}
            && m'.report == m.report.(addedNodes := m.report.addedNodes + 1)
  {
    assert TagSet([]) == {};
    assert n.Tag() !in m.taken by { assert n.Tag() !in ToSet(m.taken); }
    assert Fresh(n.Tag(), m.taken) == n.Tag();
    assert n.(tag := Some(n.Tag())) == n;
    TagSetSnoc(nodes, n);
    ToSetPush(m.taken, n.Tag());
  }

  lemma EndpointsSnoc(nodes: seq<Outbound>, n: Outbound)
    requires DistinctEndpoints(nodes + [n])
    ensures DistinctEndpoints(nodes) && EndpointOf((nodes + [n])[|nodes|]) == EndpointOf(n)
    ensures Endpoints(nodes + [n]) == Endpoints(nodes) + {EndpointOf(n)} && EndpointOf(n) !in Endpoints(nodes)
  {
    var all := nodes + [n];
    assert forall i :: 0 <= i < |nodes| ==> nodes[i] == all[i];
    assert all[|nodes|] == n;
  }

  lemma {:induction false} NodesTakenOver(m0: Merging, nodes: seq<Outbound>)
    requires TakenOver(m0, [], [], []) && m0.hostPort == map[] && m0.report == NO_REPORT
    requires WellTagged(nodes) && DistinctEndpoints(nodes)
    ensures var m := AddNodes(m0, nodes);
            && TakenOver(m, nodes, [], []) && m.hostPort.Keys == Endpoints(nodes)
            && m.report == NO_REPORT.(addedNodes := |nodes|)
  {
    if nodes != [] {
      var k := |nodes| - 1;
      var fewer, n := nodes[..k], nodes[k];
      assert nodes == fewer + [n];
      EndpointsSnoc(fewer, n);
      NodesTakenOver(m0, fewer);
      LaterTagIsNew(nodes, k);
      NodeTakenOver(AddNodes(m0, fewer), fewer, n);
    }
  }

  lemma GroupTakenOver(m: Merging, nodes: seq<Outbound>, groups: seq<Outbound>, g: Outbound)
    requires TakenOver(m, nodes, groups, []) && IsGroup(g.kind) && g.Tag() != ""
    requires g.Tag() !in TagSet(nodes) && g.Tag() !in TagSet(groups)
    ensures TakenOver(NameGroup(m, g), nodes, groups + [g], [])
    ensures NameGroup(m, g).report == m.report
  {
    assert g.Tag() !in m.taken by { assert g.Tag() !in ToSet(m.taken); }
    TagSetSnoc(groups, g);
    ToSetPush(m.taken, g.Tag());
    assert Paired(groups + [g]) == Paired(groups) + [(g, g.Tag())];
  }

  lemma {:induction false} GroupsTakenOver(m: Merging, nodes: seq<Outbound>, groups: seq<Outbound>)
    requires TakenOver(m, nodes, [], []) && WellTagged(nodes + groups)
    requires forall i :: 0 <= i < |groups| ==> IsGroup(groups[i].kind)
    ensures TakenOver(NameGroups(m, groups), nodes, groups, [])
    ensures NameGroups(m, groups).report == m.report
  {
    if groups != [] {
      var k := |groups| - 1;
      var fewer, g := groups[..k], groups[k];
      var all, most := nodes + groups, nodes + fewer;
      assert all == most + [g] && all[..|most|] == most && g == all[|most|];
      assert WellTagged(most) by { assert forall i :: 0 <= i < |most| ==> most[i] == all[i]; }
      GroupsTakenOver(m, nodes, fewer);
      LaterTagIsNew(all, |most|);
      TagSetConcat(nodes, fewer);
      GroupTakenOver(NameGroups(m, fewer), nodes, fewer, g);
      assert groups == fewer + [g];
    }
  }

  lemma BuiltinTakenOver(m: Merging, outbounds: seq<Outbound>, groups: seq<Outbound>, g: Outbound)
    requires TakenOver(m, outbounds, groups, []) && IsBuiltin(g.kind) && g.Tag() != ""
    requires g.Tag() !in TagSet(outbounds) && g.Tag() !in TagSet(groups)
    ensures TakenOver(AddBuiltin(m, map[], g), outbounds + [g], groups, [])
    ensures AddBuiltin(m, map[], g).report == m.report
  {
    assert g.Tag() !in m.taken by { assert g.Tag() !in ToSet(m.taken); }
    TagSetSnoc(outbounds, g);
    ToSetPush(m.taken, g.Tag());
  }

  lemma {:induction false} BuiltinsTakenOver(m: Merging, nodes: seq<Outbound>, groups: seq<Outbound>,
                                             builtins: seq<Outbound>)
    requires TakenOver(m, nodes, groups, []) && WellTagged(nodes + groups + builtins)
    requires forall i :: 0 <= i < |builtins| ==> IsBuiltin(builtins[i].kind)
    ensures TakenOver(AddBuiltins(m, map[], builtins), nodes + builtins, groups, [])
    ensures AddBuiltins(m, map[], builtins).report == m.report
  {
    if builtins == [] {
      assert nodes + builtins == nodes;
    } else {
      var k := |builtins| - 1;
      var fewer, g := builtins[..k], builtins[k];
      var all, most := nodes + groups + builtins, nodes + groups + fewer;
      assert all == most + [g] && all[..|most|] == most && g == all[|most|];
      assert WellTagged(most) by { assert forall i :: 0 <= i < |most| ==> most[i] == all[i]; }
      BuiltinsTakenOver(m, nodes, groups, fewer);
      LaterTagIsNew(all, |most|);
      assert TagSet(most) == TagSet(nodes + fewer) + TagSet(groups) by {
        TagSetConcat(nodes + groups, fewer);
        TagSetConcat(nodes, groups);
        TagSetConcat(nodes, fewer);
      }
      BuiltinTakenOver(AddBuiltins(m, map[], fewer), nodes + fewer, groups, g);
      assert nodes + builtins == (nodes + fewer) + [g];
    }
  }

  lemma {:induction false} NameGroupsSkips(m: Merging, groups: seq<Outbound>, others: seq<Outbound>)
    requires forall i :: 0 <= i < |others| ==> IsBuiltin(others[i].kind)
    ensures NameGroups(m, groups + others) == NameGroups(m, groups)
  {
    if others == [] {
      assert groups + others == groups;
    } else {
      var k := |others| - 1;
      assert (groups + others)[..|groups| + k] == groups + others[..k];
      NameGroupsSkips(m, groups, others[..k]);
    }
  }

  lemma {:induction false} AddBuiltinsSkips(m: Merging, kinds: map<string, Kind>, groups: seq<Outbound>,
                                            others: seq<Outbound>)
    requires forall i :: 0 <= i < |groups| ==> IsGroup(groups[i].kind)
    ensures AddBuiltins(m, kinds, groups + others) == AddBuiltins(m, kinds, others)
  {
    if others == [] {
      assert groups + others == groups;
      if groups != [] {
        var k := |groups| - 1;
        AddBuiltinsSkips(m, kinds, groups[..k], []);
        assert groups[..k] + [] == groups[..k];
      }
    } else {
      var k := |others| - 1;
      assert (groups + others)[..|groups| + k] == groups + others[..k];
      AddBuiltinsSkips(m, kinds, groups, others[..k]);
    }
  }

  lemma WellTaggedPrefix(a: seq<Outbound>, b: seq<Outbound>)
    requires WellTagged(a + b)
    ensures WellTagged(a) && WellTagged(b) && TagSet(a) !! TagSet(b)
  {
    var c := a + b;
    assert forall i :: 0 <= i < |a| ==> c[i] == a[i];
    assert forall i :: 0 <= i < |b| ==> c[|a| + i] == b[i];
  }

  lemma StartEmpty()
    ensures var m := StartMerge(EMPTY); TakenOver(m, [], [], []) && m.hostPort == map[] && m.report == NO_REPORT
  {
    assert TagSet([]) == {};
    assert TagList([]) == [];
  }

  lemma GatheredTakenOver(frag: Fragment, groups: seq<Outbound>, builtins: seq<Outbound>)
    requires SelfContained(frag, groups, builtins)
    ensures var m := Gathered(EMPTY, frag);
            TakenOver(m, frag.nodes + builtins, groups, []) && m.report == NO_REPORT.(addedNodes := |frag.nodes|)
  {
    WellTaggedPrefix(frag.nodes + groups, builtins);
    WellTaggedPrefix(frag.nodes, groups);
    StartEmpty();
    NodesTakenOver(StartMerge(EMPTY), frag.nodes);
    var m := AddNodes(StartMerge(EMPTY), frag.nodes);
    GroupsTakenOver(m, frag.nodes, groups);
    NameGroupsSkips(m, groups, builtins);
    BuiltinsTakenOver(NameGroups(m, groups), frag.nodes, groups, builtins);
    AddBuiltinsSkips(NameGroups(m, groups), map[], groups, builtins);
  }

  lemma {:induction false} GroupsLandAsIs(groups: seq<Outbound>, remap: map<string, string>, present: set<string>)
    requires Identity(remap) && TagSet(groups) <= present
    requires forall i :: 0 <= i < |groups| ==> groups[i].tag == Some(groups[i].Tag())
    requires forall i, s :: 0 <= i < |groups| && s in groups[i].members ==> s in present
    ensures LandGroups(Paired(groups), remap, present) == groups && SkipGroups(Paired(groups), present) == []
  {
    if groups != [] {
      var k := |groups| - 1;
      var fewer, g := groups[..k], groups[k];
      assert groups == fewer + [g] && Paired(groups)[..k] == Paired(fewer);
      TagSetSnoc(fewer, g);
      assert forall i :: 0 <= i < k ==> fewer[i] == groups[i];
      GroupsLandAsIs(fewer, remap, present);
      assert ResolveAll(remap, g.members) == g.members;
      assert LandedGroup(remap, present, (g, g.Tag())) == g;
    }
  }

  lemma {:induction false} RulesLandAsIs(rules: seq<Rule>, remap: map<string, string>, present: set<string>)
    requires Identity(remap)
    requires forall i :: 0 <= i < |rules| ==> rules[i].outbound.Some? && rules[i].outbound.value in present
    ensures AddRules(rules, remap, present) == rules
  {
    if rules != [] {
      var k := |rules| - 1;
      RulesLandAsIs(rules[..k], remap, present);
      assert rules[k].(outbound := Some(rules[k].Target())) == rules[k];
      assert rules == rules[..k] + [rules[k]];
    }
  }

  lemma OwnView(m: Merging, outbounds: seq<Outbound>, groups: seq<Outbound>)
    requires TakenOver(m, outbounds, groups, []) && TagSet(outbounds) !! TagSet(groups)
    ensures GroupNodes(m) == OwnNodes(groups) && Grounded(m) == TagSet(outbounds)
  {
    forall i | 0 <= i < |groups| ensures GroupNodes(m)[i] == OwnNodes(groups)[i] {
      assert ResolveAll(m.remap, groups[i].members) == groups[i].members;
    }
    assert GroupTags(m.groups) == TagSet(groups) by {
      assert forall i :: 0 <= i < |groups| ==> m.groups[i].1 == groups[i].Tag();
    }
  }

  lemma AllLand(groups: seq<Outbound>, base: set<string>)
    requires forall i :: 0 <= i < |groups| ==> Leads(OwnNodes(groups), base, groups[i].Tag())
    ensures Landed(OwnNodes(groups), base) == base + TagSet(groups)
  {
    var nodes := OwnNodes(groups);
    assert Names(nodes) == TagSet(groups) by {
      assert forall i :: 0 <= i < |groups| ==> nodes[i].name == groups[i].Tag();
    }
    forall name | name in base ensures Leads(nodes, base, name) { BaseLeads(nodes, base, name); }
  }

  lemma FragmentTags(nodes: seq<Outbound>, groups: seq<Outbound>, builtins: seq<Outbound>)
    requires WellTagged(nodes + groups + builtins)
    ensures TagSet(nodes + groups + builtins) == TagSet(nodes + builtins) + TagSet(groups)
    ensures TagSet(nodes + builtins) == TagSet(nodes) + TagSet(builtins)
    ensures TagSet(nodes + builtins) !! TagSet(groups)
    ensures forall i :: 0 <= i < |groups| ==> groups[i].tag == Some(groups[i].Tag())
  {
    var all := nodes + groups + builtins;
    TagSetConcat(nodes + groups, builtins);
    TagSetConcat(nodes, groups);
    TagSetConcat(nodes, builtins);
    WellTaggedPrefix(nodes + groups, builtins);
    WellTaggedPrefix(nodes, groups);
  }

  lemma FinishAsIs(frag: Fragment, m: Merging, outbounds: seq<Outbound>, groups: seq<Outbound>, present: set<string>)
    requires TakenOver(m, outbounds, groups, []) && m.report == NO_REPORT.(addedNodes := |frag.nodes|)
    requires TagSet(groups) <= present
    requires forall i :: 0 <= i < |groups| ==> groups[i].tag == Some(groups[i].Tag())
    requires forall i, s :: 0 <= i < |groups| && s in groups[i].members ==> s in present
    requires forall i :: 0 <= i < |frag.rules| ==>
               frag.rules[i].outbound.Some? && frag.rules[i].outbound.value in present
    ensures var r := Finish(EMPTY, frag, true, m, present);
            && r.config == Config(outbounds + groups, frag.rules, None)
            && r.report == Report(|frag.nodes|, 0, |groups|, |frag.rules|, 0, [], [])
  {
    GroupsLandAsIs(groups, m.remap, present);
    RulesLandAsIs(frag.rules, m.remap, present);
    assert [] + frag.rules == frag.rules;
  }

  /** Merging a self-contained fragment into an empty config takes it over unchanged: the same
      nodes, builtins, groups and rules, nothing renamed, skipped or dropped. */
  lemma MergeSelfContained(frag: Fragment, groups: seq<Outbound>, builtins: seq<Outbound>)
    requires SelfContained(frag, groups, builtins)
    ensures var r := Merge(EMPTY, frag, true);
            && r.config == Config(frag.nodes + builtins + groups, frag.rules, None)
            && r.report == Report(|frag.nodes|, 0, |groups|, |frag.rules|, 0, [], [])
  {
    var m := Gathered(EMPTY, frag);
    var base := TagSet(frag.nodes + builtins);
    FragmentTags(frag.nodes, groups, builtins);
    GatheredTakenOver(frag, groups, builtins);
    OwnView(m, frag.nodes + builtins, groups);
    AllLand(groups, base);
    FinishAsIs(frag, m, frag.nodes + builtins, groups, base + TagSet(groups));
  }

  // ------------------------------------------------- an export is self-contained

  /** What the selection is drawn from: unique non-empty tags, no group filters, picked tags
      that name mirage nodes, and distinct valid endpoints among the picked nodes. */
  ghost predicate Exportable(cfg: Config, picked: set<string>)
  {
    && WellTagged(cfg.outbounds)
    && (forall i :: 0 <= i < |cfg.outbounds| ==> IsGroup(cfg.outbounds[i].kind) ==> cfg.outbounds[i].filter.None?)
    && (forall t :: t in picked ==> exists o :: o in cfg.outbounds && o.kind.Mirage? && o.Tag() == t)
    && DistinctEndpoints(PickedNodes(cfg, picked))
  }

  function PickedNodes(cfg: Config, picked: set<string>): (nodes: seq<Outbound>)
    ensures forall o :: o in nodes <==> o in cfg.outbounds && o.kind.Mirage? && o.Tag() in picked
  {
    SelectMembers(cfg.outbounds, (o: Outbound) => o.kind.Mirage? && o.Tag() in picked);
    Select(cfg.outbounds, (o: Outbound) => o.kind.Mirage? && o.Tag() in picked)
  }

  lemma SameTagSame(os: seq<Outbound>, a: Outbound, b: Outbound)
    requires WellTagged(os) && a in os && b in os
    ensures a.Tag() == b.Tag() ==> a == b
  {
    var i :| 0 <= i < |os| && os[i] == a;
    var j :| 0 <= j < |os| && os[j] == b;
  }

  lemma SelectedTags(os: seq<Outbound>, keep: Outbound -> bool, n: nat)
    requires n < |os| && WellTagged(os)
    ensures forall i :: 0 <= i < |Select(os[..n], keep)| ==> Select(os[..n], keep)[i].Tag() != os[n].Tag()
  {
    var some := Select(os[..n], keep);
    forall i | 0 <= i < |some| ensures some[i].Tag() != os[n].Tag() {
      SelectIff(os[..n], keep, some[i]);
      var j :| 0 <= j < n && os[j] == some[i];
    }
  }

  lemma WellTaggedSnoc(os: seq<Outbound>, o: Outbound)
    requires WellTagged(os) && o.tag.Some? && o.tag.value != ""
    requires forall i :: 0 <= i < |os| ==> os[i].Tag() != o.Tag()
    ensures WellTagged(os + [o])
  {
  }

  lemma {:induction false} SelectWellTagged(os: seq<Outbound>, keep: Outbound -> bool)
    requires WellTagged(os)
    ensures WellTagged(Select(os, keep))
  {
    if os != [] {
      var n := |os| - 1;
      assert WellTagged(os[..n]);
      SelectWellTagged(os[..n], keep);
      SelectedTags(os, keep, n);
      if keep(os[n]) {
        assert os[n].tag.Some? && os[n].tag.value != "";
        WellTaggedSnoc(Select(os[..n], keep), os[n]);
      }
    }
  }

  lemma WellTaggedConcat(a: seq<Outbound>, b: seq<Outbound>)
    requires WellTagged(a) && WellTagged(b) && TagSet(a) !! TagSet(b)
    ensures WellTagged(a + b)
  {
    assert forall i :: 0 <= i < |a| ==> a[i].Tag() in TagSet(a);
    assert forall i :: 0 <= i < |b| ==> b[i].Tag() in TagSet(b);
  }

  lemma TagSetIff(os: seq<Outbound>, x: string)
    ensures x in TagSet(os) <==> exists o :: o in os && o.Tag() == x
  {
    if o :| o in os && o.Tag() == x {
      var i :| 0 <= i < |os| && os[i] == o;
    }
  }

  lemma NoFilterRefs(os: seq<Outbound>, g: Outbound, matches: (string, string) -> bool)
    requires g.filter.None?
    ensures FilterRefs(os, g, matches) == []
  {
  }

  function AllGroups(cfg: Config): (groups: seq<Outbound>)
    ensures forall o :: o in groups <==> o in cfg.outbounds && TaggedGroup(o)
  {
    SelectMembers(cfg.outbounds, TaggedGroup);
    Select(cfg.outbounds, TaggedGroup)
  }

  function Base(cfg: Config, picked: set<string>): set<string> { picked + BuiltinTags(cfg.outbounds) }

  /** Without filters, what is exported is what leads, along member lists, to the base. */
  lemma ExportedIs(cfg: Config, picked: set<string>, matches: (string, string) -> bool)
    requires Exportable(cfg, picked)
    ensures Exported(cfg, picked, matches) == Landed(OwnNodes(AllGroups(cfg)), Base(cfg, picked))
  {
    var groups := AllGroups(cfg);
    forall i | 0 <= i < |groups|
      ensures ExportNodes(cfg.outbounds, groups, matches)[i] == OwnNodes(groups)[i]
    {
      assert groups[i] in cfg.outbounds;
      NoFilterRefs(cfg.outbounds, groups[i], matches);
      assert groups[i].members + [] == groups[i].members;
    }
    assert ExportNodes(cfg.outbounds, groups, matches) == OwnNodes(groups);
  }

  function KeptGroups(cfg: Config, exported: set<string>): (groups: seq<Outbound>)
    ensures forall o :: o in groups <==> o in cfg.outbounds && TaggedGroup(o) && o.Tag() in exported
  {
    SelectMembers(AllGroups(cfg), (g: Outbound) => g.Tag() in exported);
    Select(AllGroups(cfg), (g: Outbound) => g.Tag() in exported)
  }

  /** Tags of the base belong to leaves, so a group's tag is never among them. */
  lemma BaseIsLeaves(cfg: Config, picked: set<string>, g: Outbound)
    requires Exportable(cfg, picked) && g in AllGroups(cfg)
    ensures g.Tag() !in Base(cfg, picked)
  {
    forall o | o in cfg.outbounds ensures o.Tag() == g.Tag() ==> o == g {
      SameTagSame(cfg.outbounds, o, g);
    }
  }

  lemma PickedAreNodes(cfg: Config, picked: set<string>)
    requires Exportable(cfg, picked)
    ensures picked <= TagSet(PickedNodes(cfg, picked))
  {
    forall t | t in picked ensures t in TagSet(PickedNodes(cfg, picked)) {
      var o :| o in cfg.outbounds && o.kind.Mirage? && o.Tag() == t;
      assert o in PickedNodes(cfg, picked);
      TagSetIff(PickedNodes(cfg, picked), t);
    }
  }

  function ReferencedBuiltins(cfg: Config, referenced: set<string>): (builtins: seq<Outbound>)
    ensures forall o :: o in builtins <==> o in cfg.outbounds && Builtin(o) && o.Tag() in referenced
  {
    SelectMembers(cfg.outbounds, (o: Outbound) => Builtin(o) && o.Tag() in referenced);
    Select(cfg.outbounds, (o: Outbound) => Builtin(o) && o.Tag() in referenced)
  }

  lemma ReferencedAreThere(cfg: Config, referenced: set<string>, t: string)
    requires t in BuiltinTags(cfg.outbounds) && t in referenced
    ensures t in TagSet(ReferencedBuiltins(cfg, referenced))
  {
    var o :| o in cfg.outbounds && Builtin(o) && o.Tag() == t;
    assert o in ReferencedBuiltins(cfg, referenced);
    TagSetIff(ReferencedBuiltins(cfg, referenced), t);
  }

  /** The three parts of an export never share a tag. */
  lemma ExportWellTagged(cfg: Config, picked: set<string>, exported: set<string>, referenced: set<string>)
    requires Exportable(cfg, picked)
    ensures WellTagged(PickedNodes(cfg, picked) + TrimGroups(AllGroups(cfg), exported)
                       + ReferencedBuiltins(cfg, referenced))
    ensures TagSet(TrimGroups(AllGroups(cfg), exported)) == TagSet(KeptGroups(cfg, exported))
  {
    var nodes, kept := PickedNodes(cfg, picked), KeptGroups(cfg, exported);
    var builtins := ReferencedBuiltins(cfg, referenced);
    var trimmed := TrimGroups(AllGroups(cfg), exported);
    SelectWellTagged(cfg.outbounds, (o: Outbound) => o.kind.Mirage? && o.Tag() in picked);
    SelectWellTagged(cfg.outbounds, TaggedGroup);
    SelectWellTagged(AllGroups(cfg), (g: Outbound) => g.Tag() in exported);
    SelectWellTagged(cfg.outbounds, (o: Outbound) => Builtin(o) && o.Tag() in referenced);
    TrimmedTags(AllGroups(cfg), exported);
    KindsApart(cfg.outbounds, nodes, kept);
    KindsApart(cfg.outbounds, nodes, builtins);
    KindsApart(cfg.outbounds, kept, builtins);
    WellTaggedConcat(nodes, trimmed);
    TagSetConcat(nodes, trimmed);
    WellTaggedConcat(nodes + trimmed, builtins);
  }

  lemma TrimmedTags(groups: seq<Outbound>, exported: set<string>)
    ensures var kept := Select(groups, (g: Outbound) => g.Tag() in exported);
            && TagSet(TrimGroups(groups, exported)) == TagSet(kept)
            && (WellTagged(kept) ==> WellTagged(TrimGroups(groups, exported)))
  {
    var kept, trimmed := Select(groups, (g: Outbound) => g.Tag() in exported), TrimGroups(groups, exported);
    assert |trimmed| == |kept| && forall i :: 0 <= i < |kept| ==> trimmed[i].tag == kept[i].tag;
    assert forall i :: 0 <= i < |kept| ==> trimmed[i].Tag() == kept[i].Tag();
  }

  /** Outbounds of different kinds drawn from a well-tagged list have different tags. */
  lemma KindsApart(os: seq<Outbound>, a: seq<Outbound>, b: seq<Outbound>)
    requires WellTagged(os)
    requires forall x :: x in a ==> x in os
    requires forall x :: x in b ==> x in os
    requires forall x, y :: x in a && y in b ==> x != y
    ensures TagSet(a) !! TagSet(b)
  {
    forall t | t in TagSet(a) ensures t !in TagSet(b) {
      TagSetIff(a, t);
      var x :| x in a && x.Tag() == t;
      TagSetIff(b, t);
      if y :| y in b && y.Tag() == t {
        SameTagSame(os, x, y);
      }
    }
  }

  /** An exported name that something exported refers to is the tag of an exported object. */
  lemma ReferenceResolves(cfg: Config, picked: set<string>, exported: set<string>, referenced: set<string>, t: string)
    requires Exportable(cfg, picked) && exported == Landed(OwnNodes(AllGroups(cfg)), Base(cfg, picked))
    requires t in exported && t in referenced
    ensures t in TagSet(PickedNodes(cfg, picked)) + TagSet(KeptGroups(cfg, exported))
                 + TagSet(ReferencedBuiltins(cfg, referenced))
    ensures t in Base(cfg, picked) ==>
              t in TagSet(PickedNodes(cfg, picked)) + TagSet(ReferencedBuiltins(cfg, referenced))
  {
    var groups := AllGroups(cfg);
    PickedAreNodes(cfg, picked);
    if t in Base(cfg, picked) {
      if t !in picked {
        ReferencedAreThere(cfg, referenced, t);
      }
    } else {
      var i :| 0 <= i < |groups| && OwnNodes(groups)[i].name == t;
      assert groups[i] in KeptGroups(cfg, exported);
      TagSetIff(KeptGroups(cfg, exported), t);
    }
  }

  lemma MemberIsReferenced(groups: seq<Outbound>, rules: seq<Rule>, default: Option<string>, i: nat, s: string)
    requires i < |groups| && s in groups[i].members
    ensures s in Referenced(groups, rules, default)
  {
    assert groups[i] in groups;
  }

  /** A kept group still has every member that is exported. */
  lemma TrimmingKeepsLeading(cfg: Config, picked: set<string>, exported: set<string>)
    requires Exportable(cfg, picked) && exported == Landed(OwnNodes(AllGroups(cfg)), Base(cfg, picked))
    ensures KeepsLeading(OwnNodes(AllGroups(cfg)), Base(cfg, picked), OwnNodes(TrimGroups(AllGroups(cfg), exported)))
    ensures forall i, r :: 0 <= i < |AllGroups(cfg)| && r in AllGroups(cfg)[i].members && r in exported ==>
              var trimmed := TrimGroups(AllGroups(cfg), exported);
              exists k :: 0 <= k < |trimmed| && r in trimmed[k].members
  {
    var groups, base := AllGroups(cfg), Base(cfg, picked);
    var nodes, trimmed := OwnNodes(groups), TrimGroups(groups, exported);
    var kept := KeptGroups(cfg, exported);
    forall i, r | 0 <= i < |groups| && r in groups[i].members && Leads(nodes, base, r)
      ensures Edge(OwnNodes(trimmed), groups[i].Tag(), r) && exists k :: 0 <= k < |trimmed| && r in trimmed[k].members
    {
      LeadsNamed(nodes, base, r);
      assert nodes[i].name == groups[i].Tag() && r in nodes[i].refs;
      assert Edge(nodes, groups[i].Tag(), r);
      EdgeLeads(nodes, base, groups[i].Tag(), r);
      LeadsNamed(nodes, base, groups[i].Tag());
      assert groups[i] in kept;
      var k :| 0 <= k < |kept| && kept[k] == groups[i];
      assert trimmed[k] == Trimmed(groups[i], exported);
      assert r in trimmed[k].members;
      assert OwnNodes(trimmed)[k].name == groups[i].Tag() && r in OwnNodes(trimmed)[k].refs;
    }
  }

  lemma KeptGroupsLead(cfg: Config, picked: set<string>, exported: set<string>, referenced: set<string>, i: nat)
    requires Exportable(cfg, picked) && exported == Landed(OwnNodes(AllGroups(cfg)), Base(cfg, picked))
    requires i < |TrimGroups(AllGroups(cfg), exported)|
    requires var trimmed := TrimGroups(AllGroups(cfg), exported);
             forall k, s :: 0 <= k < |trimmed| && s in trimmed[k].members ==> s in referenced
    ensures Leads(OwnNodes(TrimGroups(AllGroups(cfg), exported)),
                  TagSet(PickedNodes(cfg, picked)) + TagSet(ReferencedBuiltins(cfg, referenced)),
                  TrimGroups(AllGroups(cfg), exported)[i].Tag())
  {
    var groups, base := AllGroups(cfg), Base(cfg, picked);
    var nodes, trimmed := OwnNodes(groups), TrimGroups(groups, exported);
    var base' := TagSet(PickedNodes(cfg, picked)) + TagSet(ReferencedBuiltins(cfg, referenced));
    TrimmingKeepsLeading(cfg, picked, exported);
    forall j, r | 0 <= j < |nodes| && r in nodes[j].refs && r in base ensures r in base' {
      BaseLeads(nodes, base, r);
      assert r in exported;
      var k :| 0 <= k < |trimmed| && r in trimmed[k].members;
      ReferenceResolves(cfg, picked, exported, referenced, r);
    }
    var g := KeptGroups(cfg, exported)[i];
    assert g in KeptGroups(cfg, exported) && trimmed[i] == Trimmed(g, exported);
    BaseIsLeaves(cfg, picked, g);
    var path :| IsPath(nodes, path) && path[0] == g.Tag() && path[|path| - 1] in base;
    TrimmingKeepsPaths(nodes, base, OwnNodes(trimmed), base', path);
  }

  /** Every reference in an export resolves inside it, and every exported group leads to an
      exported node, direct or block. */
  lemma ExportSelfContained(cfg: Config, picked: set<string>, withRules: bool, matches: (string, string) -> bool)
    returns (groups: seq<Outbound>, builtins: seq<Outbound>)
    requires Exportable(cfg, picked)
    ensures SelfContained(Export(cfg, picked, withRules, matches), groups, builtins)
    ensures Export(cfg, picked, withRules, matches).nodes == PickedNodes(cfg, picked)
  {
    var frag := Export(cfg, picked, withRules, matches);
    var exported := Exported(cfg, picked, matches);
    ExportedIs(cfg, picked, matches);
    groups := TrimGroups(AllGroups(cfg), exported);
    var referenced := Referenced(groups, frag.rules, frag.defaultOutbound);
    builtins := ReferencedBuiltins(cfg, referenced);
    ExportWellTagged(cfg, picked, exported, referenced);
    TagSetConcat(frag.nodes + groups, builtins);
    TagSetConcat(frag.nodes, groups);
    forall i, s | 0 <= i < |groups| && s in groups[i].members
      ensures s in referenced && s in TagSet(frag.nodes + groups + builtins)
    {
      MemberIsReferenced(groups, frag.rules, frag.defaultOutbound, i, s);
      ReferenceResolves(cfg, picked, exported, referenced, s);
    }
    forall i | 0 <= i < |frag.rules|
      ensures frag.rules[i].outbound.Some? && frag.rules[i].outbound.value in TagSet(frag.nodes + groups + builtins)
    {
      assert frag.rules[i] in frag.rules;
      ReferenceResolves(cfg, picked, exported, referenced, frag.rules[i].outbound.value);
    }
    forall i | 0 <= i < |groups|
      ensures Leads(OwnNodes(groups), TagSet(frag.nodes) + TagSet(builtins), groups[i].Tag())
    {
      KeptGroupsLead(cfg, picked, exported, referenced, i);
    }
    forall i | 0 <= i < |groups| ensures IsGroup(groups[i].kind) {
      assert KeptGroups(cfg, exported)[i] in KeptGroups(cfg, exported);
    }
    forall i | 0 <= i < |builtins| ensures IsBuiltin(builtins[i].kind) {
      assert builtins[i] in builtins;
    }
  }

  predicate GroupKind(o: Outbound) { IsGroup(o.kind) }

  lemma {:induction false} SelectAll(os: seq<Outbound>, keep: Outbound -> bool)
    requires forall i :: 0 <= i < |os| ==> keep(os[i])
    ensures Select(os, keep) == os
  {
    if os != [] {
      var n := |os| - 1;
      SelectAll(os[..n], keep);
      assert os == os[..n] + [os[n]];
    }
  }

  lemma {:induction false} SelectNone(os: seq<Outbound>, keep: Outbound -> bool)
    requires forall i :: 0 <= i < |os| ==> !keep(os[i])
    ensures Select(os, keep) == []
  {
    if os != [] {
      SelectNone(os[..|os| - 1], keep);
    }
  }

  /** When one of two lists is kept whole and the other not at all, selecting tells them apart. */
  lemma {:induction false} SelectParts(a: seq<Outbound>, b: seq<Outbound>, keep: Outbound -> bool)
    requires forall i :: 0 <= i < |a| ==> !keep(a[i])
    requires forall i :: 0 <= i < |b| ==> keep(b[i])
    ensures Select(a + b, keep) == b && Select(b + a, keep) == b
  {
    SelectConcat(a, b, keep);
    SelectConcat(b, a, keep);
    SelectNone(a, keep);
    SelectAll(b, keep);
    assert [] + b == b == b + [];
  }

  /** Merging `frag` into an empty config with routing on gives back exactly its nodes, builtins,
      groups and rules (in this order), renames nothing, skips nothing and drops nothing. */
  ghost predicate ComesBack(frag: Fragment)
  {
    var builtins, groups := Select(frag.outbounds, Builtin), Select(frag.outbounds, GroupKind);
    var r := Merge(EMPTY, frag, true);
    && frag.outbounds == groups + builtins
    && r.config == Config(frag.nodes + builtins + groups, frag.rules, None)
    && r.report == Report(|frag.nodes|, 0, |groups|, |frag.rules|, 0, [], [])
  }

  lemma SelfContainedComesBack(frag: Fragment, groups: seq<Outbound>, builtins: seq<Outbound>)
    requires SelfContained(frag, groups, builtins)
    ensures ComesBack(frag)
  {
    MergeSelfContained(frag, groups, builtins);
    SelectParts(groups, builtins, Builtin);
    SelectParts(builtins, groups, GroupKind);
  }

  /** Export then merge is the identity on the selection. */
  lemma ExportThenMerge(cfg: Config, picked: set<string>, matches: (string, string) -> bool)
    requires Exportable(cfg, picked)
    ensures ComesBack(Export(cfg, picked, true, matches))
  {
    var groups, builtins := ExportSelfContained(cfg, picked, true, matches);
    SelfContainedComesBack(Export(cfg, picked, true, matches), groups, builtins);
  }
}
