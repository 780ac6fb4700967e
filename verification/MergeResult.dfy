/** What a merge makes of a config, told from the config and the fragment: which nodes, directs,
    blocks, groups and rules are added, in which order, under which names and with which references. */
module MergeResult {
  import opened Wrappers
  import opened Tags
  import opened Listing
  import opened Fragments
  import opened MergeTheorems
  import opened MergeMeaning
  import opened MergeOrderExact
  import opened ExportTheorems
  import opened BuiltinMeaning
  import opened NodeMeaning

  // -------------------------------------------------------------------- rules

  /** The tag a reference to `t` ends at. */
  function Remapped(remap: map<string, string>, t: string): string { if t in remap then remap[t] else t }

  /** A rule without an outbound refers to the empty tag. */
  function RuleTarget(remap: map<string, string>, r: Rule): string
  {
    Remapped(remap, if r.outbound.Some? then r.outbound.value else "")
  }

  function RuleKept(rules: seq<Rule>, remap: map<string, string>, there: set<string>): nat -> bool
  {
    (i: nat) => i < |rules| && RuleTarget(remap, rules[i]) in there
  }

  function RuleLanded(rules: seq<Rule>, remap: map<string, string>): (nat, Rule) -> bool
  {
    (i: nat, r: Rule) => i < |rules| && r == Rule(Some(RuleTarget(remap, rules[i])), rules[i].body)
  }

  lemma {:induction false} AddRulesSnoc(rules: seq<Rule>, remap: map<string, string>, there: set<string>, n: nat)
    requires n < |rules|
    ensures var before := AddRules(rules[..n], remap, there);
            AddRules(rules[..n + 1], remap, there)
              == if RuleTarget(remap, rules[n]) in there
                 then before + [Rule(Some(RuleTarget(remap, rules[n])), rules[n].body)] else before
  {
    assert rules[..n + 1][..n] == rules[..n];
  }

  lemma {:induction false} AddRulesLists(rules: seq<Rule>, remap: map<string, string>, there: set<string>, n: nat)
    requires n <= |rules|
    ensures Lists(n, AddRules(rules[..n], remap, there), RuleKept(rules, remap, there), RuleLanded(rules, remap))
  {
    var kept, fits := RuleKept(rules, remap, there), RuleLanded(rules, remap);
    if n == 0 {
      ListsNone(kept, fits);
    } else {
      AddRulesLists(rules, remap, there, n - 1);
      AddRulesSnoc(rules, remap, there, n - 1);
      ListsMore(n - 1, AddRules(rules[..n - 1], remap, there), kept, fits,
                Rule(Some(RuleTarget(remap, rules[n - 1])), rules[n - 1].body));
    }
  }

  /** The rules of a merge: the old ones, then, with routing on, exactly the fragment's rules whose
      remapped target is a tag of the result, in order, each as often as it stands there, with their
      body and the remapped target. */
  lemma MergedRules(cfg: Config, frag: Fragment, routing: bool)
    ensures var r, remap := Merge(cfg, frag, routing), Gathered(cfg, frag).remap;
            var there := ToSet(TagList(r.config.outbounds));
            && cfg.rules <= r.config.rules
            && var added := r.config.rules[|cfg.rules|..];
            && (if routing
                then Lists(|frag.rules|, added, RuleKept(frag.rules, remap, there), RuleLanded(frag.rules, remap))
                else added == [])
            && r.report.addedRules == |added| && (routing ==> r.report.droppedRules == |frag.rules| - |added|)
  {
    var r, remap := Merge(cfg, frag, routing), Gathered(cfg, frag).remap;
    MergeKeepsTags(cfg, frag, routing);
    AddRulesLists(frag.rules, remap, r.present, |frag.rules|);
    assert frag.rules[..|frag.rules|] == frag.rules;
    var added := if routing then AddRules(frag.rules, remap, r.present) else [];
    assert r.config.rules[|cfg.rules|..] == added;
  }

  ghost predicate NamesNonEmpty(m: Merging)
  {
    (forall e :: e in m.hostPort ==> m.hostPort[e] != "") && (forall t :: t in m.remap ==> m.remap[t] != "")
  }

  lemma NodeNameNonEmpty(m: Merging, n: Outbound)
    requires NamesNonEmpty(m)
    ensures NamesNonEmpty(AddNode(m, n))
  {
  }

  lemma {:induction false} NodeNamesNonEmpty(m: Merging, nodes: seq<Outbound>)
    requires NamesNonEmpty(m)
    ensures NamesNonEmpty(AddNodes(m, nodes))
  {
    if nodes != [] {
      NodeNamesNonEmpty(m, nodes[..|nodes| - 1]);
      NodeNameNonEmpty(AddNodes(m, nodes[..|nodes| - 1]), nodes[|nodes| - 1]);
    }
  }

  /** A kept reference to a node is the tag of an outbound of the result with its host and port. */
  lemma NodeTagIsThere(cfg: Config, frag: Fragment, i: nat, routing: bool)
    requires WellFormed(cfg, frag) && LastOfTag(frag.nodes, i) && NodeKept(cfg, frag, frag.nodes[i].Tag())
    ensures var os, n := Merge(cfg, frag, routing).config.outbounds, frag.nodes[i];
            var name := Remapped(Gathered(cfg, frag).remap, n.Tag());
            name in ToSet(TagList(os)) && HasAt(os, name, (n.Host(), n.port.value))
  {
    var m, r, n := Gathered(cfg, frag), Merge(cfg, frag, routing), frag.nodes[i];
    var e := (n.Host(), n.port.value);
    NodeNameIff(cfg, frag, i);
    KeptNodeReference(cfg, frag, i);
    forall e | e in HostPorts(cfg.outbounds) ensures HostPorts(cfg.outbounds)[e] != "" {
      HostPortsAreNodes(cfg.outbounds, e);
    }
    NodeNamesNonEmpty(StartMerge(cfg), frag.nodes);
    var name := m.remap[n.Tag()];
    var o :| o in m.outbounds && IsAt(o, name, e);
    TagListed(m.outbounds, o);
    HasAtGrows(m.outbounds, r.groups, name, e);
    assert r.config.outbounds == m.outbounds + r.groups;
    TagListConcat(m.outbounds, r.groups);
  }

  /** A rule to a node ends at an outbound of the result with that node's host and port. */
  lemma RuleToNode(cfg: Config, frag: Fragment, i: nat, j: nat)
    requires WellFormed(cfg, frag) && LastOfTag(frag.nodes, i) && NodeKept(cfg, frag, frag.nodes[i].Tag())
    requires j < |frag.rules| && frag.rules[j].outbound == Some(frag.nodes[i].Tag())
    ensures var c, n := Merge(cfg, frag, true).config, frag.nodes[i];
            exists k :: |cfg.rules| <= k < |c.rules|
                     && c.rules[k].outbound.Some? && c.rules[k].body == frag.rules[j].body
                     && HasAt(c.outbounds, c.rules[k].outbound.value, (n.Host(), n.port.value))
  {
    var r, remap := Merge(cfg, frag, true), Gathered(cfg, frag).remap;
    var there := ToSet(TagList(r.config.outbounds));
    var kept, fits := RuleKept(frag.rules, remap, there), RuleLanded(frag.rules, remap);
    MergedRules(cfg, frag, true);
    NodeTagIsThere(cfg, frag, i, true);
    var added := r.config.rules[|cfg.rules|..];
    var ps :| Picks(|frag.rules|, added, kept, fits, ps);
    assert kept(j);
    var k :| 0 <= k < |ps| && ps[k] == j;
    assert fits(ps[k], added[k]) && r.config.rules[|cfg.rules| + k] == added[k];
  }

  // -------------------------------------------------------------------- names

  /** The name asked for, or that name with a number from 2 on. */
  ghost predicate NamedAfter(base: string, name: string)
  {
    name == OrNode(base) || IsCandidateFrom(OrNode(base), name, 2)
  }

  lemma FreshNamedAfter(base: string, taken: seq<string>)
    ensures NamedAfter(base, Fresh(base, taken)) && Fresh(base, taken) !in taken
    ensures base != "" && base !in taken ==> Fresh(base, taken) == base
  {
    FreshIsLeast(OrNode(base), taken, 2);
  }

  // -------------------------------------------------------------------- nodes

  /** The config has a mirage node at the endpoint. */
  predicate KnownEndpoint(os: seq<Outbound>, e: Endpoint)
  {
    exists i :: 0 <= i < |os| && os[i].kind.Mirage? && os[i].server.Some? && os[i].HasPort()
             && e == (os[i].server.value, os[i].port.value)
  }

  lemma {:induction false} HostPortsIff(os: seq<Outbound>, e: Endpoint)
    ensures e in HostPorts(os) <==> KnownEndpoint(os, e)
  {
    if os != [] {
      var n := |os| - 1;
      HostPortsIff(os[..n], e);
      assert forall i :: 0 <= i < n ==> os[..n][i] == os[i];
    }
  }

  predicate ListedBefore(nodes: seq<Outbound>, n: nat, e: Endpoint)
  {
    exists j :: 0 <= j < n && j < |nodes| && nodes[j].HasPort() && e == (nodes[j].Host(), nodes[j].port.value)
  }

  /** A node with a valid port whose endpoint neither the config nor an earlier node has. */
  function NodeAdded(os: seq<Outbound>, nodes: seq<Outbound>): nat -> bool
  {
    (i: nat) => i < |nodes| && nodes[i].HasPort() && var e := (nodes[i].Host(), nodes[i].port.value);
                !KnownEndpoint(os, e) && !ListedBefore(nodes, i, e)
  }

  /** The node as it stands, named after its tag or else its host. */
  ghost function NodeLanded(nodes: seq<Outbound>): (nat, Outbound) -> bool
  {
    (i: nat, o: Outbound) => i < |nodes| && o.tag.Some? && o == nodes[i].(tag := o.tag)
                          && NamedAfter(if nodes[i].Tag() == "" then nodes[i].Host() else nodes[i].Tag(), o.tag.value)
  }

  function Valid(nodes: seq<Outbound>): nat
  {
    if nodes == [] then 0 else Valid(nodes[..|nodes| - 1]) + if nodes[|nodes| - 1].HasPort() then 1 else 0
  }

  /** What the node stage has done with the first `n` nodes; `added` is what it appended. */
  ghost predicate NodesDone(cfg: Config, nodes: seq<Outbound>, n: nat, m: Merging, added: seq<Outbound>)
    requires n <= |nodes|
  {
    && m.outbounds == cfg.outbounds + added
    && Lists(n, added, NodeAdded(cfg.outbounds, nodes), NodeLanded(nodes))
    && (forall e :: e in m.hostPort <==> KnownEndpoint(cfg.outbounds, e) || ListedBefore(nodes, n, e))
    && m.report.addedNodes == |added| && m.report.addedNodes + m.report.dupNodes == Valid(nodes[..n])
  }

  lemma {:induction false} NodesLists(cfg: Config, nodes: seq<Outbound>, n: nat) returns (added: seq<Outbound>)
    requires n <= |nodes|
    ensures NodesDone(cfg, nodes, n, AddNodes(StartMerge(cfg), nodes[..n]), added)
  {
    if n == 0 {
      added := [];
      ListsNone(NodeAdded(cfg.outbounds, nodes), NodeLanded(nodes));
      forall e ensures e in HostPorts(cfg.outbounds) <==> KnownEndpoint(cfg.outbounds, e) {
        HostPortsIff(cfg.outbounds, e);
      }
    } else {
      var before := NodesLists(cfg, nodes, n - 1);
      assert nodes[..n][..n - 1] == nodes[..n - 1] && nodes[..n][n - 1] == nodes[n - 1];
      added := NodesMore(cfg, nodes, n - 1, AddNodes(StartMerge(cfg), nodes[..n - 1]), before);
    }
  }

  lemma {:induction false} NodesMore(cfg: Config, nodes: seq<Outbound>, n: nat, m: Merging, before: seq<Outbound>)
    returns (added: seq<Outbound>)
    requires n < |nodes| && NodesDone(cfg, nodes, n, m, before)
    ensures NodesDone(cfg, nodes, n + 1, AddNode(m, nodes[n]), added)
  {
    var kept, fits, r := NodeAdded(cfg.outbounds, nodes), NodeLanded(nodes), AddNode(m, nodes[n]);
    OneNode(cfg, nodes, n, m, before);
    var x := if kept(n) then r.outbounds[|m.outbounds|] else nodes[n];
    added := if kept(n) then before + [x] else before;
    ListsMore(n, before, kept, fits, x);
    ValidSnoc(nodes, n);
    Appended(cfg.outbounds, before, x);
  }

  lemma {:induction false} ValidSnoc(nodes: seq<Outbound>, n: nat)
    requires n < |nodes|
    ensures Valid(nodes[..n + 1]) == Valid(nodes[..n]) + if nodes[n].HasPort() then 1 else 0
  {
    assert nodes[..n + 1][..n] == nodes[..n];
  }

  lemma Appended(a: seq<Outbound>, b: seq<Outbound>, x: Outbound)
    ensures (a + b) + [x] == a + (b + [x])
  {
  }

  lemma OneNode(cfg: Config, nodes: seq<Outbound>, n: nat, m: Merging, before: seq<Outbound>)
    requires n < |nodes| && m.outbounds == cfg.outbounds + before
    requires forall e :: e in m.hostPort <==> KnownEndpoint(cfg.outbounds, e) || ListedBefore(nodes, n, e)
    ensures var r := AddNode(m, nodes[n]);
            && (if NodeAdded(cfg.outbounds, nodes)(n) then
                  && |r.outbounds| == |m.outbounds| + 1 && r.outbounds == m.outbounds + [r.outbounds[|m.outbounds|]]
                  && NodeLanded(nodes)(n, r.outbounds[|m.outbounds|])
                  && r.report.addedNodes == m.report.addedNodes + 1 && r.report.dupNodes == m.report.dupNodes
                else
                  && r.outbounds == m.outbounds && r.report.addedNodes == m.report.addedNodes
                  && r.report.dupNodes == m.report.dupNodes + if nodes[n].HasPort() then 1 else 0)
            && (forall e :: e in r.hostPort <==> KnownEndpoint(cfg.outbounds, e) || ListedBefore(nodes, n + 1, e))
  {
    var base := if nodes[n].Tag() == "" then nodes[n].Host() else nodes[n].Tag();
    FreshNamedAfter(base, m.taken);
    forall e
      ensures ListedBefore(nodes, n + 1, e) <==>
                ListedBefore(nodes, n, e) || (nodes[n].HasPort() && e == (nodes[n].Host(), nodes[n].port.value))
    {
    }
  }

  // --------------------------------------------------------- directs and blocks

  /** The config's last outbound with the tag has the kind. */
  predicate ConfigHas(os: seq<Outbound>, t: string, k: Kind)
  {
    t != "" && exists i :: 0 <= i < |os| && LastTagged(os, i, t) && os[i].kind == k
  }

  /** Position `i` is the last one with the tag. */
  predicate LastTagged(os: seq<Outbound>, i: nat, t: string)
  {
    i < |os| && os[i].Tag() == t && forall j :: i < j < |os| ==> os[j].Tag() != t
  }

  lemma LastTaggedSnoc(os: seq<Outbound>, i: nat, t: string)
    requires os != []
    ensures var n := |os| - 1;
            LastTagged(os, i, t) <==> if os[n].Tag() == t then i == n else LastTagged(os[..n], i, t)
  {
    var n := |os| - 1;
    assert forall j :: 0 <= j < n ==> os[..n][j] == os[j];
  }

  lemma {:induction false} KindOfIff(os: seq<Outbound>, t: string, k: Kind)
    ensures t in KindOf(os) && KindOf(os)[t] == k <==> ConfigHas(os, t, k)
  {
    if os != [] {
      var n := |os| - 1;
      KindOfIff(os[..n], t, k);
      forall i: nat ensures LastTagged(os, i, t) <==> if os[n].Tag() == t then i == n else LastTagged(os[..n], i, t) {
        LastTaggedSnoc(os, i, t);
      }
      if os[n].Tag() == t {
        assert LastTagged(os, n, t);
      } else {
        assert forall i: nat :: LastTagged(os[..n], i, t) ==> os[..n][i] == os[i];
      }
    }
  }

  /** A tagged direct or block that the config does not have under its tag. */
  function BuiltinAdded(cfg: seq<Outbound>, os: seq<Outbound>): nat -> bool
  {
    (i: nat) => i < |os| && Builtin(os[i]) && os[i].Tag() != "" && !ConfigHas(cfg, os[i].Tag(), os[i].kind)
  }

  /** The object as it stands, named after its tag. */
  ghost function BuiltinLanded(os: seq<Outbound>): (nat, Outbound) -> bool
  {
    (i: nat, o: Outbound) => i < |os| && o.tag.Some? && o == os[i].(tag := o.tag)
                          && NamedAfter(os[i].Tag(), o.tag.value)
  }

  lemma {:induction false} BuiltinsLists(cfg: Config, m: Merging, os: seq<Outbound>, n: nat)
    returns (added: seq<Outbound>)
    requires n <= |os|
    ensures AddBuiltins(m, KindOf(cfg.outbounds), os[..n]).outbounds == m.outbounds + added
    ensures Lists(n, added, BuiltinAdded(cfg.outbounds, os), BuiltinLanded(os))
  {
    var kinds, kept, fits := KindOf(cfg.outbounds), BuiltinAdded(cfg.outbounds, os), BuiltinLanded(os);
    if n == 0 {
      added := [];
      ListsNone(kept, fits);
    } else {
      var before := BuiltinsLists(cfg, m, os, n - 1);
      assert os[..n][..n - 1] == os[..n - 1] && os[..n][n - 1] == os[n - 1];
      var m', g := AddBuiltins(m, kinds, os[..n - 1]), os[n - 1];
      var r := AddBuiltin(m', kinds, g);
      OneBuiltin(cfg, m', g);
      var x := if kept(n - 1) then r.outbounds[|m'.outbounds|] else g;
      added := if kept(n - 1) then before + [x] else before;
      ListsMore(n - 1, before, kept, fits, x);
      Appended(m.outbounds, before, x);
    }
  }

  lemma OneBuiltin(cfg: Config, m: Merging, g: Outbound)
    ensures var r := AddBuiltin(m, KindOf(cfg.outbounds), g);
            if Builtin(g) && g.Tag() != "" && !ConfigHas(cfg.outbounds, g.Tag(), g.kind) then
              && |r.outbounds| == |m.outbounds| + 1 && r.outbounds == m.outbounds + [r.outbounds[|m.outbounds|]]
              && BuiltinLanded([g])(0, r.outbounds[|m.outbounds|])
            else r.outbounds == m.outbounds
  {
    KindOfIff(cfg.outbounds, g.Tag(), g.kind);
    FreshNamedAfter(g.Tag(), m.taken);
  }

  // ------------------------------------------------------------------- groups

  function GroupNamed(os: seq<Outbound>): nat -> bool { (i: nat) => i < |os| && TaggedGroup(os[i]) }

  ghost function NamedGroup(os: seq<Outbound>): (nat, (Outbound, string)) -> bool
  {
    (i: nat, p: (Outbound, string)) => i < |os| && p.0 == os[i] && NamedAfter(os[i].Tag(), p.1)
  }

  lemma {:induction false} GroupsLists(m: Merging, os: seq<Outbound>, n: nat)
    requires n <= |os| && m.groups == []
    ensures Lists(n, NameGroups(m, os[..n]).groups, GroupNamed(os), NamedGroup(os))
  {
    var kept, fits := GroupNamed(os), NamedGroup(os);
    if n == 0 {
      ListsNone(kept, fits);
    } else {
      GroupsLists(m, os, n - 1);
      assert os[..n][..n - 1] == os[..n - 1] && os[..n][n - 1] == os[n - 1];
      var m', g := NameGroups(m, os[..n - 1]), os[n - 1];
      FreshNamedAfter(g.Tag(), m'.taken);
      ListsStep(n - 1, m'.groups, NameGroups(m, os[..n]).groups, kept, fits, (g, Fresh(g.Tag(), m'.taken)));
    }
  }

  function MemberKept(remap: map<string, string>, members: seq<string>, there: set<string>): nat -> bool
  {
    (i: nat) => i < |members| && Remapped(remap, members[i]) in there
  }

  function MemberLanded(remap: map<string, string>, members: seq<string>): (nat, string) -> bool
  {
    (i: nat, x: string) => i < |members| && x == Remapped(remap, members[i])
  }

  lemma {:induction false} KeepLists(all: seq<string>, there: set<string>, kept: nat -> bool,
                                     fits: (nat, string) -> bool, n: nat)
    requires n <= |all| && forall i :: 0 <= i < |all| ==> (kept(i) <==> all[i] in there) && fits(i, all[i])
    ensures Lists(n, Keep(all[..n], there), kept, fits)
  {
    if n == 0 {
      ListsNone(kept, fits);
    } else {
      KeepLists(all, there, kept, fits, n - 1);
      KeepStep(all, there, kept, fits, n - 1);
    }
  }

  lemma KeepStep(all: seq<string>, there: set<string>, kept: nat -> bool, fits: (nat, string) -> bool, n: nat)
    requires n < |all| && (kept(n) <==> all[n] in there) && fits(n, all[n])
    requires Lists(n, Keep(all[..n], there), kept, fits)
    ensures Lists(n + 1, Keep(all[..n + 1], there), kept, fits)
  {
    KeepSnoc(all, there, n);
    ListsStep(n, Keep(all[..n], there), Keep(all[..n + 1], there), kept, fits, all[n]);
  }

  lemma {:induction false} KeepSnoc(names: seq<string>, there: set<string>, n: nat)
    requires n < |names|
    ensures Keep(names[..n + 1], there)
         == if names[n] in there then Keep(names[..n], there) + [names[n]] else Keep(names[..n], there)
  {
    assert names[..n + 1][..n] == names[..n];
  }

  /** `g` is the group object with its name, and of its members, in order, those that are there after
      the remap. */
  ghost predicate IsLanded(remap: map<string, string>, there: set<string>, p: (Outbound, string), g: Outbound)
  {
    && g == p.0.(tag := Some(p.1), members := g.members)
    && Lists(|p.0.members|, g.members, MemberKept(remap, p.0.members, there), MemberLanded(remap, p.0.members))
  }

  function GroupPresent(groups: seq<(Outbound, string)>, there: set<string>): nat -> bool
  {
    (k: nat) => k < |groups| && groups[k].1 in there
  }

  ghost function GroupLanded(remap: map<string, string>, groups: seq<(Outbound, string)>, there: set<string>)
    : (nat, Outbound) -> bool
  {
    (k: nat, g: Outbound) => k < |groups| && IsLanded(remap, there, groups[k], g)
  }

  lemma LandGroupsLists(groups: seq<(Outbound, string)>, remap: map<string, string>, there: set<string>)
    ensures Lists(|groups|, LandGroups(groups, remap, there), GroupPresent(groups, there),
                  GroupLanded(remap, groups, there))
  {
    forall k | 0 <= k < |groups|
      ensures GroupLanded(remap, groups, there)(k, LandedGroup(remap, there, groups[k]))
    {
      LandedIs(remap, there, groups[k]);
    }
    LandGroupsListed(groups, remap, there, GroupPresent(groups, there), GroupLanded(remap, groups, there), |groups|);
    assert groups[..|groups|] == groups;
  }

  lemma {:induction false} LandGroupsListed(groups: seq<(Outbound, string)>, remap: map<string, string>,
                                            there: set<string>, kept: nat -> bool,
                                            fits: (nat, Outbound) -> bool, n: nat)
    requires n <= |groups| && forall k :: 0 <= k < |groups| ==> (kept(k) <==> groups[k].1 in there)
    requires forall k :: 0 <= k < |groups| ==> fits(k, LandedGroup(remap, there, groups[k]))
    ensures Lists(n, LandGroups(groups[..n], remap, there), kept, fits)
  {
    if n == 0 {
      ListsNone(kept, fits);
    } else {
      LandGroupsListed(groups, remap, there, kept, fits, n - 1);
      LandSnoc(groups, remap, there, n - 1);
      var g := LandedGroup(remap, there, groups[n - 1]);
      ListsStep(n - 1, LandGroups(groups[..n - 1], remap, there), LandGroups(groups[..n], remap, there), kept, fits, g);
    }
  }

  lemma {:induction false} LandSnoc(groups: seq<(Outbound, string)>, remap: map<string, string>, there: set<string>,
                                    n: nat)
    requires n < |groups|
    ensures var before := LandGroups(groups[..n], remap, there);
            LandGroups(groups[..n + 1], remap, there)
              == if groups[n].1 in there then before + [LandedGroup(remap, there, groups[n])] else before
    ensures var before := SkipGroups(groups[..n], there);
            SkipGroups(groups[..n + 1], there) == if groups[n].1 in there then before else before + [groups[n].1]
  {
    assert groups[..n + 1][..n] == groups[..n];
  }

  lemma LandedIs(remap: map<string, string>, there: set<string>, p: (Outbound, string))
    ensures IsLanded(remap, there, p, LandedGroup(remap, there, p))
  {
    var all := ResolveAll(remap, p.0.members);
    KeepLists(all, there, MemberKept(remap, p.0.members, there), MemberLanded(remap, p.0.members), |all|);
    assert all[..|all|] == all;
  }

  function GroupMissing(groups: seq<(Outbound, string)>, there: set<string>): nat -> bool
  {
    (k: nat) => k < |groups| && groups[k].1 !in there
  }

  function GroupName(groups: seq<(Outbound, string)>): (nat, string) -> bool
  {
    (k: nat, x: string) => k < |groups| && x == groups[k].1
  }

  lemma {:induction false} SkipGroupsLists(groups: seq<(Outbound, string)>, remap: map<string, string>,
                                           there: set<string>, n: nat)
    requires n <= |groups|
    ensures Lists(n, SkipGroups(groups[..n], there), GroupMissing(groups, there), GroupName(groups))
  {
    var kept, fits := GroupMissing(groups, there), GroupName(groups);
    if n == 0 {
      ListsNone(kept, fits);
    } else {
      SkipGroupsLists(groups, remap, there, n - 1);
      LandSnoc(groups, remap, there, n - 1);
      ListsStep(n - 1, SkipGroups(groups[..n - 1], there), SkipGroups(groups[..n], there), kept, fits, groups[n - 1].1);
    }
  }

  // ------------------------------------------------------------ the whole result

  /** The outbounds of a merge: the old ones; then the nodes whose endpoint is new, in order; then the
      directs and blocks the config does not have; then, of the named groups, exactly those whose name
      is a tag of the result, each with the members that are there after the remap. What is not there
      is reported. */
  lemma MergedOutbounds(cfg: Config, frag: Fragment, routing: bool)
    returns (nodes: seq<Outbound>, builtins: seq<Outbound>, named: seq<(Outbound, string)>, groups: seq<Outbound>)
    ensures var r, remap := Merge(cfg, frag, routing), Gathered(cfg, frag).remap;
            var there := ToSet(TagList(r.config.outbounds));
            && r.config.outbounds == cfg.outbounds + nodes + builtins + groups
            && r.config.defaultOutbound == cfg.defaultOutbound
            && Lists(|frag.nodes|, nodes, NodeAdded(cfg.outbounds, frag.nodes), NodeLanded(frag.nodes))
            && Lists(|frag.outbounds|, builtins, BuiltinAdded(cfg.outbounds, frag.outbounds),
                     BuiltinLanded(frag.outbounds))
            && Lists(|frag.outbounds|, named, GroupNamed(frag.outbounds), NamedGroup(frag.outbounds))
            && Lists(|named|, groups, GroupPresent(named, there), GroupLanded(remap, named, there))
            && Lists(|named|, r.report.skippedGroups, GroupMissing(named, there), GroupName(named))
            && r.report.addedNodes == |nodes| && r.report.addedNodes + r.report.dupNodes == Valid(frag.nodes)
            && r.report.addedGroups == |groups|
  {
    var r, m := Merge(cfg, frag, routing), Gathered(cfg, frag);
    var start := AddNodes(StartMerge(cfg), frag.nodes);
    MergeKeepsTags(cfg, frag, routing);
    nodes := NodesLists(cfg, frag.nodes, |frag.nodes|);
    assert frag.nodes[..|frag.nodes|] == frag.nodes && frag.outbounds[..|frag.outbounds|] == frag.outbounds;
    NamesAreGathered(cfg, frag);
    GroupsLists(start, frag.outbounds, |frag.outbounds|);
    builtins := BuiltinsLists(cfg, NameGroups(start, frag.outbounds), frag.outbounds, |frag.outbounds|);
    GroupsTouchNothing(start, frag.outbounds);
    named, groups := m.groups, r.groups;
    assert named[..|named|] == named;
    LandGroupsLists(named, m.remap, r.present);
    SkipGroupsLists(named, m.remap, r.present, |named|);
    BuiltinsTouchNothing(NameGroups(start, frag.outbounds), KindOf(cfg.outbounds), frag.outbounds);
  }

  lemma {:induction false} GroupsTouchNothing(m: Merging, os: seq<Outbound>)
    ensures var r := NameGroups(m, os);
            && r.outbounds == m.outbounds && r.report.addedNodes == m.report.addedNodes
            && r.report.dupNodes == m.report.dupNodes
  {
    if os != [] {
      GroupsTouchNothing(m, os[..|os| - 1]);
    }
  }

  lemma {:induction false} BuiltinsTouchNothing(m: Merging, kinds: map<string, Kind>, os: seq<Outbound>)
    ensures var r := AddBuiltins(m, kinds, os);
            r.report.addedNodes == m.report.addedNodes && r.report.dupNodes == m.report.dupNodes
  {
    if os != [] {
      BuiltinsTouchNothing(m, kinds, os[..|os| - 1]);
    }
  }

  // ------------------------------------------------------------------ renames

  /** The name that the step took for an object tagged `tag`, if it took one, is reported if and only
      if it is not the tag itself. */
  predicate ReportsRename(m: Merging, r: Merging, tag: string)
  {
    && m.taken <= r.taken && |r.taken| <= |m.taken| + 1
    && r.report.renamed ==
         if |r.taken| > |m.taken| && tag != "" && r.taken[|m.taken|] != tag
         then m.report.renamed + [(tag, r.taken[|m.taken|])] else m.report.renamed
  }

  /** Nodes, groups and builtins are reported as renamed exactly when they are, with old and new name,
      and nothing after them adds a rename. */
  lemma RenamesReported(cfg: Config, frag: Fragment, routing: bool, m: Merging, o: Outbound)
    ensures ReportsRename(m, AddNode(m, o), o.Tag()) && ReportsRename(m, NameGroup(m, o), o.Tag())
    ensures ReportsRename(m, AddBuiltin(m, KindOf(cfg.outbounds), o), o.Tag())
    ensures Merge(cfg, frag, routing).report.renamed == Gathered(cfg, frag).report.renamed
  {
  }
}
