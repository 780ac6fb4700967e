/** What an export holds, told from the config: which nodes, groups, directs, blocks and rules, in
    which order, and which names they may refer to. */
module ExportResult {
  import opened Wrappers
  import opened Listing
  import opened Reachability
  import opened Fragments
  import opened MergeTheorems
  import opened ExportTheorems

  // ------------------------------------------------------------ exported names

  /** A proxy leaf with the tag matches the group's filter. */
  predicate FilterHits(os: seq<Outbound>, g: Outbound, matches: (string, string) -> bool, t: string)
  {
    g.filter.Some? && matches(g.filter.value, t)
    && exists i :: 0 <= i < |os| && IsProxyLeaf(os[i].kind) && os[i].Tag() == t
  }

  lemma {:induction false} FilterRefsIff(os: seq<Outbound>, g: Outbound, matches: (string, string) -> bool, t: string)
    ensures t in FilterRefs(os, g, matches) <==> FilterHits(os, g, matches, t)
  {
    if os != [] && g.filter.Some? {
      var n := |os| - 1;
      FilterRefsIff(os[..n], g, matches, t);
      assert forall i :: 0 <= i < n ==> os[..n][i] == os[i];
    }
  }

  /** The group names something in the set: a member, or a proxy leaf its filter matches. */
  ghost predicate Reaches(os: seq<Outbound>, g: Outbound, matches: (string, string) -> bool, s: set<string>)
  {
    exists t :: t in s && (t in g.members || FilterHits(os, g, matches, t))
  }

  /** The set holds the picked tags, the directs and blocks, and every group that reaches into it. */
  ghost predicate ClosedUnder(cfg: Config, picked: set<string>, matches: (string, string) -> bool, s: set<string>)
  {
    && picked <= s
    && (forall o :: o in cfg.outbounds && Builtin(o) ==> o.Tag() in s)
    && (forall g :: g in cfg.outbounds && TaggedGroup(g) && Reaches(cfg.outbounds, g, matches, s) ==> g.Tag() in s)
  }

  lemma NodeRefsIff(os: seq<Outbound>, groups: seq<Outbound>, matches: (string, string) -> bool, i: nat, t: string)
    requires i < |groups|
    ensures ExportNodes(os, groups, matches)[i].name == groups[i].Tag()
    ensures t in ExportNodes(os, groups, matches)[i].refs <==>
              t in groups[i].members || FilterHits(os, groups[i], matches, t)
  {
    FilterRefsIff(os, groups[i], matches, t);
  }

  lemma ExportedIsClosed(cfg: Config, picked: set<string>, matches: (string, string) -> bool)
    ensures ClosedUnder(cfg, picked, matches, Exported(cfg, picked, matches))
  {
    var os, groups := cfg.outbounds, Select(cfg.outbounds, TaggedGroup);
    var nodes, base := ExportNodes(os, groups, matches), picked + BuiltinTags(os);
    var exported := Exported(cfg, picked, matches);
    forall t | t in base ensures t in exported {
      BaseLeads(nodes, base, t);
    }
    forall g | g in os && TaggedGroup(g) && Reaches(os, g, matches, exported) ensures g.Tag() in exported {
      var t :| t in exported && (t in g.members || FilterHits(os, g, matches, t));
      SelectIff(os, TaggedGroup, g);
      var i :| 0 <= i < |groups| && groups[i] == g;
      NodeRefsIff(os, groups, matches, i, t);
      assert Edge(nodes, g.Tag(), t);
      EdgeLeads(nodes, base, g.Tag(), t);
      assert nodes[i].name in Names(nodes);
    }
  }

  /** What is exported is the least such set: picked tags, directs and blocks, and the groups that
      reach them through members and filters, and nothing else. */
  lemma ExportedIsLeast(cfg: Config, picked: set<string>, matches: (string, string) -> bool, s: set<string>)
    ensures ClosedUnder(cfg, picked, matches, Exported(cfg, picked, matches))
    ensures ClosedUnder(cfg, picked, matches, s) ==> Exported(cfg, picked, matches) <= s
  {
    var os, groups := cfg.outbounds, Select(cfg.outbounds, TaggedGroup);
    var nodes, base := ExportNodes(os, groups, matches), picked + BuiltinTags(os);
    ExportedIsClosed(cfg, picked, matches);
    if ClosedUnder(cfg, picked, matches, s) {
      NodesClosed(cfg, picked, matches, s);
      forall t | t in Exported(cfg, picked, matches) ensures t in s {
        var path :| IsPath(nodes, path) && path[0] == t && path[|path| - 1] in base;
        ClosedCatchesPaths(nodes, base, s, path);
      }
    }
  }

  lemma NodesClosed(cfg: Config, picked: set<string>, matches: (string, string) -> bool, s: set<string>)
    requires ClosedUnder(cfg, picked, matches, s)
    ensures var groups := Select(cfg.outbounds, TaggedGroup);
            Closed(ExportNodes(cfg.outbounds, groups, matches), s, |groups|)
  {
    var os, groups := cfg.outbounds, Select(cfg.outbounds, TaggedGroup);
    var nodes := ExportNodes(os, groups, matches);
    forall i | 0 <= i < |groups| && AnyPresent(nodes[i].refs, s) ensures nodes[i].name in s {
      var t :| t in nodes[i].refs && t in s;
      NodeRefsIff(os, groups, matches, i, t);
      SelectIff(os, TaggedGroup, groups[i]);
      assert Reaches(os, groups[i], matches, s);
    }
  }

  // ------------------------------------------------------------------- lists

  function Same<A(==)>(xs: seq<A>): (nat, A) -> bool { (i: nat, x: A) => i < |xs| && x == xs[i] }

  function Kept(os: seq<Outbound>, keep: Outbound -> bool): nat -> bool { (i: nat) => i < |os| && keep(os[i]) }

  lemma {:induction false} SelectLists(os: seq<Outbound>, keep: Outbound -> bool, n: nat)
    requires n <= |os|
    ensures Lists(n, Select(os[..n], keep), Kept(os, keep), Same(os))
  {
    if n == 0 {
      ListsNone(Kept(os, keep), Same(os));
    } else {
      SelectLists(os, keep, n - 1);
      assert os[..n][..n - 1] == os[..n - 1] && os[..n][n - 1] == os[n - 1];
      var before := Select(os[..n - 1], keep);
      assert before + [] == before;
      ListsMore(n - 1, before, Kept(os, keep), Same(os), os[n - 1]);
    }
  }

  function RuleExported(rules: seq<Rule>, exported: set<string>): nat -> bool
  {
    (i: nat) => i < |rules| && rules[i].outbound.Some? && rules[i].outbound.value in exported
  }

  lemma {:induction false} KeepRulesLists(rules: seq<Rule>, exported: set<string>, n: nat)
    requires n <= |rules|
    ensures Lists(n, KeepRules(rules[..n], exported), RuleExported(rules, exported), Same(rules))
  {
    if n == 0 {
      ListsNone(RuleExported(rules, exported), Same(rules));
    } else {
      KeepRulesLists(rules, exported, n - 1);
      assert rules[..n][..n - 1] == rules[..n - 1] && rules[..n][n - 1] == rules[n - 1];
      var before := KeepRules(rules[..n - 1], exported);
      assert before + [] == before;
      ListsMore(n - 1, before, RuleExported(rules, exported), Same(rules), rules[n - 1]);
    }
  }

  function MemberExported(members: seq<string>, exported: set<string>): nat -> bool
  {
    (i: nat) => i < |members| && members[i] in exported
  }

  lemma {:induction false} KeepMembersLists(members: seq<string>, exported: set<string>, n: nat)
    requires n <= |members|
    ensures Lists(n, Keep(members[..n], exported), MemberExported(members, exported), Same(members))
  {
    if n == 0 {
      ListsNone(MemberExported(members, exported), Same(members));
    } else {
      KeepMembersLists(members, exported, n - 1);
      assert members[..n][..n - 1] == members[..n - 1] && members[..n][n - 1] == members[n - 1];
      var before := Keep(members[..n - 1], exported);
      assert before + [] == before;
      ListsMore(n - 1, before, MemberExported(members, exported), Same(members), members[n - 1]);
    }
  }

  /** The group as it stands, with its exported members in order. */
  ghost predicate IsTrimmed(g: Outbound, exported: set<string>, x: Outbound)
  {
    && x == g.(members := x.members)
    && Lists(|g.members|, x.members, MemberExported(g.members, exported), Same(g.members))
  }

  function GroupExported(os: seq<Outbound>, exported: set<string>): nat -> bool
  {
    (i: nat) => i < |os| && TaggedGroup(os[i]) && os[i].Tag() in exported
  }

  ghost function GroupTrimmed(os: seq<Outbound>, exported: set<string>): (nat, Outbound) -> bool
  {
    (i: nat, x: Outbound) => i < |os| && IsTrimmed(os[i], exported, x)
  }

  lemma TrimmedIs(g: Outbound, exported: set<string>)
    ensures IsTrimmed(g, exported, Trimmed(g, exported))
  {
    KeepMembersLists(g.members, exported, |g.members|);
    assert g.members[..|g.members|] == g.members;
  }

  lemma {:induction false} SelectTwice(os: seq<Outbound>, p: Outbound -> bool, q: Outbound -> bool,
                                       both: Outbound -> bool)
    requires forall o :: both(o) <==> p(o) && q(o)
    ensures Select(Select(os, p), q) == Select(os, both)
  {
    if os != [] {
      var n := |os| - 1;
      SelectTwice(os[..n], p, q, both);
      var last := if p(os[n]) then [os[n]] else [];
      SelectConcat(Select(os[..n], p), last, q);
      SelectOne(os[n], q);
    }
  }

  lemma SelectOne(o: Outbound, q: Outbound -> bool)
    ensures Select([o], q) == (if q(o) then [o] else []) && Select([], q) == []
  {
    assert [o][..0] == [];
    assert [] + [o] == [o];
  }

  lemma TrimGroupsLists(os: seq<Outbound>, exported: set<string>)
    ensures Lists(|os|, TrimGroups(Select(os, TaggedGroup), exported), GroupExported(os, exported),
                  GroupTrimmed(os, exported))
  {
    var in' := (g: Outbound) => g.Tag() in exported;
    var both := (g: Outbound) => TaggedGroup(g) && g.Tag() in exported;
    SelectTwice(os, TaggedGroup, in', both);
    SelectLists(os, both, |os|);
    assert os[..|os|] == os;
    var kept, out := Select(os, both), TrimGroups(Select(os, TaggedGroup), exported);
    forall i, x | 0 <= i < |os| && Kept(os, both)(i) && Same(os)(i, x)
      ensures GroupTrimmed(os, exported)(i, Trimmed(x, exported))
    {
      TrimmedIs(os[i], exported);
    }
    ListsMap(|os|, kept, out, Kept(os, both), Same(os), GroupTrimmed(os, exported),
             (g: Outbound) => Trimmed(g, exported));
    ListsAlso(|os|, out, Kept(os, both), GroupTrimmed(os, exported), GroupExported(os, exported),
              GroupTrimmed(os, exported));
  }

  /** Something exported refers to the tag: a member, a rule or the default outbound. */
  ghost predicate RefersTo(groups: seq<Outbound>, rules: seq<Rule>, default: Option<string>, t: string)
  {
    || (exists g :: g in groups && t in g.members)
    || (exists r :: r in rules && r.outbound == Some(t))
    || default == Some(t)
  }

  ghost function BuiltinReferenced(os: seq<Outbound>, groups: seq<Outbound>, rules: seq<Rule>,
                                   default: Option<string>): nat -> bool
  {
    (i: nat) => i < |os| && Builtin(os[i]) && RefersTo(groups, rules, default, os[i].Tag())
  }

  function NodePicked(os: seq<Outbound>, picked: set<string>): nat -> bool
  {
    (i: nat) => i < |os| && os[i].kind.Mirage? && os[i].Tag() in picked
  }

  /** The lists of an export, in the order of the config: the picked nodes; the exported groups with
      their exported members, then the directs and blocks that something exported refers to; with
      rules, exactly the rules to exported outbounds; and the default outbound if it is exported. */
  ghost predicate ExportHolds(cfg: Config, picked: set<string>, withRules: bool, exported: set<string>, frag: Fragment,
                              groups: seq<Outbound>, builtins: seq<Outbound>)
  {
    && Lists(|cfg.outbounds|, frag.nodes, NodePicked(cfg.outbounds, picked), Same(cfg.outbounds))
    && frag.outbounds == groups + builtins
    && Lists(|cfg.outbounds|, groups, GroupExported(cfg.outbounds, exported), GroupTrimmed(cfg.outbounds, exported))
    && Lists(|cfg.outbounds|, builtins, BuiltinReferenced(cfg.outbounds, groups, frag.rules, frag.defaultOutbound),
             Same(cfg.outbounds))
    && (if withRules then Lists(|cfg.rules|, frag.rules, RuleExported(cfg.rules, exported), Same(cfg.rules))
        else frag.rules == [])
    && frag.defaultOutbound == (if withRules && cfg.defaultOutbound.Some? && cfg.defaultOutbound.value in exported
                                then cfg.defaultOutbound else None)
  }

  lemma ExportIs(cfg: Config, picked: set<string>, withRules: bool, matches: (string, string) -> bool)
    returns (groups: seq<Outbound>, builtins: seq<Outbound>)
    ensures ExportHolds(cfg, picked, withRules, Exported(cfg, picked, matches), Export(cfg, picked, withRules, matches),
                        groups, builtins)
  {
    var os, exported, frag := cfg.outbounds, Exported(cfg, picked, matches), Export(cfg, picked, withRules, matches);
    groups := TrimGroups(Select(os, TaggedGroup), exported);
    TrimGroupsLists(os, exported);
    var referenced := Referenced(groups, frag.rules, frag.defaultOutbound);
    var wanted := (o: Outbound) => Builtin(o) && o.Tag() in referenced;
    builtins := Select(os, wanted);
    assert os[..|os|] == os && cfg.rules[..|cfg.rules|] == cfg.rules;
    SelectLists(os, (o: Outbound) => o.kind.Mirage? && o.Tag() in picked, |os|);
    ListsAlso(|os|, frag.nodes, Kept(os, (o: Outbound) => o.kind.Mirage? && o.Tag() in picked), Same(os),
              NodePicked(os, picked), Same(os));
    SelectLists(os, wanted, |os|);
    forall t ensures t in referenced <==> RefersTo(groups, frag.rules, frag.defaultOutbound, t) {
    }
    ListsAlso(|os|, builtins, Kept(os, wanted), Same(os),
              BuiltinReferenced(os, groups, frag.rules, frag.defaultOutbound), Same(os));
    KeepRulesLists(cfg.rules, exported, |cfg.rules|);
  }

  /** Export then merge into an empty config, told from the first config: the picked nodes, the
      referenced directs and blocks, the exported groups with their exported members, and the rules
      to exported outbounds come back, each in the order of the first config. */
  lemma ExportThenMergeIs(cfg: Config, picked: set<string>, matches: (string, string) -> bool)
    returns (groups: seq<Outbound>, builtins: seq<Outbound>)
    requires Exportable(cfg, picked)
    ensures var frag := Export(cfg, picked, true, matches);
            && ExportHolds(cfg, picked, true, Exported(cfg, picked, matches), frag, groups, builtins)
            && Merge(EMPTY, frag, true).config == Config(frag.nodes + builtins + groups, frag.rules, None)
  {
    var frag := Export(cfg, picked, true, matches);
    groups, builtins := ExportIs(cfg, picked, true, matches);
    ExportThenMerge(cfg, picked, matches);
    PartsAre(cfg.outbounds, groups, builtins, Exported(cfg, picked, matches),
             BuiltinReferenced(cfg.outbounds, groups, frag.rules, frag.defaultOutbound));
    SelectParts(groups, builtins, Builtin);
    SelectParts(builtins, groups, GroupKind);
  }

  lemma PartsAre(os: seq<Outbound>, groups: seq<Outbound>, builtins: seq<Outbound>, exported: set<string>,
                 wanted: nat -> bool)
    requires Lists(|os|, groups, GroupExported(os, exported), GroupTrimmed(os, exported))
    requires Lists(|os|, builtins, wanted, Same(os)) && forall i :: 0 <= i < |os| && wanted(i) ==> Builtin(os[i])
    ensures forall k :: 0 <= k < |groups| ==> IsGroup(groups[k].kind) && !Builtin(groups[k])
    ensures forall k :: 0 <= k < |builtins| ==> Builtin(builtins[k]) && !GroupKind(builtins[k])
  {
    var group, builtin := (g: Outbound) => IsGroup(g.kind) && !Builtin(g), (g: Outbound) => Builtin(g) && !GroupKind(g);
    ListsAll(|os|, groups, GroupExported(os, exported), GroupTrimmed(os, exported), group);
    ListsAll(|os|, builtins, wanted, Same(os), builtin);
    assert forall k :: 0 <= k < |groups| ==> group(groups[k]);
    assert forall k :: 0 <= k < |builtins| ==> builtin(builtins[k]);
  }
}
