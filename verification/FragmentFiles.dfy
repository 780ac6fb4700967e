/** The loops behind `merge_fragment` and `build_export`, proved against module Fragments. */
module FragmentFiles {
  import opened Wrappers
  import opened Bytes
  import opened Reachability
  import opened Tags
  import opened Fragments
  import opened MergeTheorems

  lemma KeepOneMore(names: seq<string>, present: set<string>, k: nat)
    requires k < |names|
    ensures Keep(names[..k + 1], present) == Keep(names[..k], present) + if names[k] in present then [names[k]] else []
  {
    assert names[..k + 1][..k] == names[..k];
  }

  /** Remaps a member list and drops what is not present. */
  method MapMembers(members: seq<string>, remap: map<string, string>, present: set<string>)
    returns (mapped: seq<string>)
    ensures mapped == Keep(ResolveAll(remap, members), present)
  {
    mapped := [];
    ghost var all := ResolveAll(remap, members);
    for k := 0 to |members|
      invariant mapped == Keep(all[..k], present)
    {
      KeepOneMore(all, present, k);
      var resolved := Resolve(remap, members[k]);
      if resolved in present {
        mapped := mapped + [resolved];
      }
    }
    assert all[..|members|] == all;
  }

  /** One more group of a landing. */
  lemma LandOneMore(groups: seq<(Outbound, string)>, remap: map<string, string>, present: set<string>, i: nat)
    requires i < |groups|
    ensures LandGroups(groups[..i + 1], remap, present)
         == LandGroups(groups[..i], remap, present)
            + if groups[i].1 in present then [LandedGroup(remap, present, groups[i])] else []
    ensures SkipGroups(groups[..i + 1], present)
         == SkipGroups(groups[..i], present) + if groups[i].1 in present then [] else [groups[i].1]
  {
    assert groups[..i + 1][..i] == groups[..i];
  }

  /** The collections a merge updates in place. */
  class FragmentMerger {
    var outbounds: seq<Outbound>
    var taken: seq<string>
    var hostPort: map<Endpoint, string>
    var remap: map<string, string>
    var groups: seq<(Outbound, string)>
    var report: Report

    ghost function State(): Merging
      reads this
    {
      Merging(outbounds, taken, hostPort, remap, groups, report)
    }

    constructor (cfg: Config)
      ensures State() == StartMerge(cfg)
    {
      outbounds := cfg.outbounds;
      remap, groups, report := map[], [], Report(0, 0, 0, 0, 0, [], []);
      taken, hostPort := [], map[];
      new;
      for i := 0 to |cfg.outbounds|
        invariant taken == TagList(cfg.outbounds[..i]) && hostPort == HostPorts(cfg.outbounds[..i])
        invariant outbounds == cfg.outbounds && remap == map[] && groups == []
        invariant report == Report(0, 0, 0, 0, 0, [], [])
      {
        var o := cfg.outbounds[i];
        assert cfg.outbounds[..i + 1][..i] == cfg.outbounds[..i];
        if o.tag.Some? {
          taken := taken + [o.tag.value];
        }
        if o.kind.Mirage? && o.server.Some? && o.HasPort() {
          hostPort := hostPort[(o.server.value, o.port.value) := o.Tag()];
        }
      }
      assert cfg.outbounds[..|cfg.outbounds|] == cfg.outbounds;
    }

    method MergeNodes(nodes: seq<Outbound>)
      modifies this
      ensures State() == AddNodes(old(State()), nodes)
    {
      for i := 0 to |nodes|
        invariant State() == AddNodes(old(State()), nodes[..i])
      {
        var n := nodes[i];
        assert nodes[..i + 1][..i] == nodes[..i];
        var orig, host := n.Tag(), n.Host();
        if n.port.None? || n.port.value > U16_MAX {
          continue;
        }
        var key := (host, n.port.value);
        if key in hostPort {
          if orig != "" {
            remap := remap[orig := hostPort[key]];
          }
          report := report.(dupNodes := report.dupNodes + 1);
          continue;
        }
        var tag;
        tag, taken := UniqueAutoTag(if orig == "" then host else orig, taken);
        if orig != "" {
          if tag != orig {
            report := report.(renamed := report.renamed + [(orig, tag)]);
          }
          remap := remap[orig := tag];
        }
        outbounds := outbounds + [n.(tag := Some(tag))];
        hostPort := hostPort[key := tag];
        report := report.(addedNodes := report.addedNodes + 1);
      }
      assert nodes[..|nodes|] == nodes;
    }

    method NameAllGroups(os: seq<Outbound>)
      modifies this
      ensures State() == NameGroups(old(State()), os)
    {
      for i := 0 to |os|
        invariant State() == NameGroups(old(State()), os[..i])
      {
        var g := os[i];
        assert os[..i + 1][..i] == os[..i];
        var orig := g.Tag();
        if !IsGroup(g.kind) || orig == "" {
          continue;
        }
        var tag;
        tag, taken := UniqueAutoTag(orig, taken);
        if tag != orig {
          report := report.(renamed := report.renamed + [(orig, tag)]);
        }
        remap := remap[orig := tag];
        groups := groups + [(g, tag)];
      }
      assert os[..|os|] == os;
    }

    method MergeBuiltins(kinds: map<string, Kind>, os: seq<Outbound>)
      modifies this
      ensures State() == AddBuiltins(old(State()), kinds, os)
    {
      for i := 0 to |os|
        invariant State() == AddBuiltins(old(State()), kinds, os[..i])
      {
        var g := os[i];
        assert os[..i + 1][..i] == os[..i];
        var tag := g.Tag();
        if !IsBuiltin(g.kind) || tag == "" {
          continue;
        }
        if tag in kinds && kinds[tag] == g.kind {
          remap := if tag in remap then remap else remap[tag := tag];
          continue;
        }
        if tag in taken {
          var newTag;
          newTag, taken := UniqueAutoTag(tag, taken);
          report := report.(renamed := report.renamed + [(tag, newTag)]);
          remap := remap[tag := newTag];
          outbounds := outbounds + [g.(tag := Some(newTag))];
        } else {
          remap := if tag in remap then remap else remap[tag := tag];
          outbounds := outbounds + [g];
          taken := taken + [tag];
        }
      }
      assert os[..|os|] == os;
    }

    /** The names that are present: everything grounded, and the groups that lead there. */
    method PresentNames() returns (present: set<string>)
      ensures present == Landed(GroupNodes(State()), Grounded(State()))
      ensures forall i :: 0 <= i < |groups| ==>
                (groups[i].1 in present <==> Leads(GroupNodes(State()), Grounded(State()), groups[i].1))
    {
      var base := set x | x in taken;
      for i := 0 to |groups|
        invariant base == ToSet(taken) - GroupTags(groups[..i])
      {
        assert groups[..i + 1] == groups[..i] + [groups[i]];
        GroupTagsSnoc(groups[..i], groups[i]);
        base := base - {groups[i].1};
      }
      assert groups[..|groups|] == groups;
      var nodes := GroupNodes(Merging(outbounds, taken, hostPort, remap, groups, report));
      present := Saturate(nodes, base);
      LandedSplits(State());
    }

    method LandPresent(present: set<string>)
      modifies this
      ensures outbounds == old(outbounds) + LandGroups(old(groups), old(remap), present)
      ensures report == old(report).(
                          addedGroups := old(report).addedGroups + |LandGroups(old(groups), old(remap), present)|,
                                     skippedGroups := old(report).skippedGroups + SkipGroups(old(groups), present))
      ensures remap == old(remap)
    {
      var landed, skipped := [], [];
      for i := 0 to |groups|
        invariant State() == old(State())
        invariant landed == LandGroups(groups[..i], remap, present) && skipped == SkipGroups(groups[..i], present)
      {
        LandOneMore(groups, remap, present, i);
        var g, tag := groups[i].0, groups[i].1;
        if tag !in present {
          skipped := skipped + [tag];
          continue;
        }
        var mapped := MapMembers(g.members, remap, present);
        landed := landed + [g.(tag := Some(tag), members := mapped)];
      }
      assert groups[..|groups|] == groups;
      outbounds := outbounds + landed;
      report := report.(addedGroups := report.addedGroups + |landed|, skippedGroups := report.skippedGroups + skipped);
    }
  }

  method MergeRules(rules: seq<Rule>, remap: map<string, string>, present: set<string>)
    returns (added: seq<Rule>, dropped: nat)
    ensures added == AddRules(rules, remap, present) && dropped == |rules| - |added|
    ensures forall r :: r in added ==> r.outbound.Some? && r.outbound.value in present
  {
    added, dropped := [], 0;
    for i := 0 to |rules|
      invariant added == AddRules(rules[..i], remap, present) && dropped == i - |added|
    {
      assert rules[..i + 1][..i] == rules[..i];
      var resolved := Resolve(remap, rules[i].Target());
      if resolved !in present {
        dropped := dropped + 1;
        continue;
      }
      added := added + [rules[i].(outbound := Some(resolved))];
    }
    assert rules[..|rules|] == rules;
    AddRulesTargets(rules, remap, present);
  }

  method KindsOf(os: seq<Outbound>) returns (kinds: map<string, Kind>)
    ensures kinds == KindOf(os)
  {
    kinds := map[];
    for i := 0 to |os|
      invariant kinds == KindOf(os[..i])
    {
      assert os[..i + 1][..i] == os[..i];
      if os[i].Tag() != "" {
        kinds := kinds[os[i].Tag() := os[i].kind];
      }
    }
    assert os[..|os|] == os;
  }

  /** `merge_fragment`. */
  method MergeFragment(cfg: Config, frag: Fragment, routing: bool) returns (config: Config, report: Report)
    ensures config == Merge(cfg, frag, routing).config && report == Merge(cfg, frag, routing).report
    ensures cfg.outbounds <= config.outbounds && cfg.rules <= config.rules
    ensures NoDup(TagList(cfg.outbounds)) ==> NoDup(TagList(config.outbounds))
  {
    MergeKeepsTags(cfg, frag, routing);
    var m := new FragmentMerger(cfg);
    var kinds := KindsOf(cfg.outbounds);
    m.MergeNodes(frag.nodes);
    m.NameAllGroups(frag.outbounds);
    m.MergeBuiltins(kinds, frag.outbounds);
    ghost var gathered := m.State();
    GatheredReport(cfg, frag);
    var present := m.PresentNames();
    m.LandPresent(present);
    var rules, dropped := [], 0;
    if routing {
      rules, dropped := MergeRules(frag.rules, m.remap, present);
    }
    config := cfg.(outbounds := m.outbounds, rules := cfg.rules + rules);
    report := m.report.(addedRules := |rules|, droppedRules := dropped);
    FinishIs(cfg, frag, routing, gathered, present, config, report);
  }

  lemma FinishIs(cfg: Config, frag: Fragment, routing: bool, m: Merging, present: set<string>, config: Config,
                 report: Report)
    requires m.report.addedGroups == 0 && m.report.skippedGroups == []
    requires var rules := if routing then AddRules(frag.rules, m.remap, present) else [];
             && config == cfg.(outbounds := m.outbounds + LandGroups(m.groups, m.remap, present),
                               rules := cfg.rules + rules)
             && report == m.report.(addedGroups := 0 + |LandGroups(m.groups, m.remap, present)|,
                                    skippedGroups := [] + SkipGroups(m.groups, present), addedRules := |rules|,
                                    droppedRules := if routing then |frag.rules| - |rules| else 0)
    ensures Finish(cfg, frag, routing, m, present).config == config
    ensures Finish(cfg, frag, routing, m, present).report == report
  {
    assert [] + SkipGroups(m.groups, present) == SkipGroups(m.groups, present);
  }

  /** Until groups land, a merge has counted no groups and no rules. */
  lemma GatheredReport(cfg: Config, frag: Fragment)
    ensures var r := Gathered(cfg, frag).report;
            r.addedGroups == 0 && r.skippedGroups == [] && r.addedRules == 0 && r.droppedRules == 0
  {
    var m := AddNodes(StartMerge(cfg), frag.nodes);
    NodesReport(StartMerge(cfg), frag.nodes);
    GroupsReport(m, frag.outbounds);
    BuiltinsReport(NameGroups(m, frag.outbounds), KindOf(cfg.outbounds), frag.outbounds);
  }

  predicate SameLanding(a: Report, b: Report)
  {
    && a.addedGroups == b.addedGroups && a.skippedGroups == b.skippedGroups
    && a.addedRules == b.addedRules && a.droppedRules == b.droppedRules
  }

  lemma {:induction false} NodesReport(m: Merging, nodes: seq<Outbound>)
    ensures SameLanding(AddNodes(m, nodes).report, m.report)
  {
    if nodes != [] {
      NodesReport(m, nodes[..|nodes| - 1]);
    }
  }

  lemma {:induction false} GroupsReport(m: Merging, os: seq<Outbound>)
    ensures SameLanding(NameGroups(m, os).report, m.report)
  {
    if os != [] {
      GroupsReport(m, os[..|os| - 1]);
    }
  }

  lemma {:induction false} BuiltinsReport(m: Merging, kinds: map<string, Kind>, os: seq<Outbound>)
    ensures SameLanding(AddBuiltins(m, kinds, os).report, m.report)
  {
    if os != [] {
      BuiltinsReport(m, kinds, os[..|os| - 1]);
    }
  }

  /** The picked tags and the tags of every direct and block. */
  method ExportBase(os: seq<Outbound>, picked: set<string>) returns (exported: set<string>)
    ensures exported == picked + BuiltinTags(os)
  {
    exported := picked;
    for i := 0 to |os|
      invariant exported == picked + BuiltinTags(os[..i])
    {
      assert os[..i + 1] == os[..i] + [os[i]];
      if IsBuiltin(os[i].kind) {
        exported := exported + {os[i].Tag()};
      }
    }
    assert os[..|os|] == os;
  }

  /** The builtins that something exported refers to. */
  method TakeBuiltins(os: seq<Outbound>, referenced: set<string>) returns (out: seq<Outbound>)
    ensures out == Select(os, (o: Outbound) => Builtin(o) && o.Tag() in referenced)
  {
    out := [];
    ghost var keep := (o: Outbound) => Builtin(o) && o.Tag() in referenced;
    for i := 0 to |os|
      invariant out == Select(os[..i], keep)
    {
      assert os[..i + 1][..i] == os[..i];
      if IsBuiltin(os[i].kind) && os[i].Tag() in referenced {
        out := out + [os[i]];
      }
    }
    assert os[..|os|] == os;
  }

  /** `build_export`. */
  method BuildExport(cfg: Config, picked: set<string>, withRules: bool, matches: (string, string) -> bool)
    returns (frag: Fragment)
    ensures frag == Export(cfg, picked, withRules, matches)
  {
    var base := ExportBase(cfg.outbounds, picked);
    var groups := Select(cfg.outbounds, TaggedGroup);
    var nodes := ExportNodes(cfg.outbounds, groups, matches);
    var exported := Saturate(nodes, base);
    assert exported == Landed(nodes, base);
    var kept := TrimGroups(groups, exported);
    var rules := if withRules then KeepRules(cfg.rules, exported) else [];
    var default := if withRules && cfg.defaultOutbound.Some? && cfg.defaultOutbound.value in exported
                   then cfg.defaultOutbound else None;
    var builtins := TakeBuiltins(cfg.outbounds, Referenced(kept, rules, default));
    frag := Fragment(Select(cfg.outbounds, (o: Outbound) => o.kind.Mirage? && o.Tag() in picked),
                     kept + builtins, rules, default);
  }
}
