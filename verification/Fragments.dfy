/** Config fragments on values: exporting a selection of a config, and merging a fragment into
    a config with renaming, de-duplication and reference remapping. */
module Fragments {
  import opened Wrappers
  import opened Bytes
  import opened Reachability
  import opened Tags

  datatype Kind =
    | Mirage | Direct | Block | Wireguard | Shadowsocks
    | Urltest | Fallback | Selector | LoadBalance
    | OtherKind(name: string)

  predicate IsGroup(k: Kind) { k.Urltest? || k.Fallback? || k.Selector? || k.LoadBalance? }
  predicate IsBuiltin(k: Kind) { k.Direct? || k.Block? }
  predicate IsProxyLeaf(k: Kind) { k.Mirage? || k.Wireguard? || k.Shadowsocks? }

  /** An outbound object: the fields the code looks at, and `body` for all the others. */
  datatype Outbound = Outbound(tag: Option<string>, kind: Kind, server: Option<string>, port: Option<nat>,
                               members: seq<string>, filter: Option<string>, body: string)
  {
    function Tag(): string { if tag.Some? then tag.value else "" }
    function Host(): string { if server.Some? then server.value else "" }
    predicate HasPort() { port.Some? && port.value <= U16_MAX }
  }

  datatype Rule = Rule(outbound: Option<string>, body: string)
  {
    function Target(): string { if outbound.Some? then outbound.value else "" }
  }

  datatype Config = Config(outbounds: seq<Outbound>, rules: seq<Rule>, defaultOutbound: Option<string>)
  datatype Fragment = Fragment(nodes: seq<Outbound>, outbounds: seq<Outbound>, rules: seq<Rule>,
                               defaultOutbound: Option<string>)

  function ToSet(s: seq<string>): set<string> { set x | x in s }

  /** The tags that are present, in order (`existing_outbound_tags`). */
  function TagList(os: seq<Outbound>): seq<string>
  {
    if os == [] then []
    else TagList(os[..|os| - 1]) + if os[|os| - 1].tag.Some? then [os[|os| - 1].tag.value] else []
  }

  // ------------------------------------------------------------------- merge

  datatype Report = Report(addedNodes: nat, dupNodes: nat, addedGroups: nat, addedRules: nat, droppedRules: nat,
                           renamed: seq<(string, string)>, skippedGroups: seq<string>)

  type Endpoint = (string, nat)

  /** The mutable state of a merge; `groups` pairs every tagged group with its final tag. */
  datatype Merging = Merging(outbounds: seq<Outbound>, taken: seq<string>, hostPort: map<Endpoint, string>,
                             remap: map<string, string>, groups: seq<(Outbound, string)>, report: Report)

  /** The endpoints of the mirage nodes a config already has. */
  function HostPorts(os: seq<Outbound>): map<Endpoint, string>
  {
    if os == [] then map[]
    else
      var before, o := HostPorts(os[..|os| - 1]), os[|os| - 1];
      if o.kind.Mirage? && o.server.Some? && o.HasPort() then before[(o.server.value, o.port.value) := o.Tag()]
      else before
  }

  function KindOf(os: seq<Outbound>): map<string, Kind>
  {
    if os == [] then map[]
    else
      var before, o := KindOf(os[..|os| - 1]), os[|os| - 1];
      if o.Tag() == "" then before else before[o.Tag() := o.kind]
  }

  function StartMerge(cfg: Config): Merging
  {
    Merging(cfg.outbounds, TagList(cfg.outbounds), HostPorts(cfg.outbounds), map[], [],
            Report(0, 0, 0, 0, 0, [], []))
  }

  function Renamed(report: Report, orig: string, tag: string): Report
  {
    if orig == tag then report else report.(renamed := report.renamed + [(orig, tag)])
  }

  function AddNode(m: Merging, n: Outbound): Merging
  {
    if !n.HasPort() then m
    else
      var key, orig := (n.Host(), n.port.value), n.Tag();
      if key in m.hostPort then
        m.(remap := if orig == "" then m.remap else m.remap[orig := m.hostPort[key]],
           report := m.report.(dupNodes := m.report.dupNodes + 1))
      else
        var tag := Fresh(if orig == "" then n.Host() else orig, m.taken);
        var report := m.report.(addedNodes := m.report.addedNodes + 1);
        m.(outbounds := m.outbounds + [n.(tag := Some(tag))], taken := m.taken + [tag],
           hostPort := m.hostPort[key := tag],
           remap := if orig == "" then m.remap else m.remap[orig := tag],
           report := if orig == "" then report else Renamed(report, orig, tag))
  }

  function AddNodes(m: Merging, nodes: seq<Outbound>): Merging
  {
    if nodes == [] then m else AddNode(AddNodes(m, nodes[..|nodes| - 1]), nodes[|nodes| - 1])
  }

  /** Gives a group its final tag before any member is looked at. */
  function NameGroup(m: Merging, g: Outbound): Merging
  {
    if !IsGroup(g.kind) || g.Tag() == "" then m
    else
      var tag := Fresh(g.Tag(), m.taken);
      m.(taken := m.taken + [tag], remap := m.remap[g.Tag() := tag], groups := m.groups + [(g, tag)],
         report := Renamed(m.report, g.Tag(), tag))
  }

  function NameGroups(m: Merging, os: seq<Outbound>): Merging
  {
    if os == [] then m else NameGroup(NameGroups(m, os[..|os| - 1]), os[|os| - 1])
  }

  function AddBuiltin(m: Merging, kinds: map<string, Kind>, g: Outbound): Merging
  {
    var tag := g.Tag();
    if !IsBuiltin(g.kind) || tag == "" then m
    else if tag in kinds && kinds[tag] == g.kind then
      m.(remap := if tag in m.remap then m.remap else m.remap[tag := tag])
    else if tag in m.taken then
      var newTag := Fresh(tag, m.taken);
      m.(outbounds := m.outbounds + [g.(tag := Some(newTag))], taken := m.taken + [newTag],
         remap := m.remap[tag := newTag],
         report := m.report.(renamed := m.report.renamed + [(tag, newTag)]))
    else
      m.(outbounds := m.outbounds + [g], taken := m.taken + [tag],
         remap := if tag in m.remap then m.remap else m.remap[tag := tag])
  }

  function AddBuiltins(m: Merging, kinds: map<string, Kind>, os: seq<Outbound>): Merging
  {
    if os == [] then m else AddBuiltin(AddBuiltins(m, kinds, os[..|os| - 1]), kinds, os[|os| - 1])
  }

  function Resolve(remap: map<string, string>, s: string): string { if s in remap then remap[s] else s }

  function ResolveAll(remap: map<string, string>, members: seq<string>): (r: seq<string>)
    ensures |r| == |members| && forall i :: 0 <= i < |r| ==> r[i] == Resolve(remap, members[i])
  {
    seq(|members|, i requires 0 <= i < |members| => Resolve(remap, members[i]))
  }

  function GroupTags(groups: seq<(Outbound, string)>): set<string>
  {
    set i | 0 <= i < |groups| :: groups[i].1
  }

  /** The groups as the fixpoint sees them: final tags and remapped members. */
  function GroupNodes(m: Merging): (nodes: seq<Node>)
    ensures |nodes| == |m.groups|
  {
    seq(|m.groups|, i requires 0 <= i < |m.groups| =>
      Node(m.groups[i].1, ResolveAll(m.remap, m.groups[i].0.members)))
  }

  /** Outbounds that exist without the fragment's groups. */
  function Grounded(m: Merging): set<string> { ToSet(m.taken) - GroupTags(m.groups) }

  /** The names that a path of references connects to the base. */
  ghost function Landed(nodes: seq<Node>, base: set<string>): set<string>
  {
    set name | name in base + Names(nodes) && Leads(nodes, base, name)
  }

  function Keep(names: seq<string>, present: set<string>): (kept: seq<string>)
    ensures forall x :: x in kept <==> x in names && x in present
    ensures (forall x :: x in names ==> x in present) ==> kept == names
  {
    if names == [] then []
    else
      var n := |names| - 1;
      Keep(names[..n], present) + if names[n] in present then [names[n]] else []
  }

  function LandedGroup(remap: map<string, string>, present: set<string>, g: (Outbound, string)): Outbound
  {
    g.0.(tag := Some(g.1), members := Keep(ResolveAll(remap, g.0.members), present))
  }

  /** The group objects that land, in the fragment's order. */
  function LandGroups(groups: seq<(Outbound, string)>, remap: map<string, string>, present: set<string>): seq<Outbound>
  {
    if groups == [] then []
    else
      var n := |groups| - 1;
      LandGroups(groups[..n], remap, present)
      + if groups[n].1 in present then [LandedGroup(remap, present, groups[n])] else []
  }

  function SkipGroups(groups: seq<(Outbound, string)>, present: set<string>): seq<string>
  {
    if groups == [] then []
    else
      var n := |groups| - 1;
      SkipGroups(groups[..n], present) + if groups[n].1 in present then [] else [groups[n].1]
  }

  function AddRules(rules: seq<Rule>, remap: map<string, string>, present: set<string>): (r: seq<Rule>)
    ensures |r| <= |rules|
  {
    if rules == [] then []
    else
      var n := |rules| - 1;
      var target := Resolve(remap, rules[n].Target());
      AddRules(rules[..n], remap, present)
      + if target in present then [rules[n].(outbound := Some(target))] else []
  }

  datatype Merged = Merged(config: Config, groups: seq<Outbound>, present: set<string>, report: Report)

  /** The state when every fragment node, group name and builtin has been dealt with. */
  function Gathered(cfg: Config, frag: Fragment): Merging
  {
    AddBuiltins(NameGroups(AddNodes(StartMerge(cfg), frag.nodes), frag.outbounds),
                KindOf(cfg.outbounds), frag.outbounds)
  }

  /** `merge_fragment` as a whole. */
  ghost function Merge(cfg: Config, frag: Fragment, routing: bool): Merged
  {
    var m := Gathered(cfg, frag);
    Finish(cfg, frag, routing, m, Landed(GroupNodes(m), Grounded(m)))
  }

  function Finish(cfg: Config, frag: Fragment, routing: bool, m: Merging, present: set<string>): Merged
  {
    var groups := LandGroups(m.groups, m.remap, present);
    var rules := if routing then AddRules(frag.rules, m.remap, present) else [];
    Merged(cfg.(outbounds := m.outbounds + groups, rules := cfg.rules + rules), groups, present,
           m.report.(addedGroups := |groups|, skippedGroups := SkipGroups(m.groups, present),
                     addedRules := |rules|,
                     droppedRules := if routing then |frag.rules| - |rules| else 0))
  }

  // ------------------------------------------------------------------ export

  function Select(os: seq<Outbound>, keep: Outbound -> bool): seq<Outbound>
  {
    if os == [] then []
    else
      var n := |os| - 1;
      Select(os[..n], keep) + if keep(os[n]) then [os[n]] else []
  }

  lemma {:induction false} SelectIff(os: seq<Outbound>, keep: Outbound -> bool, o: Outbound)
    ensures o in Select(os, keep) <==> o in os && keep(o)
  {
    if os != [] {
      var n := |os| - 1;
      SelectIff(os[..n], keep, o);
      assert os == os[..n] + [os[n]];
    }
  }

  lemma SelectMembers(os: seq<Outbound>, keep: Outbound -> bool)
    ensures forall o :: o in Select(os, keep) <==> o in os && keep(o)
  {
    forall o ensures o in Select(os, keep) <==> o in os && keep(o) {
      SelectIff(os, keep, o);
    }
  }

  lemma {:induction false} SelectConcat(a: seq<Outbound>, b: seq<Outbound>, keep: Outbound -> bool)
    ensures Select(a + b, keep) == Select(a, keep) + Select(b, keep)
  {
    if b == [] {
      assert a + b == a;
    } else {
      var n := |b| - 1;
      SelectConcat(a, b[..n], keep);
      assert (a + b)[..|a| + n] == a + b[..n];
      var last := if keep(b[n]) then [b[n]] else [];
      assert (Select(a, keep) + Select(b[..n], keep)) + last == Select(a, keep) + (Select(b[..n], keep) + last);
    }
  }

  /** Tags of the exported proxy leaves a group's filter can match. */
  function FilterRefs(os: seq<Outbound>, g: Outbound, matches: (string, string) -> bool): seq<string>
  {
    if os == [] || g.filter.None? then []
    else
      var n := |os| - 1;
      FilterRefs(os[..n], g, matches)
      + if IsProxyLeaf(os[n].kind) && matches(g.filter.value, os[n].Tag()) then [os[n].Tag()] else []
  }

  predicate TaggedGroup(o: Outbound) { IsGroup(o.kind) && o.Tag() != "" }
  predicate Builtin(o: Outbound) { IsBuiltin(o.kind) }

  function BuiltinTags(os: seq<Outbound>): set<string> { set o | o in os && Builtin(o) :: o.Tag() }

  function ExportNodes(os: seq<Outbound>, groups: seq<Outbound>, matches: (string, string) -> bool): (nodes: seq<Node>)
    ensures |nodes| == |groups|
  {
    seq(|groups|, i requires 0 <= i < |groups| =>
      Node(groups[i].Tag(), groups[i].members + FilterRefs(os, groups[i], matches)))
  }

  function Trimmed(g: Outbound, exported: set<string>): Outbound { g.(members := Keep(g.members, exported)) }

  /** The exported groups, each with its members cut down to what is exported. */
  function TrimGroups(groups: seq<Outbound>, exported: set<string>): seq<Outbound>
  {
    var kept := Select(groups, (g: Outbound) => g.Tag() in exported);
    seq(|kept|, i requires 0 <= i < |kept| => Trimmed(kept[i], exported))
  }

  function KeepRules(rules: seq<Rule>, exported: set<string>): (r: seq<Rule>)
    ensures forall x :: x in r <==> x in rules && x.outbound.Some? && x.outbound.value in exported
  {
    if rules == [] then []
    else
      var n := |rules| - 1;
      KeepRules(rules[..n], exported)
      + if rules[n].outbound.Some? && rules[n].outbound.value in exported then [rules[n]] else []
  }

  function Referenced(groups: seq<Outbound>, rules: seq<Rule>, default: Option<string>): set<string>
  {
    (set g, s | g in groups && s in g.members :: s)
    + (set r | r in rules && r.outbound.Some? :: r.outbound.value)
    + (if default.Some? then {default.value} else {})
  }

  /** What is exported: the picked tags, every direct/block, and the groups that lead to them. */
  ghost function Exported(cfg: Config, picked: set<string>, matches: (string, string) -> bool): set<string>
  {
    var groups := Select(cfg.outbounds, TaggedGroup);
    Landed(ExportNodes(cfg.outbounds, groups, matches), picked + BuiltinTags(cfg.outbounds))
  }

  function Assemble(cfg: Config, picked: set<string>, withRules: bool, exported: set<string>): Fragment
  {
    var groups := TrimGroups(Select(cfg.outbounds, TaggedGroup), exported);
    var rules := if withRules then KeepRules(cfg.rules, exported) else [];
    var default := if withRules && cfg.defaultOutbound.Some? && cfg.defaultOutbound.value in exported
                   then cfg.defaultOutbound else None;
    var referenced := Referenced(groups, rules, default);
    Fragment(Select(cfg.outbounds, (o: Outbound) => o.kind.Mirage? && o.Tag() in picked),
             groups + Select(cfg.outbounds, (o: Outbound) => Builtin(o) && o.Tag() in referenced),
             rules, default)
  }

  /** `build_export` as a whole, for a regex engine `matches(pattern, tag)`. */
  ghost function Export(cfg: Config, picked: set<string>, withRules: bool, matches: (string, string) -> bool): Fragment
  {
    Assemble(cfg, picked, withRules, Exported(cfg, picked, matches))
  }
}
