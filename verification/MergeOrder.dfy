/** Whether the order of a fragment's groups can change their names and which of them land. It
    cannot exactly when no two groups would choose the same name if each were named first. */
module MergeOrder {
  import opened Wrappers
  import opened Reachability
  import opened Tags
  import opened Fragments
  import opened MergeTheorems

  // ------------------------------------------------------ the counterexample

  function Leaf(tag: string, kind: Kind): Outbound { Outbound(Some(tag), kind, None, None, [], None, "") }
  function GroupOf(tag: string, members: seq<string>): Outbound
  {
    Outbound(Some(tag), Selector, None, None, members, None, "")
  }

  const DIRECT: Outbound := Leaf("d", Direct)
  const GOOD: Outbound := GroupOf("g", ["d"])
  const DEAD: Outbound := GroupOf("g", ["x"])
  const USER: Outbound := GroupOf("h", ["g"])

  lemma {:induction false} NoBuiltins(m: Merging, kinds: map<string, Kind>, os: seq<Outbound>)
    requires forall i :: 0 <= i < |os| ==> !Builtin(os[i])
    ensures AddBuiltins(m, kinds, os) == m
  {
    if os != [] {
      NoBuiltins(m, kinds, os[..|os| - 1]);
    }
  }

  /** One group of the example. */
  lemma NamedNext(m: Merging, g: Outbound, tag: string)
    requires TaggedGroup(g) && tag == if g.Tag() in m.taken then Candidate(g.Tag(), 2) else g.Tag()
    requires tag !in m.taken
    ensures var r := NameGroup(m, g);
            && r.groups == m.groups + [(g, tag)] && r.taken == m.taken + [tag] && r.remap == m.remap[g.Tag() := tag]
  {
  }

  lemma StartOfThree() returns (m: Merging)
    ensures m == AddNodes(StartMerge(Config([DIRECT], [], None)), [])
    ensures m.taken == ["d"] && m.groups == [] && m.remap == map[]
  {
    m := StartMerge(Config([DIRECT], [], None));
    assert TagList([DIRECT][..0]) == [];
  }

  /** Naming two groups that share the tag "g", then the group "h" that refers to it. */
  lemma NamesOfThree(first: Outbound, second: Outbound)
    requires first.Tag() == "g" && second.Tag() == "g" && IsGroup(first.kind) && IsGroup(second.kind)
    ensures var m := Gathered(Config([DIRECT], [], None), Fragment([], [first, second, USER], [], None));
            && m.groups == [(first, "g"), (second, "g-2"), (USER, "h")]
            && m.taken == ["d", "g", "g-2", "h"]
            && m.remap == map["g" := "g-2", "h" := "h"]
  {
    var m0 := StartOfThree();
    NamedThree(m0, first, second);
    NamedInTurn(m0, first, second, USER);
    NoBuiltins(NameGroups(m0, [first, second, USER]), KindOf([DIRECT]), [first, second, USER]);
  }

  lemma NamedThree(m: Merging, first: Outbound, second: Outbound)
    requires m.taken == ["d"] && m.groups == [] && m.remap == map[]
    requires first.Tag() == "g" && second.Tag() == "g" && IsGroup(first.kind) && IsGroup(second.kind)
    ensures var r := NameGroup(NameGroup(NameGroup(m, first), second), USER);
            && r.groups == [(first, "g"), (second, "g-2"), (USER, "h")]
            && r.taken == ["d", "g", "g-2", "h"]
            && r.remap == map["g" := "g-2", "h" := "h"]
  {
    assert Candidate("g", 2) == "g-2";
    var m1 := NameGroup(m, first);
    NamedNext(m, first, "g");
    var m2 := NameGroup(m1, second);
    NamedNext(m1, second, "g-2");
    NamedNext(m2, USER, "h");
  }

  lemma NamedInTurn(m: Merging, a: Outbound, b: Outbound, c: Outbound)
    ensures NameGroups(m, [a, b, c]) == NameGroup(NameGroup(NameGroup(m, a), b), c)
  {
    assert [a, b, c][..2] == [a, b] && [a, b][..1] == [a] && [a][..0] == [];
    assert NameGroups(m, [a]) == NameGroup(m, a);
    assert NameGroups(m, [a, b]) == NameGroup(NameGroup(m, a), b);
  }

  /** The fixpoint's view of that naming. */
  lemma NodesOfThree(first: Outbound, second: Outbound, m: Merging)
    requires m.groups == [(first, "g"), (second, "g-2"), (USER, "h")] && m.taken == ["d", "g", "g-2", "h"]
    requires m.remap == map["g" := "g-2", "h" := "h"]
    requires |first.members| == 1 && |second.members| == 1
    requires first.members[0] in {"d", "x"} && second.members[0] in {"d", "x"}
    ensures GroupNodes(m) == [Node("g", first.members), Node("g-2", second.members), Node("h", ["g-2"])]
    ensures Grounded(m) == {"d"}
  {
    assert ResolveAll(m.remap, first.members) == first.members;
    assert ResolveAll(m.remap, second.members) == second.members;
    assert ResolveAll(m.remap, USER.members) == ["g-2"];
    GroupTagsOfThree(m.groups);
  }

  lemma DeadEnd(nodes: seq<Node>)
    requires nodes == [Node("g", ["d"]), Node("g-2", ["x"]), Node("h", ["g-2"])]
    ensures !Leads(nodes, {"d"}, "h")
  {
    assert Closed(nodes, {"d", "g"}, 3);
    if Leads(nodes, {"d"}, "h") {
      var path :| IsPath(nodes, path) && path[0] == "h" && path[|path| - 1] in {"d"};
      ClosedCatchesPaths(nodes, {"d"}, {"d", "g"}, path);
    }
  }

  lemma LiveEnd(nodes: seq<Node>)
    requires nodes == [Node("g", ["x"]), Node("g-2", ["d"]), Node("h", ["g-2"])]
    ensures Leads(nodes, {"d"}, "h")
  {
    BaseLeads(nodes, {"d"}, "d");
    assert Edge(nodes, "g-2", "d") by { assert nodes[1].name == "g-2" && "d" in nodes[1].refs; }
    EdgeLeads(nodes, {"d"}, "g-2", "d");
    assert Edge(nodes, "h", "g-2") by { assert nodes[2].name == "h" && "g-2" in nodes[2].refs; }
    EdgeLeads(nodes, {"d"}, "h", "g-2");
  }

  /** Swapping two groups with the same tag changes whether a third group lands. */
  lemma OrderCanMatter()
    ensures var cfg := Config([DIRECT], [], None);
            && "h" !in Merge(cfg, Fragment([], [GOOD, DEAD, USER], [], None), false).present
            && "h" in Merge(cfg, Fragment([], [DEAD, GOOD, USER], [], None), false).present
  {
    var cfg := Config([DIRECT], [], None);
    var m := Gathered(cfg, Fragment([], [GOOD, DEAD, USER], [], None));
    NamesOfThree(GOOD, DEAD);
    NodesOfThree(GOOD, DEAD, m);
    DeadEnd(GroupNodes(m));
    var m' := Gathered(cfg, Fragment([], [DEAD, GOOD, USER], [], None));
    NamesOfThree(DEAD, GOOD);
    NodesOfThree(DEAD, GOOD, m');
    LiveEnd(GroupNodes(m'));
    LeadsNamed(GroupNodes(m'), Grounded(m'), "h");
  }

  lemma GroupTagsOfThree(groups: seq<(Outbound, string)>)
    requires |groups| == 3
    ensures GroupTags(groups) == {groups[0].1, groups[1].1, groups[2].1}
  {
  }

  // ------------------------------------------- when the order cannot matter

  ghost predicate IsGroupTag(os: seq<Outbound>, tag: string)
  {
    exists g :: g in os && TaggedGroup(g) && g.Tag() == tag
  }

  /** No two groups would choose the same name if each were the first to be named. */
  ghost predicate FirstChoicesDiffer(os: seq<Outbound>, taken: seq<string>)
  {
    forall i, j :: 0 <= i < j < |os| && TaggedGroup(os[i]) && TaggedGroup(os[j]) ==>
      Fresh(os[i].Tag(), taken) != Fresh(os[j].Tag(), taken)
  }

  ghost predicate IsFirstChoice(os: seq<Outbound>, taken: seq<string>, name: string)
  {
    exists g :: g in os && TaggedGroup(g) && Fresh(g.Tag(), taken) == name
  }

  /** `r` is `m` with every group of `os` named by its first choice. */
  ghost predicate NamedFirst(m: Merging, os: seq<Outbound>, r: Merging)
  {
    && r.outbounds == m.outbounds && r.hostPort == m.hostPort
    && NamesFirst(m, os, r) && RemapsFirst(m, os, r.remap)
  }

  ghost predicate NamesFirst(m: Merging, os: seq<Outbound>, r: Merging)
  {
    && (forall x :: x in r.taken <==> x in m.taken || IsFirstChoice(os, m.taken, x))
    && (forall p :: p in r.groups <==>
          p in m.groups || (p.0 in os && TaggedGroup(p.0) && p.1 == Fresh(p.0.Tag(), m.taken)))
  }

  ghost predicate RemapsFirst(m: Merging, os: seq<Outbound>, remap: map<string, string>)
  {
    && (forall x :: x in remap <==> x in m.remap || IsGroupTag(os, x))
    && (forall x :: x in remap ==> remap[x] == if IsGroupTag(os, x) then Fresh(x, m.taken) else m.remap[x])
  }

  lemma {:induction false} FreshFromUnmoved(base: string, taken: seq<string>, taken': seq<string>, n: nat)
    requires (forall x :: x in taken ==> x in taken') && FreshFrom(base, taken, n) !in taken'
    ensures FreshFrom(base, taken', n) == FreshFrom(base, taken, n)
    decreases |Ahead(base, taken, n)|
  {
    if Candidate(base, n) in taken {
      AheadShrinks(base, taken, n);
      FreshFromUnmoved(base, taken, taken', n + 1);
    }
  }

  /** More taken names do not move a choice that is not among them. */
  lemma FreshUnmoved(base: string, taken: seq<string>, taken': seq<string>)
    requires (forall x :: x in taken ==> x in taken') && Fresh(base, taken) !in taken'
    ensures Fresh(base, taken') == Fresh(base, taken)
  {
    if OrNode(base) in taken {
      FreshFromUnmoved(OrNode(base), taken, taken', 2);
    }
  }

  /** The choice of the last group is still free when all others are named by theirs. */
  lemma LastChoiceFree(m: Merging, os: seq<Outbound>, r: Merging)
    requires os != [] && FirstChoicesDiffer(os, m.taken) && TaggedGroup(os[|os| - 1])
    requires NamedFirst(m, os[..|os| - 1], r)
    ensures Fresh(os[|os| - 1].Tag(), m.taken) == Fresh(os[|os| - 1].Tag(), r.taken)
  {
    var n := |os| - 1;
    var name := Fresh(os[n].Tag(), m.taken);
    assert !IsFirstChoice(os[..n], m.taken, name);
    FreshUnmoved(os[n].Tag(), m.taken, r.taken);
  }

  /** The last group is named by its first choice too. */
  ghost predicate LastStays(m: Merging, os: seq<Outbound>, r: Merging)
    requires os != []
  {
    var g := os[|os| - 1];
    TaggedGroup(g) ==> Fresh(g.Tag(), m.taken) == Fresh(g.Tag(), r.taken)
  }

  lemma NamesOneMore(m: Merging, os: seq<Outbound>, r: Merging)
    requires os != [] && NamesFirst(m, os[..|os| - 1], r) && LastStays(m, os, r)
    ensures NamesFirst(m, os, NameGroup(r, os[|os| - 1]))
  {
    var n := |os| - 1;
    var fewer, g := os[..n], os[n];
    assert forall x :: x in os <==> x in fewer || x == g;
    forall x
      ensures IsFirstChoice(os, m.taken, x) <==>
              IsFirstChoice(fewer, m.taken, x) || (TaggedGroup(g) && x == Fresh(g.Tag(), m.taken))
    {
      if TaggedGroup(g) && x == Fresh(g.Tag(), m.taken) {
        assert g in os;
      }
    }
  }

  lemma GroupTagOneMore(os: seq<Outbound>, x: string)
    requires os != []
    ensures IsGroupTag(os, x)
       <==> IsGroupTag(os[..|os| - 1], x) || (TaggedGroup(os[|os| - 1]) && x == os[|os| - 1].Tag())
  {
    var n := |os| - 1;
    assert forall o :: o in os <==> o in os[..n] || o == os[n];
  }

  lemma RemapsOneMore(m: Merging, os: seq<Outbound>, r: Merging)
    requires os != [] && RemapsFirst(m, os[..|os| - 1], r.remap) && LastStays(m, os, r)
    ensures RemapsFirst(m, os, NameGroup(r, os[|os| - 1]).remap)
  {
    var n := |os| - 1;
    var remap := NameGroup(r, os[n]).remap;
    assert remap == if TaggedGroup(os[n]) then r.remap[os[n].Tag() := Fresh(os[n].Tag(), m.taken)] else r.remap;
    forall x ensures x in remap <==> x in m.remap || IsGroupTag(os, x) {
      GroupTagOneMore(os, x);
    }
    forall x | x in remap ensures remap[x] == if IsGroupTag(os, x) then Fresh(x, m.taken) else m.remap[x] {
      GroupTagOneMore(os, x);
    }
  }

  lemma {:induction false} NameGroupsFirst(m: Merging, os: seq<Outbound>)
    requires FirstChoicesDiffer(os, m.taken)
    ensures NamedFirst(m, os, NameGroups(m, os))
  {
    if os != [] {
      var n := |os| - 1;
      NameGroupsFirst(m, os[..n]);
      if TaggedGroup(os[n]) {
        LastChoiceFree(m, os, NameGroups(m, os[..n]));
      }
      NamesOneMore(m, os, NameGroups(m, os[..n]));
      RemapsOneMore(m, os, NameGroups(m, os[..n]));
    }
  }

  /** Merge states that differ only in how names and groups are listed. */
  ghost predicate Similar(m: Merging, m': Merging)
  {
    && m.outbounds == m'.outbounds && m.remap == m'.remap
    && (forall x :: x in m.taken <==> x in m'.taken)
    && (forall p :: p in m.groups <==> p in m'.groups)
  }

  lemma {:induction false} FreshFromSameTaken(base: string, taken: seq<string>, taken': seq<string>, n: nat)
    requires forall x :: x in taken <==> x in taken'
    ensures FreshFrom(base, taken, n) == FreshFrom(base, taken', n)
    decreases |Ahead(base, taken, n)|
  {
    if Candidate(base, n) in taken {
      AheadShrinks(base, taken, n);
      FreshFromSameTaken(base, taken, taken', n + 1);
    }
  }

  lemma AddBuiltinSimilar(m: Merging, m': Merging, kinds: map<string, Kind>, g: Outbound)
    requires Similar(m, m')
    ensures Similar(AddBuiltin(m, kinds, g), AddBuiltin(m', kinds, g))
  {
    FreshFromSameTaken(OrNode(g.Tag()), m.taken, m'.taken, 2);
  }

  lemma {:induction false} AddBuiltinsSimilar(m: Merging, m': Merging, kinds: map<string, Kind>, os: seq<Outbound>)
    requires Similar(m, m')
    ensures Similar(AddBuiltins(m, kinds, os), AddBuiltins(m', kinds, os))
  {
    if os != [] {
      var n := |os| - 1;
      AddBuiltinsSimilar(m, m', kinds, os[..n]);
      AddBuiltinSimilar(AddBuiltins(m, kinds, os[..n]), AddBuiltins(m', kinds, os[..n]), kinds, os[n]);
    }
  }

  lemma {:induction false} AddBuiltinsSelect(m: Merging, kinds: map<string, Kind>, os: seq<Outbound>)
    ensures AddBuiltins(m, kinds, os) == AddBuiltins(m, kinds, Select(os, Builtin))
  {
    if os != [] {
      var n := |os| - 1;
      AddBuiltinsSelect(m, kinds, os[..n]);
      var some := Select(os[..n], Builtin);
      if Builtin(os[n]) {
        assert (some + [os[n]])[..|some|] == some;
      } else {
        assert some + [] == some;
      }
    }
  }

  lemma SimilarLandsAlike(m: Merging, m': Merging)
    requires Similar(m, m')
    ensures Landed(GroupNodes(m), Grounded(m)) == Landed(GroupNodes(m'), Grounded(m'))
  {
    SimilarNodes(m, m');
    SimilarNodes(m', m);
    assert Grounded(m) == Grounded(m');
    var nodes, nodes', base := GroupNodes(m), GroupNodes(m'), Grounded(m);
    forall name ensures name in Landed(nodes, base) <==> name in Landed(nodes', base) {
      LeadsOrderFree(nodes, nodes', base, name);
      if Leads(nodes, base, name) {
        LeadsNamed(nodes, base, name);
        LeadsNamed(nodes', base, name);
      }
    }
  }

  lemma SimilarNodes(m: Merging, m': Merging)
    requires Similar(m, m')
    ensures forall x :: x in GroupNodes(m) ==> x in GroupNodes(m')
    ensures GroupTags(m.groups) <= GroupTags(m'.groups)
  {
    forall i | 0 <= i < |m.groups|
      ensures GroupNodes(m)[i] in GroupNodes(m') && m.groups[i].1 in GroupTags(m'.groups)
    {
      assert m.groups[i] in m'.groups;
      var j :| 0 <= j < |m'.groups| && m'.groups[j] == m.groups[i];
      assert GroupNodes(m')[j] == GroupNodes(m)[i];
    }
  }

  /** The same groups, in any order; what else is in the lists does not matter here. */
  ghost predicate SameGroups(os: seq<Outbound>, os': seq<Outbound>)
  {
    forall g :: TaggedGroup(g) ==> (g in os <==> g in os')
  }

  /** No group object is listed twice. */
  ghost predicate ListedOnce(os: seq<Outbound>)
  {
    forall i, j :: 0 <= i < j < |os| && TaggedGroup(os[i]) ==> os[i] != os[j]
  }

  lemma NamesAlike(m: Merging, os: seq<Outbound>, os': seq<Outbound>, r: Merging, r': Merging)
    requires NamesFirst(m, os, r) && NamesFirst(m, os', r') && SameGroups(os, os')
    ensures forall x :: x in r.taken <==> x in r'.taken
    ensures forall p :: p in r.groups <==> p in r'.groups
  {
    assert forall x :: IsFirstChoice(os, m.taken, x) <==> IsFirstChoice(os', m.taken, x);
  }

  lemma RemapsAlike(m: Merging, os: seq<Outbound>, os': seq<Outbound>, remap: map<string, string>,
                    remap': map<string, string>)
    requires RemapsFirst(m, os, remap) && RemapsFirst(m, os', remap') && SameGroups(os, os')
    ensures remap == remap'
  {
    assert forall x :: IsGroupTag(os, x) <==> IsGroupTag(os', x);
  }

  /** The condition speaks about the groups, not about their order. */
  lemma ChoicesOrderFree(os: seq<Outbound>, os': seq<Outbound>, taken: seq<string>)
    requires SameGroups(os, os') && ListedOnce(os') && FirstChoicesDiffer(os, taken)
    ensures FirstChoicesDiffer(os', taken)
  {
    forall i, j | 0 <= i < j < |os'| && TaggedGroup(os'[i]) && TaggedGroup(os'[j])
      ensures Fresh(os'[i].Tag(), taken) != Fresh(os'[j].Tag(), taken)
    {
      assert os'[i] in os && os'[j] in os;
      var k :| 0 <= k < |os| && os[k] == os'[i];
      var l :| 0 <= l < |os| && os[l] == os'[j];
      assert k < l || l < k;
    }
  }

  lemma {:induction false} LandGroupsIff(groups: seq<(Outbound, string)>, remap: map<string, string>,
                                         present: set<string>, o: Outbound)
    ensures o in LandGroups(groups, remap, present)
       <==> exists p :: p in groups && p.1 in present && o == LandedGroup(remap, present, p)
  {
    if groups != [] {
      var n := |groups| - 1;
      LandGroupsIff(groups[..n], remap, present, o);
      assert forall p :: p in groups <==> p in groups[..n] || p == groups[n];
    }
  }

  lemma {:induction false} LandSameObjects(groups: seq<(Outbound, string)>, groups': seq<(Outbound, string)>,
                                           remap: map<string, string>, present: set<string>)
    requires forall p :: p in groups <==> p in groups'
    ensures forall o :: o in LandGroups(groups, remap, present) <==> o in LandGroups(groups', remap, present)
  {
    forall o ensures o in LandGroups(groups, remap, present) <==> o in LandGroups(groups', remap, present) {
      LandGroupsIff(groups, remap, present, o);
      LandGroupsIff(groups', remap, present, o);
    }
  }

  /** Order independence: two fragments with the same nodes, builtins and rules and the same groups
      in any order land the same group objects and add the same rules, whenever no two groups would
      choose the same name; renamed groups included. */
  lemma OrderDoesNotMatter(cfg: Config, frag: Fragment, frag': Fragment, routing: bool)
    requires frag.nodes == frag'.nodes && frag.rules == frag'.rules
    requires Select(frag.outbounds, Builtin) == Select(frag'.outbounds, Builtin)
    requires SameGroups(frag.outbounds, frag'.outbounds) && ListedOnce(frag'.outbounds)
    requires FirstChoicesDiffer(frag.outbounds, AddNodes(StartMerge(cfg), frag.nodes).taken)
    ensures var r, r' := Merge(cfg, frag, routing), Merge(cfg, frag', routing);
            && r.present == r'.present && r.config.rules == r'.config.rules
            && (forall o :: o in r.groups <==> o in r'.groups)
  {
    var m := AddNodes(StartMerge(cfg), frag.nodes);
    ChoicesOrderFree(frag.outbounds, frag'.outbounds, m.taken);
    NameGroupsFirst(m, frag.outbounds);
    NameGroupsFirst(m, frag'.outbounds);
    var r, r' := NameGroups(m, frag.outbounds), NameGroups(m, frag'.outbounds);
    NamesAlike(m, frag.outbounds, frag'.outbounds, r, r');
    RemapsAlike(m, frag.outbounds, frag'.outbounds, r.remap, r'.remap);
    AddBuiltinsSimilar(r, r', KindOf(cfg.outbounds), Select(frag.outbounds, Builtin));
    AddBuiltinsSelect(r, KindOf(cfg.outbounds), frag.outbounds);
    AddBuiltinsSelect(r', KindOf(cfg.outbounds), frag'.outbounds);
    var g, g' := Gathered(cfg, frag), Gathered(cfg, frag');
    SimilarLandsAlike(g, g');
    LandSameObjects(g.groups, g'.groups, g.remap, Landed(GroupNodes(g), Grounded(g)));
  }

  // ------------------------------------------------- the condition is exact

  /** Every order of the groups gives every group the same name. */
  ghost predicate NamesOrderFree(m: Merging, os: seq<Outbound>)
  {
    forall os' :: SameGroups(os, os') && ListedOnce(os') ==>
      forall p :: p in NameGroups(m, os).groups <==> p in NameGroups(m, os').groups
  }

  /** The group named first gets its first choice, and nobody else gets that name. */
  lemma {:induction false} FirstComeFirstServed(m: Merging, g: Outbound, rest: seq<Outbound>)
    requires m.groups == [] && TaggedGroup(g)
    ensures var r := NameGroups(m, [g] + rest); var name := Fresh(g.Tag(), m.taken);
            && name in r.taken && (g, name) in r.groups && forall p :: p in r.groups && p.1 == name ==> p.0 == g
  {
    var os := [g] + rest;
    if rest == [] {
      assert os[..0] == [] && NameGroups(m, os[..0]) == m;
      assert NameGroups(m, os) == NameGroup(m, g);
    } else {
      var n := |rest| - 1;
      FirstComeFirstServed(m, g, rest[..n]);
      assert os[..n + 1] == [g] + rest[..n];
      assert NameGroups(m, os) == NameGroup(NameGroups(m, [g] + rest[..n]), rest[n]);
    }
  }

  /** Moving a group to the front. */
  lemma Fronted(os: seq<Outbound>, i: nat) returns (rest: seq<Outbound>)
    requires i < |os| && TaggedGroup(os[i]) && ListedOnce(os)
    ensures rest == os[..i] + os[i + 1..]
    ensures SameGroups(os, [os[i]] + rest) && ListedOnce([os[i]] + rest)
  {
    rest := os[..i] + os[i + 1..];
    var os' := [os[i]] + rest;
    assert os == os[..i] + [os[i]] + os[i + 1..];
    assert forall k :: 0 < k < |os'| ==> os'[k] == os[if k <= i then k - 1 else k];
  }

  lemma SameChoiceDependsOnOrder(m: Merging, os: seq<Outbound>, i: nat, j: nat)
    requires m.groups == [] && ListedOnce(os) && i < j < |os| && TaggedGroup(os[i]) && TaggedGroup(os[j])
    requires Fresh(os[i].Tag(), m.taken) == Fresh(os[j].Tag(), m.taken)
    ensures !NamesOrderFree(m, os)
  {
    var restI := Fronted(os, i);
    var restJ := Fronted(os, j);
    FirstComeFirstServed(m, os[i], restI);
    FirstComeFirstServed(m, os[j], restJ);
    var p := (os[i], Fresh(os[i].Tag(), m.taken));
    assert p in NameGroups(m, [os[i]] + restI).groups && p !in NameGroups(m, [os[j]] + restJ).groups;
  }

  lemma DifferentChoicesOrderFree(m: Merging, os: seq<Outbound>)
    requires FirstChoicesDiffer(os, m.taken)
    ensures NamesOrderFree(m, os)
  {
    forall os' | SameGroups(os, os') && ListedOnce(os')
      ensures forall p :: p in NameGroups(m, os).groups <==> p in NameGroups(m, os').groups
    {
      ChoicesOrderFree(os, os', m.taken);
      NameGroupsFirst(m, os);
      NameGroupsFirst(m, os');
      NamesAlike(m, os, os', NameGroups(m, os), NameGroups(m, os'));
    }
  }

  /** Exactly when the order of distinct groups cannot change any name: when no two of them would
      choose the same one. */
  lemma NamesOrderFreeIff(m: Merging, os: seq<Outbound>)
    requires m.groups == [] && ListedOnce(os)
    ensures NamesOrderFree(m, os) <==> FirstChoicesDiffer(os, m.taken)
  {
    if FirstChoicesDiffer(os, m.taken) {
      DifferentChoicesOrderFree(m, os);
    } else {
      var i, j :| 0 <= i < j < |os| && TaggedGroup(os[i]) && TaggedGroup(os[j])
               && Fresh(os[i].Tag(), m.taken) == Fresh(os[j].Tag(), m.taken);
      SameChoiceDependsOnOrder(m, os, i, j);
    }
  }
}
