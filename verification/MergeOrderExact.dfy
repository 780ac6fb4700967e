/** Exactly when the order of a fragment's groups shows in what a merge produces, and how it shows
    in which groups land. */
module MergeOrderExact {
  import opened Wrappers
  import opened Reachability
  import opened Tags
  import opened Fragments
  import opened MergeTheorems
  import opened MergeOrder

  // -------------------------------------------------- the whole result, exactly

  /** The same fragment with its distinct groups in another order. */
  ghost predicate Reordered(frag: Fragment, frag': Fragment)
  {
    && frag.nodes == frag'.nodes && frag.rules == frag'.rules
    && Select(frag.outbounds, Builtin) == Select(frag'.outbounds, Builtin)
    && SameGroups(frag.outbounds, frag'.outbounds) && ListedOnce(frag'.outbounds)
  }

  /** The same group objects under the same names, the same of them landed, the same names present
      and the same rules. */
  ghost predicate SameResult(cfg: Config, frag: Fragment, frag': Fragment, routing: bool)
  {
    var r, r' := Merge(cfg, frag, routing), Merge(cfg, frag', routing);
    && (forall p :: p in Gathered(cfg, frag).groups <==> p in Gathered(cfg, frag').groups)
    && (forall o :: o in r.groups <==> o in r'.groups)
    && r.present == r'.present && r.config.rules == r'.config.rules
  }

  ghost predicate OrderFree(cfg: Config, frag: Fragment, routing: bool)
  {
    forall frag' :: Reordered(frag, frag') ==> SameResult(cfg, frag, frag', routing)
  }

  /** The state in which groups get their names. */
  function Naming(cfg: Config, nodes: seq<Outbound>): Merging { AddNodes(StartMerge(cfg), nodes) }

  lemma {:induction false} NoGroupsYet(m: Merging, nodes: seq<Outbound>)
    ensures AddNodes(m, nodes).groups == m.groups
  {
    if nodes != [] {
      NoGroupsYet(m, nodes[..|nodes| - 1]);
    }
  }

  lemma {:induction false} BuiltinsKeepGroups(m: Merging, kinds: map<string, Kind>, os: seq<Outbound>)
    ensures AddBuiltins(m, kinds, os).groups == m.groups
  {
    if os != [] {
      BuiltinsKeepGroups(m, kinds, os[..|os| - 1]);
    }
  }

  lemma NamesAreGathered(cfg: Config, frag: Fragment)
    ensures Naming(cfg, frag.nodes).groups == []
    ensures Gathered(cfg, frag).groups == NameGroups(Naming(cfg, frag.nodes), frag.outbounds).groups
  {
    NoGroupsYet(StartMerge(cfg), frag.nodes);
    BuiltinsKeepGroups(NameGroups(Naming(cfg, frag.nodes), frag.outbounds), KindOf(cfg.outbounds), frag.outbounds);
  }

  lemma SameWhenChoicesDiffer(cfg: Config, frag: Fragment, frag': Fragment, routing: bool)
    requires Reordered(frag, frag') && FirstChoicesDiffer(frag.outbounds, Naming(cfg, frag.nodes).taken)
    ensures SameResult(cfg, frag, frag', routing)
  {
    var m := Naming(cfg, frag.nodes);
    OrderDoesNotMatter(cfg, frag, frag', routing);
    NamesAreGathered(cfg, frag);
    NamesAreGathered(cfg, frag');
    DifferentChoicesOrderFree(m, frag.outbounds);
    assert forall p :: p in NameGroups(m, frag.outbounds).groups <==> p in NameGroups(m, frag'.outbounds).groups;
  }

  /** Something that is not selected may stand anywhere. */
  lemma {:induction false} MovedOver(a: seq<Outbound>, g: seq<Outbound>, b: seq<Outbound>, keep: Outbound -> bool)
    requires Select(g, keep) == []
    ensures Select(g + (a + b), keep) == Select((a + g) + b, keep)
  {
    SelectConcat(g, a + b, keep);
    SelectConcat(a, b, keep);
    SelectConcat(a, g, keep);
    SelectConcat(a + g, b, keep);
  }

  /** The fragment with one group moved to the front. */
  lemma FrontedFragment(frag: Fragment, i: nat) returns (frag': Fragment, rest: seq<Outbound>)
    requires ListedOnce(frag.outbounds) && i < |frag.outbounds| && TaggedGroup(frag.outbounds[i])
    ensures Reordered(frag, frag') && frag'.outbounds == [frag.outbounds[i]] + rest
  {
    rest := Fronted(frag.outbounds, i);
    frag' := frag.(outbounds := [frag.outbounds[i]] + rest);
    FrontedBuiltins(frag.outbounds, i);
  }

  lemma {:induction false} FrontedBuiltins(os: seq<Outbound>, i: nat)
    requires i < |os| && TaggedGroup(os[i])
    ensures Select([os[i]] + (os[..i] + os[i + 1..]), Builtin) == Select(os, Builtin)
  {
    assert Select([os[i]], Builtin) == [] by { assert [os[i]][..0] == []; }
    MovedOver(os[..i], [os[i]], os[i + 1..], Builtin);
    assert os == (os[..i] + [os[i]]) + os[i + 1..];
  }

  /** Whichever of two clashing groups comes first gets the name, and the other does not. */
  lemma FrontGetsName(cfg: Config, frag: Fragment, i: nat) returns (frag': Fragment)
    requires ListedOnce(frag.outbounds) && i < |frag.outbounds| && TaggedGroup(frag.outbounds[i])
    ensures Reordered(frag, frag')
    ensures var name := Fresh(frag.outbounds[i].Tag(), Naming(cfg, frag.nodes).taken);
            forall g :: (g, name) in Gathered(cfg, frag').groups <==> g == frag.outbounds[i]
  {
    var rest;
    frag', rest := FrontedFragment(frag, i);
    NamesAreGathered(cfg, frag');
    FirstComeFirstServed(Naming(cfg, frag.nodes), frag.outbounds[i], rest);
  }

  /** For distinct groups: what a merge makes of the groups, their names, which of them land, what is
      present and which rules are added, does not depend on their order if and only if no two of them
      would choose the same name. */
  lemma OrderFreeIff(cfg: Config, frag: Fragment, routing: bool)
    requires ListedOnce(frag.outbounds)
    ensures OrderFree(cfg, frag, routing) <==> FirstChoicesDiffer(frag.outbounds, Naming(cfg, frag.nodes).taken)
  {
    var os, taken := frag.outbounds, Naming(cfg, frag.nodes).taken;
    if FirstChoicesDiffer(os, taken) {
      forall frag' | Reordered(frag, frag') ensures SameResult(cfg, frag, frag', routing) {
        SameWhenChoicesDiffer(cfg, frag, frag', routing);
      }
    } else {
      var i, j :| 0 <= i < j < |os| && TaggedGroup(os[i]) && TaggedGroup(os[j])
               && Fresh(os[i].Tag(), taken) == Fresh(os[j].Tag(), taken);
      var fragI := FrontGetsName(cfg, frag, i);
      var fragJ := FrontGetsName(cfg, frag, j);
      var p := (os[i], Fresh(os[i].Tag(), taken));
      assert p in Gathered(cfg, fragI).groups && p !in Gathered(cfg, fragJ).groups;
      assert !(SameResult(cfg, frag, fragI, routing) && SameResult(cfg, frag, fragJ, routing));
    }
  }

  // --------------------------------------------------- clashes show in landing

  /** Nothing in the fragment is tagged `x`. */
  predicate Unshared(os: seq<Outbound>, x: string) { forall i :: 0 <= i < |os| ==> os[i].Tag() != x }

  lemma {:induction false} NodesKeepRemap(m: Merging, nodes: seq<Outbound>, x: string)
    requires Unshared(nodes, x) && x !in m.remap
    ensures x !in AddNodes(m, nodes).remap && m.outbounds <= AddNodes(m, nodes).outbounds
  {
    if nodes != [] {
      NodesKeepRemap(m, nodes[..|nodes| - 1], x);
    }
  }

  lemma {:induction false} GroupsKeepRemap(m: Merging, os: seq<Outbound>, x: string)
    requires Unshared(os, x) && x !in m.remap
    ensures x !in NameGroups(m, os).remap && m.outbounds == NameGroups(m, os).outbounds
  {
    if os != [] {
      GroupsKeepRemap(m, os[..|os| - 1], x);
    }
  }

  lemma {:induction false} BuiltinsKeepRemap(m: Merging, kinds: map<string, Kind>, os: seq<Outbound>, x: string)
    requires Unshared(os, x) && x !in m.remap
    ensures x !in AddBuiltins(m, kinds, os).remap && m.outbounds <= AddBuiltins(m, kinds, os).outbounds
  {
    if os != [] {
      BuiltinsKeepRemap(m, kinds, os[..|os| - 1], x);
    }
  }

  /** A reference to an old outbound whose tag nothing in the fragment shares stays as it is. */
  lemma OldReferenceStays(cfg: Config, frag: Fragment, x: string)
    requires x in TagList(cfg.outbounds) && Unshared(frag.nodes, x) && Unshared(frag.outbounds, x)
    ensures x !in Gathered(cfg, frag).remap && x in Grounded(Gathered(cfg, frag))
  {
    var m := Naming(cfg, frag.nodes);
    NodesKeepRemap(StartMerge(cfg), frag.nodes, x);
    GroupsKeepRemap(m, frag.outbounds, x);
    BuiltinsKeepRemap(NameGroups(m, frag.outbounds), KindOf(cfg.outbounds), frag.outbounds, x);
    GatheredSound(cfg, frag);
    var more := Gathered(cfg, frag).outbounds[|cfg.outbounds|..];
    assert Gathered(cfg, frag).outbounds == cfg.outbounds + more;
    TagListConcat(cfg.outbounds, more);
    assert x in ToSet(TagList(Gathered(cfg, frag).outbounds));
  }

  /** The name of the group in front is present when it refers to an old outbound. */
  lemma FrontLands(cfg: Config, frag: Fragment, g: Outbound, rest: seq<Outbound>, x: string, routing: bool)
    requires frag.outbounds == [g] + rest && TaggedGroup(g) && g.members == [x]
    requires x in TagList(cfg.outbounds) && Unshared(frag.nodes, x) && Unshared(frag.outbounds, x)
    ensures Fresh(g.Tag(), Naming(cfg, frag.nodes).taken) in Merge(cfg, frag, routing).present
  {
    var m, name := Gathered(cfg, frag), Fresh(g.Tag(), Naming(cfg, frag.nodes).taken);
    NamesAreGathered(cfg, frag);
    FirstComeFirstServed(Naming(cfg, frag.nodes), g, rest);
    OldReferenceStays(cfg, frag, x);
    var k :| 0 <= k < |m.groups| && m.groups[k] == (g, name);
    assert GroupNodes(m)[k] == Node(name, ResolveAll(m.remap, [x])) && ResolveAll(m.remap, [x])[0] == x;
    assert Edge(GroupNodes(m), name, x);
    BaseLeads(GroupNodes(m), Grounded(m), x);
    EdgeLeads(GroupNodes(m), Grounded(m), name, x);
    LandedSplits(m);
  }

  /** The name of the group in front is not present when it refers to nothing. */
  lemma FrontSkipped(cfg: Config, frag: Fragment, g: Outbound, rest: seq<Outbound>, routing: bool)
    requires frag.outbounds == [g] + rest && TaggedGroup(g) && g.members == []
    ensures Fresh(g.Tag(), Naming(cfg, frag.nodes).taken) !in Merge(cfg, frag, routing).present
  {
    var m, name := Gathered(cfg, frag), Fresh(g.Tag(), Naming(cfg, frag.nodes).taken);
    NamesAreGathered(cfg, frag);
    FirstComeFirstServed(Naming(cfg, frag.nodes), g, rest);
    var k :| 0 <= k < |m.groups| && m.groups[k] == (g, name);
    assert name in GroupTags(m.groups) && name !in Grounded(m);
    forall i | 0 <= i < |m.groups| && m.groups[i].1 == name ensures GroupNodes(m)[i].refs == [] {
      assert m.groups[i] in m.groups && m.groups[i].0 == g;
    }
    if Leads(GroupNodes(m), Grounded(m), name) {
      var i, r := LeadsUnfold(GroupNodes(m), Grounded(m), name);
    }
    LandedSplits(m);
  }

  /** Every clash can show in landing: for any two groups that would choose the same name, whatever
      else the fragment holds, there are member lists under which swapping the two changes which
      names are present. `x` is an old outbound whose tag nothing in the fragment shares. */
  lemma ClashMovesLanding(cfg: Config, frag: Fragment, g: Outbound, h: Outbound, rest: seq<Outbound>, x: string,
                          routing: bool)
    requires TaggedGroup(g) && TaggedGroup(h)
    requires Fresh(g.Tag(), Naming(cfg, frag.nodes).taken) == Fresh(h.Tag(), Naming(cfg, frag.nodes).taken)
    requires x in TagList(cfg.outbounds) && Unshared(frag.nodes, x) && Unshared([g, h] + rest, x)
    ensures var g', h' := g.(members := [x]), h.(members := []);
            Merge(cfg, frag.(outbounds := [g', h'] + rest), routing).present
              != Merge(cfg, frag.(outbounds := [h', g'] + rest), routing).present
  {
    var g', h' := g.(members := [x]), h.(members := []);
    var one, two := frag.(outbounds := [g', h'] + rest), frag.(outbounds := [h', g'] + rest);
    assert [g', h'] + rest == [g'] + ([h'] + rest) && [h', g'] + rest == [h'] + ([g'] + rest);
    assert ([g, h] + rest)[0] == g && ([g, h] + rest)[1] == h;
    forall i | 0 <= i < |one.outbounds| ensures one.outbounds[i].Tag() != x {
      assert one.outbounds[i].Tag() == ([g, h] + rest)[i].Tag();
    }
    FrontLands(cfg, one, g', [h'] + rest, x, routing);
    FrontSkipped(cfg, two, h', [g'] + rest, routing);
  }
}
