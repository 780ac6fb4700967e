/** What merging a fragment promises: the config stays closed under references, old content is
    untouched, tags stay unique, and a group lands exactly when it leads somewhere. */
module MergeTheorems {
  import opened Wrappers
  import opened Bytes
  import opened Reachability
  import opened Tags
  import opened Fragments

  predicate NoDup(s: seq<string>)
  {
    forall i, j :: 0 <= i < j < |s| ==> s[i] != s[j]
  }

  predicate TagsDistinct(groups: seq<(Outbound, string)>)
  {
    forall i, j :: 0 <= i < j < |groups| ==> groups[i].1 != groups[j].1
  }

  lemma TagListSnoc(os: seq<Outbound>, o: Outbound)
    ensures TagList(os + [o]) == TagList(os) + if o.tag.Some? then [o.tag.value] else []
  {
    assert (os + [o])[..|os|] == os;
  }

  lemma ToSetSnoc(s: seq<string>, x: string)
    ensures ToSet(s + [x]) == ToSet(s) + {x}
    ensures NoDup(s) && x !in ToSet(s) ==> NoDup(s + [x])
  {
  }

  lemma GroupTagsSnoc(groups: seq<(Outbound, string)>, g: (Outbound, string))
    ensures GroupTags(groups + [g]) == GroupTags(groups) + {g.1}
  {
    var more := groups + [g];
    forall x | x in GroupTags(groups) + {g.1} ensures x in GroupTags(more) {
      if x == g.1 {
        assert more[|groups|].1 == x;
      } else {
        var i :| 0 <= i < |groups| && groups[i].1 == x;
        assert more[i].1 == x;
      }
    }
  }

  // ------------------------------------------------- invariant of the merge

  /** What every step of a merge keeps: the old outbounds are a prefix, `taken` is exactly the
      tags in the list and the names reserved for groups, and these never collide. */
  ghost predicate Sound(old': seq<Outbound>, m: Merging)
  {
    && old' <= m.outbounds
    && ToSet(m.taken) == ToSet(TagList(m.outbounds)) + GroupTags(m.groups)
    && ToSet(TagList(m.outbounds)) !! GroupTags(m.groups)
    && TagsDistinct(m.groups)
    && (NoDup(TagList(old')) ==> NoDup(TagList(m.outbounds)))
  }

  /** Appending an outbound under a fresh tag keeps the invariant. */
  lemma PushOutbound(old': seq<Outbound>, m: Merging, m': Merging, o: Outbound, tag: string)
    requires Sound(old', m) && tag !in m.taken && o.tag == Some(tag)
    requires m'.outbounds == m.outbounds + [o] && m'.taken == m.taken + [tag] && m'.groups == m.groups
    ensures Sound(old', m')
  {
    TagListSnoc(m.outbounds, o);
    assert tag !in ToSet(m.taken);
    assert ToSet(m'.taken) == ToSet(m.taken) + {tag};
    assert ToSet(TagList(m'.outbounds)) == ToSet(TagList(m.outbounds)) + {tag};
  }

  /** Reserving a fresh tag for a group keeps the invariant. */
  lemma PushGroup(old': seq<Outbound>, m: Merging, m': Merging, g: Outbound, tag: string)
    requires Sound(old', m) && tag !in m.taken
    requires m'.outbounds == m.outbounds && m'.taken == m.taken + [tag] && m'.groups == m.groups + [(g, tag)]
    ensures Sound(old', m')
  {
    assert tag !in ToSet(m.taken);
    assert ToSet(m'.taken) == ToSet(m.taken) + {tag};
    GroupTagsSnoc(m.groups, (g, tag));
    forall i | 0 <= i < |m.groups| ensures m.groups[i].1 != tag {
      assert m.groups[i].1 in GroupTags(m.groups);
    }
  }

  lemma {:induction false} AddNodesSound(old': seq<Outbound>, m: Merging, nodes: seq<Outbound>)
    requires Sound(old', m)
    ensures Sound(old', AddNodes(m, nodes))
  {
    if nodes != [] {
      var n := nodes[|nodes| - 1];
      var m0 := AddNodes(m, nodes[..|nodes| - 1]);
      var m1 := AddNode(m0, n);
      AddNodesSound(old', m, nodes[..|nodes| - 1]);
      if |m1.outbounds| > |m0.outbounds| {
        var tag := Fresh(if n.Tag() == "" then n.Host() else n.Tag(), m0.taken);
        PushOutbound(old', m0, m1, n.(tag := Some(tag)), tag);
      }
    }
  }

  lemma {:induction false} NameGroupsSound(old': seq<Outbound>, m: Merging, os: seq<Outbound>)
    requires Sound(old', m)
    ensures Sound(old', NameGroups(m, os))
  {
    if os != [] {
      var g := os[|os| - 1];
      var m0 := NameGroups(m, os[..|os| - 1]);
      NameGroupsSound(old', m, os[..|os| - 1]);
      if IsGroup(g.kind) && g.Tag() != "" {
        PushGroup(old', m0, NameGroup(m0, g), g, Fresh(g.Tag(), m0.taken));
      }
    }
  }

  lemma {:induction false} AddBuiltinsSound(old': seq<Outbound>, m: Merging, kinds: map<string, Kind>,
                                            os: seq<Outbound>)
    requires Sound(old', m)
    ensures Sound(old', AddBuiltins(m, kinds, os))
  {
    if os != [] {
      var g := os[|os| - 1];
      var m0 := AddBuiltins(m, kinds, os[..|os| - 1]);
      var m1 := AddBuiltin(m0, kinds, g);
      AddBuiltinsSound(old', m, kinds, os[..|os| - 1]);
      if |m1.outbounds| > |m0.outbounds| {
        var tag := if g.Tag() in m0.taken then Fresh(g.Tag(), m0.taken) else g.Tag();
        PushOutbound(old', m0, m1, g.(tag := Some(tag)), tag);
      }
    }
  }

  lemma GatheredSound(cfg: Config, frag: Fragment)
    ensures Sound(cfg.outbounds, Gathered(cfg, frag))
  {
    var m0 := StartMerge(cfg);
    assert GroupTags(m0.groups) == {};
    AddNodesSound(cfg.outbounds, m0, frag.nodes);
    var m1 := AddNodes(m0, frag.nodes);
    NameGroupsSound(cfg.outbounds, m1, frag.outbounds);
    AddBuiltinsSound(cfg.outbounds, NameGroups(m1, frag.outbounds), KindOf(cfg.outbounds), frag.outbounds);
  }

  // --------------------------------------------------------- landing groups

  /** The present names are the grounded ones and the groups that lead to them. */
  lemma LandedSplits(m: Merging)
    ensures var present := Landed(GroupNodes(m), Grounded(m));
            && Grounded(m) <= present <= Grounded(m) + GroupTags(m.groups)
            && forall i :: 0 <= i < |m.groups| ==>
                 (m.groups[i].1 in present <==> Leads(GroupNodes(m), Grounded(m), m.groups[i].1))
  {
    var nodes, base := GroupNodes(m), Grounded(m);
    forall name | name in base ensures Leads(nodes, base, name) { BaseLeads(nodes, base, name); }
    forall i | 0 <= i < |m.groups|
      ensures m.groups[i].1 in Names(nodes) && m.groups[i].1 in GroupTags(m.groups)
    {
      assert nodes[i].name == m.groups[i].1;
    }
    forall name | name in Names(nodes) ensures name in GroupTags(m.groups) {
      var i :| 0 <= i < |nodes| && nodes[i].name == name;
      assert m.groups[i].1 == name;
    }
  }

  lemma {:induction false} TagListConcat(a: seq<Outbound>, b: seq<Outbound>)
    ensures TagList(a + b) == TagList(a) + TagList(b)
  {
    if b == [] {
      assert a + b == a;
    } else {
      var n := |b| - 1;
      TagListConcat(a, b[..n]);
      assert a + b == (a + b[..n]) + [b[n]];
      TagListSnoc(a + b[..n], b[n]);
    }
  }

  lemma LandGroupsSnoc(groups: seq<(Outbound, string)>, g: (Outbound, string), remap: map<string, string>,
                       present: set<string>)
    ensures TagList(LandGroups(groups + [g], remap, present))
         == if g.1 in present then TagList(LandGroups(groups, remap, present)) + [g.1]
            else TagList(LandGroups(groups, remap, present))
  {
    var before := LandGroups(groups, remap, present);
    assert (groups + [g])[..|groups|] == groups;
    TagListSnoc(before, LandedGroup(remap, present, g));
    assert before + [] == before;
  }

  /** Landing appends exactly the present groups under their own tags. */
  lemma {:induction false} LandedTags(groups: seq<(Outbound, string)>, remap: map<string, string>, present: set<string>)
    requires TagsDistinct(groups)
    ensures var tags := TagList(LandGroups(groups, remap, present));
            ToSet(tags) == GroupTags(groups) * present && NoDup(tags)
  {
    if groups == [] {
      assert GroupTags(groups) == {};
    } else {
      var n := |groups| - 1;
      var fewer, g := groups[..n], groups[n];
      assert groups == fewer + [g];
      LandedTags(fewer, remap, present);
      assert g.1 !in GroupTags(fewer);
      LandGroupsSnoc(fewer, g, remap, present);
      var before := TagList(LandGroups(fewer, remap, present));
      assert ToSet(before) == GroupTags(fewer) * present;
      GroupTagsSnoc(fewer, g);
      ToSetSnoc(before, g.1);
    }
  }

  lemma NoDupConcat(a: seq<string>, b: seq<string>)
    requires ToSet(a) !! ToSet(b)
    ensures ToSet(a + b) == ToSet(a) + ToSet(b)
    ensures NoDup(a) && NoDup(b) ==> NoDup(a + b)
  {
    assert forall i :: 0 <= i < |a| ==> a[i] in ToSet(a);
    assert forall i :: 0 <= i < |b| ==> b[i] in ToSet(b);
  }

  lemma {:induction false} LandGroupsTags(os: seq<Outbound>, groups: seq<(Outbound, string)>,
                                          remap: map<string, string>, present: set<string>)
    requires TagsDistinct(groups) && ToSet(TagList(os)) !! GroupTags(groups)
    ensures var after := TagList(os + LandGroups(groups, remap, present));
            && ToSet(after) == ToSet(TagList(os)) + (GroupTags(groups) * present)
            && (NoDup(TagList(os)) ==> NoDup(after))
  {
    var landed := LandGroups(groups, remap, present);
    LandedTags(groups, remap, present);
    TagListConcat(os, landed);
    NoDupConcat(TagList(os), TagList(landed));
  }

  /** A landed group comes from the fragment and keeps only members that are present. */
  lemma {:induction false} LandGroupsMembers(groups: seq<(Outbound, string)>, remap: map<string, string>,
                                             present: set<string>, i: nat)
    requires i < |LandGroups(groups, remap, present)|
    ensures var o := LandGroups(groups, remap, present)[i];
            && (forall s :: s in o.members ==> s in present)
            && exists k :: 0 <= k < |groups| && groups[k].1 in present && o == LandedGroup(remap, present, groups[k])
  {
    var n := |groups| - 1;
    if i < |LandGroups(groups[..n], remap, present)| {
      LandGroupsMembers(groups[..n], remap, present, i);
      var k :| 0 <= k < n && groups[..n][k].1 in present
        && LandGroups(groups[..n], remap, present)[i] == LandedGroup(remap, present, groups[..n][k]);
      assert groups[k] == groups[..n][k];
    } else {
      assert LandGroups(groups, remap, present)[i] == LandedGroup(remap, present, groups[n]);
    }
  }

  /** A group lands with at least one member left. */
  lemma LandsWithMember(m: Merging, k: nat)
    requires k < |m.groups|
    requires m.groups[k].1 in Landed(GroupNodes(m), Grounded(m)) && TagsDistinct(m.groups)
    ensures LandedGroup(m.remap, Landed(GroupNodes(m), Grounded(m)), m.groups[k]).members != []
  {
    var nodes, base, name := GroupNodes(m), Grounded(m), m.groups[k].1;
    assert name in GroupTags(m.groups);
    var i, r := LeadsUnfold(nodes, base, name);
    assert i == k by {
      assert m.groups[i].1 == m.groups[k].1;
    }
    LeadsNamed(nodes, base, r);
    assert r in LandedGroup(m.remap, Landed(nodes, base), m.groups[k]).members;
  }

  lemma {:induction false} AddRulesTargets(rules: seq<Rule>, remap: map<string, string>, present: set<string>)
    ensures forall r :: r in AddRules(rules, remap, present) ==> r.outbound.Some? && r.outbound.value in present
  {
    if rules != [] {
      AddRulesTargets(rules[..|rules| - 1], remap, present);
    }
  }

  /** Merge keeps old content and tags: for every config and fragment, the old outbounds and
      rules stay as an untouched prefix, unique tags stay unique, and what the merge believes
      present is exactly the set of tags in the result. */
  lemma MergeKeepsTags(cfg: Config, frag: Fragment, routing: bool)
    ensures var r := Merge(cfg, frag, routing);
            && cfg.outbounds <= r.config.outbounds && cfg.rules <= r.config.rules
            && r.config.defaultOutbound == cfg.defaultOutbound
            && (NoDup(TagList(cfg.outbounds)) ==> NoDup(TagList(r.config.outbounds)))
            && r.present == ToSet(TagList(r.config.outbounds))
  {
    var m := Gathered(cfg, frag);
    var present := Landed(GroupNodes(m), Grounded(m));
    GatheredSound(cfg, frag);
    LandedSplits(m);
    LandGroupsTags(m.outbounds, m.groups, m.remap, present);
    assert Grounded(m) == ToSet(TagList(m.outbounds));
  }

  /** Merge leaves nothing dangling: every landed group has a member, and all its members and
      the target of every added rule are tags of the resulting config. */
  lemma MergeClosed(cfg: Config, frag: Fragment, routing: bool)
    ensures var r := Merge(cfg, frag, routing);
            var there := ToSet(TagList(r.config.outbounds));
            && (forall i :: 0 <= i < |r.groups| ==>
                  r.groups[i].members != [] && forall s :: s in r.groups[i].members ==> s in there)
            && (forall x :: x in r.config.rules[|cfg.rules|..] ==> x.outbound.Some? && x.outbound.value in there)
  {
    var m := Gathered(cfg, frag);
    var present := Landed(GroupNodes(m), Grounded(m));
    var r := Merge(cfg, frag, routing);
    GatheredSound(cfg, frag);
    MergeKeepsTags(cfg, frag, routing);
    forall i | 0 <= i < |r.groups|
      ensures r.groups[i].members != [] && forall s :: s in r.groups[i].members ==> s in present
    {
      LandGroupsMembers(m.groups, m.remap, present, i);
      var k :| 0 <= k < |m.groups| && m.groups[k].1 in present
            && r.groups[i] == LandedGroup(m.remap, present, m.groups[k]);
      LandsWithMember(m, k);
    }
    AddRulesTargets(frag.rules, m.remap, present);
    var added := if routing then AddRules(frag.rules, m.remap, present) else [];
    assert r.config.rules[|cfg.rules|..] == added;
  }

  /** A fragment group lands exactly when a path of remapped member references leads from it to
      an outbound of the result that is not one of the fragment's groups. */
  lemma LandsIffLeads(cfg: Config, frag: Fragment, routing: bool, k: nat)
    requires k < |Gathered(cfg, frag).groups|
    ensures var m := Gathered(cfg, frag);
            && Grounded(m) == ToSet(TagList(m.outbounds))
            && (m.groups[k].1 in ToSet(TagList(Merge(cfg, frag, routing).config.outbounds))
                <==> Leads(GroupNodes(m), ToSet(TagList(m.outbounds)), m.groups[k].1))
  {
    var m := Gathered(cfg, frag);
    GatheredSound(cfg, frag);
    MergeKeepsTags(cfg, frag, routing);
    LandedSplits(m);
    assert Grounded(m) == ToSet(TagList(m.outbounds));
  }
}
