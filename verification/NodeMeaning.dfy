/** What a reference to a node of a fragment means after the whole merge. A group, direct or block
    under the same tag can take it over; this is when. */
module NodeMeaning {
  import opened Wrappers
  import opened Tags
  import opened Fragments
  import opened MergeTheorems
  import opened MergeMeaning
  import opened MergeOrder
  import opened ExportTheorems
  import opened BuiltinMeaning

  predicate IsGroupOf(g: Outbound, t: string) { TaggedGroup(g) && g.Tag() == t }

  predicate NoGroupOf(os: seq<Outbound>, t: string) { forall j :: 0 <= j < |os| ==> !IsGroupOf(os[j], t) }

  /** The builtin leaves references to its tag alone: the config has it, or the tag is free. */
  predicate LeavesAlone(m: Merging, kinds: map<string, Kind>, g: Outbound)
  {
    (g.Tag() in kinds && kinds[g.Tag()] == g.kind) || g.Tag() !in m.taken
  }

  /** No group shares the tag, and every direct or block that does is known to the config or finds the
      tag free when its turn comes. */
  ghost predicate NodeKept(cfg: Config, frag: Fragment, t: string)
  {
    && NoGroupOf(frag.outbounds, t)
    && (forall j :: 0 <= j < |frag.outbounds| && IsBuiltinOf(frag.outbounds[j], t) ==>
          LeavesAlone(Reached(cfg, frag, j), KindOf(cfg.outbounds), frag.outbounds[j]))
  }

  // ---------------------------------------------------- references left alone

  lemma {:induction false} GroupsLeave(m: Merging, os: seq<Outbound>, t: string)
    requires t in m.remap && NoGroupOf(os, t)
    ensures t in NameGroups(m, os).remap && NameGroups(m, os).remap[t] == m.remap[t]
    ensures NameGroups(m, os).outbounds == m.outbounds
  {
    if os != [] {
      GroupsLeave(m, os[..|os| - 1], t);
    }
  }

  /** Every builtin of the tag in the list leaves it alone when its turn comes. */
  ghost predicate AllLeaveAlone(m: Merging, kinds: map<string, Kind>, os: seq<Outbound>, t: string)
  {
    forall j :: 0 <= j < |os| && IsBuiltinOf(os[j], t) ==> LeavesAlone(AddBuiltins(m, kinds, os[..j]), kinds, os[j])
  }

  lemma AllLeaveAloneSnoc(m: Merging, kinds: map<string, Kind>, os: seq<Outbound>, t: string)
    requires os != []
    ensures var n := |os| - 1;
            AllLeaveAlone(m, kinds, os, t) <==>
              && AllLeaveAlone(m, kinds, os[..n], t)
              && (IsBuiltinOf(os[n], t) ==> LeavesAlone(AddBuiltins(m, kinds, os[..n]), kinds, os[n]))
  {
    var n := |os| - 1;
    forall j | 0 <= j < n ensures os[..n][..j] == os[..j] && os[..n][j] == os[j] {
    }
  }

  lemma {:induction false} BuiltinsLeave(m: Merging, kinds: map<string, Kind>, os: seq<Outbound>, t: string)
    requires t in m.remap && t != "" && AllLeaveAlone(m, kinds, os, t)
    ensures t in AddBuiltins(m, kinds, os).remap && AddBuiltins(m, kinds, os).remap[t] == m.remap[t]
    ensures m.outbounds <= AddBuiltins(m, kinds, os).outbounds
  {
    if os != [] {
      AllLeaveAloneSnoc(m, kinds, os, t);
      BuiltinsLeave(m, kinds, os[..|os| - 1], t);
    } else {
      assert AddBuiltins(m, kinds, []) == m;
    }
  }

  /** The names of groups, directs and blocks do not disturb a reference that is kept. */
  lemma KeptThroughout(cfg: Config, frag: Fragment, t: string)
    requires var m := AddNodes(StartMerge(cfg), frag.nodes); t in m.remap && t != "" && NodeKept(cfg, frag, t)
    ensures var m, r := AddNodes(StartMerge(cfg), frag.nodes), Gathered(cfg, frag);
            t in r.remap && r.remap[t] == m.remap[t] && m.outbounds <= r.outbounds
  {
    GroupsLeave(AddNodes(StartMerge(cfg), frag.nodes), frag.outbounds, t);
    BuiltinsLeave(Named(cfg, frag), KindOf(cfg.outbounds), frag.outbounds, t);
  }

  /** A kept reference to a fragment node ends at an outbound with that node's host and port. */
  lemma KeptNodeReference(cfg: Config, frag: Fragment, i: nat)
    requires LastOfTag(frag.nodes, i) && NodeKept(cfg, frag, frag.nodes[i].Tag())
    ensures var m := Gathered(cfg, frag);
            HasAt(m.outbounds, Resolve(m.remap, frag.nodes[i].Tag()), (frag.nodes[i].Host(), frag.nodes[i].port.value))
  {
    var start, t := StartMerge(cfg), frag.nodes[i].Tag();
    var m, r := AddNodes(start, frag.nodes), Gathered(cfg, frag);
    HostPortsFiled(cfg.outbounds);
    NodeReferenceMeans(start, frag.nodes, i);
    KeptThroughout(cfg, frag, t);
    var more := r.outbounds[|m.outbounds|..];
    assert r.outbounds == m.outbounds + more;
    HasAtGrows(m.outbounds, more, m.remap[t], (frag.nodes[i].Host(), frag.nodes[i].port.value));
  }

  /** In particular when nothing else in the fragment shares the tag. */
  lemma MergedNodeReference(cfg: Config, frag: Fragment, i: nat)
    requires LastOfTag(frag.nodes, i)
    requires forall j :: 0 <= j < |frag.outbounds| ==> frag.outbounds[j].Tag() != frag.nodes[i].Tag()
    ensures var m := Gathered(cfg, frag);
            HasAt(m.outbounds, Resolve(m.remap, frag.nodes[i].Tag()), (frag.nodes[i].Host(), frag.nodes[i].port.value))
  {
    KeptNodeReference(cfg, frag, i);
  }

  // ----------------------------------------------------- references taken over

  /** No outbound of that name has a port, and none can get the name any more. */
  ghost predicate Portless(m: Merging, name: string)
  {
    name in m.taken && name != "" && forall o :: o in m.outbounds && o.tag == Some(name) ==> !o.HasPort()
  }

  /** `x` is the name the node stage gave; `portless` says that the fragment's directs and blocks have
      no port. */
  ghost predicate Status(m: Merging, kinds: map<string, Kind>, t: string, x: string, kept: bool, portless: bool)
  {
    && TagsTaken(m, kinds) && t in m.remap && x in m.taken
    && if kept then m.remap[t] == x else m.remap[t] != x && (portless ==> Portless(m, m.remap[t]))
  }

  lemma {:induction false} GroupStatus(m: Merging, kinds: map<string, Kind>, g: Outbound, t: string, x: string,
                                       kept: bool, portless: bool)
    requires Status(m, kinds, t, x, kept, portless)
    ensures Status(NameGroup(m, g), kinds, t, x, kept && !IsGroupOf(g, t), portless)
  {
  }

  lemma {:induction false} GroupsStatus(m: Merging, kinds: map<string, Kind>, os: seq<Outbound>, t: string, x: string,
                                        portless: bool)
    requires Status(m, kinds, t, x, true, portless)
    ensures Status(NameGroups(m, os), kinds, t, x, NoGroupOf(os, t), portless)
  {
    if os != [] {
      var n := |os| - 1;
      GroupsStatus(m, kinds, os[..n], t, x, portless);
      GroupStatus(NameGroups(m, os[..n]), kinds, os[n], t, x, NoGroupOf(os[..n], t), portless);
      NoGroupOfSnoc(os, t);
    }
  }

  lemma NoGroupOfSnoc(os: seq<Outbound>, t: string)
    requires os != []
    ensures NoGroupOf(os, t) <==> NoGroupOf(os[..|os| - 1], t) && !IsGroupOf(os[|os| - 1], t)
  {
  }

  lemma {:induction false} BuiltinStatus(m: Merging, kinds: map<string, Kind>, g: Outbound, t: string, x: string,
                                         kept: bool, portless: bool)
    requires Status(m, kinds, t, x, kept, portless) && t != "" && (portless && IsBuiltinOf(g, t) ==> !g.HasPort())
    ensures Status(AddBuiltin(m, kinds, g), kinds, t, x, kept && (IsBuiltinOf(g, t) ==> LeavesAlone(m, kinds, g)),
                   portless)
  {
    var r := AddBuiltin(m, kinds, g);
    assert forall o :: o in r.outbounds ==> o in m.outbounds || o == r.outbounds[|m.outbounds|];
  }

  lemma {:induction false} BuiltinsStatus(m: Merging, kinds: map<string, Kind>, os: seq<Outbound>, t: string, x: string,
                                          kept: bool, portless: bool)
    requires Status(m, kinds, t, x, kept, portless) && t != ""
    requires portless ==> forall j :: 0 <= j < |os| && IsBuiltinOf(os[j], t) ==> !os[j].HasPort()
    ensures Status(AddBuiltins(m, kinds, os), kinds, t, x, kept && AllLeaveAlone(m, kinds, os, t), portless)
  {
    if os != [] {
      var n := |os| - 1;
      BuiltinsStatus(m, kinds, os[..n], t, x, kept, portless);
      AllLeaveAloneSnoc(m, kinds, os, t);
      BuiltinStatus(AddBuiltins(m, kinds, os[..n]), kinds, os[n], t, x, kept && AllLeaveAlone(m, kinds, os[..n], t),
                    portless);
    }
  }

  lemma NodeStatus(cfg: Config, frag: Fragment, i: nat, portless: bool)
    requires WellFormed(cfg, frag) && LastOfTag(frag.nodes, i)
    requires var t := frag.nodes[i].Tag();
             portless ==> forall j :: 0 <= j < |frag.outbounds| && IsBuiltinOf(frag.outbounds[j], t) ==>
                                        !frag.outbounds[j].HasPort()
    ensures var t, m := frag.nodes[i].Tag(), AddNodes(StartMerge(cfg), frag.nodes);
            && t in m.remap
            && Status(Gathered(cfg, frag), KindOf(cfg.outbounds), t, m.remap[t], NodeKept(cfg, frag, t), portless)
  {
    var t, kinds, m := frag.nodes[i].Tag(), KindOf(cfg.outbounds), AddNodes(StartMerge(cfg), frag.nodes);
    StartClean(cfg);
    AddNodesClean(StartMerge(cfg), kinds, frag.nodes);
    HostPortsFiled(cfg.outbounds);
    NodeReferenceMeans(StartMerge(cfg), frag.nodes, i);
    GroupsStatus(m, kinds, frag.outbounds, t, m.remap[t], portless);
    BuiltinsStatus(Named(cfg, frag), kinds, frag.outbounds, t, m.remap[t],
                   NoGroupOf(frag.outbounds, t), portless);
  }

  /** Exactly when a reference to a node keeps its name through the whole merge, for the last valid
      node of its tag. */
  lemma NodeNameIff(cfg: Config, frag: Fragment, i: nat)
    requires WellFormed(cfg, frag) && LastOfTag(frag.nodes, i)
    ensures var t, m, r := frag.nodes[i].Tag(), AddNodes(StartMerge(cfg), frag.nodes), Gathered(cfg, frag);
            t in m.remap && t in r.remap && (r.remap[t] == m.remap[t] <==> NodeKept(cfg, frag, t))
  {
    NodeStatus(cfg, frag, i, false);
  }

  /** And exactly when it keeps its meaning, an outbound with the node's host and port, when the
      fragment's directs and blocks have no port. */
  lemma NodeReferenceIff(cfg: Config, frag: Fragment, i: nat)
    requires WellFormed(cfg, frag) && LastOfTag(frag.nodes, i)
    requires forall j :: 0 <= j < |frag.outbounds| && Builtin(frag.outbounds[j]) ==> !frag.outbounds[j].HasPort()
    ensures var m, n := Gathered(cfg, frag), frag.nodes[i];
            HasAt(m.outbounds, Resolve(m.remap, n.Tag()), (n.Host(), n.port.value)) <==> NodeKept(cfg, frag, n.Tag())
  {
    NodeStatus(cfg, frag, i, true);
    if NodeKept(cfg, frag, frag.nodes[i].Tag()) {
      KeptNodeReference(cfg, frag, i);
    }
  }

  /** An empty config, a node "a" and a group "a": after the merge a reference to "a" ends at no
      outbound with the node's host and port. */
  lemma GroupTakesReference(cfg: Config, frag: Fragment)
    requires cfg == Config([], [], None)
    requires frag == Fragment([Outbound(Some("a"), Mirage, Some("h"), Some(1), [], None, "")], [GroupOf("a", [])], [],
                              None)
    ensures !HasAt(Gathered(cfg, frag).outbounds, Resolve(Gathered(cfg, frag).remap, "a"), ("h", 1))
  {
    assert IsGroupOf(frag.outbounds[0], "a");
    NodeReferenceIff(cfg, frag, 0);
  }
}
