/** What a reference to a direct or block of a fragment means after the whole merge. It can end at a
    proxy node or at the other kind; this is when. */
module BuiltinMeaning {
  import opened Wrappers
  import opened Tags
  import opened Fragments
  import opened MergeTheorems
  import opened MergeMeaning
  import opened MergeOrder
  import opened MergeOrderExact
  import opened ExportTheorems

  /** A reference to `t` ends at an outbound of kind `k`. */
  ghost predicate EndsAt(os: seq<Outbound>, remap: map<string, string>, t: string, k: Kind)
  {
    exists o :: o in os && o.tag == Some(Resolve(remap, t)) && o.kind == k
  }

  /** The state before the directs and blocks of the fragment are looked at. */
  function Named(cfg: Config, frag: Fragment): Merging
  {
    NameGroups(AddNodes(StartMerge(cfg), frag.nodes), frag.outbounds)
  }

  /** The state when the builtin at `i` is looked at. */
  function Reached(cfg: Config, frag: Fragment, i: nat): Merging
    requires i <= |frag.outbounds|
  {
    AddBuiltins(Named(cfg, frag), KindOf(cfg.outbounds), frag.outbounds[..i])
  }

  predicate IsBuiltinOf(o: Outbound, t: string) { Builtin(o) && o.Tag() == t }

  // -------------------------------------------------- what every stage keeps

  /** Every tag in sight is taken. */
  ghost predicate TagsTaken(m: Merging, kinds: map<string, Kind>)
  {
    && (forall t :: t in kinds ==> t in m.taken)
    && (forall o :: o in m.outbounds && o.tag.Some? ==> o.tag.value in m.taken)
  }

  /** No direct or block has the name, and none can get it any more. */
  ghost predicate NoBuiltinAt(m: Merging, name: string)
  {
    name in m.taken && forall o :: o in m.outbounds && o.tag == Some(name) ==> !IsBuiltin(o.kind)
  }

  /** All names that references have been remapped to belong to nodes or groups. */
  ghost predicate NamesClean(m: Merging, kinds: map<string, Kind>)
  {
    && TagsTaken(m, kinds)
    && (forall e :: e in m.hostPort ==> NoBuiltinAt(m, m.hostPort[e]))
    && (forall t :: t in m.remap ==> NoBuiltinAt(m, m.remap[t]))
  }

  /** A step that appends at most one outbound, under a tag that was free, and no direct or block. */
  ghost predicate AppendsNode(m: Merging, r: Merging)
  {
    && (forall x :: x in m.taken ==> x in r.taken)
    && (forall o :: o in r.outbounds ==>
          o in m.outbounds || (!IsBuiltin(o.kind) && o.tag.Some? && o.tag.value in r.taken && o.tag.value !in m.taken))
  }

  lemma AddNodeAppends(m: Merging, n: Outbound)
    requires !IsBuiltin(n.kind)
    ensures AppendsNode(m, AddNode(m, n))
  {
    var r := AddNode(m, n);
    assert forall o :: o in r.outbounds ==> o in m.outbounds || o == r.outbounds[|m.outbounds|];
  }

  lemma StaysClean(m: Merging, r: Merging, kinds: map<string, Kind>)
    requires TagsTaken(m, kinds) && AppendsNode(m, r)
    ensures TagsTaken(r, kinds) && forall x :: NoBuiltinAt(m, x) ==> NoBuiltinAt(r, x)
  {
  }

  lemma AddNodeClean(m: Merging, kinds: map<string, Kind>, n: Outbound)
    requires NamesClean(m, kinds) && !IsBuiltin(n.kind)
    ensures NamesClean(AddNode(m, n), kinds)
  {
    var r := AddNode(m, n);
    AddNodeAppends(m, n);
    StaysClean(m, r, kinds);
    if |r.outbounds| > |m.outbounds| {
      assert NoBuiltinAt(r, r.taken[|m.taken|]);
    }
  }

  lemma {:induction false} AddNodesClean(m: Merging, kinds: map<string, Kind>, nodes: seq<Outbound>)
    requires NamesClean(m, kinds) && forall i :: 0 <= i < |nodes| ==> !IsBuiltin(nodes[i].kind)
    ensures NamesClean(AddNodes(m, nodes), kinds)
  {
    if nodes != [] {
      AddNodesClean(m, kinds, nodes[..|nodes| - 1]);
      AddNodeClean(AddNodes(m, nodes[..|nodes| - 1]), kinds, nodes[|nodes| - 1]);
    }
  }

  lemma NameGroupClean(m: Merging, kinds: map<string, Kind>, g: Outbound)
    requires NamesClean(m, kinds)
    ensures NamesClean(NameGroup(m, g), kinds)
  {
    assert forall x :: NoBuiltinAt(m, x) ==> NoBuiltinAt(NameGroup(m, g), x);
  }

  lemma {:induction false} NameGroupsClean(m: Merging, kinds: map<string, Kind>, os: seq<Outbound>)
    requires NamesClean(m, kinds)
    ensures NamesClean(NameGroups(m, os), kinds)
  {
    if os != [] {
      NameGroupsClean(m, kinds, os[..|os| - 1]);
      NameGroupClean(NameGroups(m, os[..|os| - 1]), kinds, os[|os| - 1]);
    }
  }

  lemma {:induction false} TagListed(os: seq<Outbound>, o: Outbound)
    requires o in os && o.tag.Some?
    ensures o.tag.value in TagList(os)
  {
    var n := |os| - 1;
    if o != os[n] {
      TagListed(os[..n], o);
    }
  }

  /** In a config with unique tags, the name of a mirage node is the name of no direct or block. */
  lemma {:induction false} HostPortsAreNodes(os: seq<Outbound>, e: Endpoint)
    requires WellTagged(os) && e in HostPorts(os)
    ensures exists o :: o in os && o.tag == Some(HostPorts(os)[e]) && o.kind.Mirage?
  {
    var n := |os| - 1;
    assert os[n] in os;
    if e in HostPorts(os[..n]) && HostPorts(os)[e] == HostPorts(os[..n])[e] {
      HostPortsAreNodes(os[..n], e);
      var o :| o in os[..n] && o.tag == Some(HostPorts(os)[e]) && o.kind.Mirage?;
      assert o in os;
    } else {
      assert os[n].tag == Some(HostPorts(os)[e]) && os[n].kind.Mirage?;
    }
  }

  lemma StartClean(cfg: Config)
    requires WellTagged(cfg.outbounds)
    ensures NamesClean(StartMerge(cfg), KindOf(cfg.outbounds))
  {
    var m, kinds := StartMerge(cfg), KindOf(cfg.outbounds);
    forall o | o in cfg.outbounds && o.tag.Some? ensures o.tag.value in m.taken { TagListed(cfg.outbounds, o); }
    forall t | t in kinds ensures t in m.taken {
      KindOfMeans(cfg.outbounds, t);
    }
    forall e | e in m.hostPort ensures NoBuiltinAt(m, m.hostPort[e]) {
      HostPortsAreNodes(cfg.outbounds, e);
      var node :| node in cfg.outbounds && node.tag == Some(m.hostPort[e]) && node.kind.Mirage?;
      forall o | o in cfg.outbounds && o.tag == Some(m.hostPort[e]) ensures !IsBuiltin(o.kind) {
        SameTagSame(cfg.outbounds, o, node);
      }
    }
  }

  /** A fragment whose nodes are no directs or blocks, merged into a config with unique tags. */
  ghost predicate WellFormed(cfg: Config, frag: Fragment)
  {
    WellTagged(cfg.outbounds) && forall i :: 0 <= i < |frag.nodes| ==> !IsBuiltin(frag.nodes[i].kind)
  }

  lemma NamedClean(cfg: Config, frag: Fragment)
    requires WellFormed(cfg, frag)
    ensures NamesClean(Named(cfg, frag), KindOf(cfg.outbounds))
  {
    StartClean(cfg);
    AddNodesClean(StartMerge(cfg), KindOf(cfg.outbounds), frag.nodes);
    NameGroupsClean(AddNodes(StartMerge(cfg), frag.nodes), KindOf(cfg.outbounds), frag.outbounds);
  }

  // -------------------------------------------------- losing and keeping a kind

  /** The reference is remapped to a name that no outbound of kind `k` has or can get. */
  ghost predicate Lost(m: Merging, t: string, k: Kind)
  {
    && t in m.remap && m.remap[t] in m.taken
    && forall o :: o in m.outbounds && o.tag == Some(m.remap[t]) ==> o.kind != k
  }

  /** The builtin step does not give `t` a new name of kind `k`. */
  predicate Passes(m: Merging, kinds: map<string, Kind>, g: Outbound, t: string, k: Kind)
  {
    IsBuiltinOf(g, t) ==> (t in kinds && kinds[t] == k) || (t !in m.taken && t in m.remap)
  }

  lemma LostStays(m: Merging, kinds: map<string, Kind>, g: Outbound, t: string, k: Kind)
    requires TagsTaken(m, kinds) && Lost(m, t, k) && t != "" && Passes(m, kinds, g, t, k)
    ensures TagsTaken(AddBuiltin(m, kinds, g), kinds) && Lost(AddBuiltin(m, kinds, g), t, k)
  {
    var r := AddBuiltin(m, kinds, g);
    assert forall o :: o in r.outbounds ==> o in m.outbounds || (o == r.outbounds[|m.outbounds|] && o.kind == g.kind);
  }

  lemma StillTaken(m: Merging, kinds: map<string, Kind>, g: Outbound)
    requires TagsTaken(m, kinds)
    ensures TagsTaken(AddBuiltin(m, kinds, g), kinds)
    ensures forall x :: x in m.taken ==> x in AddBuiltin(m, kinds, g).taken
    ensures Builtin(g) && g.Tag() != "" ==> g.Tag() in AddBuiltin(m, kinds, g).taken
    ensures m.outbounds <= AddBuiltin(m, kinds, g).outbounds
  {
  }

  lemma {:induction false} AllStillTaken(m: Merging, kinds: map<string, Kind>, os: seq<Outbound>)
    requires TagsTaken(m, kinds)
    ensures TagsTaken(AddBuiltins(m, kinds, os), kinds) && m.outbounds <= AddBuiltins(m, kinds, os).outbounds
    ensures forall x :: x in m.taken ==> x in AddBuiltins(m, kinds, os).taken
  {
    if os != [] {
      AllStillTaken(m, kinds, os[..|os| - 1]);
      StillTaken(AddBuiltins(m, kinds, os[..|os| - 1]), kinds, os[|os| - 1]);
    }
  }

  // ---------------------------------------- the config has that direct or block

  /** Whether every builtin of the tag has the kind that the config has under it. */
  predicate OneKind(os: seq<Outbound>, t: string, k: Kind)
  {
    forall j :: 0 <= j < |os| && IsBuiltinOf(os[j], t) ==> os[j].kind == k
  }

  lemma OneKindSnoc(os: seq<Outbound>, t: string, k: Kind)
    requires os != []
    ensures var n := |os| - 1;
            OneKind(os, t, k) <==> OneKind(os[..n], t, k) && (IsBuiltinOf(os[n], t) ==> os[n].kind == k)
  {
  }

  ghost predicate LostOrOwn(m: Merging, t: string, k: Kind, lost: bool)
  {
    if lost then Lost(m, t, k) else t in m.remap ==> m.remap[t] == t
  }

  lemma KnownStep(m: Merging, kinds: map<string, Kind>, g: Outbound, t: string, k: Kind, lost: bool)
    requires TagsTaken(m, kinds) && t != "" && t in kinds && kinds[t] == k && LostOrOwn(m, t, k, lost)
    ensures LostOrOwn(AddBuiltin(m, kinds, g), t, k, lost || (IsBuiltinOf(g, t) && g.kind != k))
  {
    if lost {
      LostStays(m, kinds, g, t, k);
    } else if IsBuiltinOf(g, t) && g.kind != k {
      RenamedAway(m, kinds, g, k);
    }
  }

  lemma {:induction false} KnownKindIff(m: Merging, kinds: map<string, Kind>, os: seq<Outbound>, t: string, k: Kind)
    requires TagsTaken(m, kinds) && t != "" && t in kinds && kinds[t] == k
    requires t in m.remap ==> Lost(m, t, k)
    ensures LostOrOwn(AddBuiltins(m, kinds, os), t, k, t in m.remap || !OneKind(os, t, k))
  {
    if os != [] {
      var n := |os| - 1;
      KnownKindIff(m, kinds, os[..n], t, k);
      AllStillTaken(m, kinds, os[..n]);
      KnownStep(AddBuiltins(m, kinds, os[..n]), kinds, os[n], t, k, t in m.remap || !OneKind(os[..n], t, k));
      OneKindSnoc(os, t, k);
    }
  }

  /** A builtin of another kind takes the references of the tag with it. */
  lemma RenamedAway(m: Merging, kinds: map<string, Kind>, g: Outbound, k: Kind)
    requires TagsTaken(m, kinds) && Builtin(g) && g.Tag() != "" && g.Tag() in m.taken && g.kind != k
    requires g.Tag() in kinds ==> kinds[g.Tag()] != g.kind
    ensures Lost(AddBuiltin(m, kinds, g), g.Tag(), k)
  {
    var r := AddBuiltin(m, kinds, g);
    assert forall o :: o in r.outbounds ==> o in m.outbounds || o == r.outbounds[|m.outbounds|];
  }

  // ----------------------------------- the config does not have it under the tag

  /** The builtin at `i` is the last one of its tag. */
  predicate LastBuiltin(os: seq<Outbound>, i: nat)
  {
    && i < |os| && Builtin(os[i]) && os[i].Tag() != ""
    && forall j :: i < j < |os| ==> !IsBuiltinOf(os[j], os[i].Tag())
  }

  /** Steps for other tags leave the reference alone. */
  lemma {:induction false} OthersPass(m: Merging, kinds: map<string, Kind>, os: seq<Outbound>, t: string)
    requires forall j :: 0 <= j < |os| ==> !IsBuiltinOf(os[j], t)
    ensures t in m.remap <==> t in AddBuiltins(m, kinds, os).remap
    ensures t in m.remap ==> AddBuiltins(m, kinds, os).remap[t] == m.remap[t]
  {
    if os != [] {
      OthersPass(m, kinds, os[..|os| - 1], t);
    }
  }

  lemma {:induction false} LostThroughOthers(m: Merging, kinds: map<string, Kind>, os: seq<Outbound>, t: string,
                                             k: Kind)
    requires TagsTaken(m, kinds) && Lost(m, t, k) && t != "" && forall j :: 0 <= j < |os| ==> !IsBuiltinOf(os[j], t)
    ensures Lost(AddBuiltins(m, kinds, os), t, k)
  {
    if os != [] {
      LostThroughOthers(m, kinds, os[..|os| - 1], t, k);
      AllStillTaken(m, kinds, os[..|os| - 1]);
      LostStays(AddBuiltins(m, kinds, os[..|os| - 1]), kinds, os[|os| - 1], t, k);
    }
  }

  lemma {:induction false} EarlierTake(m: Merging, kinds: map<string, Kind>, os: seq<Outbound>, t: string)
    requires TagsTaken(m, kinds) && t != "" && t !in AddBuiltins(m, kinds, os).taken
    ensures t !in m.taken && forall j :: 0 <= j < |os| ==> !IsBuiltinOf(os[j], t)
  {
    if os != [] {
      var n := |os| - 1;
      AllStillTaken(m, kinds, os[..n]);
      StillTaken(AddBuiltins(m, kinds, os[..n]), kinds, os[n]);
      EarlierTake(m, kinds, os[..n], t);
    }
  }

  lemma {:induction false} SplitAt(m: Merging, kinds: map<string, Kind>, a: seq<Outbound>, b: seq<Outbound>)
    ensures AddBuiltins(m, kinds, a + b) == AddBuiltins(AddBuiltins(m, kinds, a), kinds, b)
  {
    if b == [] {
      assert a + b == a;
    } else {
      var n := |b| - 1;
      SplitAt(m, kinds, a, b[..n]);
      assert (a + b)[..|a| + n] == a + b[..n];
    }
  }

  /** The step of a builtin that the config does not have under its tag. */
  lemma OwnStep(m: Merging, kinds: map<string, Kind>, g: Outbound)
    requires TagsTaken(m, kinds) && Builtin(g) && g.Tag() != "" && !(g.Tag() in kinds && kinds[g.Tag()] == g.kind)
    requires g.Tag() !in m.taken && g.Tag() in m.remap ==> Lost(m, g.Tag(), g.kind)
    ensures var r := AddBuiltin(m, kinds, g);
            if g.Tag() in m.taken || g.Tag() !in m.remap
            then g.Tag() in r.remap && EndsAt(r.outbounds, r.remap, g.Tag(), g.kind)
            else Lost(r, g.Tag(), g.kind)
  {
    var r := AddBuiltin(m, kinds, g);
    if g.Tag() in m.taken || g.Tag() !in m.remap {
      assert r.outbounds[|m.outbounds|] in r.outbounds;
    } else {
      LostStays(m, kinds, g, g.Tag(), g.kind);
    }
  }

  // ------------------------------------------------------- the whole merge

  /** A node or group of the fragment claims references to `t`. */
  ghost predicate Claimed(frag: Fragment, t: string)
  {
    || (exists n :: n in frag.nodes && n.HasPort() && n.Tag() == t)
    || (exists g :: g in frag.outbounds && TaggedGroup(g) && g.Tag() == t)
  }

  lemma {:induction false} NodesClaim(m: Merging, nodes: seq<Outbound>, t: string)
    requires t != ""
    ensures t in AddNodes(m, nodes).remap <==> t in m.remap || exists n :: n in nodes && n.HasPort() && n.Tag() == t
  {
    if nodes != [] {
      var n := |nodes| - 1;
      NodesClaim(m, nodes[..n], t);
      assert forall x :: x in nodes <==> x in nodes[..n] || x == nodes[n];
    }
  }

  lemma {:induction false} GroupsClaim(m: Merging, os: seq<Outbound>, t: string)
    requires t != ""
    ensures t in NameGroups(m, os).remap <==> t in m.remap || exists g :: g in os && TaggedGroup(g) && g.Tag() == t
  {
    if os != [] {
      var n := |os| - 1;
      GroupsClaim(m, os[..n], t);
      assert forall x :: x in os <==> x in os[..n] || x == os[n];
    }
  }

  lemma ClaimedIff(cfg: Config, frag: Fragment, t: string)
    requires t != ""
    ensures t in Named(cfg, frag).remap <==> Claimed(frag, t)
  {
    NodesClaim(StartMerge(cfg), frag.nodes, t);
    GroupsClaim(AddNodes(StartMerge(cfg), frag.nodes), frag.outbounds, t);
  }

  lemma {:induction false} OnlyGroups(m: Merging, os: seq<Outbound>)
    requires forall p :: p in m.groups ==> IsGroup(p.0.kind)
    ensures forall p :: p in NameGroups(m, os).groups ==> IsGroup(p.0.kind)
  {
    if os != [] {
      OnlyGroups(m, os[..|os| - 1]);
    }
  }

  /** The groups that land are no directs or blocks. */
  lemma LandedAreGroups(cfg: Config, frag: Fragment, routing: bool, t: string, k: Kind)
    requires IsBuiltin(k)
    ensures var m := Gathered(cfg, frag);
            EndsAt(Merge(cfg, frag, routing).config.outbounds, m.remap, t, k) <==> EndsAt(m.outbounds, m.remap, t, k)
  {
    var m, r := Gathered(cfg, frag), Merge(cfg, frag, routing);
    NamesAreGathered(cfg, frag);
    OnlyGroups(AddNodes(StartMerge(cfg), frag.nodes), frag.outbounds);
    forall o | o in r.groups ensures IsGroup(o.kind) {
      LandGroupsIff(m.groups, m.remap, r.present, o);
    }
    assert forall o :: o in r.config.outbounds <==> o in m.outbounds || o in r.groups;
  }

  /** The condition. If the config already has that kind under the tag, no node, group or builtin of
      the other kind may share the tag. If not, either the tag is taken when its turn comes, so that
      it is renamed, or no node or group shares the tag. */
  ghost predicate KeepsMeaning(cfg: Config, frag: Fragment, i: nat)
    requires i < |frag.outbounds|
  {
    var kinds, g := KindOf(cfg.outbounds), frag.outbounds[i];
    if g.Tag() in kinds && kinds[g.Tag()] == g.kind
    then !Claimed(frag, g.Tag()) && OneKind(frag.outbounds, g.Tag(), g.kind)
    else g.Tag() in Reached(cfg, frag, i).taken || !Claimed(frag, g.Tag())
  }

  lemma KnownBuiltin(cfg: Config, frag: Fragment, i: nat)
    requires WellFormed(cfg, frag) && LastBuiltin(frag.outbounds, i)
    requires var g := frag.outbounds[i]; g.Tag() in KindOf(cfg.outbounds) && KindOf(cfg.outbounds)[g.Tag()] == g.kind
    ensures var m, g := Gathered(cfg, frag), frag.outbounds[i];
            EndsAt(m.outbounds, m.remap, g.Tag(), g.kind) <==> KeepsMeaning(cfg, frag, i)
  {
    var kinds, t, k := KindOf(cfg.outbounds), frag.outbounds[i].Tag(), frag.outbounds[i].kind;
    var named, m := Named(cfg, frag), Gathered(cfg, frag);
    NamedClean(cfg, frag);
    ClaimedIff(cfg, frag, t);
    KnownKindIff(named, kinds, frag.outbounds, t, k);
    AllStillTaken(named, kinds, frag.outbounds);
    if KeepsMeaning(cfg, frag, i) {
      KindOfMeans(cfg.outbounds, t);
      var o :| o in cfg.outbounds && o.tag == Some(t) && o.kind == k;
      GatheredSound(cfg, frag);
      assert o in m.outbounds && Resolve(m.remap, t) == t;
    }
  }

  lemma UnknownBuiltin(cfg: Config, frag: Fragment, i: nat)
    requires WellFormed(cfg, frag) && LastBuiltin(frag.outbounds, i)
    requires var g := frag.outbounds[i]; !(g.Tag() in KindOf(cfg.outbounds) && KindOf(cfg.outbounds)[g.Tag()] == g.kind)
    ensures var m, g := Gathered(cfg, frag), frag.outbounds[i];
            EndsAt(m.outbounds, m.remap, g.Tag(), g.kind) <==> KeepsMeaning(cfg, frag, i)
  {
    var kinds, os, g := KindOf(cfg.outbounds), frag.outbounds, frag.outbounds[i];
    var named, mi, m := Named(cfg, frag), Reached(cfg, frag, i), Gathered(cfg, frag);
    var after := os[i + 1..];
    NamedClean(cfg, frag);
    ClaimedIff(cfg, frag, g.Tag());
    AllStillTaken(named, kinds, os[..i]);
    if g.Tag() !in mi.taken {
      EarlierTake(named, kinds, os[..i], g.Tag());
      OthersPass(named, kinds, os[..i], g.Tag());
      if g.Tag() in named.remap {
        LostThroughOthers(named, kinds, os[..i], g.Tag(), g.kind);
      }
    }
    OwnStep(mi, kinds, g);
    Onwards(cfg, frag, i);
    var r := AddBuiltin(mi, kinds, g);
    StillTaken(mi, kinds, g);
    OthersPass(r, kinds, after, g.Tag());
    AllStillTaken(r, kinds, after);
    if KeepsMeaning(cfg, frag, i) {
      var o :| o in r.outbounds && o.tag == Some(Resolve(r.remap, g.Tag())) && o.kind == g.kind;
      assert o in m.outbounds;
    } else {
      LostThroughOthers(r, kinds, after, g.Tag(), g.kind);
    }
  }

  lemma Onwards(cfg: Config, frag: Fragment, i: nat)
    requires i < |frag.outbounds|
    ensures var kinds := KindOf(cfg.outbounds);
            var own := AddBuiltin(Reached(cfg, frag, i), kinds, frag.outbounds[i]);
            Gathered(cfg, frag) == AddBuiltins(own, kinds, frag.outbounds[i + 1..])
  {
    var os := frag.outbounds;
    assert os == os[..i + 1] + os[i + 1..];
    SplitAt(Named(cfg, frag), KindOf(cfg.outbounds), os[..i + 1], os[i + 1..]);
    assert os[..i + 1][..i] == os[..i];
  }

  /** Exactly when a reference to a direct or block keeps its meaning through the whole merge: for the
      last one of its tag, it ends at an outbound of the same kind in the merged config if and only if
      `KeepsMeaning` holds. */
  lemma BuiltinReferenceIff(cfg: Config, frag: Fragment, i: nat, routing: bool)
    requires WellFormed(cfg, frag) && LastBuiltin(frag.outbounds, i)
    ensures var g := frag.outbounds[i];
            EndsAt(Merge(cfg, frag, routing).config.outbounds, Gathered(cfg, frag).remap, g.Tag(), g.kind) <==>
              KeepsMeaning(cfg, frag, i)
  {
    var g := frag.outbounds[i];
    LandedAreGroups(cfg, frag, routing, g.Tag(), g.kind);
    if g.Tag() in KindOf(cfg.outbounds) && KindOf(cfg.outbounds)[g.Tag()] == g.kind {
      KnownBuiltin(cfg, frag, i);
    } else {
      UnknownBuiltin(cfg, frag, i);
    }
  }

  /** In particular whenever nothing else in the fragment claims the tag: the last builtin of a tag
      that no node, group or builtin of the other kind shares. */
  lemma UnsharedBuiltinKept(cfg: Config, frag: Fragment, i: nat, routing: bool)
    requires WellFormed(cfg, frag) && LastBuiltin(frag.outbounds, i)
    requires !Claimed(frag, frag.outbounds[i].Tag())
    requires OneKind(frag.outbounds, frag.outbounds[i].Tag(), frag.outbounds[i].kind)
    ensures var g := frag.outbounds[i];
            EndsAt(Merge(cfg, frag, routing).config.outbounds, Gathered(cfg, frag).remap, g.Tag(), g.kind)
  {
    BuiltinReferenceIff(cfg, frag, i, routing);
  }

  // ------------------------------------------------------------ where it fails

  const NODE: Outbound := Outbound(Some("d"), Mirage, Some("h"), Some(1), [], None, "")

  /** A config with a direct "d", and a fragment with a node "d" and the same direct "d": after the
      merge a reference to the direct ends at the node, renamed to "d-2". */
  lemma DirectBecomesNode(routing: bool)
    ensures var cfg, frag := Config([DIRECT], [], None), Fragment([NODE], [DIRECT], [], None);
            && WellFormed(cfg, frag) && LastBuiltin(frag.outbounds, 0)
            && HasAt(Gathered(cfg, frag).outbounds, Resolve(Gathered(cfg, frag).remap, "d"), ("h", 1))
            && !EndsAt(Merge(cfg, frag, routing).config.outbounds, Gathered(cfg, frag).remap, "d", Direct)
  {
    var cfg, frag := Config([DIRECT], [], None), Fragment([NODE], [DIRECT], [], None);
    assert WellTagged(cfg.outbounds);
    assert KindOf([DIRECT][..0]) == map[] && KindOf([DIRECT]) == map["d" := Direct];
    assert NODE in frag.nodes && NODE.HasPort() && NODE.Tag() == "d";
    assert Claimed(frag, "d");
    BuiltinReferenceIff(cfg, frag, 0, routing);
    HostPortsFiled(cfg.outbounds);
    var m := AddNodes(StartMerge(cfg), frag.nodes);
    NodeReferenceMeans(StartMerge(cfg), frag.nodes, 0);
    StaysThere(cfg, frag);
  }

  /** In that example the later stages leave the node's reference alone. */
  lemma StaysThere(cfg: Config, frag: Fragment)
    requires cfg == Config([DIRECT], [], None) && frag == Fragment([NODE], [DIRECT], [], None)
    requires RefersAt(AddNodes(StartMerge(cfg), frag.nodes), "d", ("h", 1))
    ensures RefersAt(Gathered(cfg, frag), "d", ("h", 1))
  {
    var m := AddNodes(StartMerge(cfg), frag.nodes);
    assert [DIRECT][..0] == [];
    assert NameGroups(m, []) == m && NameGroups(m, [DIRECT]) == NameGroup(m, DIRECT) == m;
    assert KindOf([DIRECT][..0]) == map[] && KindOf([DIRECT]) == map["d" := Direct];
    assert AddBuiltins(m, KindOf([DIRECT]), []) == m;
    assert AddBuiltins(m, KindOf([DIRECT]), [DIRECT]) == AddBuiltin(m, KindOf([DIRECT]), DIRECT) == m;
  }
}
