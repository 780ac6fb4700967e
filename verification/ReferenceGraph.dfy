/** The reference graph of a config and the cycle check over it. */
module ReferenceGraph {
  import opened Wrappers
  import opened Cycles

  datatype OutboundConfig =
    | Mirage(tag: string, underlying: Option<string>)
    | Shadowsocks(tag: string, underlying: Option<string>)
    | Wireguard(tag: string)
    | Direct(tag: string)
    | Block(tag: string)
    | Group(tag: string, outbounds: seq<string>, filter: Option<string>)

  predicate IsProxyLeaf(o: OutboundConfig) { o.Mirage? || o.Wireguard? || o.Shadowsocks? }

  /** A regex engine: which patterns compile, and what they match. */
  datatype Regex = Regex(compiles: string -> bool, matches: (string, string) -> bool)

  /** What a group's filter adds: the tags of the other proxy leaves it matches. */
  ghost predicate FilterAdds(g: OutboundConfig, all: seq<OutboundConfig>, regex: Regex, t: string)
    requires g.Group? && g.filter.Some?
  {
    exists o :: o in all && IsProxyLeaf(o) && o.tag == t && t != g.tag && regex.matches(g.filter.value, t)
  }

  /** `group_members`: the explicit members in order, then the filter's matches, each once and
      never the group itself; an error if the pattern does not compile. */
  method GroupMembers(g: OutboundConfig, all: seq<OutboundConfig>, regex: Regex) returns (r: Result<seq<string>, ()>)
    ensures !g.Group? ==> r == Ok([])
    ensures g.Group? ==> (r.Err? <==> g.filter.Some? && !regex.compiles(g.filter.value))
    ensures g.Group? && r.Ok? ==> g.outbounds <= r.value
    ensures g.Group? && r.Ok? ==>
              forall t :: t in r.value <==> t in g.outbounds || (g.filter.Some? && FilterAdds(g, all, regex, t))
    ensures g.Group? && r.Ok? ==>
              forall i, j :: |g.outbounds| <= j < |r.value| && 0 <= i < j ==> r.value[i] != r.value[j]
  {
    if !g.Group? {
      return Ok([]);
    }
    var result := g.outbounds;
    if g.filter.Some? {
      if !regex.compiles(g.filter.value) {
        return Err(());
      }
      for k := 0 to |all|
        invariant g.outbounds <= result
        invariant forall t :: t in result <==> t in g.outbounds || FilterAdds(g, all[..k], regex, t)
        invariant forall i, j :: |g.outbounds| <= j < |result| && 0 <= i < j ==> result[i] != result[j]
      {
        var cand := all[k];
        assert forall o :: o in all[..k + 1] <==> o in all[..k] || o == cand;
        if cand.tag == g.tag {
          continue;
        }
        if IsProxyLeaf(cand) && regex.matches(g.filter.value, cand.tag) && cand.tag !in result {
          assert FilterAdds(g, all[..k + 1], regex, cand.tag);
          result := result + [cand.tag];
        }
      }
      assert all[..|all|] == all;
    }
    r := Ok(result);
  }

  /** The reference relation without self-edges: leaves refer to their underlying outbound, groups
      whose pattern compiles to their members, and only references to existing tags count. */
  ghost predicate RefersBy(o: OutboundConfig, all: seq<OutboundConfig>, regex: Regex, b: string)
  {
    && b != o.tag && (exists x :: x in all && x.tag == b)
    && match o
       case Mirage(_, u) => u == Some(b)
       case Shadowsocks(_, u) => u == Some(b)
       case Group(_, members, filter) =>
         && (filter.Some? ==> regex.compiles(filter.value))
         && (b in members || (filter.Some? && FilterAdds(o, all, regex, b)))
       case _ => false
  }

  ghost predicate Refers(all: seq<OutboundConfig>, regex: Regex, a: string, b: string)
  {
    exists o :: o in all && o.tag == a && RefersBy(o, all, regex, b)
  }

  /** What one outbound refers to, before self-edges and unknown tags are dropped. */
  method References(o: OutboundConfig, all: seq<OutboundConfig>, regex: Regex) returns (refs: seq<string>)
    ensures forall b :: RefersBy(o, all, regex, b) <==> b in refs && b != o.tag && exists x :: x in all && x.tag == b
  {
    match o
    case Mirage(_, u) => refs := if u.Some? then [u.value] else [];
    case Shadowsocks(_, u) => refs := if u.Some? then [u.value] else [];
    case Group(_, _, _) =>
      var r := GroupMembers(o, all, regex);
      refs := if r.Ok? then r.value else [];
    case _ => refs := [];
  }

  predicate TagExists(all: seq<OutboundConfig>, t: string) { exists i :: 0 <= i < |all| && all[i].tag == t }

  lemma TagExistsIff(all: seq<OutboundConfig>, t: string)
    ensures TagExists(all, t) <==> exists x :: x in all && x.tag == t
  {
    if x :| x in all && x.tag == t {
      var i :| 0 <= i < |all| && all[i] == x;
    }
  }

  /** Adds one outbound's edges, leaving out self-edges, unknown tags and repetitions. */
  method AddEdges(adj: Graph, tag: string, refs: seq<string>, all: seq<OutboundConfig>) returns (adj': Graph)
    ensures forall a, b :: HasEdge(adj', a, b) <==>
              HasEdge(adj, a, b) || (a == tag && b != tag && b in refs && TagExists(all, b))
    ensures adj'.Keys <= adj.Keys + {tag}
  {
    adj' := adj;
    for k := 0 to |refs|
      invariant forall a, b :: HasEdge(adj', a, b) <==>
                  HasEdge(adj, a, b) || (a == tag && b != tag && b in refs[..k] && TagExists(all, b))
      invariant adj'.Keys <= adj.Keys + {tag}
    {
      assert refs[..k + 1] == refs[..k] + [refs[k]];
      if refs[k] != tag && TagExists(all, refs[k]) {
        var edges := if tag in adj' then adj'[tag] else [];
        if refs[k] !in edges {
          edges := edges + [refs[k]];
        }
        adj' := adj'[tag := edges];
      }
    }
    assert refs[..|refs|] == refs;
  }

  /** The adjacency lists are exactly the reference relation. */
  method BuildAdjacency(all: seq<OutboundConfig>, regex: Regex) returns (adj: Graph)
    ensures forall a, b :: HasEdge(adj, a, b) <==> Refers(all, regex, a, b)
    ensures forall a :: a in adj ==> TagExists(all, a)
  {
    adj := map[];
    for k := 0 to |all|
      invariant forall a, b :: HasEdge(adj, a, b) <==>
                  exists i :: 0 <= i < k && all[i].tag == a && RefersBy(all[i], all, regex, b)
      invariant forall a :: a in adj ==> TagExists(all, a)
    {
      var refs := References(all[k], all, regex);
      ghost var before := adj;
      adj := AddEdges(adj, all[k].tag, refs, all);
      forall a, b
        ensures HasEdge(adj, a, b) <==> exists i :: 0 <= i < k + 1 && all[i].tag == a && RefersBy(all[i], all, regex, b)
      {
        TagExistsIff(all, b);
        if HasEdge(adj, a, b) && !HasEdge(before, a, b) {
          assert all[k].tag == a && RefersBy(all[k], all, regex, b);
        }
      }
    }
    forall a, b
      ensures HasEdge(adj, a, b) <==> Refers(all, regex, a, b)
    {
      if Refers(all, regex, a, b) {
        var o :| o in all && o.tag == a && RefersBy(o, all, regex, b);
        var i :| 0 <= i < |all| && all[i] == o;
      }
    }
  }

  // ------------------------------------------------------------ completeness

  ghost function Position(order: seq<string>, x: string): (i: nat)
    requires x in order
    ensures i < |order| && order[i] == x
  {
    var i :| 0 <= i < |order| && order[i] == x;
    i
  }

  /** None of the cycle's edges lies on a reported cycle. */
  ghost predicate Unreported(c: seq<string>, issues: seq<seq<string>>)
  {
    forall k :: 0 <= k < |c| ==> !OnReported(issues, c[k], After(c, k))
  }

  /** An edge that lies on no reported cycle goes strictly down in the finish order. */
  lemma EdgeDescends(adj: Graph, order: seq<string>, issues: seq<seq<string>>, a: string, b: string)
    requires TopologicalBut(adj, order, issues) && Distinct(order) && a in order && HasEdge(adj, a, b)
    requires !OnReported(issues, a, b)
    ensures b in order && Position(order, b) < Position(order, a)
  {
    var i := Position(order, a);
    assert b in order[..i];
    var j :| 0 <= j < i && order[..i][j] == b;
    assert order[j] == b;
  }

  lemma {:induction false} WalkDescends(adj: Graph, order: seq<string>, issues: seq<seq<string>>, c: seq<string>,
                                        k: nat)
    requires TopologicalBut(adj, order, issues) && Distinct(order) && IsWalk(adj, c) && k < |c| && c[0] in order
    requires Unreported(c, issues)
    ensures c[k] in order && Position(order, c[k]) <= Position(order, c[0])
    decreases k
  {
    if k > 0 {
      WalkDescends(adj, order, issues, c, k - 1);
      assert After(c, k - 1) == c[k];
      EdgeDescends(adj, order, issues, c[k - 1], c[k]);
    }
  }

  /** Every cycle of the graph has an edge on a reported cycle. */
  lemma CycleIsMet(adj: Graph, order: seq<string>, issues: seq<seq<string>>, c: seq<string>)
    requires TopologicalBut(adj, order, issues) && Distinct(order) && (forall a :: a in adj ==> a in order)
    requires IsCycle(adj, c)
    ensures !Unreported(c, issues)
  {
    if |c| > 1 {
      assert HasEdge(adj, c[0], c[1]);
    }
    if Unreported(c, issues) {
      WalkDescends(adj, order, issues, c, |c| - 1);
      assert After(c, |c| - 1) == c[0];
      EdgeDescends(adj, order, issues, c[|c| - 1], c[0]);
    }
  }

  /** What a search that visited every node says. */
  lemma SearchMeans(adj: Graph, universe: set<string>, s: Search)
    requires s in Sound(adj, universe) && forall a :: a in adj ==> IsBlack(s.colors, a)
    ensures s.issues == [] <==> !exists c :: IsCycle(adj, c)
    ensures forall i :: 0 <= i < |s.issues| ==> IsSimpleCycle(adj, s.issues[i])
    ensures forall i, j :: 0 <= i < j < |s.issues| ==> !IsRotation(s.issues[i], s.issues[j])
    ensures forall c :: IsCycle(adj, c) ==> !Unreported(c, s.issues)
    ensures TopologicalBut(adj, s.finished, s.issues) && (s.issues == [] ==> Topological(adj, s.finished))
    ensures Distinct(s.finished) && forall x :: x in s.finished <==> IsBlack(s.colors, x)
  {
    assert SearchInv(adj, universe, s);
    ReportsAreCycles(adj, s.reported, s.issues);
    forall c | IsCycle(adj, c) ensures !Unreported(c, s.issues) {
      CycleIsMet(adj, s.finished, s.issues, c);
    }
    if s.issues != [] {
      assert IsCycle(adj, s.issues[0]);
    }
    forall i, j | 0 <= i < j < |s.issues| ensures !IsRotation(s.issues[i], s.issues[j]) {
      if IsRotation(s.issues[i], s.issues[j]) {
        var k :| 0 <= k < |s.issues[i]| && s.issues[j] == Rotate(s.issues[i], k);
        RotationSameCanonical(s.issues[i], k);
      }
    }
  }

  /** A cycle of references in a config, given by its tags. */
  ghost predicate RefCycle(all: seq<OutboundConfig>, regex: Regex, c: seq<string>)
  {
    && c != [] && Refers(all, regex, c[|c| - 1], c[0])
    && forall i, j :: 0 <= i && j == i + 1 < |c| ==> Refers(all, regex, c[i], c[j])
  }

  lemma SameCycles(adj: Graph, all: seq<OutboundConfig>, regex: Regex, c: seq<string>)
    requires forall a, b :: HasEdge(adj, a, b) <==> Refers(all, regex, a, b)
    ensures IsCycle(adj, c) <==> RefCycle(all, regex, c)
  {
  }

  ghost function AllTags(all: seq<OutboundConfig>): set<string> { set i | 0 <= i < |all| :: all[i].tag }

  lemma EdgesStayInside(all: seq<OutboundConfig>, regex: Regex, adj: Graph)
    requires forall a, b :: HasEdge(adj, a, b) <==> Refers(all, regex, a, b)
    ensures ClosedIn(adj, AllTags(all)) && forall i :: 0 <= i < |all| ==> all[i].tag in AllTags(all)
  {
    forall a, b | HasEdge(adj, a, b) ensures b in AllTags(all) {
      var o :| o in all && o.tag == a && RefersBy(o, all, regex, b);
      TagExistsIff(all, b);
      var i :| 0 <= i < |all| && all[i].tag == b;
    }
  }

  lemma EverythingVisited(all: seq<OutboundConfig>, adj: Graph, colors: map<string, Color>)
    requires forall i :: 0 <= i < |all| ==> IsBlack(colors, all[i].tag)
    requires forall a :: a in adj ==> TagExists(all, a)
    ensures forall a :: a in adj ==> IsBlack(colors, a)
  {
    forall a | a in adj ensures IsBlack(colors, a) {
      var i :| 0 <= i < |all| && all[i].tag == a;
    }
  }

  /** The same in terms of the config. */
  lemma SearchMeansRefs(adj: Graph, universe: set<string>, s: Search, all: seq<OutboundConfig>, regex: Regex)
    requires s in Sound(adj, universe) && forall a :: a in adj ==> IsBlack(s.colors, a)
    requires forall a, b :: HasEdge(adj, a, b) <==> Refers(all, regex, a, b)
    requires forall i :: 0 <= i < |all| ==> IsBlack(s.colors, all[i].tag)
    ensures s.issues != [] <==> exists c :: RefCycle(all, regex, c)
    ensures forall i :: 0 <= i < |s.issues| ==> RefCycle(all, regex, s.issues[i]) && Distinct(s.issues[i])
    ensures forall i, j :: 0 <= i < j < |s.issues| ==> !IsRotation(s.issues[i], s.issues[j])
    ensures forall c :: RefCycle(all, regex, c) ==> !Unreported(c, s.issues)
    ensures InReferenceOrder(all, regex, s.finished, s.issues)
  {
    SearchMeans(adj, universe, s);
    forall c ensures IsCycle(adj, c) <==> RefCycle(all, regex, c) {
      SameCycles(adj, all, regex, c);
    }
  }

  /** Every tag is listed once, after everything it refers to but along reported cycles. */
  ghost predicate InReferenceOrder(all: seq<OutboundConfig>, regex: Regex, order: seq<string>, issues: seq<seq<string>>)
  {
    && (forall i :: 0 <= i < |all| ==> all[i].tag in order) && Distinct(order)
    && (forall i, b :: 0 <= i < |order| && Refers(all, regex, order[i], b) ==>
          b in order[..i] || OnReported(issues, order[i], b))
  }

  /** The cycle check of `semantic_issues`: sound and complete for the reference graph. A cycle is
      reported if and only if one exists; every report is a simple cycle; no two reports are
      rotations of each other; every cycle shares an edge with a reported one, so leaving out the
      references on reported cycles leaves none; and the finish order lists every tag after
      everything else it refers to. */
  method DetectCycles(all: seq<OutboundConfig>, regex: Regex)
    returns (issues: seq<seq<string>>, ghost order: seq<string>)
    ensures issues != [] <==> exists c :: RefCycle(all, regex, c)
    ensures forall i :: 0 <= i < |issues| ==> RefCycle(all, regex, issues[i]) && Distinct(issues[i])
    ensures forall i, j :: 0 <= i < j < |issues| ==> !IsRotation(issues[i], issues[j])
    ensures forall c :: RefCycle(all, regex, c) ==> !Unreported(c, issues)
    ensures InReferenceOrder(all, regex, order, issues)
  {
    var graph := BuildAdjacency(all, regex);
    EdgesStayInside(all, regex, graph);
    ghost var s;
    issues, s := SearchFromAll(graph, all);
    EverythingVisited(all, graph, s.colors);
    SearchMeansRefs(graph, AllTags(all), s, all, regex);
    order := s.finished;
  }

  /** Starts a search from every outbound that has no colour yet. */
  method SearchFromAll(graph: Graph, all: seq<OutboundConfig>) returns (issues: seq<seq<string>>, ghost s: Search)
    requires ClosedIn(graph, AllTags(all)) && forall i :: 0 <= i < |all| ==> all[i].tag in AllTags(all)
    ensures s in Sound(graph, AllTags(all)) && s.issues == issues
    ensures forall i :: 0 <= i < |all| ==> IsBlack(s.colors, all[i].tag)
  {
    ghost var universe := AllTags(all);
    var finder := new CycleFinder(graph, universe);
    for k := 0 to |all|
      invariant finder.adj == graph && finder.State() in Sound(graph, universe) && finder.path == []
      invariant fresh(finder)
      invariant forall i :: 0 <= i < k ==> IsBlack(finder.colors, all[i].tag)
    {
      var tag := all[k].tag;
      if tag !in finder.colors {
        finder.Dfs(universe, universe, tag);
      } else {
        ColorMeans(graph, universe, finder.State(), tag);
      }
    }
    issues, s := finder.issues, finder.State();
  }
}
