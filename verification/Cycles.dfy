/** Reference-cycle detection: a three-colour depth-first search that reports each cycle once,
    whatever rotation it is found in. */
module Cycles {
  import opened Ordering

  type Graph = map<string, seq<string>>

  predicate HasEdge(adj: Graph, a: string, b: string) { a in adj && b in adj[a] }

  predicate Distinct(s: seq<string>) { forall i, j :: 0 <= i < j < |s| ==> s[i] != s[j] }

  predicate IsWalk(adj: Graph, p: seq<string>)
  {
    forall i, j :: 0 <= i && j == i + 1 < |p| ==> HasEdge(adj, p[i], p[j])
  }

  /** A directed cycle given by its nodes; the last one refers back to the first. */
  predicate IsCycle(adj: Graph, c: seq<string>)
  {
    c != [] && IsWalk(adj, c) && HasEdge(adj, c[|c| - 1], c[0])
  }

  predicate IsSimpleCycle(adj: Graph, c: seq<string>) { IsCycle(adj, c) && Distinct(c) }

  // ------------------------------------------------------ canonical rotation

  function Rotate(c: seq<string>, k: nat): seq<string>
    requires k <= |c|
  {
    c[k..] + c[..k]
  }

  ghost predicate IsRotation(a: seq<string>, b: seq<string>)
  {
    exists k :: 0 <= k < |a| && b == Rotate(a, k)
  }

  /** Index of the first least node (`min_by_key`). */
  function MinIndex(c: seq<string>): (m: nat)
    requires c != []
    ensures m < |c| && forall i :: 0 <= i < |c| ==> AtMost(c[m], c[i])
  {
    if |c| == 1 then
      LessTotal(c[0], c[0]);
      0
    else
      var n := |c| - 1;
      var m := MinIndex(c[..n]);
      if Less(c[n], c[m]) then
        assert forall i :: 0 <= i < n ==> AtMost(c[m], c[i]) by {
          assert forall i :: 0 <= i < n ==> c[..n][i] == c[i];
        }
        LastIsLeast(c, m);
        n
      else
        assert forall i :: 0 <= i < n ==> c[..n][i] == c[i];
        m
  }

  lemma LastIsLeast(c: seq<string>, m: nat)
    requires |c| > 1 && m < |c| - 1 && Less(c[|c| - 1], c[m])
    requires forall i :: 0 <= i < |c| - 1 ==> AtMost(c[m], c[i])
    ensures forall i :: 0 <= i < |c| ==> AtMost(c[|c| - 1], c[i])
  {
    var last := c[|c| - 1];
    LessTotal(last, c[m]);
    LessTotal(last, last);
    forall i | 0 <= i < |c| - 1 ensures AtMost(last, c[i]) {
      AtMostTransitive(last, c[m], c[i]);
    }
  }

  /** The rotation that starts at the least node. */
  function Canonical(c: seq<string>): seq<string>
    requires c != []
  {
    Rotate(c, MinIndex(c))
  }

  /** The least node of a simple cycle is at one place only. */
  lemma MinUnique(c: seq<string>, i: nat)
    requires c != [] && Distinct(c) && i < |c| && forall j :: 0 <= j < |c| ==> AtMost(c[i], c[j])
    ensures i == MinIndex(c)
  {
    LessTotal(c[i], c[MinIndex(c)]);
  }

  lemma RotateDistinct(c: seq<string>, k: nat)
    requires Distinct(c) && k <= |c|
    ensures Distinct(Rotate(c, k)) && |Rotate(c, k)| == |c|
  {
  }

  /** Rotations of one simple cycle have one canonical form. */
  lemma RotationSameCanonical(c: seq<string>, k: nat)
    requires c != [] && Distinct(c) && k < |c|
    ensures Rotate(c, k) != [] && Canonical(Rotate(c, k)) == Canonical(c)
  {
    var r, m, n := Rotate(c, k), MinIndex(c), |c|;
    RotateDistinct(c, k);
    var j := if k <= m then m - k else m - k + n;
    assert r[j] == c[m];
    forall i | 0 <= i < n ensures AtMost(r[j], r[i]) {
      var i' := if i + k < n then i + k else i + k - n;
      assert r[i] == c[i'];
    }
    MinUnique(r, j);
    RotateTwice(c, k, m);
  }

  lemma RotateTwice(c: seq<string>, k: nat, m: nat)
    requires k < |c| && m < |c|
    ensures Rotate(Rotate(c, k), if k <= m then m - k else m - k + |c|) == Rotate(c, m)
  {
    var r := Rotate(c, k);
    if k <= m {
      assert r[m - k..] == c[m..] + c[..k];
      assert r[..m - k] == c[k..m];
      assert c[..k] + c[k..m] == c[..m];
    } else {
      assert r[m - k + |c|..] == c[m..k];
      assert r[..m - k + |c|] == c[k..] + c[..m];
      assert c[m..k] + c[k..] == c[m..];
    }
  }

  // ------------------------------------------------------- edges of a cycle

  /** The node after the one at `k`, around the cycle. */
  function After(c: seq<string>, k: nat): string
    requires k < |c|
  {
    if k + 1 < |c| then c[k + 1] else c[0]
  }

  /** The cycle goes from `a` to `b`. */
  predicate OnCycle(c: seq<string>, a: string, b: string)
  {
    exists k :: 0 <= k < |c| && c[k] == a && After(c, k) == b
  }

  lemma EdgeTurns(c: seq<string>, k: nat, j: nat)
    requires k < |c| && j < |c|
    ensures var r, i := Rotate(c, k), if j + k < |c| then j + k else j + k - |c|;
            |r| == |c| && r[j] == c[i] && After(r, j) == After(c, i)
  {
  }

  /** A rotation goes along the same edges. */
  lemma RotationSameEdges(c: seq<string>, k: nat, a: string, b: string)
    requires k < |c|
    ensures OnCycle(Rotate(c, k), a, b) <==> OnCycle(c, a, b)
  {
    var r, n := Rotate(c, k), |c|;
    if OnCycle(r, a, b) {
      var j :| 0 <= j < |r| && r[j] == a && After(r, j) == b;
      EdgeTurns(c, k, j);
    }
    if OnCycle(c, a, b) {
      var i :| 0 <= i < n && c[i] == a && After(c, i) == b;
      var j := if i >= k then i - k else i - k + n;
      EdgeTurns(c, k, j);
      assert r[j] == a && After(r, j) == b;
    }
  }

  /** Some reported cycle goes from `a` to `b`. */
  predicate OnReported(issues: seq<seq<string>>, a: string, b: string)
  {
    exists i :: 0 <= i < |issues| && OnCycle(issues[i], a, b)
  }

  lemma StaysReported(issues: seq<seq<string>>, more: seq<seq<string>>, a: string, b: string)
    requires OnReported(issues, a, b) && issues <= more
    ensures OnReported(more, a, b)
  {
    var i :| 0 <= i < |issues| && OnCycle(issues[i], a, b);
    assert more[i] == issues[i];
  }

  // ---------------------------------------------------------------- the search

  datatype Color = Gray | Black

  predicate IsBlack(colors: map<string, Color>, x: string) { x in colors && colors[x].Black? }

  /** Colours only ever darken. */
  ghost predicate Darker(before: map<string, Color>, after: map<string, Color>)
  {
    before.Keys <= after.Keys && forall x :: IsBlack(before, x) ==> IsBlack(after, x)
  }

  /** Every edge of a finished node goes to a node that finished earlier. */
  ghost predicate Topological(adj: Graph, finished: seq<string>)
  {
    forall i, y :: 0 <= i < |finished| && HasEdge(adj, finished[i], y) ==> y in finished[..i]
  }

  /** Every edge of a finished node goes to a node that finished earlier or lies on a reported cycle. */
  ghost predicate TopologicalBut(adj: Graph, finished: seq<string>, issues: seq<seq<string>>)
  {
    forall i, y :: 0 <= i < |finished| && HasEdge(adj, finished[i], y) ==>
      y in finished[..i] || OnReported(issues, finished[i], y)
  }

  lemma TopologicalStays(adj: Graph, finished: seq<string>, issues: seq<seq<string>>, more: seq<seq<string>>)
    requires TopologicalBut(adj, finished, issues) && issues <= more
    ensures TopologicalBut(adj, finished, more)
  {
    forall i, y | 0 <= i < |finished| && HasEdge(adj, finished[i], y)
      ensures y in finished[..i] || OnReported(more, finished[i], y)
    {
      if y !in finished[..i] {
        StaysReported(issues, more, finished[i], y);
      }
    }
  }

  /** The search is done with the edge: its end is black, or it lies on a reported cycle. */
  ghost predicate Settled(colors: map<string, Color>, issues: seq<seq<string>>, a: string, b: string)
  {
    IsBlack(colors, b) || OnReported(issues, a, b)
  }

  ghost predicate AllSettled(colors: map<string, Color>, issues: seq<seq<string>>, a: string, bs: seq<string>)
  {
    forall k :: 0 <= k < |bs| ==> Settled(colors, issues, a, bs[k])
  }

  /** One more of the list is settled, and the ones before it stay so. */
  lemma OneMoreSettled(colors: map<string, Color>, issues: seq<seq<string>>, colors': map<string, Color>,
                       issues': seq<seq<string>>, a: string, bs: seq<string>, n: nat)
    requires n < |bs| && AllSettled(colors, issues, a, bs[..n]) && Darker(colors, colors') && issues <= issues'
    requires Settled(colors', issues', a, bs[n])
    ensures AllSettled(colors', issues', a, bs[..n + 1])
  {
    var first, more := bs[..n], bs[..n + 1];
    forall k | 0 <= k < |more| ensures Settled(colors', issues', a, more[k]) {
      if k < n {
        assert more[k] == first[k];
        StaysSettled(colors, issues, colors', issues', a, first[k]);
      }
    }
  }

  lemma StaysSettled(colors: map<string, Color>, issues: seq<seq<string>>, colors': map<string, Color>,
                     issues': seq<seq<string>>, a: string, b: string)
    requires Settled(colors, issues, a, b) && Darker(colors, colors') && issues <= issues'
    ensures Settled(colors', issues', a, b)
  {
    if !IsBlack(colors, b) {
      StaysReported(issues, issues', a, b);
    }
  }

  /** The reported cycles are simple cycles with pairwise different canonical forms, and these
      forms are what `reported` remembers. */
  ghost predicate ReportsSound(adj: Graph, reported: set<seq<string>>, issues: seq<seq<string>>)
  {
    if issues == [] then reported == {}
    else
      var n := |issues| - 1;
      && IsSimpleCycle(adj, issues[n]) && Canonical(issues[n]) in reported
      && ReportsSound(adj, reported - {Canonical(issues[n])}, issues[..n])
  }

  lemma {:induction false} ReportsAreCycles(adj: Graph, reported: set<seq<string>>, issues: seq<seq<string>>)
    requires ReportsSound(adj, reported, issues)
    ensures forall i :: 0 <= i < |issues| ==> IsSimpleCycle(adj, issues[i]) && Canonical(issues[i]) in reported
    ensures forall i, j :: 0 <= i < j < |issues| ==>
              issues[i] != [] && issues[j] != [] && Canonical(issues[i]) != Canonical(issues[j])
  {
    if issues != [] {
      var n := |issues| - 1;
      ReportsAreCycles(adj, reported - {Canonical(issues[n])}, issues[..n]);
      forall i | 0 <= i < |issues| ensures IsSimpleCycle(adj, issues[i]) && Canonical(issues[i]) in reported {
        if i < n {
          assert issues[i] == issues[..n][i];
        }
      }
      forall i, j | 0 <= i < j < |issues|
        ensures issues[i] != [] && issues[j] != [] && Canonical(issues[i]) != Canonical(issues[j])
      {
        assert issues[i] == issues[..n][i];
        if j < n {
          assert issues[j] == issues[..n][j];
        }
      }
    }
  }

  /** The state of a search; `finished` lists the black nodes in the order they turned black. */
  datatype Search = Search(colors: map<string, Color>, path: seq<string>, reported: set<seq<string>>,
                           issues: seq<seq<string>>, finished: seq<string>)

  /** What the search keeps between any two steps: grey nodes are the current path, black nodes
      the finished ones, and the finish order is topological but for edges of reported cycles. */
  ghost predicate SearchInv(adj: Graph, universe: set<string>, s: Search)
  {
    && Distinct(s.path) && Distinct(s.finished) && IsWalk(adj, s.path) && s.colors.Keys <= universe
    && (forall x :: x in s.path <==> x in s.colors && s.colors[x].Gray?)
    && (forall x :: x in s.finished <==> x in s.colors && s.colors[x].Black?)
    && TopologicalBut(adj, s.finished, s.issues)
    && ReportsSound(adj, s.reported, s.issues)
  }

  /** The states that satisfy the invariant. */
  ghost function Sound(adj: Graph, universe: set<string>): iset<Search>
  {
    iset s: Search | SearchInv(adj, universe, s)
  }

  lemma PushGray(adj: Graph, universe: set<string>, s: Search, u: string)
    requires s in Sound(adj, universe)
    requires u in universe && u !in s.colors && (s.path != [] ==> HasEdge(adj, s.path[|s.path| - 1], u))
    ensures s.(colors := s.colors[u := Gray], path := s.path + [u]) in Sound(adj, universe)
  {
    assert SearchInv(adj, universe, s);
    assert u !in s.path && u !in s.finished;
    assert SearchInv(adj, universe, s.(colors := s.colors[u := Gray], path := s.path + [u]));
  }

  lemma PopBlack(adj: Graph, universe: set<string>, s: Search, path: seq<string>, u: string)
    requires s in Sound(adj, universe) && s.path == path + [u]
    requires forall y :: HasEdge(adj, u, y) ==> Settled(s.colors, s.issues, u, y)
    ensures s.(colors := s.colors[u := Black], path := path, finished := s.finished + [u]) in Sound(adj, universe)
  {
    assert SearchInv(adj, universe, s);
    var longer, done := path + [u], s.finished + [u];
    assert longer[|path|] == u && u in longer;
    assert u !in s.finished;
    assert forall i :: 0 <= i < |path| ==> longer[i] == path[i];
    forall x ensures x in path <==> x in longer && x != u {
      if x in path {
        var i :| 0 <= i < |path| && path[i] == x;
        assert longer[i] == x;
      }
    }
    forall i, y | 0 <= i < |done| && HasEdge(adj, done[i], y)
      ensures y in done[..i] || OnReported(s.issues, done[i], y)
    {
      assert done[..i] == s.finished[..i];
      if i == |s.finished| {
        assert Settled(s.colors, s.issues, u, y) && done[..i] == s.finished;
      }
    }
    assert SearchInv(adj, universe, s.(colors := s.colors[u := Black], path := path, finished := done));
  }

  /** The part of the path from a grey node on, closed by the edge back to it. */
  lemma BackEdgeIsCycle(adj: Graph, path: seq<string>, v: string, pos: nat)
    requires Distinct(path) && IsWalk(adj, path) && pos < |path| && path[pos] == v
    requires HasEdge(adj, path[|path| - 1], v)
    ensures IsSimpleCycle(adj, path[pos..])
  {
    var c := path[pos..];
    assert forall i :: 0 <= i < |c| ==> c[i] == path[pos + i];
  }

  /** What a colour says about a node in a sound state. */
  lemma ColorMeans(adj: Graph, universe: set<string>, s: Search, v: string)
    requires s in Sound(adj, universe) && v in s.colors
    ensures s.colors[v].Gray? ==> v in s.path
  {
    assert SearchInv(adj, universe, s);
  }

  lemma ReportBackEdge(adj: Graph, universe: set<string>, s: Search, v: string, pos: nat)
    requires s in Sound(adj, universe) && pos < |s.path| && s.path[pos] == v
    requires HasEdge(adj, s.path[|s.path| - 1], v)
    ensures var norm := Canonical(s.path[pos..]);
            if norm in s.reported then OnReported(s.issues, s.path[|s.path| - 1], v)
            else
              && s.(reported := s.reported + {norm}, issues := s.issues + [s.path[pos..]]) in Sound(adj, universe)
              && OnReported(s.issues + [s.path[pos..]], s.path[|s.path| - 1], v)
  {
    assert SearchInv(adj, universe, s);
    var cycle := s.path[pos..];
    BackEdgeIsCycle(adj, s.path, v, pos);
    assert OnCycle(cycle, s.path[|s.path| - 1], v) by {
      assert cycle[|cycle| - 1] == s.path[|s.path| - 1] && After(cycle, |cycle| - 1) == v;
    }
    if Canonical(cycle) in s.reported {
      ReportedIsThere(adj, s.reported, s.issues, Canonical(cycle));
      ReportsAreCycles(adj, s.reported, s.issues);
      var i :| 0 <= i < |s.issues| && s.issues[i] != [] && Canonical(s.issues[i]) == Canonical(cycle);
      SameCanonicalSameEdges(s.issues[i], cycle, s.path[|s.path| - 1], v);
    } else {
      assert (s.issues + [cycle])[|s.issues|] == cycle;
      TopologicalStays(adj, s.finished, s.issues, s.issues + [cycle]);
      ReportNew(adj, s.reported, s.issues, cycle);
      assert SearchInv(adj, universe, s.(reported := s.reported + {Canonical(cycle)}, issues := s.issues + [cycle]));
    }
  }

  lemma SameCanonicalSameEdges(c: seq<string>, d: seq<string>, a: string, b: string)
    requires c != [] && d != [] && Canonical(c) == Canonical(d)
    ensures OnCycle(c, a, b) <==> OnCycle(d, a, b)
  {
    RotationSameEdges(c, MinIndex(c), a, b);
    RotationSameEdges(d, MinIndex(d), a, b);
  }

  lemma {:induction false} ReportedIsThere(adj: Graph, reported: set<seq<string>>, issues: seq<seq<string>>,
                                           norm: seq<string>)
    requires ReportsSound(adj, reported, issues) && norm in reported
    ensures exists i :: 0 <= i < |issues| && issues[i] != [] && Canonical(issues[i]) == norm
  {
    var n := |issues| - 1;
    if Canonical(issues[n]) != norm {
      ReportedIsThere(adj, reported - {Canonical(issues[n])}, issues[..n], norm);
      var i :| 0 <= i < n && issues[..n][i] != [] && Canonical(issues[..n][i]) == norm;
      assert issues[i] == issues[..n][i];
    }
  }

  lemma ReportNew(adj: Graph, reported: set<seq<string>>, issues: seq<seq<string>>, cycle: seq<string>)
    requires ReportsSound(adj, reported, issues) && IsSimpleCycle(adj, cycle) && Canonical(cycle) !in reported
    ensures ReportsSound(adj, reported + {Canonical(cycle)}, issues + [cycle])
  {
    assert (issues + [cycle])[..|issues|] == issues;
    assert (reported + {Canonical(cycle)}) - {Canonical(cycle)} == reported;
  }

  ghost predicate ClosedIn(adj: Graph, universe: set<string>)
  {
    forall a, b :: HasEdge(adj, a, b) ==> b in universe
  }

  /** `white` contains every node that has no colour yet; it shrinks as the search goes deeper. */
  ghost predicate Uncolored(universe: set<string>, colors: map<string, Color>, white: set<string>)
  {
    forall x :: x in universe && x !in colors ==> x in white
  }

  /** The states that a search can come to from `s0` with the same path. */
  ghost function Onward(s0: Search): iset<Search>
  {
    iset s: Search | s.path == s0.path && Darker(s0.colors, s.colors) && s0.issues <= s.issues
  }

  /** The states in which the edges from the end of the path to `bs` are settled. */
  ghost function Done(bs: seq<string>): iset<Search>
  {
    iset s: Search | s.path != [] && AllSettled(s.colors, s.issues, s.path[|s.path| - 1], bs)
  }

  lemma StartDone(s: Search)
    requires s.path != []
    ensures s in Onward(s) && s in Done([])
  {
  }

  lemma StaysUncolored(universe: set<string>, white: set<string>, s0: Search, s: Search)
    requires Uncolored(universe, s0.colors, white) && s0.path != [] && s in Onward(s0)
    ensures Uncolored(universe, s.colors, white) && s.path == s0.path
  {
  }

  lemma OneMoreDone(s0: Search, s1: Search, s2: Search, bs: seq<string>, n: nat)
    requires s1 in Onward(s0) && n < |bs| && s1 in Done(bs[..n])
    requires s2.path == s1.path && Darker(s1.colors, s2.colors) && s1.issues <= s2.issues
    requires Settled(s2.colors, s2.issues, s2.path[|s2.path| - 1], bs[n])
    ensures s2 in Onward(s0) && s2 in Done(bs[..n + 1])
  {
    OneMoreSettled(s1.colors, s1.issues, s2.colors, s2.issues, s2.path[|s2.path| - 1], bs, n);
  }

  lemma DoneMeans(s0: Search, s: Search, bs: seq<string>)
    requires s in Onward(s0) && s in Done(bs)
    ensures s.path == s0.path && s.path != [] && Darker(s0.colors, s.colors) && s0.issues <= s.issues
    ensures AllSettled(s.colors, s.issues, s.path[|s.path| - 1], bs)
  {
  }

  class CycleFinder {
    const adj: Graph
    var colors: map<string, Color>
    var path: seq<string>
    var reported: set<seq<string>>
    /** The node lists of the cycles that a message was pushed for. */
    var issues: seq<seq<string>>
    ghost var finished: seq<string>

    ghost function State(): Search
      reads this
    {
      Search(colors, path, reported, issues, finished)
    }

    constructor (adj: Graph, ghost universe: set<string>)
      ensures this.adj == adj && State() == Search(map[], [], {}, [], []) && State() in Sound(adj, universe)
    {
      this.adj := adj;
      colors, path, reported, issues, finished := map[], [], {}, [], [];
      assert SearchInv(adj, universe, Search(map[], [], {}, [], []));
    }

    /** Reports the cycle that the edge from the end of the path back to `v` closes, unless a
        rotation of it has been reported. */
    method Report(ghost universe: set<string>, v: string)
      requires State() in Sound(adj, universe) && path != [] && v in path && HasEdge(adj, path[|path| - 1], v)
      modifies this`reported, this`issues
      ensures State() in Sound(adj, universe) && old(issues) <= issues
      ensures OnReported(issues, path[|path| - 1], v)
    {
      var pos := 0;
      while path[pos] != v
        invariant 0 <= pos < |path| && v !in path[..pos]
        decreases |path| - pos
      {
        assert v in path[pos + 1..];
        pos := pos + 1;
      }
      ReportBackEdge(adj, universe, State(), v, pos);
      var norm := Canonical(path[pos..]);
      if norm !in reported {
        reported := reported + {norm};
        issues := issues + [path[pos..]];
      }
    }

    /** Looks at one neighbour of the node at the end of the path. */
    method Visit(ghost universe: set<string>, ghost white: set<string>, v: string)
      requires State() in Sound(adj, universe) && ClosedIn(adj, universe) && Uncolored(universe, colors, white)
      requires path != [] && HasEdge(adj, path[|path| - 1], v)
      modifies this`colors, this`path, this`reported, this`issues, this`finished
      ensures State() in Sound(adj, universe) && path == old(path)
      ensures Darker(old(colors), colors) && old(issues) <= issues
      ensures Settled(colors, issues, path[|path| - 1], v)
      decreases white, 1
    {
      if v !in colors {
        Dfs(universe, white, v);
      } else {
        ColorMeans(adj, universe, State(), v);
        if colors[v].Gray? {
          Report(universe, v);
        }
      }
    }

    method VisitAll(ghost universe: set<string>, ghost white: set<string>, neighbors: seq<string>)
      requires State() in Sound(adj, universe) && ClosedIn(adj, universe) && Uncolored(universe, colors, white)
      requires path != []
      requires forall k :: 0 <= k < |neighbors| ==> HasEdge(adj, path[|path| - 1], neighbors[k])
      modifies this`colors, this`path, this`reported, this`issues, this`finished
      ensures State() in Sound(adj, universe) && path == old(path)
      ensures Darker(old(colors), colors) && old(issues) <= issues
      ensures AllSettled(colors, issues, path[|path| - 1], neighbors)
      decreases white, 2
    {
      ghost var s0 := State();
      StartDone(s0);
      for k := 0 to |neighbors|
        invariant State() in Sound(adj, universe) && State() in Onward(s0) && State() in Done(neighbors[..k])
      {
        ghost var s1 := State();
        StaysUncolored(universe, white, s0, s1);
        Visit(universe, white, neighbors[k]);
        OneMoreDone(s0, s1, State(), neighbors, k);
      }
      assert neighbors[..|neighbors|] == neighbors;
      DoneMeans(s0, State(), neighbors);
    }

    method Dfs(ghost universe: set<string>, ghost white: set<string>, u: string)
      requires State() in Sound(adj, universe) && ClosedIn(adj, universe) && Uncolored(universe, colors, white)
      requires u in universe && u !in colors
      requires path != [] ==> HasEdge(adj, path[|path| - 1], u)
      modifies this`colors, this`path, this`reported, this`issues, this`finished
      ensures State() in Sound(adj, universe) && path == old(path)
      ensures Darker(old(colors), colors) && old(issues) <= issues && IsBlack(colors, u)
      decreases white, 0
    {
      Enter(universe, u);
      if u in adj {
        VisitAll(universe, white - {u}, adj[u]);
      }
      Leave(universe, old(path), u);
    }

    /** Paints `u` grey and puts it at the end of the path. */
    method Enter(ghost universe: set<string>, u: string)
      requires State() in Sound(adj, universe) && u in universe && u !in colors
      requires path != [] ==> HasEdge(adj, path[|path| - 1], u)
      modifies this`colors, this`path
      ensures State() in Sound(adj, universe)
      ensures colors == old(colors)[u := Gray] && path == old(path) + [u]
    {
      PushGray(adj, universe, State(), u);
      colors := colors[u := Gray];
      path := path + [u];
    }

    /** Takes `u` off the path and paints it black. */
    method Leave(ghost universe: set<string>, ghost before: seq<string>, u: string)
      requires State() in Sound(adj, universe) && path == before + [u]
      requires forall y :: HasEdge(adj, u, y) ==> Settled(colors, issues, u, y)
      modifies this`colors, this`path, this`finished
      ensures State() in Sound(adj, universe)
      ensures colors == old(colors)[u := Black] && path == before && finished == old(finished) + [u]
    {
      PopBlack(adj, universe, State(), before, u);
      assert path[..|path| - 1] == before;
      path := path[..|path| - 1];
      colors := colors[u := Black];
      finished := finished + [u];
    }
  }
}
