/** The fixpoint shared by fragment export and fragment merge: which named groups can reach an
    outbound that is really there. */
module Reachability {

  /** A group: its name and the names it refers to. */
  datatype Node = Node(name: string, refs: seq<string>)

  ghost predicate Edge(nodes: seq<Node>, a: string, b: string)
  {
    exists i :: 0 <= i < |nodes| && nodes[i].name == a && b in nodes[i].refs
  }

  ghost predicate IsPath(nodes: seq<Node>, path: seq<string>)
  {
    path != [] && forall i :: 0 <= i < |path| - 1 ==> Edge(nodes, path[i], path[i + 1])
  }

  /** A path of references leads from `name` to a member of `base`. */
  ghost predicate Leads(nodes: seq<Node>, base: set<string>, name: string)
  {
    exists path :: IsPath(nodes, path) && path[0] == name && path[|path| - 1] in base
  }

  predicate AnyPresent(refs: seq<string>, present: set<string>)
  {
    exists r :: r in refs && r in present
  }

  lemma BaseLeads(nodes: seq<Node>, base: set<string>, name: string)
    requires name in base
    ensures Leads(nodes, base, name)
  {
    assert IsPath(nodes, [name]);
  }

  lemma EdgeLeads(nodes: seq<Node>, base: set<string>, a: string, b: string)
    requires Edge(nodes, a, b) && Leads(nodes, base, b)
    ensures Leads(nodes, base, a)
  {
    var path :| IsPath(nodes, path) && path[0] == b && path[|path| - 1] in base;
    var longer := [a] + path;
    forall i | 0 <= i < |longer| - 1
      ensures Edge(nodes, longer[i], longer[i + 1])
    {
      if i > 0 {
        assert longer[i] == path[i - 1] && longer[i + 1] == path[i];
      }
    }
    assert IsPath(nodes, longer);
  }

  /** Outside the base, leading there means referring to something that leads there. */
  lemma LeadsUnfold(nodes: seq<Node>, base: set<string>, name: string) returns (i: nat, r: string)
    requires Leads(nodes, base, name) && name !in base
    ensures i < |nodes| && nodes[i].name == name && r in nodes[i].refs && Leads(nodes, base, r)
  {
    var path :| IsPath(nodes, path) && path[0] == name && path[|path| - 1] in base;
    r := path[1];
    assert Edge(nodes, path[0], path[1]);
    i :| 0 <= i < |nodes| && nodes[i].name == name && r in nodes[i].refs;
    var rest := path[1..];
    forall j | 0 <= j < |rest| - 1 ensures Edge(nodes, rest[j], rest[j + 1]) {
      assert Edge(nodes, path[j + 1], path[j + 2]);
    }
    assert IsPath(nodes, rest);
  }

  lemma LeadsNamed(nodes: seq<Node>, base: set<string>, name: string)
    requires Leads(nodes, base, name)
    ensures name in base + Names(nodes)
  {
    if name !in base {
      var i, r := LeadsUnfold(nodes, base, name);
    }
  }

  /** None of the first `n` groups lies outside `present` and refers into it. */
  ghost predicate Closed(nodes: seq<Node>, present: set<string>, n: nat)
    requires n <= |nodes|
  {
    forall i :: 0 <= i < n ==> nodes[i].name in present || !AnyPresent(nodes[i].refs, present)
  }

  lemma {:induction false} ClosedCatchesPaths(nodes: seq<Node>, base: set<string>, present: set<string>,
                                              path: seq<string>)
    requires Closed(nodes, present, |nodes|) && base <= present
    requires IsPath(nodes, path) && path[|path| - 1] in base
    ensures path[0] in present
    decreases |path|
  {
    if |path| > 1 {
      var rest := path[1..];
      forall i | 0 <= i < |rest| - 1
        ensures Edge(nodes, rest[i], rest[i + 1])
      {
        assert Edge(nodes, path[i + 1], path[i + 2]);
      }
      ClosedCatchesPaths(nodes, base, present, rest);
      assert Edge(nodes, path[0], path[1]);
    }
  }

  function Names(nodes: seq<Node>): set<string> { set i | 0 <= i < |nodes| :: nodes[i].name }

  /** Every member of `present` leads to the base, and `present` holds nothing but the base
      and group names. */
  ghost predicate Justified(nodes: seq<Node>, base: set<string>, present: set<string>)
  {
    && base <= present <= base + Names(nodes)
    && forall name {:trigger Leads(nodes, base, name)} :: name in present ==> Leads(nodes, base, name)
  }

  lemma AddJustified(nodes: seq<Node>, base: set<string>, present: set<string>, k: nat)
    requires k < |nodes| && Justified(nodes, base, present) && AnyPresent(nodes[k].refs, present)
    ensures Justified(nodes, base, present + {nodes[k].name}) && nodes[k].name in Names(nodes)
  {
    var r :| r in nodes[k].refs && r in present;
    assert Edge(nodes, nodes[k].name, r);
    EdgeLeads(nodes, base, nodes[k].name, r);
    assert nodes[k].name in Names(nodes);
  }

  /** One pass over the groups. */
  method Pass(nodes: seq<Node>, ghost base: set<string>, before: set<string>)
    returns (present: set<string>, added: bool)
    requires Justified(nodes, base, before)
    ensures Justified(nodes, base, present) && before <= present
    ensures added ==> |Names(nodes) - present| < |Names(nodes) - before|
    ensures !added ==> present == before && Closed(nodes, present, |nodes|)
  {
    present, added := before, false;
    for k := 0 to |nodes|
      invariant Justified(nodes, base, present) && before <= present
      invariant added ==> |Names(nodes) - present| < |Names(nodes) - before|
      invariant !added ==> present == before && Closed(nodes, present, k)
    {
      if nodes[k].name !in present && AnyPresent(nodes[k].refs, present) {
        AddJustified(nodes, base, present, k);
        SmallerRest(Names(nodes), present, nodes[k].name);
        present := present + {nodes[k].name};
        added := true;
      }
    }
  }

  /** Repeats passes over the groups until one adds nothing. What is present afterwards is
      exactly what leads to the base, so the order of the groups does not matter. */
  method Saturate(nodes: seq<Node>, base: set<string>) returns (present: set<string>)
    ensures forall name :: name in present <==> Leads(nodes, base, name)
    ensures base <= present <= base + Names(nodes)
  {
    present := base;
    forall name | name in present ensures Leads(nodes, base, name) { BaseLeads(nodes, base, name); }
    var added := true;
    while added
      invariant Justified(nodes, base, present)
      invariant !added ==> Closed(nodes, present, |nodes|)
      decreases |Names(nodes) - present|, if added then 1 else 0
    {
      present, added := Pass(nodes, base, present);
    }
    ClosedIsComplete(nodes, base, present);
  }

  lemma ClosedIsComplete(nodes: seq<Node>, base: set<string>, present: set<string>)
    requires Justified(nodes, base, present) && Closed(nodes, present, |nodes|)
    ensures forall name :: name in present <==> Leads(nodes, base, name)
  {
    forall name | Leads(nodes, base, name) ensures name in present {
      var path :| IsPath(nodes, path) && path[0] == name && path[|path| - 1] in base;
      ClosedCatchesPaths(nodes, base, present, path);
    }
  }

  lemma SmallerRest(all: set<string>, before: set<string>, name: string)
    requires name in all && name !in before
    ensures |all - (before + {name})| < |all - before|
  {
    assert all - (before + {name}) == (all - before) - {name};
  }

  /** What leads to the base depends on the groups as a set, not on their order or repetition. */
  lemma LeadsOrderFree(nodes: seq<Node>, nodes': seq<Node>, base: set<string>, name: string)
    requires forall n :: n in nodes <==> n in nodes'
    ensures Leads(nodes, base, name) <==> Leads(nodes', base, name)
  {
    if path :| IsPath(nodes, path) && path[0] == name && path[|path| - 1] in base {
      SamePath(nodes, nodes', path);
    }
    if path :| IsPath(nodes', path) && path[0] == name && path[|path| - 1] in base {
      SamePath(nodes', nodes, path);
    }
  }

  lemma SamePath(nodes: seq<Node>, nodes': seq<Node>, path: seq<string>)
    requires forall n :: n in nodes ==> n in nodes'
    requires IsPath(nodes, path)
    ensures IsPath(nodes', path)
  {
    forall i | 0 <= i < |path| - 1
      ensures Edge(nodes', path[i], path[i + 1])
    {
      assert Edge(nodes, path[i], path[i + 1]);
      var j :| 0 <= j < |nodes| && nodes[j].name == path[i] && path[i + 1] in nodes[j].refs;
      assert nodes[j] in nodes';
    }
  }

  /** `nodes'` still has, for every node that leads somewhere, its references that lead somewhere. */
  ghost predicate KeepsLeading(nodes: seq<Node>, base: set<string>, nodes': seq<Node>)
  {
    forall i, r :: 0 <= i < |nodes| && r in nodes[i].refs && Leads(nodes, base, r) ==> Edge(nodes', nodes[i].name, r)
  }

  /** Cutting references down to what leads to the base keeps every path to it. */
  lemma {:induction false} TrimmingKeepsPaths(nodes: seq<Node>, base: set<string>, nodes': seq<Node>,
                                              base': set<string>,
                                              path: seq<string>)
    requires IsPath(nodes, path) && path[0] !in base && path[|path| - 1] in base
    requires KeepsLeading(nodes, base, nodes')
    requires forall i, r :: 0 <= i < |nodes| && r in nodes[i].refs && r in base ==> r in base'
    ensures Leads(nodes', base', path[0])
    decreases |path|
  {
    var r, rest := path[1], path[1..];
    assert Edge(nodes, path[0], r);
    forall j | 0 <= j < |rest| - 1 ensures Edge(nodes, rest[j], rest[j + 1]) {
      assert Edge(nodes, path[j + 1], path[j + 2]);
    }
    assert IsPath(nodes, rest) && rest[0] == r && rest[|rest| - 1] in base;
    assert Leads(nodes, base, r);
    if r in base {
      BaseLeads(nodes', base', r);
    } else {
      TrimmingKeepsPaths(nodes, base, nodes', base', rest);
    }
    EdgeLeads(nodes', base', path[0], r);
  }
}
