/** What a merge's remapping means for nodes: a reference to a fragment node ends at an outbound with
    the same endpoint, and no endpoint is added twice. */
module MergeMeaning {
  import opened Wrappers
  import opened Bytes
  import opened Tags
  import opened Fragments

  /** `o` is what a reference to `tag` ends at, and it has endpoint `e`. */
  predicate IsAt(o: Outbound, tag: string, e: Endpoint)
  {
    o.Tag() == tag && o.HasPort() && (o.Host(), o.port.value) == e
  }

  ghost predicate HasAt(os: seq<Outbound>, tag: string, e: Endpoint) { exists o :: o in os && IsAt(o, tag, e) }

  /** Every known endpoint belongs to the outbound it is filed under. */
  ghost predicate EndpointsFiled(os: seq<Outbound>, hostPort: map<Endpoint, string>)
  {
    forall e :: e in hostPort ==> HasAt(os, hostPort[e], e)
  }

  lemma HasAtGrows(os: seq<Outbound>, more: seq<Outbound>, tag: string, e: Endpoint)
    requires HasAt(os, tag, e)
    ensures HasAt(os + more, tag, e)
  {
    var o :| o in os && IsAt(o, tag, e);
    assert o in os + more;
  }

  lemma {:induction false} HostPortsFiled(os: seq<Outbound>)
    ensures EndpointsFiled(os, HostPorts(os))
  {
    if os != [] {
      var n := |os| - 1;
      HostPortsFiled(os[..n]);
      assert os == os[..n] + [os[n]];
      forall e | e in HostPorts(os) ensures HasAt(os, HostPorts(os)[e], e) {
        if e in HostPorts(os[..n]) && HostPorts(os)[e] == HostPorts(os[..n])[e] {
          HasAtGrows(os[..n], [os[n]], HostPorts(os)[e], e);
        } else {
          assert IsAt(os[n], HostPorts(os)[e], e) && os[n] in os;
        }
      }
    }
  }

  lemma AddNodeFiled(m: Merging, n: Outbound)
    requires EndpointsFiled(m.outbounds, m.hostPort)
    ensures EndpointsFiled(AddNode(m, n).outbounds, AddNode(m, n).hostPort)
    ensures n.HasPort() ==> var e := (n.Host(), n.port.value);
              e in AddNode(m, n).hostPort && (n.Tag() != "" ==>
                n.Tag() in AddNode(m, n).remap && AddNode(m, n).remap[n.Tag()] == AddNode(m, n).hostPort[e])
  {
    var m' := AddNode(m, n);
    if |m'.outbounds| > |m.outbounds| {
      var added := m'.outbounds[|m.outbounds|];
      forall e | e in m'.hostPort ensures HasAt(m'.outbounds, m'.hostPort[e], e) {
        if e == (n.Host(), n.port.value) {
          assert IsAt(added, m'.hostPort[e], e) && added in m'.outbounds;
        } else {
          HasAtGrows(m.outbounds, [added], m.hostPort[e], e);
        }
      }
    }
  }

  lemma {:induction false} AddNodesFiled(m: Merging, nodes: seq<Outbound>)
    requires EndpointsFiled(m.outbounds, m.hostPort)
    ensures EndpointsFiled(AddNodes(m, nodes).outbounds, AddNodes(m, nodes).hostPort)
  {
    if nodes != [] {
      AddNodesFiled(m, nodes[..|nodes| - 1]);
      AddNodeFiled(AddNodes(m, nodes[..|nodes| - 1]), nodes[|nodes| - 1]);
    }
  }

  /** Node `i` is the last one of the fragment that the merge can take under its tag. */
  predicate LastOfTag(nodes: seq<Outbound>, i: nat)
  {
    && i < |nodes| && nodes[i].HasPort() && nodes[i].Tag() != ""
    && forall j :: i < j < |nodes| && nodes[j].HasPort() ==> nodes[j].Tag() != nodes[i].Tag()
  }

  /** A reference to `t` ends at an outbound with endpoint `e`. */
  ghost predicate RefersAt(m: Merging, t: string, e: Endpoint) { t in m.remap && HasAt(m.outbounds, m.remap[t], e) }

  lemma ReferenceKept(m: Merging, n: Outbound, t: string, e: Endpoint)
    requires RefersAt(m, t, e) && (n.HasPort() ==> n.Tag() != t)
    ensures RefersAt(AddNode(m, n), t, e)
  {
    var m' := AddNode(m, n);
    var added := m'.outbounds[|m.outbounds|..];
    assert m'.outbounds == m.outbounds + added;
    HasAtGrows(m.outbounds, added, m.remap[t], e);
  }

  lemma ReferenceMade(m: Merging, n: Outbound)
    requires EndpointsFiled(m.outbounds, m.hostPort) && n.HasPort() && n.Tag() != ""
    ensures RefersAt(AddNode(m, n), n.Tag(), (n.Host(), n.port.value))
  {
    AddNodeFiled(m, n);
  }

  /** A reference to a fragment node ends at an outbound of the same host and port, whether the
      node was added, renamed or recognised as a duplicate of one already there. */
  lemma {:induction false} NodeReferenceMeans(m: Merging, nodes: seq<Outbound>, i: nat)
    requires EndpointsFiled(m.outbounds, m.hostPort) && LastOfTag(nodes, i)
    ensures RefersAt(AddNodes(m, nodes), nodes[i].Tag(), (nodes[i].Host(), nodes[i].port.value))
    decreases |nodes|
  {
    var k := |nodes| - 1;
    var m0 := AddNodes(m, nodes[..k]);
    if i < k {
      assert LastOfTag(nodes[..k], i);
      NodeReferenceMeans(m, nodes[..k], i);
      ReferenceKept(m0, nodes[k], nodes[i].Tag(), (nodes[i].Host(), nodes[i].port.value));
    } else {
      AddNodesFiled(m, nodes[..k]);
      ReferenceMade(m0, nodes[k]);
    }
  }

  // -------------------------------------------------------------- no duplicates

  /** Node objects at different places of a list have different endpoints. */
  ghost predicate AddedOnce(m: Merging, from: nat)
    requires from <= |m.outbounds|
  {
    && (forall k :: from <= k < |m.outbounds| ==>
          m.outbounds[k].HasPort() && (m.outbounds[k].Host(), m.outbounds[k].port.value) in m.hostPort)
    && (forall j, k :: from <= j < k < |m.outbounds| ==>
          (m.outbounds[j].Host(), m.outbounds[j].port) != (m.outbounds[k].Host(), m.outbounds[k].port))
  }

  /** De-duplication: no two added nodes share a host and port, and none shares one with a mirage
      node that was there before. */
  lemma {:induction false} NodesAddedOnce(m: Merging, nodes: seq<Outbound>)
    ensures var r := AddNodes(m, nodes);
            && m.outbounds <= r.outbounds && AddedOnce(r, |m.outbounds|) && m.hostPort.Keys <= r.hostPort.Keys
            && (forall k :: |m.outbounds| <= k < |r.outbounds| ==>
                  (r.outbounds[k].Host(), r.outbounds[k].port.value) !in m.hostPort)
  {
    if nodes != [] {
      var n := |nodes| - 1;
      NodesAddedOnce(m, nodes[..n]);
      NodeAddedOnce(AddNodes(m, nodes[..n]), nodes[n], |m.outbounds|);
    }
  }

  lemma NodeAddedOnce(m: Merging, n: Outbound, from: nat)
    requires from <= |m.outbounds| && AddedOnce(m, from)
    ensures from <= |AddNode(m, n).outbounds| && AddedOnce(AddNode(m, n), from)
    ensures m.hostPort.Keys <= AddNode(m, n).hostPort.Keys && m.outbounds <= AddNode(m, n).outbounds
    ensures |AddNode(m, n).outbounds| > |m.outbounds| ==>
              && |AddNode(m, n).outbounds| == |m.outbounds| + 1
              && n.HasPort() && (n.Host(), n.port.value) !in m.hostPort
              && AddNode(m, n).outbounds[|m.outbounds|].Host() == n.Host()
              && AddNode(m, n).outbounds[|m.outbounds|].port == n.port
  {
  }

  // ----------------------------------------------------------- kinds of builtins

  lemma {:induction false} KindOfMeans(os: seq<Outbound>, t: string)
    requires t in KindOf(os)
    ensures t != "" && exists o :: o in os && o.tag == Some(t) && o.kind == KindOf(os)[t]
  {
    var n := |os| - 1;
    assert os[n] in os;
    if os[n].Tag() == "" || os[n].Tag() != t {
      KindOfMeans(os[..n], t);
      var o :| o in os[..n] && o.tag == Some(t) && o.kind == KindOf(os[..n])[t];
      assert o in os;
    } else {
      assert os[n].tag == Some(t) && os[n].kind == KindOf(os)[t];
    }
  }
}
