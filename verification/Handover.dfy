/** Handing the original destination of a redirected connection from `connect` to `accept`:
    connect4 stores it by socket cookie, sockops re-keys it by source port, accept takes it out. */
module Handover {
  import opened Wrappers

  /** An address and port; the address keeps the byte layout of the packet. */
  datatype Dst = Dst(ip: bv32, port: nat)

  datatype ConnectCfg = ConnectCfg(listenIp: bv32, listenPort: nat, net: bv32, mask: bv32)

  predicate IsFake(cfg: ConnectCfg, ip: bv32) { ip & cfg.mask == cfg.net }

  datatype Maps = Maps(cookie: map<nat, Dst>, port: map<nat, Dst>)

  /** One step of the system: a socket connects, its SYN goes out from a source port, or the
      listener accepts a connection from a source port. */
  datatype Step = Connect(cookie: nat, dst: Dst) | SockOps(cookie: nat, port: nat) | Accept(port: nat)

  function Apply(cfg: ConnectCfg, m: Maps, s: Step): Maps
  {
    match s
    case Connect(c, d) => if IsFake(cfg, d.ip) then m.(cookie := m.cookie[c := d]) else m
    case SockOps(c, p) => if c in m.cookie then Maps(m.cookie - {c}, m.port[p := m.cookie[c]]) else m
    case Accept(p) => m.(port := m.port - {p})
  }

  function After(cfg: ConnectCfg, trace: seq<Step>): Maps
  {
    if trace == [] then Maps(map[], map[])
    else Apply(cfg, After(cfg, trace[..|trace| - 1]), trace[|trace| - 1])
  }

  /** What accepting from a port returns after a trace. */
  function Found(cfg: ConnectCfg, trace: seq<Step>, port: nat): Option<Dst>
  {
    var m := After(cfg, trace).port;
    if port in m then Some(m[port]) else None
  }

  class Redirector {
    const cfg: ConnectCfg
    var ccCookie: map<nat, Dst>
    var ccPort: map<nat, Dst>

    ghost function State(): Maps
      reads this
    {
      Maps(ccCookie, ccPort)
    }

    constructor (cfg: ConnectCfg)
      ensures this.cfg == cfg && State() == After(cfg, [])
    {
      this.cfg, ccCookie, ccPort := cfg, map[], map[];
    }

    /** connect4: redirects TCP connections to destinations in the fake range to the listener. */
    method Connect4(tcp: bool, cookie: nat, dst: Dst) returns (target: Dst)
      modifies this
      ensures State() == if tcp then Apply(cfg, old(State()), Connect(cookie, dst)) else old(State())
      ensures target == if tcp && IsFake(cfg, dst.ip) then Dst(cfg.listenIp, cfg.listenPort % 0x1_0000) else dst
    {
      if !tcp {
        return dst;
      }
      if !IsFake(cfg, dst.ip) {
        return dst;
      }
      ccCookie := ccCookie[cookie := dst];
      target := Dst(cfg.listenIp, cfg.listenPort % 0x1_0000);
    }

    method TcpConnectCallback(cookie: nat, localPort: nat)
      modifies this
      ensures State() == Apply(cfg, old(State()), SockOps(cookie, localPort))
    {
      if cookie !in ccCookie {
        return;
      }
      ccPort := ccPort[localPort := ccCookie[cookie]];
      ccCookie := ccCookie - {cookie};
    }

    /** Looks the source port up and consumes the entry. */
    method LookupOrigDst(srcPort: nat) returns (dst: Option<Dst>)
      modifies this
      ensures State() == Apply(cfg, old(State()), Accept(srcPort))
      ensures dst == if srcPort in old(ccPort) then Some(old(ccPort)[srcPort]) else None
    {
      if srcPort !in ccPort {
        assert ccPort - {srcPort} == ccPort;
        return None;
      }
      dst := Some(ccPort[srcPort]);
      ccPort := ccPort - {srcPort};
    }
  }

  // -------------------------------------------------------- what a lookup finds

  lemma AfterSnoc(cfg: ConnectCfg, trace: seq<Step>, n: nat)
    requires n < |trace|
    ensures After(cfg, trace[..n + 1]) == Apply(cfg, After(cfg, trace[..n]), trace[n])
  {
    assert trace[..n + 1][..n] == trace[..n];
  }

  /** The socket has a stored destination when step `n` of the trace begins. */
  predicate Stored(cfg: ConnectCfg, trace: seq<Step>, n: nat, cookie: nat)
    requires n <= |trace|
  {
    cookie in After(cfg, trace[..n]).cookie
  }

  /** A step that writes the port's entry or consumes it. */
  predicate Touches(cfg: ConnectCfg, trace: seq<Step>, n: nat, port: nat)
    requires n < |trace|
  {
    match trace[n]
    case SockOps(c, p) => p == port && Stored(cfg, trace, n, c)
    case Accept(p) => p == port
    case Connect(_, _) => false
  }

  /** Nothing between the connect and its SYN belongs to the same socket. */
  predicate Prompt(trace: seq<Step>, i: nat, j: nat, cookie: nat)
    requires i < j <= |trace|
  {
    forall n :: i < n < j ==> trace[n].Accept? || trace[n].cookie != cookie
  }

  // ------------------------------------------------------ read off the trace

  /** The step writes or consumes the destination stored for the socket. */
  predicate Replaces(cfg: ConnectCfg, s: Step, cookie: nat)
  {
    match s
    case Connect(c, d) => c == cookie && IsFake(cfg, d.ip)
    case SockOps(c, _) => c == cookie
    case Accept(_) => false
  }

  /** `d` is where the socket last connected to in the fake range, and its SYN has not gone out since. */
  ghost predicate Awaits(cfg: ConnectCfg, trace: seq<Step>, n: nat, cookie: nat, d: Dst)
    requires n <= |trace|
  {
    exists i :: 0 <= i < n && trace[i] == Connect(cookie, d) && IsFake(cfg, d.ip)
             && forall m :: i < m < n ==> !Replaces(cfg, trace[m], cookie)
  }

  /** The cookie map holds `d` for the socket. */
  predicate Holds(m: Maps, cookie: nat, d: Dst) { cookie in m.cookie && m.cookie[cookie] == d }

  lemma HoldsStep(cfg: ConnectCfg, m: Maps, s: Step, cookie: nat, d: Dst)
    ensures Holds(Apply(cfg, m, s), cookie, d)
       <==> (s == Connect(cookie, d) && IsFake(cfg, d.ip)) || (Holds(m, cookie, d) && !Replaces(cfg, s, cookie))
  {
  }

  lemma {:induction false} CookieIff(cfg: ConnectCfg, trace: seq<Step>, n: nat, cookie: nat, d: Dst)
    requires n <= |trace|
    ensures Holds(After(cfg, trace[..n]), cookie, d) <==> Awaits(cfg, trace, n, cookie, d)
    decreases n
  {
    if n > 0 {
      CookieIff(cfg, trace, n - 1, cookie, d);
      AfterSnoc(cfg, trace, n - 1);
      HoldsStep(cfg, After(cfg, trace[..n - 1]), trace[n - 1], cookie, d);
      AwaitsStep(cfg, trace, n - 1, cookie, d);
    }
  }

  lemma AwaitsStep(cfg: ConnectCfg, trace: seq<Step>, n: nat, cookie: nat, d: Dst)
    requires n < |trace|
    ensures Awaits(cfg, trace, n + 1, cookie, d)
       <==> (trace[n] == Connect(cookie, d) && IsFake(cfg, d.ip))
            || (Awaits(cfg, trace, n, cookie, d) && !Replaces(cfg, trace[n], cookie))
  {
    if Awaits(cfg, trace, n + 1, cookie, d) {
      var i :| 0 <= i < n + 1 && trace[i] == Connect(cookie, d) && IsFake(cfg, d.ip)
            && forall m :: i < m < n + 1 ==> !Replaces(cfg, trace[m], cookie);
      assert i < n ==> Awaits(cfg, trace, n, cookie, d);
    }
  }

  /** The SYN of a socket that awaits `d` goes out from the port. */
  ghost predicate Brings(cfg: ConnectCfg, trace: seq<Step>, n: nat, port: nat, d: Dst)
    requires n < |trace|
  {
    trace[n].SockOps? && trace[n].port == port && Awaits(cfg, trace, n, trace[n].cookie, d)
  }

  /** The SYN of a socket that awaits anything goes out from the port, or it is accepted from. */
  ghost predicate Uses(cfg: ConnectCfg, trace: seq<Step>, n: nat, port: nat)
    requires n < |trace|
  {
    trace[n] == Accept(port) || exists d :: Brings(cfg, trace, n, port, d)
  }

  lemma UsesIsTouches(cfg: ConnectCfg, trace: seq<Step>, n: nat, port: nat)
    requires n < |trace|
    ensures Uses(cfg, trace, n, port) <==> Touches(cfg, trace, n, port)
  {
    if trace[n].SockOps? {
      var c := trace[n].cookie;
      forall d ensures Holds(After(cfg, trace[..n]), c, d) <==> Awaits(cfg, trace, n, c, d) {
        CookieIff(cfg, trace, n, c, d);
      }
      if Touches(cfg, trace, n, port) {
        assert Brings(cfg, trace, n, port, After(cfg, trace[..n]).cookie[c]);
      }
    }
  }

  /** What one more step makes of the port, read off the trace. */
  lemma PortStep(cfg: ConnectCfg, trace: seq<Step>, n: nat, port: nat, d: Dst)
    requires n < |trace|
    ensures Found(cfg, trace[..n + 1], port) == Some(d)
       <==> Brings(cfg, trace, n, port, d)
            || (Found(cfg, trace[..n], port) == Some(d) && !Uses(cfg, trace, n, port))
  {
    AfterSnoc(cfg, trace, n);
    UsesIsTouches(cfg, trace, n, port);
    if trace[n].SockOps? {
      CookieIff(cfg, trace, n, trace[n].cookie, d);
    }
  }

  /** Some SYN brought `d` to the port, and nobody has used the port since. */
  ghost predicate Waiting(cfg: ConnectCfg, trace: seq<Step>, k: nat, port: nat, d: Dst)
    requires k <= |trace|
  {
    exists j :: 0 <= j < k && Brings(cfg, trace, j, port, d) && forall n :: j < n < k ==> !Uses(cfg, trace, n, port)
  }

  lemma WaitingStep(cfg: ConnectCfg, trace: seq<Step>, n: nat, port: nat, d: Dst)
    requires n < |trace|
    ensures Waiting(cfg, trace, n + 1, port, d)
       <==> Brings(cfg, trace, n, port, d) || (Waiting(cfg, trace, n, port, d) && !Uses(cfg, trace, n, port))
  {
    if Waiting(cfg, trace, n + 1, port, d) {
      var j :| 0 <= j < n + 1 && Brings(cfg, trace, j, port, d)
            && forall m :: j < m < n + 1 ==> !Uses(cfg, trace, m, port);
      assert j < n ==> Waiting(cfg, trace, n, port, d);
    }
  }

  /** Exactly when the hand-over works, for every trace: the accept at `k` finds `d` if and only if a
      socket connected to `d`, its SYN went out from the port before it connected to the fake range
      again, and since then nobody was accepted from the port and no other redirected socket's SYN
      went out from it. */
  lemma {:induction false} HandedOverIff(cfg: ConnectCfg, trace: seq<Step>, k: nat, port: nat, d: Dst)
    requires k <= |trace|
    ensures Found(cfg, trace[..k], port) == Some(d) <==> Waiting(cfg, trace, k, port, d)
    decreases k
  {
    if k > 0 {
      HandedOverIff(cfg, trace, k - 1, port, d);
      PortStep(cfg, trace, k - 1, port, d);
      WaitingStep(cfg, trace, k - 1, port, d);
    }
  }

  /** Original-destination hand-over: in every interleaving over any number of sockets, the accept
      from a redirected connection's port finds that connection's own destination, if its SYN
      follows before the same socket connects again and nobody else uses the port until then. */
  lemma HandedOver(cfg: ConnectCfg, trace: seq<Step>, i: nat, j: nat, k: nat, c: nat, p: nat, d: Dst)
    requires i < j < k <= |trace| && IsFake(cfg, d.ip)
    requires trace[i] == Connect(c, d) && trace[j] == SockOps(c, p) && Prompt(trace, i, j, c)
    requires forall n :: j < n < k ==> !Uses(cfg, trace, n, p)
    ensures Found(cfg, trace[..k], p) == Some(d)
  {
    assert forall m :: i < m < j ==> !Replaces(cfg, trace[m], c);
    assert Brings(cfg, trace, j, p, d);
    HandedOverIff(cfg, trace, k, p, d);
  }

  /** Both assumptions are needed: a port reused before accept hands over the later destination,
      and a socket that connects again before its SYN does too. */
  lemma AssumptionsNeeded(cfg: ConnectCfg, d1: Dst, d2: Dst)
    requires IsFake(cfg, d1.ip) && IsFake(cfg, d2.ip) && d1 != d2
    ensures Found(cfg, [Connect(1, d1), SockOps(1, 40000), Connect(2, d2), SockOps(2, 40000)], 40000) == Some(d2)
    ensures Found(cfg, [Connect(1, d1), Connect(1, d2), SockOps(1, 40000)], 40000) == Some(d2)
  {
    var t := [Connect(1, d1), SockOps(1, 40000), Connect(2, d2), SockOps(2, 40000)];
    HandedOver(cfg, t, 2, 3, 4, 2, 40000, d2);
    assert t[..4] == t;
    var u := [Connect(1, d1), Connect(1, d2), SockOps(1, 40000)];
    HandedOver(cfg, u, 1, 2, 3, 1, 40000, d2);
    assert u[..3] == u;
  }
}
