/** The connection registry: live connections, the ring of recently closed ones, and the
    cumulative per-outbound, per-domain, per-device and per-user tables. */
module Registry {
  import opened Wrappers
  import opened Bytes

  const CLOSED_RING_CAP: nat := 300
  const DOMAIN_STATS_CAP: nat := 4096
  const DEVICE_STATS_CAP: nat := 4096

  /** A connection; `body` stands for the fields that are only displayed. */
  datatype Conn = Conn(id: nat, target: string, outbound: string, source: Option<string>, user: Option<string>,
                       up: nat, down: nat, body: string)

  datatype Agg = Agg(conns: nat, up: nat, down: nat)
  datatype DeviceAgg = DeviceAgg(conns: nat, up: nat, down: nat, last: nat)
  datatype UserAgg = UserAgg(conns: nat, up: nat, down: nat, active: nat)

  datatype Tables = Tables(nextId: nat, live: map<nat, Conn>, closed: seq<Conn>, outbound: map<string, Agg>,
                           domain: map<string, Agg>, device: map<string, DeviceAgg>, user: map<string, UserAgg>)

  /** What happens to the registry. A victim is the entry eviction would pick if it had to. */
  datatype Event =
    | Register(target: string, outbound: string, source: Option<string>, user: Option<string>, body: string,
               now: nat, domainVictim: string, deviceVictim: string)
    | Count(id: nat, up: nat, down: nat)
    | Drop(id: nat, domainVictim: string)

  const EMPTY: Tables := Tables(1, map[], [], map[], map[], map[], map[])

  // --------------------------------------------------------------- the steps

  /** Position of the last `c`, or the length. */
  function RFind(s: string, c: char): (i: nat)
    ensures i <= |s| && (i < |s| ==> s[i] == c && c !in s[i + 1..]) && (i == |s| ==> c !in s)
  {
    if c !in s then |s|
    else
      var n := |s| - 1;
      if s[n] == c then n
      else
        var i := RFind(s[..n], c);
        assert c in s[..n];
        assert s[i + 1..] == s[..n][i + 1..] + [s[n]];
        i
  }

  /** The host of `host:port`, keeping the brackets of an IPv6 literal. */
  function TargetHost(target: string): string
  {
    var bracket, colon := RFind(target, ']'), RFind(target, ':');
    if bracket < |target| then target[..bracket + 1]
    else if 0 < colon < |target| then target[..colon]
    else target
  }

  /** A port is cut off, and the port alone: `host:port` gives back the host, also in brackets. */
  lemma TargetHostRoundTrip(host: string, port: string)
    requires host != "" && ':' !in port && ']' !in port
    requires ']' !in host || host[|host| - 1] == ']'
    ensures TargetHost(host + ":" + port) == host
  {
    var t := host + ":" + port;
    LastAt(host, ':', port);
    if ']' in host {
      var inner := host[..|host| - 1];
      assert t == inner + [']'] + (":" + port);
      LastAt(inner, ']', ":" + port);
      assert t[..|host|] == host;
    } else {
      assert ']' !in t;
      assert t[..|host|] == host;
    }
  }

  /** Without a colon and a bracket, and with nothing before the last colon, the target is its own host. */
  lemma TargetHostWhole(target: string)
    requires ']' !in target && (':' in target ==> exists port :: target == ":" + port && ':' !in port)
    ensures TargetHost(target) == target
  {
    if ':' in target {
      var port :| target == ":" + port && ':' !in port;
      assert target == [] + [':'] + port;
      LastAt([], ':', port);
    }
  }

  lemma {:induction false} LastAt(a: string, c: char, b: string)
    requires c !in b
    ensures RFind(a + [c] + b, c) == |a|
  {
    var s := a + [c] + b;
    assert s[|a|] == c;
    var i := RFind(s, c);
    assert forall k :: |a| < k < |s| ==> s[k] == b[k - |a| - 1];
    assert forall k :: i < k < |s| ==> s[k] in s[i + 1..] by {
      forall k | i < k < |s| ensures s[k] in s[i + 1..] {
        assert s[k] == s[i + 1..][k - i - 1];
      }
    }
  }

  function AggOf(t: map<string, Agg>, k: string): Agg { if k in t then t[k] else Agg(0, 0, 0) }
  function UserOf(t: map<string, UserAgg>, k: string): UserAgg { if k in t then t[k] else UserAgg(0, 0, 0, 0) }

  /** The table with room for `k`: full and without it, the victim goes. */
  function MakeRoom<V>(t: map<string, V>, k: string, cap: nat, victim: string): map<string, V>
  {
    if k !in t && |t| >= cap then t - {victim} else t
  }

  function AddConn(a: Agg): Agg { a.(conns := a.conns + 1) }
  function AddBytes(a: Agg, c: Conn): Agg { a.(up := a.up + c.up, down := a.down + c.down) }

  function RegisterDevice(t: map<string, DeviceAgg>, source: Option<string>, now: nat,
                          victim: string): map<string, DeviceAgg>
  {
    if source.None? then t
    else
      var src := source.value;
      var room := MakeRoom(t, src, DEVICE_STATS_CAP, victim);
      var d := if src in room then room[src] else DeviceAgg(0, 0, 0, now);
      room[src := d.(conns := d.conns + 1, last := now)]
  }

  function RegisterDomain(t: map<string, Agg>, target: string, victim: string): map<string, Agg>
  {
    var host := TargetHost(target);
    var room := MakeRoom(t, host, DOMAIN_STATS_CAP, victim);
    room[host := AddConn(AggOf(room, host))]
  }

  function DropDomain(t: map<string, Agg>, c: Conn, victim: string): map<string, Agg>
  {
    var host := TargetHost(c.target);
    var room := MakeRoom(t, host, DOMAIN_STATS_CAP, victim);
    room[host := AddBytes(AggOf(room, host), c)]
  }

  function RegisterUser(t: map<string, UserAgg>, user: Option<string>): map<string, UserAgg>
  {
    if user.None? then t
    else
      var a := UserOf(t, user.value);
      t[user.value := a.(conns := a.conns + 1, active := a.active + 1)]
  }

  function DropDevice(t: map<string, DeviceAgg>, c: Conn): map<string, DeviceAgg>
  {
    if c.source.None? || c.source.value !in t then t
    else
      var d := t[c.source.value];
      t[c.source.value := d.(up := d.up + c.up, down := d.down + c.down)]
  }

  function DropUser(t: map<string, UserAgg>, c: Conn): map<string, UserAgg>
  {
    if c.user.None? then t
    else
      var a := UserOf(t, c.user.value);
      t[c.user.value := a.(up := a.up + c.up, down := a.down + c.down, active := SaturatingSub(a.active, 1))]
  }

  function NewConn(t: Tables, e: Event): Conn
    requires e.Register?
  {
    Conn(t.nextId, e.target, e.outbound, e.source, e.user, 0, 0, e.body)
  }

  /** Pushes onto the ring, letting the oldest go when it is full. */
  function Push(ring: seq<Conn>, c: Conn): seq<Conn>
  {
    (if |ring| >= CLOSED_RING_CAP then ring[1..] else ring) + [c]
  }

  function StepRegister(t: Tables, e: Event): Tables
    requires e.Register?
  {
    Tables(t.nextId + 1, t.live[t.nextId := NewConn(t, e)], t.closed,
           t.outbound[e.outbound := AddConn(AggOf(t.outbound, e.outbound))],
           RegisterDomain(t.domain, e.target, e.domainVictim),
           RegisterDevice(t.device, e.source, e.now, e.deviceVictim), RegisterUser(t.user, e.user))
  }

  function StepDrop(t: Tables, c: Conn, domainVictim: string): Tables
  {
    Tables(t.nextId, t.live - {c.id}, Push(t.closed, c),
           t.outbound[c.outbound := AddBytes(AggOf(t.outbound, c.outbound), c)],
           DropDomain(t.domain, c, domainVictim),
           DropDevice(t.device, c), DropUser(t.user, c))
  }

  /** A counter or guard refers to a live connection; nothing happens otherwise. */
  function Step(t: Tables, e: Event): Tables
  {
    match e
    case Register(_, _, _, _, _, _, _, _) => StepRegister(t, e)
    case Count(id, up, down) =>
      if id in t.live then
        t.(live := t.live[id := t.live[id].(up := t.live[id].up + up, down := t.live[id].down + down)])
      else t
    case Drop(id, victim) => if id in t.live then StepDrop(t, t.live[id], victim) else t
  }

  /** Eviction only ever picks entries that are there. */
  predicate VictimsExist(t: Tables, e: Event)
  {
    match e
    case Register(target, _, source, _, _, _, dv, sv) =>
      && (TargetHost(target) !in t.domain && |t.domain| >= DOMAIN_STATS_CAP ==> dv in t.domain)
      && (source.Some? && source.value !in t.device && |t.device| >= DEVICE_STATS_CAP ==> sv in t.device)
    case Count(_, _, _) => true
    case Drop(id, dv) =>
      id in t.live && TargetHost(t.live[id].target) !in t.domain && |t.domain| >= DOMAIN_STATS_CAP ==> dv in t.domain
  }

  // ------------------------------------------------------------- the objects

  predicate LexAtMost(a: (nat, nat), b: (nat, nat)) { a.0 < b.0 || (a.0 == b.0 && a.1 <= b.1) }

  /** Eviction weights: traffic then connections when a domain is counted, traffic alone when it is
      settled, the last sighting for a device. */
  function BusyWeight(a: Agg): (nat, nat) { (a.up + a.down, a.conns) }
  function TrafficWeight(a: Agg): (nat, nat) { (a.up + a.down, 0) }
  function SeenWeight(a: DeviceAgg): (nat, nat) { (a.last, 0) }

  ghost predicate Least<V>(t: map<string, V>, k: string, weight: V -> (nat, nat))
  {
    k in t && forall x :: x in t ==> LexAtMost(weight(t[k]), weight(t[x]))
  }

  /** What the weights mean: a counted domain gives way to none with less traffic, or with as much and
      fewer connections; a settled one to none with less traffic; a device to none seen earlier. */
  lemma WeightsMean(t: map<string, Agg>, d: map<string, DeviceAgg>, k: string)
    ensures Least(t, k, BusyWeight) <==> k in t && forall x :: x in t ==>
              var mine, other := t[k].up + t[k].down, t[x].up + t[x].down;
              mine < other || (mine == other && t[k].conns <= t[x].conns)
    ensures Least(t, k, TrafficWeight) <==> k in t && forall x :: x in t ==> t[k].up + t[k].down <= t[x].up + t[x].down
    ensures Least(d, k, SeenWeight) <==> k in d && forall x :: x in d ==> d[k].last <= d[x].last
  {
  }

  /** Eviction picks the least entry of a full table. */
  ghost predicate VictimsLeast(t: Tables, e: Event)
  {
    match e
    case Register(target, _, source, _, _, _, dv, sv) =>
      && (TargetHost(target) !in t.domain && |t.domain| >= DOMAIN_STATS_CAP ==> Least(t.domain, dv, BusyWeight))
      && (source.Some? && source.value !in t.device && |t.device| >= DEVICE_STATS_CAP ==>
            Least(t.device, sv, SeenWeight))
    case Count(_, _, _) => true
    case Drop(id, dv) =>
      id in t.live && TargetHost(t.live[id].target) !in t.domain && |t.domain| >= DOMAIN_STATS_CAP ==>
        Least(t.domain, dv, TrafficWeight)
  }

  /** A key with the least weight, as `min_by_key` picks one. */
  method LeastKey<V>(t: map<string, V>, weight: V -> (nat, nat)) returns (k: string)
    requires t != map[]
    ensures Least(t, k, weight)
  {
    k :| k in t;
    var rest := t.Keys - {k};
    while rest != {}
      invariant rest <= t.Keys && k in t && forall x :: x in t && x !in rest ==> LexAtMost(weight(t[k]), weight(t[x]))
      decreases rest
    {
      var x :| x in rest;
      if !LexAtMost(weight(t[k]), weight(t[x])) {
        k := x;
      }
      rest := rest - {x};
    }
  }

  /** Makes room for a key by dropping an entry of least weight from a full table. */
  method EvictFor<V>(t: map<string, V>, k: string, cap: nat, weight: V -> (nat, nat))
    returns (t': map<string, V>, victim: string)
    requires cap > 0
    ensures t' == MakeRoom(t, k, cap, victim)
    ensures k !in t && |t| >= cap ==> Least(t, victim, weight)
  {
    t', victim := t, "";
    if k !in t && |t| >= cap {
      victim := LeastKey(t, weight);
      t' := t - {victim};
    }
  }

  class ConnRegistry {
    var nextId: nat
    var live: map<nat, Conn>
    var closed: seq<Conn>
    var outbound: map<string, Agg>
    var domain: map<string, Agg>
    var device: map<string, DeviceAgg>
    var user: map<string, UserAgg>

    ghost function State(): Tables
      reads this
    {
      Tables(nextId, live, closed, outbound, domain, device, user)
    }

    constructor ()
      ensures State() == EMPTY
    {
      nextId, live, closed, outbound, domain, device, user := 1, map[], [], map[], map[], map[], map[];
    }

    /** Registers a connection: counted in every table, then live under a fresh id. */
    method RegisterConn(target: string, out: string, source: Option<string>, name: Option<string>, body: string,
                        now: nat)
      returns (id: nat, ghost e: Event)
      modifies this
      ensures e.Register? && e.target == target && e.outbound == out && e.source == source && e.user == name
      ensures e.body == body && e.now == now
      ensures VictimsExist(old(State()), e) && VictimsLeast(old(State()), e) && State() == Step(old(State()), e)
      ensures id == old(nextId) && nextId == id + 1
      ensures live == old(live)[id := Conn(id, target, out, source, name, 0, 0, body)] && closed == old(closed)
    {
      id := nextId;
      var domainVictim, deviceVictim := CountEverywhere(target, out, source, name, now);
      live := live[id := Conn(id, target, out, source, name, 0, 0, body)];
      nextId := nextId + 1;
      e := Register(target, out, source, name, body, now, domainVictim, deviceVictim);
    }

    /** The four cumulative tables. */
    method CountEverywhere(target: string, out: string, source: Option<string>, name: Option<string>, now: nat)
      returns (domainVictim: string, deviceVictim: string)
      modifies this`outbound, this`domain, this`device, this`user
      ensures outbound == old(outbound)[out := AddConn(AggOf(old(outbound), out))]
      ensures domain == RegisterDomain(old(domain), target, domainVictim)
      ensures device == RegisterDevice(old(device), source, now, deviceVictim)
      ensures user == RegisterUser(old(user), name)
      ensures TargetHost(target) !in old(domain) && |old(domain)| >= DOMAIN_STATS_CAP ==>
                Least(old(domain), domainVictim, BusyWeight)
      ensures source.Some? && source.value !in old(device) && |old(device)| >= DEVICE_STATS_CAP ==>
                Least(old(device), deviceVictim, SeenWeight)
    {
      CountOutbound(out);
      domainVictim := CountDomain(target);
      deviceVictim := CountDevice(source, now);
      CountUser(name);
    }

    method CountOutbound(out: string)
      modifies this`outbound
      ensures outbound == old(outbound)[out := AddConn(AggOf(old(outbound), out))]
    {
      var agg := if out in outbound then outbound[out] else Agg(0, 0, 0);
      outbound := outbound[out := agg.(conns := agg.conns + 1)];
    }

    method CountDomain(target: string) returns (victim: string)
      modifies this`domain
      ensures domain == RegisterDomain(old(domain), target, victim)
      ensures TargetHost(target) !in old(domain) && |old(domain)| >= DOMAIN_STATS_CAP ==>
                Least(old(domain), victim, BusyWeight)
    {
      var host := TargetHost(target);
      domain, victim := EvictFor(domain, host, DOMAIN_STATS_CAP, BusyWeight);
      var d := if host in domain then domain[host] else Agg(0, 0, 0);
      domain := domain[host := d.(conns := d.conns + 1)];
    }

    method CountDevice(source: Option<string>, now: nat) returns (victim: string)
      modifies this`device
      ensures device == RegisterDevice(old(device), source, now, victim)
      ensures source.Some? && source.value !in old(device) && |old(device)| >= DEVICE_STATS_CAP ==>
                Least(old(device), victim, SeenWeight)
    {
      victim := "";
      if source.Some? {
        var src := source.value;
        device, victim := EvictFor(device, src, DEVICE_STATS_CAP, SeenWeight);
        var d := if src in device then device[src] else DeviceAgg(0, 0, 0, now);
        device := device[src := d.(conns := d.conns + 1, last := now)];
      }
    }

    method CountUser(name: Option<string>)
      modifies this`user
      ensures user == RegisterUser(old(user), name)
    {
      if name.Some? {
        var u := if name.value in user then user[name.value] else UserAgg(0, 0, 0, 0);
        user := user[name.value := u.(conns := u.conns + 1, active := u.active + 1)];
      }
    }

    /** Ends a connection: off the live table, onto the ring, its bytes onto the totals. */
    method DropConn(id: nat) returns (ghost e: Event)
      requires id in live && live[id].id == id
      modifies this
      ensures e.Drop? && e.id == id
      ensures live == old(live) - {id} && nextId == old(nextId) && closed != [] && closed[|closed| - 1] == old(live)[id]
      ensures VictimsExist(old(State()), e) && VictimsLeast(old(State()), e) && State() == Step(old(State()), e)
    {
      var c := live[id];
      Close(c);
      var victim := SettleDomain(c);
      SettleDeviceAndUser(c);
      e := Drop(id, victim);
    }

    method Close(c: Conn)
      modifies this`live, this`closed, this`outbound
      ensures live == old(live) - {c.id} && closed == Push(old(closed), c)
      ensures outbound == old(outbound)[c.outbound := AddBytes(AggOf(old(outbound), c.outbound), c)]
    {
      live := live - {c.id};
      if |closed| >= CLOSED_RING_CAP {
        closed := closed[1..];
      }
      closed := closed + [c];
      var agg := if c.outbound in outbound then outbound[c.outbound] else Agg(0, 0, 0);
      outbound := outbound[c.outbound := agg.(up := agg.up + c.up, down := agg.down + c.down)];
    }

    method SettleDomain(c: Conn) returns (victim: string)
      modifies this`domain
      ensures domain == DropDomain(old(domain), c, victim)
      ensures TargetHost(c.target) !in old(domain) && |old(domain)| >= DOMAIN_STATS_CAP ==>
                Least(old(domain), victim, TrafficWeight)
    {
      var host := TargetHost(c.target);
      domain, victim := EvictFor(domain, host, DOMAIN_STATS_CAP, TrafficWeight);
      var d := if host in domain then domain[host] else Agg(0, 0, 0);
      domain := domain[host := d.(up := d.up + c.up, down := d.down + c.down)];
    }

    method SettleDeviceAndUser(c: Conn)
      modifies this`device, this`user
      ensures device == DropDevice(old(device), c) && user == DropUser(old(user), c)
    {
      if c.source.Some? && c.source.value in device {
        var x := device[c.source.value];
        device := device[c.source.value := x.(up := x.up + c.up, down := x.down + c.down)];
      }
      if c.user.Some? {
        var u := if c.user.value in user then user[c.user.value] else UserAgg(0, 0, 0, 0);
        user := user[c.user.value := u.(up := u.up + c.up, down := u.down + c.down,
                                        active := SaturatingSub(u.active, 1))];
      }
    }

    method CountBytes(id: nat, up: nat, down: nat)
      modifies this`live
      ensures State() == Step(old(State()), Count(id, up, down))
    {
      if id in live {
        var c := live[id];
        live := live[id := c.(up := c.up + up, down := c.down + down)];
      }
    }
  }
}
