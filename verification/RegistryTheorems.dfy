/** Conservation over every run of the registry: its tables always agree with the history of
    registrations, byte counts and drops. */
module RegistryTheorems {
  import opened Wrappers
  import opened Bytes
  import opened Registry

  // ------------------------------------------------------------ the history

  /** The connections registered and dropped so far, each dropped one with its final byte counts,
      and every byte count that reached a live connection. */
  datatype History = History(registered: seq<Conn>, dropped: seq<Conn>, counts: seq<(nat, nat, nat)>)

  datatype World = World(tables: Tables, history: History)

  function Record(t: Tables, h: History, e: Event): History
  {
    match e
    case Register(_, _, _, _, _, _, _, _) => h.(registered := h.registered + [NewConn(t, e)])
    case Count(id, up, down) => if id in t.live then h.(counts := h.counts + [(id, up, down)]) else h
    case Drop(id, _) => if id in t.live then h.(dropped := h.dropped + [t.live[id]]) else h
  }

  function Next(w: World, e: Event): World { World(Step(w.tables, e), Record(w.tables, w.history, e)) }

  const START: World := World(EMPTY, History([], [], []))

  function After(run: seq<Event>): World
  {
    if run == [] then START else Next(After(run[..|run| - 1]), run[|run| - 1])
  }

  ghost predicate RunOk(run: seq<Event>)
  {
    forall i :: 0 <= i < |run| ==> VictimsExist(After(run[..i]).tables, run[i])
  }

  function CountBy(cs: seq<Conn>, p: Conn -> bool): nat
  {
    if cs == [] then 0 else CountBy(cs[..|cs| - 1], p) + if p(cs[|cs| - 1]) then 1 else 0
  }

  function SumUp(cs: seq<Conn>, p: Conn -> bool): nat
  {
    if cs == [] then 0 else SumUp(cs[..|cs| - 1], p) + if p(cs[|cs| - 1]) then cs[|cs| - 1].up else 0
  }

  function SumDown(cs: seq<Conn>, p: Conn -> bool): nat
  {
    if cs == [] then 0 else SumDown(cs[..|cs| - 1], p) + if p(cs[|cs| - 1]) then cs[|cs| - 1].down else 0
  }

  datatype Total = Total(up: nat, down: nat)

  /** The bytes counted for one connection. */
  function CountedFor(counts: seq<(nat, nat, nat)>, id: nat): Total
  {
    if counts == [] then Total(0, 0)
    else
      var before, c := CountedFor(counts[..|counts| - 1], id), counts[|counts| - 1];
      if c.0 == id then Total(before.up + c.1, before.down + c.2) else before
  }

  function Via(o: string): Conn -> bool { (c: Conn) => c.outbound == o }
  function Of(u: string): Conn -> bool { (c: Conn) => c.user == Some(u) }

  lemma SnocSums(cs: seq<Conn>, c: Conn, p: Conn -> bool)
    ensures CountBy(cs + [c], p) == CountBy(cs, p) + if p(c) then 1 else 0
    ensures SumUp(cs + [c], p) == SumUp(cs, p) + if p(c) then c.up else 0
    ensures SumDown(cs + [c], p) == SumDown(cs, p) + if p(c) then c.down else 0
  {
    assert (cs + [c])[..|cs|] == cs;
  }

  // -------------------------------------------------- outbounds: connections and bytes

  ghost predicate OutboundsAgree(w: World)
  {
    forall o :: AggOf(w.tables.outbound, o)
             == Agg(CountBy(w.history.registered, Via(o)), SumUp(w.history.dropped, Via(o)),
                    SumDown(w.history.dropped, Via(o)))
  }

  lemma OutboundsStep(w: World, e: Event)
    requires OutboundsAgree(w)
    ensures OutboundsAgree(Next(w, e))
  {
    var w' := Next(w, e);
    forall o
      ensures AggOf(w'.tables.outbound, o)
           == Agg(CountBy(w'.history.registered, Via(o)), SumUp(w'.history.dropped, Via(o)),
                  SumDown(w'.history.dropped, Via(o)))
    {
      match e
      case Register(_, _, _, _, _, _, _, _) => SnocSums(w.history.registered, NewConn(w.tables, e), Via(o));
      case Count(_, _, _) =>
      case Drop(id, _) =>
        if id in w.tables.live {
          SnocSums(w.history.dropped, w.tables.live[id], Via(o));
        }
    }
  }

  // ----------------------------------------------------- users: live connections

  function LiveCount(live: map<nat, Conn>, u: string): nat { |LiveOf(live, u)| }
  function LiveOf(live: map<nat, Conn>, u: string): set<nat> { set id | id in live && live[id].user == Some(u) }

  predicate UserCounted(users: map<string, UserAgg>, live: map<nat, Conn>, h: History, u: string)
  {
    UserOf(users, u) == UserAgg(CountBy(h.registered, Of(u)), SumUp(h.dropped, Of(u)), SumDown(h.dropped, Of(u)),
                                LiveCount(live, u))
  }

  predicate UserAgrees(w: World, u: string) { UserCounted(w.tables.user, w.tables.live, w.history, u) }

  ghost predicate UsersAgree(w: World) { forall u :: UserAgrees(w, u) }

  lemma {:induction false} UserRegister(users: map<string, UserAgg>, live: map<nat, Conn>, h: History, id: nat,
                                        c: Conn, u: string)
    requires UserCounted(users, live, h, u) && id !in live && c.up == c.down == 0
    ensures UserCounted(RegisterUser(users, c.user), live[id := c], h.(registered := h.registered + [c]), u)
  {
    SnocSums(h.registered, c, Of(u));
    LiveInsert(live, id, c, u);
  }

  lemma UserDrop(users: map<string, UserAgg>, live: map<nat, Conn>, h: History, id: nat, u: string)
    requires UserCounted(users, live, h, u) && id in live && live[id].id == id
    ensures UserCounted(DropUser(users, live[id]), live - {id}, h.(dropped := h.dropped + [live[id]]), u)
  {
    SnocSums(h.dropped, live[id], Of(u));
    LiveRemove(live, id, u);
  }

  lemma UsersStep(w: World, e: Event)
    requires UsersAgree(w) && IdsAgree(w)
    ensures UsersAgree(Next(w, e))
  {
    forall u ensures UserAgrees(Next(w, e), u) {
      assert UserAgrees(w, u);
      match e
      case Register(_, _, _, _, _, _, _, _) =>
        UserRegister(w.tables.user, w.tables.live, w.history, w.tables.nextId, NewConn(w.tables, e), u);
      case Count(_, _, _) => assert LiveOf(Next(w, e).tables.live, u) == LiveOf(w.tables.live, u);
      case Drop(id, _) =>
        if id in w.tables.live {
          UserDrop(w.tables.user, w.tables.live, w.history, id, u);
        }
    }
  }

  lemma LiveInsert(live: map<nat, Conn>, id: nat, c: Conn, u: string)
    requires id !in live
    ensures LiveCount(live[id := c], u) == LiveCount(live, u) + if c.user == Some(u) then 1 else 0
  {
    if c.user == Some(u) {
      assert LiveOf(live[id := c], u) == LiveOf(live, u) + {id};
    } else {
      assert LiveOf(live[id := c], u) == LiveOf(live, u);
    }
  }

  lemma LiveRemove(live: map<nat, Conn>, id: nat, u: string)
    requires id in live
    ensures LiveCount(live - {id}, u) == LiveCount(live, u) - if live[id].user == Some(u) then 1 else 0
  {
    if live[id].user == Some(u) {
      assert LiveOf(live - {id}, u) == LiveOf(live, u) - {id};
    } else {
      assert LiveOf(live - {id}, u) == LiveOf(live, u);
    }
  }

  // -------------------------------------------------------- ids, ring and caps

  /** A connection carries exactly the bytes counted for it. */
  predicate Carries(c: Conn, counts: seq<(nat, nat, nat)>) { Total(c.up, c.down) == CountedFor(counts, c.id) }

  /** Live connections are filed under their own, already issued ids. */
  ghost predicate LiveAgree(t: Tables, h: History)
  {
    forall id :: id in t.live ==> id < t.nextId && t.live[id].id == id && Carries(t.live[id], h.counts)
  }

  ghost predicate DroppedAgree(t: Tables, h: History)
  {
    forall d :: d in h.dropped ==> d.id < t.nextId && d.id !in t.live && Carries(d, h.counts)
  }

  ghost predicate CountsIssued(t: Tables, h: History)
  {
    forall i :: 0 <= i < |h.counts| ==> h.counts[i].0 < t.nextId
  }

  ghost predicate SizesAgree(t: Tables, h: History) { |t.live| + |h.dropped| == |h.registered| }

  ghost predicate IdsAgree(w: World)
  {
    && LiveAgree(w.tables, w.history) && DroppedAgree(w.tables, w.history)
    && CountsIssued(w.tables, w.history) && SizesAgree(w.tables, w.history)
  }

  lemma {:induction false} NothingCounted(counts: seq<(nat, nat, nat)>, id: nat)
    requires forall i :: 0 <= i < |counts| ==> counts[i].0 < id
    ensures CountedFor(counts, id) == Total(0, 0)
  {
    if counts != [] {
      NothingCounted(counts[..|counts| - 1], id);
    }
  }

  lemma CountedSnoc(counts: seq<(nat, nat, nat)>, c: (nat, nat, nat), id: nat)
    ensures var before := CountedFor(counts, id);
            CountedFor(counts + [c], id) == if c.0 == id then Total(before.up + c.1, before.down + c.2) else before
  {
    assert (counts + [c])[..|counts|] == counts;
  }

  lemma PutSize(live: map<nat, Conn>, id: nat, c: Conn)
    ensures |live[id := c]| == |live| + if id in live then 0 else 1
  {
    assert live[id := c].Keys == live.Keys + {id};
    assert |live[id := c].Keys| == |live[id := c]|;
    if id in live {
      assert live.Keys + {id} == live.Keys;
    }
  }

  lemma RemoveSize(live: map<nat, Conn>, id: nat)
    requires id in live
    ensures |live - {id}| == |live| - 1
  {
    assert (live - {id}).Keys == live.Keys - {id};
    assert |(live - {id}).Keys| == |live - {id}|;
  }

  lemma SizesStep(w: World, e: Event)
    requires LiveAgree(w.tables, w.history) && SizesAgree(w.tables, w.history)
    ensures SizesAgree(Next(w, e).tables, Next(w, e).history)
  {
    var t := w.tables;
    match e
    case Register(_, _, _, _, _, _, _, _) => PutSize(t.live, t.nextId, NewConn(t, e));
    case Count(id, up, down) =>
      if id in t.live {
        PutSize(t.live, id, t.live[id].(up := t.live[id].up + up, down := t.live[id].down + down));
      }
    case Drop(id, _) =>
      if id in t.live {
        RemoveSize(t.live, id);
      }
  }

  lemma IdsRegister(w: World, e: Event)
    requires IdsAgree(w) && e.Register?
    ensures LiveAgree(Next(w, e).tables, Next(w, e).history) && DroppedAgree(Next(w, e).tables, Next(w, e).history)
  {
    NothingCounted(w.history.counts, w.tables.nextId);
  }

  lemma IdsCount(w: World, e: Event)
    requires IdsAgree(w) && e.Count? && e.id in w.tables.live
    ensures LiveAgree(Next(w, e).tables, Next(w, e).history) && DroppedAgree(Next(w, e).tables, Next(w, e).history)
  {
    var t, h, w' := w.tables, w.history, Next(w, e);
    var c := (e.id, e.up, e.down);
    assert w'.history.counts == h.counts + [c];
    forall id | id in w'.tables.live ensures Carries(w'.tables.live[id], h.counts + [c]) {
      assert Carries(t.live[id], h.counts);
      CountedSnoc(h.counts, c, id);
    }
    forall d | d in h.dropped ensures Carries(d, h.counts + [c]) {
      CountedSnoc(h.counts, c, d.id);
    }
  }

  lemma IdsDrop(w: World, e: Event)
    requires IdsAgree(w) && e.Drop? && e.id in w.tables.live
    ensures LiveAgree(Next(w, e).tables, Next(w, e).history) && DroppedAgree(Next(w, e).tables, Next(w, e).history)
  {
    assert Next(w, e).history.dropped == w.history.dropped + [w.tables.live[e.id]];
  }

  lemma IdsStep(w: World, e: Event)
    requires IdsAgree(w)
    ensures IdsAgree(Next(w, e))
  {
    SizesStep(w, e);
    match e
    case Register(_, _, _, _, _, _, _, _) => IdsRegister(w, e);
    case Count(id, _, _) =>
      if id in w.tables.live {
        IdsCount(w, e);
      }
    case Drop(id, _) =>
      if id in w.tables.live {
        IdsDrop(w, e);
      }
  }

  function LastOf(s: seq<Conn>, n: nat): seq<Conn> { if |s| <= n then s else s[|s| - n..] }

  lemma RingStep(w: World, e: Event)
    requires w.tables.closed == LastOf(w.history.dropped, CLOSED_RING_CAP)
    ensures Next(w, e).tables.closed == LastOf(Next(w, e).history.dropped, CLOSED_RING_CAP)
  {
  }

  lemma RoomSize<V>(t: map<string, V>, k: string, cap: nat, victim: string, v: V)
    requires |t| <= cap && (k !in t && |t| >= cap ==> victim in t)
    ensures |MakeRoom(t, k, cap, victim)[k := v]| <= cap
  {
    var room := MakeRoom(t, k, cap, victim);
    if k !in t && |t| >= cap {
      assert room.Keys == t.Keys - {victim};
    }
    assert room[k := v].Keys == room.Keys + {k};
    if k in t {
      assert room.Keys + {k} == room.Keys;
    }
  }

  ghost predicate WithinCaps(t: Tables) { |t.domain| <= DOMAIN_STATS_CAP && |t.device| <= DEVICE_STATS_CAP }

  lemma CapsStep(t: Tables, e: Event)
    requires WithinCaps(t) && VictimsExist(t, e)
    ensures WithinCaps(Step(t, e))
  {
    match e
    case Register(target, _, source, _, _, now, dv, sv) =>
      var host := TargetHost(target);
      RoomSize(t.domain, host, DOMAIN_STATS_CAP, dv, RegisterDomain(t.domain, target, dv)[host]);
      if source.Some? {
        RoomSize(t.device, source.value, DEVICE_STATS_CAP, sv, RegisterDevice(t.device, source, now, sv)[source.value]);
      }
    case Count(_, _, _) =>
    case Drop(id, dv) =>
      if id in t.live {
        var c := t.live[id];
        RoomSize(t.domain, TargetHost(c.target), DOMAIN_STATS_CAP, dv,
                 DropDomain(t.domain, c, dv)[TargetHost(c.target)]);
        assert DropDevice(t.device, c).Keys == t.device.Keys;
        assert |DropDevice(t.device, c)| == |DropDevice(t.device, c).Keys|;
      }
  }

  // ------------------------------------------------------------ conservation

  lemma PrefixOfPrefix(run: seq<Event>, n: nat, i: nat)
    requires i < n <= |run|
    ensures run[..n][..i] == run[..i] && run[..n][i] == run[i]
  {
  }

  lemma RunOkPrefix(run: seq<Event>)
    requires run != [] && RunOk(run)
    ensures RunOk(run[..|run| - 1]) && VictimsExist(After(run[..|run| - 1]).tables, run[|run| - 1])
  {
    var n := |run| - 1;
    forall i | 0 <= i < n ensures VictimsExist(After(run[..n][..i]).tables, run[..n][i]) {
      PrefixOfPrefix(run, n, i);
    }
  }

  /** Over every run of register, count and drop from the empty registry: each outbound's
      connections equal its registrations and its bytes the final counts of its dropped connections;
      each user's active count is the number of that user's live connections; the live count is
      registrations minus drops; every connection carries exactly the bytes counted for it; the ring
      is the last 300 drops in order; and the domain and device tables stay within their caps. */
  lemma {:induction false} Conserved(run: seq<Event>)
    requires RunOk(run)
    ensures var w := After(run);
            && OutboundsAgree(w) && UsersAgree(w) && IdsAgree(w) && WithinCaps(w.tables)
            && w.tables.closed == LastOf(w.history.dropped, CLOSED_RING_CAP)
  {
    if run == [] {
      assert forall u :: LiveOf(map[], u) == {};
    } else {
      var n := |run| - 1;
      RunOkPrefix(run);
      Conserved(run[..n]);
      var w, e := After(run[..n]), run[n];
      OutboundsStep(w, e);
      UsersStep(w, e);
      IdsStep(w, e);
      CapsStep(w.tables, e);
      RingStep(w, e);
    }
  }

  // ----------------------------------------- domains and devices, up to eviction

  function To(h: string): Conn -> bool { (c: Conn) => TargetHost(c.target) == h }
  function From(s: string): Conn -> bool { (c: Conn) => c.source == Some(s) }

  /** The event finds the domain table full and lets the entry of `h` go. */
  predicate ForgetsDomain(t: Tables, e: Event, h: string)
  {
    match e
    case Register(target, _, _, _, _, _, victim, _) =>
      TargetHost(target) !in t.domain && |t.domain| >= DOMAIN_STATS_CAP && victim == h
    case Count(_, _, _) => false
    case Drop(id, victim) =>
      id in t.live && TargetHost(t.live[id].target) !in t.domain && |t.domain| >= DOMAIN_STATS_CAP && victim == h
  }

  predicate ForgetsDevice(t: Tables, e: Event, s: string)
  {
    && e.Register? && e.source.Some? && e.source.value !in t.device
    && |t.device| >= DEVICE_STATS_CAP && e.deviceVictim == s
  }

  ghost predicate DomainKept(run: seq<Event>, h: string)
  {
    forall i :: 0 <= i < |run| ==> !ForgetsDomain(After(run[..i]).tables, run[i], h)
  }

  ghost predicate DeviceKept(run: seq<Event>, s: string)
  {
    forall i :: 0 <= i < |run| ==> !ForgetsDevice(After(run[..i]).tables, run[i], s)
  }

  function DomainTotal(h: History, host: string): Agg
  {
    Agg(CountBy(h.registered, To(host)), SumUp(h.dropped, To(host)), SumDown(h.dropped, To(host)))
  }

  predicate AtMost(a: Agg, b: Agg) { a.conns <= b.conns && a.up <= b.up && a.down <= b.down }

  /** `b` counts all of `total` if `a` did and was not let go, and never more. */
  predicate Tracks(a: Agg, before: Agg, forgotten: bool, b: Agg, after: Agg)
  {
    (AtMost(a, before) ==> AtMost(b, after)) && (!forgotten && a == before ==> b == after)
  }

  lemma DomainCounted(t: map<string, Agg>, k: string, victim: string, host: string, total: Agg)
    ensures var room := MakeRoom(t, k, DOMAIN_STATS_CAP, victim);
            Tracks(AggOf(t, host), total, k !in t && |t| >= DOMAIN_STATS_CAP && victim == host,
                   AggOf(room[k := AddConn(AggOf(room, k))], host), if host == k then AddConn(total) else total)
  {
  }

  lemma DomainSettled(t: map<string, Agg>, k: string, victim: string, host: string, total: Agg, c: Conn)
    ensures var room := MakeRoom(t, k, DOMAIN_STATS_CAP, victim);
            Tracks(AggOf(t, host), total, k !in t && |t| >= DOMAIN_STATS_CAP && victim == host,
                   AggOf(room[k := AddBytes(AggOf(room, k), c)], host), if host == k then AddBytes(total, c) else total)
  {
  }

  ghost predicate DomainTracked(w: World, e: Event, host: string)
  {
    Tracks(AggOf(w.tables.domain, host), DomainTotal(w.history, host), ForgetsDomain(w.tables, e, host),
           AggOf(Next(w, e).tables.domain, host), DomainTotal(Next(w, e).history, host))
  }

  lemma TotalCounted(h: History, c: Conn, host: string)
    ensures DomainTotal(h.(registered := h.registered + [c]), host)
         == if host == TargetHost(c.target) then AddConn(DomainTotal(h, host)) else DomainTotal(h, host)
  {
    SnocSums(h.registered, c, To(host));
  }

  lemma TotalSettled(h: History, c: Conn, host: string)
    ensures DomainTotal(h.(dropped := h.dropped + [c]), host)
         == if host == TargetHost(c.target) then AddBytes(DomainTotal(h, host), c) else DomainTotal(h, host)
  {
    SnocSums(h.dropped, c, To(host));
  }

  lemma DomainRegister(w: World, e: Event, host: string)
    requires e.Register?
    ensures DomainTracked(w, e, host)
  {
    TotalCounted(w.history, NewConn(w.tables, e), host);
    DomainCounted(w.tables.domain, TargetHost(e.target), e.domainVictim, host, DomainTotal(w.history, host));
  }

  lemma {:induction false} DomainDrop(w: World, e: Event, host: string)
    requires e.Drop? && e.id in w.tables.live
    ensures DomainTracked(w, e, host)
  {
    var c := w.tables.live[e.id];
    TotalSettled(w.history, c, host);
    DomainSettled(w.tables.domain, TargetHost(c.target), e.domainVictim, host, DomainTotal(w.history, host), c);
  }

  lemma {:induction false} DomainStep(w: World, e: Event, host: string)
    ensures DomainTracked(w, e, host)
  {
    match e
    case Register(_, _, _, _, _, _, _, _) => DomainRegister(w, e, host);
    case Count(_, _, _) =>
    case Drop(id, _) =>
      if id in w.tables.live {
        DomainDrop(w, e, host);
      }
  }

  lemma DomainKeptPrefix(run: seq<Event>, host: string)
    requires run != [] && DomainKept(run, host)
    ensures DomainKept(run[..|run| - 1], host) && !ForgetsDomain(After(run[..|run| - 1]).tables, run[|run| - 1], host)
  {
    var n := |run| - 1;
    forall i | 0 <= i < n ensures !ForgetsDomain(After(run[..n][..i]).tables, run[..n][i], host) {
      PrefixOfPrefix(run, n, i);
    }
  }

  lemma {:induction false} DeviceKeptPrefix(run: seq<Event>, s: string)
    requires run != [] && DeviceKept(run, s)
    ensures DeviceKept(run[..|run| - 1], s) && !ForgetsDevice(After(run[..|run| - 1]).tables, run[|run| - 1], s)
  {
    var n := |run| - 1;
    forall i | 0 <= i < n ensures !ForgetsDevice(After(run[..n][..i]).tables, run[..n][i], s) {
      PrefixOfPrefix(run, n, i);
    }
  }

  /** A domain's entry never counts more than what happened, and counts all of it as long as no
      eviction picked that domain. */
  lemma {:induction false} DomainConserved(run: seq<Event>, host: string)
    ensures AtMost(AggOf(After(run).tables.domain, host), DomainTotal(After(run).history, host))
    ensures DomainKept(run, host) ==> AggOf(After(run).tables.domain, host) == DomainTotal(After(run).history, host)
  {
    if run != [] {
      var n := |run| - 1;
      DomainConserved(run[..n], host);
      if DomainKept(run, host) {
        DomainKeptPrefix(run, host);
      }
      DomainStep(After(run[..n]), run[n], host);
    }
  }

  /** The time of the last registration from a source. */
  function LastSeen(run: seq<Event>, s: string): Option<nat>
  {
    if run == [] then None
    else if run[|run| - 1].Register? && run[|run| - 1].source == Some(s) then Some(run[|run| - 1].now)
    else LastSeen(run[..|run| - 1], s)
  }

  function DeviceTotal(h: History, s: string, last: nat): DeviceAgg
  {
    DeviceAgg(CountBy(h.registered, From(s)), SumUp(h.dropped, From(s)), SumDown(h.dropped, From(s)), last)
  }

  predicate NothingFrom(h: History, s: string)
  {
    CountBy(h.registered, From(s)) == 0 && SumUp(h.dropped, From(s)) == 0 && SumDown(h.dropped, From(s)) == 0
  }

  /** A source without a registration has no entry; any other has its totals. */
  ghost predicate DeviceAgrees(w: World, s: string, last: Option<nat>)
  {
    && (forall id :: id in w.tables.live && w.tables.live[id].source == Some(s) ==> last.Some?)
    && (match last
        case None => s !in w.tables.device && NothingFrom(w.history, s)
        case Some(l) => s in w.tables.device && w.tables.device[s] == DeviceTotal(w.history, s, l))
  }

  lemma DeviceCounted(t: map<string, DeviceAgg>, source: Option<string>, now: nat, victim: string, s: string)
    requires !(source.Some? && source.value !in t && |t| >= DEVICE_STATS_CAP && victim == s)
    ensures var t' := RegisterDevice(t, source, now, victim);
            if source == Some(s) then
              && s in t'
              && t'[s] == if s in t then t[s].(conns := t[s].conns + 1, last := now) else DeviceAgg(1, 0, 0, now)
            else (s in t' <==> s in t) && (s in t ==> t'[s] == t[s])
  {
  }

  lemma DeviceRegister(w: World, e: Event, s: string, last: Option<nat>)
    requires DeviceAgrees(w, s, last) && e.Register? && !ForgetsDevice(w.tables, e, s)
    ensures DeviceAgrees(Next(w, e), s, if e.source == Some(s) then Some(e.now) else last)
  {
    DeviceCounted(w.tables.device, e.source, e.now, e.deviceVictim, s);
    SnocSums(w.history.registered, NewConn(w.tables, e), From(s));
  }

  lemma DeviceDrop(w: World, e: Event, s: string, last: Option<nat>)
    requires DeviceAgrees(w, s, last) && e.Drop? && e.id in w.tables.live
    ensures DeviceAgrees(Next(w, e), s, last)
  {
    SnocSums(w.history.dropped, w.tables.live[e.id], From(s));
  }

  lemma DeviceStep(w: World, e: Event, s: string, last: Option<nat>)
    requires DeviceAgrees(w, s, last) && !ForgetsDevice(w.tables, e, s)
    ensures DeviceAgrees(Next(w, e), s, if e.Register? && e.source == Some(s) then Some(e.now) else last)
  {
    match e
    case Register(_, _, _, _, _, _, _, _) => DeviceRegister(w, e, s, last);
    case Count(_, _, _) =>
    case Drop(id, _) =>
      if id in w.tables.live {
        DeviceDrop(w, e, s, last);
      }
  }

  /** As long as no eviction picked a source, its entry counts every registration and every dropped
      byte of that source, and dates from its last registration. */
  lemma {:induction false} DeviceConserved(run: seq<Event>, s: string)
    requires DeviceKept(run, s)
    ensures DeviceAgrees(After(run), s, LastSeen(run, s))
  {
    if run != [] {
      var n := |run| - 1;
      DeviceKeptPrefix(run, s);
      DeviceConserved(run[..n], s);
      DeviceStep(After(run[..n]), run[n], s, LastSeen(run[..n], s));
    }
  }
}
