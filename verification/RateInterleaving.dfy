/** Requests whose check and note interleave. The middleware takes the limiter twice, once to check
    the lock and once to note the comparison, and other requests may do the same in between. */
module RateInterleaving {
  import opened Wrappers
  import opened Bytes
  import opened RateLimit

  /** A request that passed the check; it keeps the time it read before. */
  datatype Pending = Pending(id: nat, ip: Ip, now: nat)

  datatype World = World(table: Table, pending: set<Pending>)

  /** A request checks the lock, or notes its comparison. `sweep` and `drops` record what the limiter
      swept and evicted on the way. */
  datatype Step =
    | Arrive(p: Pending, sweep: bool)
    | Settle(p: Pending, tokenOk: bool, drops: set<Ip>)

  const START: World := World(map[], {})

  function Next(w: World, s: Step): World
  {
    match s
    case Arrive(p, sweep) =>
      var t := Checked(w.table, p.now, sweep);
      World(t, if Locked(t, p.ip, p.now) then w.pending else w.pending + {p})
    case Settle(p, tokenOk, drops) =>
      World(Noted(w.table, p.ip, p.now, tokenOk, drops), w.pending - {p})
  }

  function Play(w: World, run: seq<Step>): World
    decreases |run|
  {
    if run == [] then w else Play(Next(w, run[0]), run[1..])
  }

  /** The first time a request takes the limiter. */
  method CheckLock(limiter: RateLimiter, ghost w: World, p: Pending) returns (letThrough: bool, ghost s: Step)
    requires limiter.Valid() && w.table == limiter.table && p !in w.pending
    modifies limiter
    ensures limiter.Valid() && s.Arrive? && s.p == p
    ensures limiter.table == Next(w, s).table && (letThrough <==> p in Next(w, s).pending)
  {
    s := Arrive(p, Elapsed(p.now, limiter.lastSweep) >= SWEEP_INTERVAL);
    SweepKeepsLock(limiter.table, p.ip, p.now);
    var locked := limiter.IsLocked(p.ip, p.now);
    letThrough := !locked;
  }

  /** The second time, with the time read before the first. */
  method NoteResult(limiter: RateLimiter, ghost w: World, p: Pending, tokenOk: bool) returns (ghost s: Step)
    requires limiter.Valid() && w.table == limiter.table && p in w.pending
    modifies limiter
    ensures limiter.Valid() && s.Settle? && s.p == p && s.tokenOk == tokenOk && p.ip !in s.drops
    ensures limiter.table == Next(w, s).table
  {
    ghost var drops := limiter.Note(p.ip, p.now, tokenOk);
    s := Settle(p, tokenOk, drops);
  }

  // ------------------------------------------------------- records of a run

  predicate Counted(r: FailRecord, n: nat) { 1 <= r.fails <= n && (r.lockedUntil.Some? <==> r.fails >= MAX_FAILURES) }

  ghost predicate AllCounted(t: Table, n: nat) { forall ip :: ip in t ==> Counted(t[ip], n) }

  lemma StepCounted(w: World, s: Step, n: nat)
    requires AllCounted(w.table, n) && n < U32_MAX
    ensures AllCounted(Next(w, s).table, n + 1)
  {
    assert forall r :: Counted(r, n) ==> Counted(r, n + 1);
  }

  /** In every interleaved run a record is locked exactly from ten failures on. */
  lemma {:induction false} LockedMeansTen(w: World, run: seq<Step>, n: nat)
    requires AllCounted(w.table, n) && n + |run| <= U32_MAX
    ensures AllCounted(Play(w, run).table, n + |run|)
    decreases |run|
  {
    if run != [] {
      StepCounted(w, run[0], n);
      LockedMeansTen(Next(w, run[0]), run[1..], n + 1);
    }
  }

  // ---------------------------------------------------- which settles keep a lock

  predicate SettlesFor(s: Step, ip: Ip) { s.Settle? && s.p.ip == ip }

  /** Capacity eviction never picks the address. */
  predicate Spares(run: seq<Step>, ip: Ip) { forall i :: 0 <= i < |run| && run[i].Settle? ==> ip !in run[i].drops }

  predicate ArrivesBefore(run: seq<Step>, h: nat) { forall i :: 0 <= i < |run| && run[i].Arrive? ==> run[i].p.now < h }

  /** The address is locked at every time before `h`. */
  predicate HeldUntil(t: Table, ip: Ip, h: nat)
  {
    ip in t && t[ip].lockedUntil.Some? && h <= t[ip].lockedUntil.value
  }

  predicate HeldThroughout(w: World, run: seq<Step>, ip: Ip, h: nat)
    decreases |run|
  {
    HeldUntil(w.table, ip, h) && (run == [] || HeldThroughout(Next(w, run[0]), run[1..], ip, h))
  }

  /** A settle that leaves the lock in place at least until `h`: a failure, not past the window, and
      not so old that the lock it dates anew ends earlier. */
  predicate Keeps(s: Step, ip: Ip, windowStart: nat, h: nat)
  {
    SettlesFor(s, ip) ==> !s.tokenOk && s.p.now <= windowStart + WINDOW && h <= s.p.now + LOCKOUT
  }

  lemma KeepsIff(w: World, s: Step, ip: Ip, h: nat)
    requires HeldUntil(w.table, ip, h) && MAX_FAILURES <= w.table[ip].fails < U32_MAX
    requires ArrivesBefore([s], h) && Spares([s], ip)
    ensures HeldUntil(Next(w, s).table, ip, h) <==> Keeps(s, ip, w.table[ip].windowStart, h)
    ensures HeldUntil(Next(w, s).table, ip, h) ==>
              && Next(w, s).table[ip].windowStart == w.table[ip].windowStart
              && w.table[ip].fails <= Next(w, s).table[ip].fails <= w.table[ip].fails + 1
  {
    assert s == [s][0];
  }

  /** Exactly when a lock holds in an interleaved run: it lasts until `h` at every point if and only
      if every settle of the address in the run is a failure, falls into the window that led to the
      lock, and was read no more than the cooldown before `h`. */
  lemma {:induction false} LockHoldsIff(w: World, run: seq<Step>, ip: Ip, h: nat)
    requires HeldUntil(w.table, ip, h) && MAX_FAILURES <= w.table[ip].fails && w.table[ip].fails + |run| <= U32_MAX
    requires ArrivesBefore(run, h) && Spares(run, ip)
    ensures HeldThroughout(w, run, ip, h)
       <==> forall i :: 0 <= i < |run| ==> Keeps(run[i], ip, w.table[ip].windowStart, h)
    decreases |run|
  {
    if run != [] {
      var w', rest := Next(w, run[0]), run[1..];
      assert run == [run[0]] + rest;
      KeepsIff(w, run[0], ip, h);
      if HeldUntil(w'.table, ip, h) {
        LockHoldsIff(w', rest, ip, h);
      }
    }
  }

  /** How many requests of the address pass the check. */
  function LetThrough(w: World, run: seq<Step>, ip: Ip): nat
    decreases |run|
  {
    if run == [] then 0
    else
      var w' := Next(w, run[0]);
      (if run[0].Arrive? && run[0].p.ip == ip && run[0].p in w'.pending && run[0].p !in w.pending then 1 else 0)
      + LetThrough(w', run[1..], ip)
  }

  /** While the lock holds, nobody of that address passes. */
  lemma {:induction false} HeldMeansRefused(w: World, run: seq<Step>, ip: Ip, h: nat)
    requires HeldThroughout(w, run, ip, h) && ArrivesBefore(run, h)
    ensures LetThrough(w, run, ip) == 0
    decreases |run|
  {
    if run != [] {
      assert run == [run[0]] + run[1..];
      HeldMeansRefused(Next(w, run[0]), run[1..], ip, h);
      assert run[0].Arrive? && run[0].p.ip == ip ==> Locked(w.table, ip, run[0].p.now);
      SweepKeepsLock(w.table, ip, run[0].p.now);
    }
  }

  /** Whoever of the address arrives with a time before `h` is refused. */
  ghost predicate Refuses(w: World, ip: Ip, h: nat)
  {
    forall p, sweep :: p !in w.pending && p.ip == ip && p.now < h ==> p !in Next(w, Arrive(p, sweep)).pending
  }

  ghost predicate RefusedThroughout(w: World, run: seq<Step>, ip: Ip, h: nat)
    decreases |run|
  {
    Refuses(w, ip, h) && (run == [] || RefusedThroughout(Next(w, run[0]), run[1..], ip, h))
  }

  /** There is always a request that is not pending yet. */
  lemma {:induction false} FreshRequest(pending: set<Pending>, id: nat, ip: Ip, now: nat) returns (p: Pending)
    ensures p !in pending && p.ip == ip && p.now == now && p.id >= id
    decreases pending
  {
    p := Pending(id, ip, now);
    if p in pending {
      p := FreshRequest(pending - {p}, id + 1, ip, now);
    }
  }

  lemma RefusesIff(w: World, ip: Ip, h: nat)
    requires h > 0
    ensures Refuses(w, ip, h) <==> HeldUntil(w.table, ip, h)
  {
    forall p: Pending, sweep | p.ip == ip
      ensures Locked(Checked(w.table, p.now, sweep), ip, p.now) <==> Locked(w.table, ip, p.now)
    {
      SweepKeepsLock(w.table, ip, p.now);
    }
    var p := FreshRequest(w.pending, 0, ip, h - 1);
    assert Locked(w.table, ip, h - 1) <==> HeldUntil(w.table, ip, h);
    assert p in Next(w, Arrive(p, false)).pending <==> !Locked(w.table, ip, h - 1);
  }

  /** A lock lasts at every point of a run if and only if at every point everybody is refused. */
  lemma {:induction false} HeldIffRefused(w: World, run: seq<Step>, ip: Ip, h: nat)
    requires h > 0
    ensures HeldThroughout(w, run, ip, h) <==> RefusedThroughout(w, run, ip, h)
    decreases |run|
  {
    RefusesIff(w, ip, h);
    if run != [] {
      HeldIffRefused(Next(w, run[0]), run[1..], ip, h);
    }
  }

  predicate SameThroughout(w: World, run: seq<Step>, ip: Ip, r: FailRecord)
    decreases |run|
  {
    ip in w.table && w.table[ip] == r && (run == [] || SameThroughout(Next(w, run[0]), run[1..], ip, r))
  }

  /** The record itself stays as it is if and only if no request of the address settles. */
  lemma {:induction false} RecordUnchangedIff(w: World, run: seq<Step>, ip: Ip, h: nat)
    requires HeldUntil(w.table, ip, h) && MAX_FAILURES <= w.table[ip].fails < U32_MAX
    requires ArrivesBefore(run, h) && Spares(run, ip)
    ensures SameThroughout(w, run, ip, w.table[ip]) <==> forall i :: 0 <= i < |run| ==> !SettlesFor(run[i], ip)
    decreases |run|
  {
    if run != [] {
      var w', rest := Next(w, run[0]), run[1..];
      assert run == [run[0]] + rest;
      if SettlesFor(run[0], ip) {
        assert ip in w'.table ==> w'.table[ip].fails != w.table[ip].fails;
      } else {
        RecordUnchangedIff(w', rest, ip, h);
      }
    }
  }

  /** What settles after the tenth failure at `now` fails, inside the window, and is not older. */
  predicate LateFailsInside(later: seq<Step>, ip: Ip, now: nat, windowStart: nat)
  {
    forall i :: 0 <= i < |later| && SettlesFor(later[i], ip) ==>
      !later[i].tokenOk && now <= later[i].p.now <= windowStart + WINDOW
  }

  /** Guarded lockout over interleaved runs: when a record counts nine failures and the tenth in the
      window is noted, every request of the address is refused until the cooldown counted from that
      failure has passed, throughout the run, if and only if what is still in flight fails, inside the
      window, and none of it is older than the tenth. */
  lemma LockoutIff(w: World, tenth: Step, later: seq<Step>, ip: Ip)
    requires SettlesFor(tenth, ip) && !tenth.tokenOk && Spares([tenth], ip) && Spares(later, ip)
    requires ip in w.table && w.table[ip].fails == MAX_FAILURES - 1
    requires tenth.p.now <= w.table[ip].windowStart + WINDOW
    requires |later| <= U32_MAX - MAX_FAILURES && ArrivesBefore(later, tenth.p.now + LOCKOUT)
    ensures HeldThroughout(Next(w, tenth), later, ip, tenth.p.now + LOCKOUT) <==>
              LateFailsInside(later, ip, tenth.p.now, w.table[ip].windowStart)
    ensures RefusedThroughout(Next(w, tenth), later, ip, tenth.p.now + LOCKOUT) <==>
              LateFailsInside(later, ip, tenth.p.now, w.table[ip].windowStart)
    ensures HeldThroughout(Next(w, tenth), later, ip, tenth.p.now + LOCKOUT) ==>
              LetThrough(Next(w, tenth), later, ip) == 0
  {
    var h := tenth.p.now + LOCKOUT;
    assert [tenth][0] == tenth;
    LockHoldsIff(Next(w, tenth), later, ip, h);
    HeldIffRefused(Next(w, tenth), later, ip, h);
    if HeldThroughout(Next(w, tenth), later, ip, h) {
      HeldMeansRefused(Next(w, tenth), later, ip, h);
    }
  }

  /** Each of the three ways to lose a lock, as a run: nine failures since time 0, the tenth request
      read 59 s and is noted, then one that had passed the check before settles, and a request at
      302 s, inside the cooldown, is let through. */
  lemma LateSettlesBreakLock(ip: Ip, late: Step)
    requires late in {Settle(Pending(2, ip, 59 * SECOND), true, {}), Settle(Pending(2, ip, 61 * SECOND), false, {}),
                      Settle(Pending(2, ip, 1 * SECOND), false, {})}
    ensures var w := World(map[ip := FailRecord(9, 0, None)], {Pending(1, ip, 59 * SECOND), late.p});
            var tenth := Settle(Pending(1, ip, 59 * SECOND), false, {});
            var probe := Arrive(Pending(3, ip, 302 * SECOND), false);
            && LetThrough(w, [tenth, probe], ip) == 0 && LetThrough(w, [tenth, late, probe], ip) == 1
  {
    var w := World(map[ip := FailRecord(9, 0, None)], {Pending(1, ip, 59 * SECOND), late.p});
    var tenth, probe := Settle(Pending(1, ip, 59 * SECOND), false, {}), Arrive(Pending(3, ip, 302 * SECOND), false);
    assert [tenth, probe][1..] == [probe] && [late, probe][1..] == [probe];
    assert [tenth, late, probe][1..] == [late, probe];
    var locked := Next(w, tenth);
    assert locked.table[ip] == FailRecord(10, 0, Some(359 * SECOND));
    assert LetThrough(locked, [probe], ip) == 0;
    var open := Next(locked, late);
    assert !Locked(open.table, ip, 302 * SECOND);
    assert probe.p in Next(open, probe).pending && probe.p !in open.pending;
    assert LetThrough(open, [probe], ip) == 1 + LetThrough(Next(open, probe), [], ip);
    assert LetThrough(locked, [late, probe], ip) == LetThrough(open, [probe], ip);
  }
}
