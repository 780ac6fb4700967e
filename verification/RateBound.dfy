/** How many comparisons of one address can fail in a span of time, when up to `k` of its requests
    are in flight at once and none takes the limiter more than `lag` after the newest time read. */
module RateBound {
  import opened Wrappers
  import opened Bytes
  import opened RateLimit
  import opened RateTheorems
  import opened RateInterleaving

  function Flight(w: World, ip: Ip): set<Pending> { set p | p in w.pending && p.ip == ip }

  function InWindow(flight: set<Pending>, windowStart: nat): set<Pending>
  {
    set p | p in flight && p.now <= windowStart + WINDOW
  }

  /** The newest time a checked request has read. */
  function Later(clock: nat, s: Step): nat { if s.Arrive? && s.p.now > clock then s.p.now else clock }

  /** A run in which every step can happen, at most `k` requests of the address are in flight at any
      point, no request is older than `lag` when it checks or notes, and no time after `end` is read. */
  predicate Paced(w: World, run: seq<Step>, ip: Ip, clock: nat, end: nat, k: nat, lag: nat)
    decreases |run|
  {
    |Flight(w, ip)| <= k &&
    (run == [] ||
     var s := run[0];
     && (if s.Arrive? then s.p !in w.pending && s.p.now <= end else s.p in w.pending)
     && clock <= s.p.now + lag
     && Paced(Next(w, s), run[1..], ip, Later(clock, s), end, k, lag))
  }

  /** No success and no eviction of the address. */
  predicate Quiet(run: seq<Step>, ip: Ip)
  {
    forall i :: 0 <= i < |run| && run[i].Settle? ==> ip !in run[i].drops && (run[i].p.ip == ip ==> !run[i].tokenOk)
  }

  function NotedFailures(run: seq<Step>, ip: Ip): nat
  {
    if run == [] then 0 else (if SettlesFor(run[0], ip) && !run[0].tokenOk then 1 else 0) + NotedFailures(run[1..], ip)
  }

  // ---------------------------------------------------------- what a run keeps

  /** The record and the requests in flight of one address. */
  datatype View = View(record: Option<FailRecord>, flight: set<Pending>)

  function ViewOf(w: World, ip: Ip): View { View(Lookup(w.table, ip), Flight(w, ip)) }

  /** A lock outlasts its window, and only what was in flight before it can add to ten failures. */
  predicate RecordFits(r: FailRecord, flight: set<Pending>, clock: nat, k: nat)
  {
    && 1 <= r.fails && r.windowStart <= clock && (r.fails >= MAX_FAILURES <==> r.lockedUntil.Some?)
    && (r.lockedUntil.Some? ==>
          && r.windowStart + WINDOW < r.lockedUntil.value
          && r.fails + |InWindow(flight, r.windowStart)| < MAX_FAILURES + k)
  }

  ghost predicate Fits(v: View, clock: nat, k: nat)
  {
    && |v.flight| <= k && (forall p :: p in v.flight ==> p.now <= clock)
    && (v.record.Some? ==> RecordFits(v.record.value, v.flight, clock, k))
  }

  /** Failures that can share a window: nine before the lock, and as many as can be in flight. */
  function PerWindow(k: nat): nat { MAX_FAILURES - 1 + k }

  function Stride(lag: nat): nat
    requires lag <= WINDOW
  {
    WINDOW - lag + 1
  }

  /** What can still be noted on a record. */
  function Room(r: FailRecord, flight: set<Pending>, k: nat): nat
  {
    if r.fails < MAX_FAILURES then PerWindow(k) - r.fails else |InWindow(flight, r.windowStart)|
  }

  predicate Gone(r: Option<FailRecord>, clock: nat, lag: nat)
  {
    r.None? || r.value.windowStart + WINDOW + lag < clock
  }

  /** The failures of all windows that can still start in a time `x`, at least `d` apart. */
  function Windows(k: nat, x: nat, d: nat): nat
    requires d > 0
    decreases x
  {
    if x < d then 0 else PerWindow(k) + Windows(k, x - d, d)
  }

  /** How many more failures can be noted until `end`. */
  function Credit(v: View, clock: nat, end: nat, k: nat, lag: nat): nat
    requires lag <= WINDOW && clock <= end
  {
    if Gone(v.record, clock, lag) then PerWindow(k) + Windows(k, end + lag - clock, Stride(lag))
    else Room(v.record.value, v.flight, k) + Windows(k, SaturatingSub(end, v.record.value.windowStart), Stride(lag))
  }

  /** Less time, no more windows. */
  lemma {:induction false} NoFurther(x: nat, y: nat, k: nat, d: nat)
    requires d > 0 && x <= y
    ensures Windows(k, x, d) <= Windows(k, y, d)
    decreases y
  {
    if x >= d {
      NoFurther(x - d, y - d, k, d);
    }
  }

  /** One stride further, one window less. */
  lemma OneStride(x: nat, y: nat, k: nat, d: nat)
    requires d > 0 && x + d <= y
    ensures PerWindow(k) + Windows(k, x, d) <= Windows(k, y, d)
  {
    NoFurther(x, y - d, k, d);
  }

  lemma Times(d: nat, a: nat, b: nat)
    ensures a <= b ==> d * a <= d * b
  {
  }

  lemma QuotientIs(x: nat, d: nat, q: nat)
    requires d > 0 && d * q <= x < d * q + d
    ensures x / d == q
  {
    assert d * (x / d) <= x < d * (x / d) + d;
    Times(d, q + 1, x / d);
    Times(d, x / d + 1, q);
  }

  lemma DivStep(x: nat, d: nat)
    requires 0 < d <= x
    ensures x / d == (x - d) / d + 1
  {
    var q := (x - d) / d;
    assert d * q <= x - d < d * q + d;
    Distribute(d, q);
    QuotientIs(x, d, q + 1);
  }

  lemma Distribute(p: nat, q: nat)
    ensures p * (q + 1) == p + p * q
  {
  }

  lemma {:induction false} WindowsClosed(k: nat, x: nat, d: nat)
    requires d > 0
    ensures Windows(k, x, d) == PerWindow(k) * (x / d)
    decreases x
  {
    if x >= d {
      WindowsClosed(k, x - d, d);
      DivStep(x, d);
      Distribute(PerWindow(k), (x - d) / d);
    }
  }

  /** Waiting never raises the credit. */
  lemma Wait(v: View, clock: nat, later: nat, end: nat, k: nat, lag: nat)
    requires Fits(v, clock, k) && clock <= later <= end && lag <= WINDOW
    ensures Fits(v, later, k) && Credit(v, later, end, k, lag) <= Credit(v, clock, end, k, lag)
  {
    var d := Stride(lag);
    if Gone(v.record, clock, lag) {
      NoFurther(end + lag - later, end + lag - clock, k, d);
    } else if Gone(v.record, later, lag) {
      OneStride(end + lag - later, end - v.record.value.windowStart, k, d);
    }
  }

  /** Neither does a sweep. */
  lemma Swept(v: View, now: nat, clock: nat, end: nat, k: nat, lag: nat)
    requires Fits(v, clock, k) && now <= clock <= end && lag <= WINDOW
    requires v.record.Some? && Expired(v.record.value, now)
    ensures Fits(v.(record := None), clock, k)
    ensures Credit(v.(record := None), clock, end, k, lag) <= Credit(v, clock, end, k, lag)
  {
    if !Gone(v.record, clock, lag) {
      OneStride(end + lag - clock, end - v.record.value.windowStart, k, Stride(lag));
    }
  }

  /** Nor a request that passes the check. */
  lemma Joined(v: View, p: Pending, clock: nat, end: nat, k: nat, lag: nat)
    requires Fits(v, clock, k) && p.now <= clock <= end && lag <= WINDOW && |v.flight + {p}| <= k
    requires v.record.Some? ==> !LockActive(v.record.value, p.now)
    ensures Fits(v.(flight := v.flight + {p}), clock, k)
    ensures Credit(v.(flight := v.flight + {p}), clock, end, k, lag) == Credit(v, clock, end, k, lag)
  {
    if v.record.Some? && v.record.value.lockedUntil.Some? {
      assert InWindow(v.flight + {p}, v.record.value.windowStart) == InWindow(v.flight, v.record.value.windowStart);
    }
  }

  lemma LeavesWindow(flight: set<Pending>, p: Pending, windowStart: nat)
    requires p in flight
    ensures p.now <= windowStart + WINDOW ==>
              |InWindow(flight - {p}, windowStart)| == |InWindow(flight, windowStart)| - 1
    ensures |InWindow(flight - {p}, windowStart)| <= |flight| - 1
  {
    if p.now <= windowStart + WINDOW {
      assert InWindow(flight - {p}, windowStart) == InWindow(flight, windowStart) - {p};
    }
    SubsetSizes(InWindow(flight - {p}, windowStart), flight - {p});
  }

  lemma SubsetSizes(a: set<Pending>, b: set<Pending>)
    requires a <= b
    ensures |a| <= |b|
  {
    assert b == a + (b - a);
  }

  function AfterNote(v: View, p: Pending): View { View(Some(Bump(v.record, p.now)), v.flight - {p}) }

  /** A failure inside the window of its record. */
  lemma NotedInside(v: View, p: Pending, clock: nat, end: nat, k: nat, lag: nat)
    requires Fits(v, clock, k) && p in v.flight && clock <= p.now + lag && clock <= end && lag < WINDOW
    requires k <= U32_MAX - MAX_FAILURES
    requires v.record.Some? && p.now <= v.record.value.windowStart + WINDOW
    ensures Fits(AfterNote(v, p), clock, k)
    ensures 1 + Credit(AfterNote(v, p), clock, end, k, lag) <= Credit(v, clock, end, k, lag)
  {
    LeavesWindow(v.flight, p, v.record.value.windowStart);
  }

  /** A failure that starts a window. */
  lemma NotedOutside(v: View, p: Pending, clock: nat, end: nat, k: nat, lag: nat)
    requires Fits(v, clock, k) && p in v.flight && clock <= p.now + lag && clock <= end && lag < WINDOW
    requires v.record.Some? ==> v.record.value.windowStart + WINDOW < p.now
    ensures Fits(AfterNote(v, p), clock, k)
    ensures 1 + Credit(AfterNote(v, p), clock, end, k, lag) <= Credit(v, clock, end, k, lag)
  {
    LeavesWindow(v.flight, p, p.now);
    assert AfterNote(v, p).record == Some(FailRecord(1, p.now, None));
    if Gone(v.record, clock, lag) {
      NoFurther(end - p.now, end + lag - clock, k, Stride(lag));
    } else {
      OneStride(end - p.now, end - v.record.value.windowStart, k, Stride(lag));
    }
  }

  // ------------------------------------------------------------ steps and runs

  /** A check by anybody. */
  lemma ArriveCredit(w: World, s: Step, ip: Ip, clock: nat, end: nat, k: nat, lag: nat)
    requires s.Arrive? && s.p !in w.pending && s.p.now <= end && clock <= end && lag <= WINDOW
    requires Fits(ViewOf(w, ip), clock, k) && |Flight(Next(w, s), ip)| <= k
    ensures Fits(ViewOf(Next(w, s), ip), Later(clock, s), k)
    ensures Credit(ViewOf(Next(w, s), ip), Later(clock, s), end, k, lag) <= Credit(ViewOf(w, ip), clock, end, k, lag)
  {
    var v, now, clock' := ViewOf(w, ip), s.p.now, Later(clock, s);
    Wait(v, clock, clock', end, k, lag);
    var swept := s.sweep && ip in w.table && Expired(w.table[ip], now);
    var v1 := if swept then v.(record := None) else v;
    if swept {
      Swept(v, now, clock', end, k, lag);
    }
    assert v1.record == Lookup(Checked(w.table, now, s.sweep), ip);
    if s.p.ip == ip && s.p in Next(w, s).pending {
      assert Flight(Next(w, s), ip) == v.flight + {s.p};
      Joined(v1, s.p, clock', end, k, lag);
    } else {
      assert Flight(Next(w, s), ip) == v.flight;
    }
  }

  /** A note of the address. */
  lemma SettleCredit(w: World, s: Step, ip: Ip, clock: nat, end: nat, k: nat, lag: nat)
    requires SettlesFor(s, ip) && !s.tokenOk && s.p in w.pending && clock <= s.p.now + lag && clock <= end
    requires lag < WINDOW
    requires k <= U32_MAX - MAX_FAILURES && Fits(ViewOf(w, ip), clock, k)
    ensures Fits(ViewOf(Next(w, s), ip), clock, k)
    ensures 1 + Credit(ViewOf(Next(w, s), ip), clock, end, k, lag) <= Credit(ViewOf(w, ip), clock, end, k, lag)
  {
    var v := ViewOf(w, ip);
    assert Flight(Next(w, s), ip) == v.flight - {s.p};
    assert ViewOf(Next(w, s), ip) == AfterNote(v, s.p);
    if v.record.Some? && s.p.now <= v.record.value.windowStart + WINDOW {
      NotedInside(v, s.p, clock, end, k, lag);
    } else {
      NotedOutside(v, s.p, clock, end, k, lag);
    }
  }

  /** A note of another address that does not evict this one. */
  lemma OthersSettle(w: World, s: Step, ip: Ip)
    requires s.Settle? && s.p.ip != ip && ip !in s.drops
    ensures ViewOf(Next(w, s), ip) == ViewOf(w, ip)
  {
    assert Flight(Next(w, s), ip) == Flight(w, ip);
  }

  /** The failures of a run never exceed the credit at its start. */
  lemma {:induction false} RunCredit(w: World, run: seq<Step>, ip: Ip, clock: nat, end: nat, k: nat, lag: nat)
    requires Paced(w, run, ip, clock, end, k, lag) && clock <= end && lag < WINDOW
    requires k <= U32_MAX - MAX_FAILURES && Fits(ViewOf(w, ip), clock, k)
    requires Quiet(run, ip)
    ensures NotedFailures(run, ip) <= Credit(ViewOf(w, ip), clock, end, k, lag)
    decreases |run|
  {
    if run != [] {
      var s, w' := run[0], Next(w, run[0]);
      if s.Arrive? {
        ArriveCredit(w, s, ip, clock, end, k, lag);
      } else if s.p.ip == ip {
        SettleCredit(w, s, ip, clock, end, k, lag);
      } else {
        OthersSettle(w, s, ip);
      }
      RunCredit(w', run[1..], ip, Later(clock, s), end, k, lag);
    }
  }

  /** A step that forgets the record, by success or eviction, or any other, keeps the invariant. */
  lemma StepFits(w: World, s: Step, ip: Ip, clock: nat, end: nat, k: nat, lag: nat)
    requires (if s.Arrive? then s.p !in w.pending && s.p.now <= end else s.p in w.pending)
    requires clock <= s.p.now + lag && clock <= end && lag < WINDOW && k <= U32_MAX - MAX_FAILURES
    requires Fits(ViewOf(w, ip), clock, k) && |Flight(Next(w, s), ip)| <= k
    ensures Fits(ViewOf(Next(w, s), ip), Later(clock, s), k)
  {
    if s.Arrive? {
      ArriveCredit(w, s, ip, clock, end, k, lag);
    } else if s.p.ip == ip && !s.tokenOk {
      SettleCredit(w, s, ip, clock, end, k, lag);
    } else if s.p.ip == ip {
      assert Next(w, s).pending == w.pending - {s.p} && Lookup(Next(w, s).table, ip) == None;
    } else {
      assert Flight(Next(w, s), ip) == Flight(w, ip);
      assert Lookup(Next(w, s).table, ip) in {None, Lookup(w.table, ip)};
    }
  }

  lemma {:induction false} RunFits(w: World, run: seq<Step>, ip: Ip, clock: nat, end: nat, k: nat, lag: nat)
    requires Paced(w, run, ip, clock, end, k, lag) && clock <= end && lag < WINDOW
    requires k <= U32_MAX - MAX_FAILURES && Fits(ViewOf(w, ip), clock, k)
    ensures Fits(ViewOf(Play(w, run), ip), end, k)
    decreases |run|
  {
    if run == [] {
      Wait(ViewOf(w, ip), clock, end, end, k, lag);
    } else {
      StepFits(w, run[0], ip, clock, end, k, lag);
      RunFits(Next(w, run[0]), run[1..], ip, Later(clock, run[0]), end, k, lag);
    }
  }

  /** Failures in `span` with up to `k` requests in flight. */
  function FailureLimit(span: nat, k: nat, lag: nat): nat
    requires lag <= WINDOW
  {
    PerWindow(k) * ((span + lag + WINDOW) / Stride(lag) + 1)
  }

  lemma CreditIsSmall(v: View, from: nat, span: nat, k: nat, lag: nat)
    requires Fits(v, from, k) && k > 0 && lag < WINDOW
    ensures Credit(v, from, from + span, k, lag) <= FailureLimit(span, k, lag)
  {
    var d := Stride(lag);
    WindowsClosed(k, span + lag + WINDOW, d);
    assert FailureLimit(span, k, lag) == PerWindow(k) + Windows(k, span + lag + WINDOW, d);
    if Gone(v.record, from, lag) {
      NoFurther(span + lag, span + lag + WINDOW, k, d);
    } else {
      var r := v.record.value;
      NoFurther(from + span - r.windowStart, span + lag + WINDOW, k, d);
      SubsetSizes(InWindow(v.flight, r.windowStart), v.flight);
      assert Room(r, v.flight, k) <= PerWindow(k);
    }
  }

  /** The failure bound over interleaved runs: after any history, with at most `k` requests of the
      address in flight and none older than `lag`, below the window, in any span of time and with no
      success and no eviction of the address, at most (9 + k) * ((span + lag + window) / (window - lag
      + 1) + 1) comparisons fail (`FailureLimit`). */
  lemma FailureBoundInFlight(history: seq<Step>, run: seq<Step>, ip: Ip, from: nat, span: nat, k: nat, lag: nat)
    requires 0 < k <= U32_MAX - MAX_FAILURES && lag < WINDOW
    requires Paced(START, history, ip, 0, from, k, lag)
    requires Paced(Play(START, history), run, ip, from, from + span, k, lag)
    requires Quiet(run, ip)
    ensures NotedFailures(run, ip) <= FailureLimit(span, k, lag)
  {
    assert Flight(START, ip) == {};
    RunFits(START, history, ip, 0, from, k, lag);
    RunCredit(Play(START, history), run, ip, from, from + span, k, lag);
    CreditIsSmall(ViewOf(Play(START, history), ip), from, span, k, lag);
  }

  // -------------------------------------------------------- the bound is attained

  function Nth(ip: Ip, id: nat): Pending { Pending(id, ip, 0) }
  function Ids(ip: Ip, n: nat): set<Pending> { set i | 0 <= i < n :: Nth(ip, i) }

  /** Nine failures one after the other, then `k` requests that all pass the check before the first
      of them is noted. Everything happens at time 0. */
  function Burst(ip: Ip, done: nat, k: nat): seq<Step>
    requires done < MAX_FAILURES
    decreases MAX_FAILURES - done
  {
    if done == MAX_FAILURES - 1 then Arrivals(ip, 0, k)
    else [Arrive(Nth(ip, 0), false)] + ([Settle(Nth(ip, 0), false, {})] + Burst(ip, done + 1, k))
  }

  function Arrivals(ip: Ip, n: nat, k: nat): seq<Step>
    requires n <= k
    decreases k - n
  {
    if n == k then Settles(ip, k) else [Arrive(Nth(ip, n), false)] + Arrivals(ip, n + 1, k)
  }

  function Settles(ip: Ip, k: nat): seq<Step>
  {
    if k == 0 then [] else [Settle(Nth(ip, k - 1), false, {})] + Settles(ip, k - 1)
  }

  /** A run the bound speaks about, with `n` failures at time 0. */
  ghost predicate Bounded(w: World, run: seq<Step>, ip: Ip, k: nat, n: nat)
  {
    Paced(w, run, ip, 0, 0, k, 0) && Quiet(run, ip) && NotedFailures(run, ip) == n
  }

  lemma BoundedCons(w: World, s: Step, rest: seq<Step>, ip: Ip, k: nat, n: nat)
    requires s.p.now == 0 && s.p.ip == ip && |Flight(w, ip)| <= k && Bounded(Next(w, s), rest, ip, k, n)
    requires if s.Arrive? then s.p !in w.pending else s.p in w.pending && !s.tokenOk && s.drops == {}
    ensures Bounded(w, [s] + rest, ip, k, n + if s.Settle? then 1 else 0)
  {
    var run := [s] + rest;
    assert run[1..] == rest;
    assert forall i :: 0 < i < |run| ==> run[i] == rest[i - 1];
  }

  lemma IdsSize(ip: Ip, n: nat)
    ensures |Ids(ip, n)| == n
    ensures n > 0 ==> Ids(ip, n) == Ids(ip, n - 1) + {Nth(ip, n - 1)} && Ids(ip, n) - {Nth(ip, n - 1)} == Ids(ip, n - 1)
  {
    if n > 0 {
      IdsSize(ip, n - 1);
      assert Ids(ip, n) == Ids(ip, n - 1) + {Nth(ip, n - 1)};
    }
  }

  lemma {:induction false} SettlesBounded(w: World, ip: Ip, n: nat, k: nat)
    requires w.pending == Ids(ip, n) && n <= k
    ensures Bounded(w, Settles(ip, n), ip, k, n)
    decreases n
  {
    IdsSize(ip, n);
    assert Flight(w, ip) == Ids(ip, n);
    if n > 0 {
      var s := Settle(Nth(ip, n - 1), false, {});
      SettlesBounded(Next(w, s), ip, n - 1, k);
      BoundedCons(w, s, Settles(ip, n - 1), ip, k, n - 1);
    }
  }

  lemma {:induction false} ArrivalsBounded(w: World, ip: Ip, n: nat, k: nat)
    requires w.pending == Ids(ip, n) && n <= k && !Locked(w.table, ip, 0)
    ensures Bounded(w, Arrivals(ip, n, k), ip, k, k)
    decreases k - n
  {
    IdsSize(ip, n);
    assert Flight(w, ip) == Ids(ip, n);
    if n == k {
      SettlesBounded(w, ip, k, k);
    } else {
      var s := Arrive(Nth(ip, n), false);
      IdsSize(ip, n + 1);
      ArrivalsBounded(Next(w, s), ip, n + 1, k);
      BoundedCons(w, s, Arrivals(ip, n + 1, k), ip, k, k);
    }
  }

  function TableOf(ip: Ip, done: nat): Table { if done == 0 then map[] else map[ip := FailRecord(done, 0, None)] }

  /** One failure before the burst. */
  lemma SingleFailure(ip: Ip, done: nat, k: nat, rest: seq<Step>, n: nat)
    requires done < MAX_FAILURES - 1 && k > 0 && Bounded(World(TableOf(ip, done + 1), {}), rest, ip, k, n)
    ensures Bounded(World(TableOf(ip, done), {}),
                    [Arrive(Nth(ip, 0), false)] + ([Settle(Nth(ip, 0), false, {})] + rest), ip, k, n + 1)
  {
    var w := World(TableOf(ip, done), {});
    var arrive, settle := Arrive(Nth(ip, 0), false), Settle(Nth(ip, 0), false, {});
    var w1 := World(w.table, {Nth(ip, 0)});
    assert Next(w, arrive) == w1;
    assert Next(w1, settle) == World(TableOf(ip, done + 1), {});
    assert Flight(w, ip) == {} && Flight(w1, ip) == {Nth(ip, 0)};
    BoundedCons(w1, settle, rest, ip, k, n);
    BoundedCons(w, arrive, [settle] + rest, ip, k, n + 1);
  }

  lemma {:induction false} BurstBounded(ip: Ip, done: nat, k: nat)
    requires done < MAX_FAILURES && k > 0
    ensures Bounded(World(TableOf(ip, done), {}), Burst(ip, done, k), ip, k, MAX_FAILURES - 1 - done + k)
    decreases MAX_FAILURES - done
  {
    if done == MAX_FAILURES - 1 {
      ArrivalsBounded(World(TableOf(ip, done), {}), ip, 0, k);
    } else {
      BurstBounded(ip, done + 1, k);
      SingleFailure(ip, done, k, Burst(ip, done + 1, k), MAX_FAILURES - 2 - done + k);
    }
  }

  /** For every number of requests in flight the bound is attained, from the empty table and at a
      single moment; so ten failures in a window are exceeded as soon as two can be in flight. */
  lemma BoundAttained(ip: Ip, k: nat)
    requires k > 0
    ensures Bounded(START, Burst(ip, 0, k), ip, k, FailureLimit(0, k, 0))
    ensures k > 1 ==> NotedFailures(Burst(ip, 0, k), ip) > MAX_FAILURES
  {
    BurstBounded(ip, 0, k);
  }

  // ----------------------------------------- requests that nobody interrupts

  /** An uninterrupted request is a check and a note in a row. */
  function Halves(t: Table, q: Request): seq<Step>
  {
    var p := Pending(0, q.ip, q.now);
    if GuardStep(t, q).verdict.Refused? then [Arrive(p, q.sweep)]
    else [Arrive(p, q.sweep), Settle(p, q.tokenOk, q.drops)]
  }

  function Steps(t: Table, run: seq<Request>): seq<Step>
    decreases |run|
  {
    if run == [] then [] else Halves(t, run[0]) + Steps(GuardStep(t, run[0]).table, run[1..])
  }

  /** What an uninterrupted request does is what its two halves do in a row. */
  lemma TwoHalves(t: Table, q: Request)
    ensures var p, g := Pending(0, q.ip, q.now), GuardStep(t, q);
            var w := Next(World(t, {}), Arrive(p, q.sweep));
            if g.verdict.Refused? then w == World(g.table, {})
            else w.pending == {p} && Next(w, Settle(p, q.tokenOk, q.drops)) == World(g.table, {})
  {
  }

  lemma HalvesThen(t: Table, q: Request, rest: seq<Step>)
    ensures var p, run := Pending(0, q.ip, q.now), Halves(t, q) + rest;
            && run[0] == Arrive(p, q.sweep)
            && if GuardStep(t, q).verdict.Refused? then run[1..] == rest
               else run[1..][0] == Settle(p, q.tokenOk, q.drops) && run[1..][1..] == rest
  {
    var run := Halves(t, q) + rest;
    assert run[1..] == Halves(t, q)[1..] + rest;
  }

  lemma {:induction false} PlaysAlike(t: Table, run: seq<Request>)
    ensures Play(World(t, {}), Steps(t, run)) == World(After(t, run), {})
    decreases |run|
  {
    if run != [] {
      PlaysAlike(GuardStep(t, run[0]).table, run[1..]);
      TwoHalves(t, run[0]);
      HalvesThen(t, run[0], Steps(GuardStep(t, run[0]).table, run[1..]));
    }
  }

  /** Uninterrupted requests in order lag by nothing and are alone. */
  lemma {:induction false} AloneInOrder(t: Table, run: seq<Request>, ip: Ip, from: nat, to: nat)
    requires InOrder(run, from, to)
    ensures Paced(World(t, {}), Steps(t, run), ip, from, to, 1, 0)
    decreases |run|
  {
    if run == [] {
      assert Flight(World(t, {}), ip) == {};
    } else {
      AloneInOrder(GuardStep(t, run[0]).table, run[1..], ip, run[0].now, to);
      AloneFirst(t, run[0], Steps(GuardStep(t, run[0]).table, run[1..]), ip, from, to);
    }
  }

  lemma AloneFirst(t: Table, q: Request, rest: seq<Step>, ip: Ip, from: nat, to: nat)
    requires from <= q.now <= to
    requires Paced(World(GuardStep(t, q).table, {}), rest, ip, q.now, to, 1, 0)
    ensures Paced(World(t, {}), Halves(t, q) + rest, ip, from, to, 1, 0)
  {
    var p := Pending(0, q.ip, q.now);
    var w, run := World(t, {}), Halves(t, q) + rest;
    TwoHalves(t, q);
    HalvesThen(t, q, rest);
    assert Flight(w, ip) == {} && |Flight(World(t, {}), ip)| == 0;
    var w1 := Next(w, run[0]);
    if !GuardStep(t, q).verdict.Refused? {
      SubsetSizes(Flight(w1, ip), {p});
      assert Paced(w1, run[1..], ip, q.now, to, 1, 0);
    }
  }

  lemma {:induction false} FailsAlike(t: Table, run: seq<Request>, ip: Ip)
    ensures NotedFailures(Steps(t, run), ip) == Failed(t, run, ip)
    decreases |run|
  {
    if run != [] {
      FailsAlike(GuardStep(t, run[0]).table, run[1..], ip);
      HalvesThen(t, run[0], Steps(GuardStep(t, run[0]).table, run[1..]));
    }
  }

  lemma QuietConcat(a: seq<Step>, b: seq<Step>, ip: Ip)
    requires Quiet(a, ip) && Quiet(b, ip)
    ensures Quiet(a + b, ip)
  {
  }

  lemma {:induction false} QuietAlike(t: Table, run: seq<Request>, ip: Ip)
    requires NoSuccess(run, ip) && NeverDropped(run, ip)
    ensures Quiet(Steps(t, run), ip)
    decreases |run|
  {
    if run != [] {
      var t' := GuardStep(t, run[0]).table;
      QuietAlike(t', run[1..], ip);
      QuietConcat(Halves(t, run[0]), Steps(t', run[1..]), ip);
    }
  }

  lemma LimitOfOne(span: nat)
    ensures FailureLimit(span, 1, 0) <= MAX_FAILURES * (span / WINDOW + 2)
  {
    assert (span + WINDOW) / WINDOW == span / WINDOW + 1;
  }

  /** With one request at a time, the case k = 1 and lag = 0: in any span of time, from any state a
      guarded run can reach, and with no success and no eviction of the address, at most
      MAX_FAILURES * (span / WINDOW + 2) comparisons fail. */
  lemma FailureBound(history: seq<Request>, run: seq<Request>, ip: Ip, from: nat, span: nat)
    requires InOrder(history, 0, from) && InOrder(run, from, from + span) && NeverDropped(run, ip)
    requires NoSuccess(run, ip)
    ensures Failed(After(map[], history), run, ip) <= MAX_FAILURES * (span / WINDOW + 2)
  {
    var t := After(map[], history);
    PlaysAlike(map[], history);
    AloneInOrder(map[], history, ip, 0, from);
    AloneInOrder(t, run, ip, from, from + span);
    FailsAlike(t, run, ip);
    QuietAlike(t, run, ip);
    FailureBoundInFlight(Steps(map[], history), Steps(t, run), ip, from, span, 1, 0);
    LimitOfOne(span);
  }
}
