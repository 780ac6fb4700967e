/** When ten failures in a window lock an address although its requests, and those of others,
    interleave: the counting up to the lock, joined with the lock itself. */
module RateLockout {
  import opened Wrappers
  import opened Bytes
  import opened RateLimit
  import opened RateInterleaving
  import opened RateBound

  // ------------------------------------------------------ counting in a window

  function FailsOf(t: Table, ip: Ip): nat { if ip in t then t[ip].fails else 0 }

  predicate Unlocked(t: Table, ip: Ip) { ip in t ==> t[ip].lockedUntil.None? }

  /** Neither a settle of the address nor a sweep by anybody reads a time past the window. */
  predicate InTime(s: Step, ip: Ip, windowStart: nat)
  {
    SettlesFor(s, ip) || (s.Arrive? && s.sweep) ==> s.p.now <= windowStart + WINDOW
  }

  predicate AllInTime(run: seq<Step>, ip: Ip, windowStart: nat)
  {
    forall i :: 0 <= i < |run| ==> InTime(run[i], ip, windowStart)
  }

  lemma OneMoreAtMost(w: World, s: Step, ip: Ip)
    requires s.Settle? ==> ip !in s.drops && (s.p.ip == ip ==> !s.tokenOk)
    requires Unlocked(w.table, ip) && (SettlesFor(s, ip) ==> FailsOf(w.table, ip) + 1 < MAX_FAILURES)
    ensures FailsOf(Next(w, s).table, ip) <= FailsOf(w.table, ip) + if SettlesFor(s, ip) then 1 else 0
    ensures Unlocked(Next(w, s).table, ip)
  {
  }

  /** A record never counts more failures than were noted. */
  lemma {:induction false} NeverMore(w: World, run: seq<Step>, ip: Ip)
    requires Quiet(run, ip) && Unlocked(w.table, ip) && FailsOf(w.table, ip) + NotedFailures(run, ip) < MAX_FAILURES
    ensures FailsOf(Play(w, run).table, ip) <= FailsOf(w.table, ip) + NotedFailures(run, ip)
    ensures Unlocked(Play(w, run).table, ip)
    decreases |run|
  {
    if run != [] {
      OneMoreAtMost(w, run[0], ip);
      assert run == [run[0]] + run[1..];
      NeverMore(Next(w, run[0]), run[1..], ip);
    }
  }

  /** Exactly when a window counts all of its failures: while fewer than ten have been noted, the
      record stands for every one of them if and only if no settle of the address and no sweep has
      read a time past the window. */
  lemma {:induction false} CountsAllIff(w: World, run: seq<Step>, ip: Ip, n: nat, windowStart: nat)
    requires ip in w.table && w.table[ip] == FailRecord(n, windowStart, None) && 1 <= n
    requires Quiet(run, ip) && n + NotedFailures(run, ip) < MAX_FAILURES
    ensures FailsOf(Play(w, run).table, ip) == n + NotedFailures(run, ip) <==> AllInTime(run, ip, windowStart)
    ensures AllInTime(run, ip, windowStart) ==>
              ip in Play(w, run).table
              && Play(w, run).table[ip] == FailRecord(n + NotedFailures(run, ip), windowStart, None)
    ensures FailsOf(Play(w, run).table, ip) <= n + NotedFailures(run, ip) && Unlocked(Play(w, run).table, ip)
    decreases |run|
  {
    NeverMore(w, run, ip);
    if run != [] {
      var s, rest, w' := run[0], run[1..], Next(w, run[0]);
      assert run == [s] + rest;
      StepKeepsCount(w, s, ip, n, windowStart);
      if InTime(s, ip, windowStart) {
        CountsAllIff(w', rest, ip, n + if SettlesFor(s, ip) then 1 else 0, windowStart);
      } else {
        NeverMore(w', rest, ip);
      }
    }
  }

  lemma StepKeepsCount(w: World, s: Step, ip: Ip, n: nat, windowStart: nat)
    requires ip in w.table && w.table[ip] == FailRecord(n, windowStart, None) && 1 <= n < MAX_FAILURES
    requires s.Settle? ==> ip !in s.drops && (s.p.ip == ip ==> !s.tokenOk && n + 1 < MAX_FAILURES)
    ensures var t, k := Next(w, s).table, if SettlesFor(s, ip) then 1 else 0;
            if InTime(s, ip, windowStart) then ip in t && t[ip] == FailRecord(n + k, windowStart, None)
            else FailsOf(t, ip) == k && Unlocked(t, ip)
  {
  }

  // --------------------------------------------------------- the whole lockout

  /** A failure of an address without a record, or past the window of the one it has, starts a window. */
  lemma FirstFailureStarts(w: World, first: Step, ip: Ip)
    requires SettlesFor(first, ip) && !first.tokenOk
    requires ip in w.table ==> w.table[ip].windowStart + WINDOW < first.p.now
    ensures ip in Next(w, first).table && Next(w, first).table[ip] == FailRecord(1, first.p.now, None)
  {
  }

  /** Ten failures, from a window that counts `n` of them: `failing` notes all but the tenth. From its
      note on, every request of the address is refused until the cooldown counted from it has passed,
      throughout `later`, if and only if no settle of the address and no sweep read a time past the
      window before the tenth, the tenth did not either, and what settles later fails, inside the
      window, and is not older than the tenth. */
  lemma TenFailuresIff(w: World, failing: seq<Step>, tenth: Step, later: seq<Step>, ip: Ip, n: nat, windowStart: nat)
    requires ip in w.table && w.table[ip] == FailRecord(n, windowStart, None) && 1 <= n
    requires Quiet(failing, ip) && n + NotedFailures(failing, ip) == MAX_FAILURES - 1
    requires SettlesFor(tenth, ip) && !tenth.tokenOk && Spares([tenth], ip)
    requires Spares(later, ip) && |later| <= U32_MAX - MAX_FAILURES && ArrivesBefore(later, tenth.p.now + LOCKOUT)
    ensures RefusedThroughout(Next(Play(w, failing), tenth), later, ip, tenth.p.now + LOCKOUT) <==>
              && AllInTime(failing, ip, windowStart) && tenth.p.now <= windowStart + WINDOW
              && LateFailsInside(later, ip, tenth.p.now, windowStart)
  {
    var w1 := Play(w, failing);
    CountsAllIff(w, failing, ip, n, windowStart);
    if AllInTime(failing, ip, windowStart) && tenth.p.now <= windowStart + WINDOW {
      LockoutIff(w1, tenth, later, ip);
    } else {
      NoTenth(w1, tenth, ip);
      HeldIffRefused(Next(w1, tenth), later, ip, tenth.p.now + LOCKOUT);
    }
  }

  /** A failure that is not the tenth of its window does not lock. */
  lemma NoTenth(w: World, s: Step, ip: Ip)
    requires SettlesFor(s, ip) && !s.tokenOk && Unlocked(w.table, ip)
    requires FailsOf(w.table, ip) < MAX_FAILURES - 1 || w.table[ip].windowStart + WINDOW < s.p.now
    ensures Unlocked(Next(w, s).table, ip)
  {
  }

  /** Ten failures inside a window that do not lock: the record counts nine since 1 s, the tenth
      request reads 60 s and passes the check, then somebody else sweeps at 62 s, or an earlier
      request of the address that read 62 s is noted, and only then the tenth. A request at 63 s is
      let through; without the step in between it is not. */
  lemma TenFailuresWithoutLock(a: Ip, b: Ip, between: Step)
    requires between in {Arrive(Pending(2, b, 62 * SECOND), true), Settle(Pending(2, a, 62 * SECOND), false, {})}
    ensures var w := NineSince1s(a, between);
            var probe := Arrive(Pending(3, a, 63 * SECOND), false);
            && LetThrough(Play(w, [Arrive60s(a), between, Note60s(a)]), [probe], a) == 1
            && LetThrough(Play(w, [Arrive60s(a), Note60s(a)]), [probe], a) == 0
  {
    var w := NineSince1s(a, between);
    var probe := Arrive(Pending(3, a, 63 * SECOND), false);
    PlayThree(w, Arrive60s(a), between, Note60s(a));
    PlayTwo(w, Arrive60s(a), Note60s(a));
    NoLock(w, a, b, between);
    Lock(w, a);
    ProbeOne(Play(w, [Arrive60s(a), between, Note60s(a)]), probe);
    ProbeOne(Play(w, [Arrive60s(a), Note60s(a)]), probe);
  }

  function NineSince1s(a: Ip, between: Step): World
  {
    World(map[a := FailRecord(9, 1 * SECOND, None)], if between.Settle? then {between.p} else {})
  }

  function Arrive60s(a: Ip): Step { Arrive(Pending(1, a, 60 * SECOND), false) }
  function Note60s(a: Ip): Step { Settle(Pending(1, a, 60 * SECOND), false, {}) }

  lemma Lock(w: World, a: Ip)
    requires w.table == map[a := FailRecord(9, 1 * SECOND, None)]
    ensures var after := Next(Next(w, Arrive60s(a)), Note60s(a));
            a in after.table && after.table[a] == FailRecord(10, 1 * SECOND, Some(360 * SECOND))
    ensures Next(Next(w, Arrive60s(a)), Note60s(a)).pending <= w.pending
  {
  }

  lemma NoLock(w: World, a: Ip, b: Ip, between: Step)
    requires between in {Arrive(Pending(2, b, 62 * SECOND), true), Settle(Pending(2, a, 62 * SECOND), false, {})}
    requires w.table == map[a := FailRecord(9, 1 * SECOND, None)]
    ensures var after := Next(Next(Next(w, Arrive60s(a)), between), Note60s(a));
            a in after.table && after.table[a].lockedUntil.None?
    ensures Next(Next(Next(w, Arrive60s(a)), between), Note60s(a)).pending <= w.pending + {Pending(2, b, 62 * SECOND)}
  {
    var checked := Next(w, Arrive60s(a));
    assert checked.table == w.table;
    if between.Arrive? {
      assert Next(checked, between).table == map[];
    } else {
      assert Next(checked, between).table[a] == FailRecord(1, 62 * SECOND, None);
    }
  }

  lemma PlayTwo(w: World, x: Step, y: Step)
    ensures Play(w, [x, y]) == Next(Next(w, x), y)
  {
    assert [x, y][1..] == [y] && [y][1..] == [];
    assert Play(Next(w, x), [y]) == Play(Next(Next(w, x), y), []);
  }

  lemma PlayThree(w: World, x: Step, y: Step, z: Step)
    ensures Play(w, [x, y, z]) == Next(Next(Next(w, x), y), z)
  {
    assert [x, y, z][1..] == [y, z];
    PlayTwo(Next(w, x), y, z);
  }

  lemma ProbeOne(w: World, probe: Step)
    requires probe.Arrive? && !probe.sweep && probe.p !in w.pending
    ensures LetThrough(w, [probe], probe.p.ip) == if Locked(w.table, probe.p.ip, probe.p.now) then 0 else 1
  {
    assert [probe][1..] == [];
  }
}
