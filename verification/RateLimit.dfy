/** The per-IP authentication rate limiter. Times are nanoseconds on a monotonic clock. */
module RateLimit {
  import opened Wrappers
  import opened Bytes

  const SECOND: nat := 1_000_000_000
  const MAX_FAILURES: nat := 10
  const WINDOW: nat := 60 * SECOND
  const LOCKOUT: nat := 300 * SECOND
  const MAP_CAP: nat := 10_000
  const SWEEP_INTERVAL: nat := 60 * SECOND

  datatype Ip = V4(v4: nat) | V6(v6: nat)
  datatype FailRecord = FailRecord(fails: nat, windowStart: nat, lockedUntil: Option<nat>)
  type Table = map<Ip, FailRecord>

  /** `duration_since`, which saturates at zero. */
  function Elapsed(now: nat, start: nat): nat { SaturatingSub(now, start) }

  predicate LockActive(r: FailRecord, now: nat) { r.lockedUntil.Some? && now < r.lockedUntil.value }
  predicate WindowActive(r: FailRecord, now: nat) { Elapsed(now, r.windowStart) <= WINDOW }
  predicate Expired(r: FailRecord, now: nat) { !LockActive(r, now) && !WindowActive(r, now) }

  predicate Locked(t: Table, ip: Ip, now: nat) { ip in t && LockActive(t[ip], now) }

  function Sweep(t: Table, now: nat): Table { map ip | ip in t && !Expired(t[ip], now) :: t[ip] }

  function Lookup(t: Table, ip: Ip): Option<FailRecord> { if ip in t then Some(t[ip]) else None }

  /** One more failure on a record; a missing record starts a window. The counter is 32 bits wide. */
  function Bump(r: Option<FailRecord>, now: nat): FailRecord
  {
    var current := if r.None? || !WindowActive(r.value, now) then FailRecord(0, now, None) else r.value;
    var fails := (current.fails + 1) % (U32_MAX + 1);
    current.(fails := fails, lockedUntil := if fails >= MAX_FAILURES then Some(now + LOCKOUT) else current.lockedUntil)
  }

  /** Nothing in `t` has an older window than what was dropped from `from`. */
  predicate OldestDropped(from: Table, t: Table)
  {
    forall gone, kept :: gone in from && gone !in t && kept in t ==> from[gone].windowStart <= t[kept].windowStart
  }

  /** `t` is `from` with some entries removed. */
  predicate Within(t: Table, from: Table) { forall ip :: ip in t ==> ip in from && t[ip] == from[ip] }

  /** Counts a failure on a record, starting a new window if the old one has passed. */
  method CountFailure(before: FailRecord, now: nat) returns (r: FailRecord)
    ensures r == Bump(Some(before), now)
    ensures before == FailRecord(0, now, None) ==> r == Bump(None, now)
  {
    r := before;
    if Elapsed(now, r.windowStart) > WINDOW {
      r := FailRecord(0, now, None);
    }
    r := r.(fails := (r.fails + 1) % (U32_MAX + 1));
    if r.fails >= MAX_FAILURES {
      r := r.(lockedUntil := Some(now + LOCKOUT));
    }
  }

  class RateLimiter {
    var table: Table
    var lastSweep: nat

    ghost predicate Valid()
      reads this
    {
      |table| <= MAP_CAP
    }

    constructor (now: nat)
      ensures Valid() && table == map[] && lastSweep == now
    {
      table, lastSweep := map[], now;
    }

    method SweepExpired(now: nat)
      requires Valid()
      modifies this`table
      ensures Valid() && table == Sweep(old(table), now)
    {
      SweepSize(table, now);
      var kept := map ip | ip in table && (LockActive(table[ip], now) || WindowActive(table[ip], now)) :: table[ip];
      assert kept == Sweep(table, now);
      table := kept;
    }

    /** The answer is what it would be without the sweep that may happen first. */
    method IsLocked(ip: Ip, now: nat) returns (locked: bool)
      requires Valid()
      modifies this
      ensures Valid() && locked == Locked(old(table), ip, now)
      ensures table == if Elapsed(now, old(lastSweep)) >= SWEEP_INTERVAL then Sweep(old(table), now) else old(table)
      ensures lastSweep == if Elapsed(now, old(lastSweep)) >= SWEEP_INTERVAL then now else old(lastSweep)
    {
      if Elapsed(now, lastSweep) >= SWEEP_INTERVAL {
        SweepExpired(now);
        lastSweep := now;
      }
      locked := ip in table && table[ip].lockedUntil.Some? && now < table[ip].lockedUntil.value;
    }

    /** Sweeps, then drops entries with the oldest window until there is room for one more. */
    method Evict(now: nat)
      requires Valid()
      modifies this`table
      ensures |table| < MAP_CAP && Within(table, Sweep(old(table), now))
      ensures OldestDropped(Sweep(old(table), now), table)
      ensures |Sweep(old(table), now)| < MAP_CAP ==> table == Sweep(old(table), now)
      ensures |Sweep(old(table), now)| >= MAP_CAP ==> |table| == MAP_CAP - 1
    {
      SweepExpired(now);
      ghost var swept := table;
      while |table| >= MAP_CAP
        invariant |table| <= MAP_CAP && Within(table, swept) && OldestDropped(swept, table)
        invariant |swept| < MAP_CAP ==> table == swept
        invariant |swept| >= MAP_CAP ==> |table| >= MAP_CAP - 1
        decreases |table|
      {
        var oldest := OldestEntry(table);
        RemoveSize(table, oldest);
        table := table - {oldest};
      }
    }

    /** Records a failure. Other entries are dropped only when a new address meets a full table,
        and the table never exceeds its cap. */
    method NoteFailure(ip: Ip, now: nat) returns (ghost drops: set<Ip>)
      requires Valid()
      modifies this`table
      ensures Valid() && table == (old(table) - drops)[ip := Bump(Lookup(old(table), ip), now)]
      ensures ip !in drops && (drops != {} ==> ip !in old(table) && |old(table)| >= MAP_CAP)
    {
      if ip !in table && |table| >= MAP_CAP {
        Evict(now);
      }
      drops := Dropped(old(table), table);
      assert Lookup(table, ip) == Lookup(old(table), ip);
      var r := CountFailure(if ip in table then table[ip] else FailRecord(0, now, None), now);
      InsertSize(table, ip, r);
      table := table[ip := r];
    }

    method NoteSuccess(ip: Ip)
      requires Valid()
      modifies this`table
      ensures Valid() && table == old(table) - {ip}
    {
      if ip in table {
        RemoveSize(table, ip);
      }
      table := table - {ip};
    }

    /** Notes the result of a comparison: the second time a request takes the limiter. */
    method Note(ip: Ip, now: nat, tokenOk: bool) returns (ghost drops: set<Ip>)
      requires Valid()
      modifies this`table
      ensures Valid() && table == Noted(old(table), ip, now, tokenOk, drops)
      ensures ip !in drops && (drops != {} ==> ip !in old(table) && |old(table)| >= MAP_CAP)
    {
      drops := {};
      if tokenOk {
        NoteSuccess(ip);
      } else {
        drops := NoteFailure(ip, now);
      }
    }

    /** A request that no other one interrupts: refuse while locked, otherwise compare and note the
        result. The ghost result records when it swept and what it evicted. */
    method Guard(ip: Ip, now: nat, tokenOk: bool) returns (verdict: Verdict, ghost q: Request)
      requires Valid()
      modifies this
      ensures Valid() && q.now == now && q.ip == ip && q.tokenOk == tokenOk
      ensures GuardStep(old(table), q) == Guarded(table, verdict)
      ensures ip !in q.drops && (q.drops != {} ==> |table| == MAP_CAP || |old(table)| >= MAP_CAP)
    {
      ghost var sweep := Elapsed(now, lastSweep) >= SWEEP_INTERVAL;
      var locked := IsLocked(ip, now);
      SweepKeepsLock(old(table), ip, now);
      q := Request(now, ip, tokenOk, sweep, {});
      if locked {
        verdict := Refused;
      } else {
        SweepSize(old(table), now);
        ghost var drops := Note(ip, now, tokenOk);
        q := Request(now, ip, tokenOk, sweep, drops);
        verdict := if tokenOk then Accepted else Rejected;
      }
    }
  }

  datatype Verdict = Refused | Accepted | Rejected

  /** A guarded request: when, from where, with a right or wrong token; whether the limiter swept
      on the way, and which entries capacity eviction dropped. */
  datatype Request = Request(now: nat, ip: Ip, tokenOk: bool, sweep: bool, drops: set<Ip>)

  datatype Guarded = Guarded(table: Table, verdict: Verdict)

  /** The table that the lock check sees. */
  function Checked(t: Table, now: nat, sweep: bool): Table { if sweep then Sweep(t, now) else t }

  /** The table after a comparison is noted. */
  function Noted(t: Table, ip: Ip, now: nat, tokenOk: bool, drops: set<Ip>): Table
  {
    if tokenOk then t - {ip} else (t - drops)[ip := Bump(Lookup(t, ip), now)]
  }

  function GuardStep(t: Table, q: Request): Guarded
  {
    var t1 := Checked(t, q.now, q.sweep);
    if Locked(t1, q.ip, q.now) then Guarded(t1, Refused)
    else Guarded(Noted(t1, q.ip, q.now, q.tokenOk, q.drops), if q.tokenOk then Accepted else Rejected)
  }

  lemma SweepKeepsLock(t: Table, ip: Ip, now: nat)
    ensures Locked(Sweep(t, now), ip, now) <==> Locked(t, ip, now)
  {
  }

  /** An entry with the least window start (`min_by_key`). */
  method OldestEntry(t: Table) returns (oldest: Ip)
    requires t != map[]
    ensures oldest in t && forall ip :: ip in t ==> t[oldest].windowStart <= t[ip].windowStart
  {
    oldest :| oldest in t;
    var rest := t.Keys - {oldest};
    while rest != {}
      invariant rest <= t.Keys && oldest in t
      invariant forall ip :: ip in t && ip !in rest ==> t[oldest].windowStart <= t[ip].windowStart
      decreases rest
    {
      var ip :| ip in rest;
      if t[ip].windowStart < t[oldest].windowStart {
        oldest := ip;
      }
      rest := rest - {ip};
    }
  }

  /** What is missing from a table compared with the one it was cut down from. */
  ghost function Dropped(from: Table, t: Table): (drops: set<Ip>)
    requires Within(t, from)
    ensures t == from - drops && forall ip :: ip in drops ==> ip in from
  {
    from.Keys - t.Keys
  }

  lemma {:induction false} SubsetSize(a: set<Ip>, b: set<Ip>)
    requires a <= b
    ensures |a| <= |b|
    decreases b
  {
    if b != {} {
      var x :| x in b;
      SubsetSize(a - {x}, b - {x});
    }
  }

  lemma SweepSize(t: Table, now: nat)
    ensures |Sweep(t, now)| <= |t|
  {
    SubsetSize(Sweep(t, now).Keys, t.Keys);
  }

  lemma RemoveSize(t: Table, ip: Ip)
    requires ip in t
    ensures |t - {ip}| == |t| - 1
  {
    assert (t - {ip}).Keys == t.Keys - {ip};
  }

  lemma InsertSize(t: Table, ip: Ip, r: FailRecord)
    ensures |t[ip := r]| == |t| + if ip in t then 0 else 1
  {
    assert t[ip := r].Keys == t.Keys + {ip};
    if ip in t {
      assert t.Keys + {ip} == t.Keys;
    }
  }
}
