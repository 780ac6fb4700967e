/** What the rate limiter promises over whole runs of requests that nobody interrupts: sweeping cannot
    be observed, and a lockout holds until its end. */
module RateTheorems {
  import opened Wrappers
  import opened Bytes
  import opened RateLimit

  // --------------------------------------------------- sweeping is invisible

  datatype Op = Check(ip: Ip) | Failure(ip: Ip) | Success(ip: Ip)

  /** An operation at a time; `sweep` says whether the sweeping limiter sweeps just before it. */
  datatype Timed = Timed(now: nat, op: Op, sweep: bool)

  function Apply(t: Table, op: Op, now: nat): Table
  {
    match op
    case Check(_) => t
    case Failure(ip) => t[ip := Bump(Lookup(t, ip), now)]
    case Success(ip) => t - {ip}
  }

  function Answer(t: Table, op: Op, now: nat): seq<bool>
  {
    if op.Check? then [Locked(t, op.ip, now)] else []
  }

  /** The answers of a run; only a limiter with `sweeping` performs the sweeps. */
  function Answers(t: Table, run: seq<Timed>, sweeping: bool): seq<bool>
    decreases |run|
  {
    if run == [] then []
    else
      var e := run[0];
      var t1 := if sweeping && e.sweep then Sweep(t, e.now) else t;
      Answer(t1, e.op, e.now) + Answers(Apply(t1, e.op, e.now), run[1..], sweeping)
  }

  /** The table after a run. */
  function Outcome(t: Table, run: seq<Timed>, sweeping: bool): Table
    decreases |run|
  {
    if run == [] then t
    else
      var e := run[0];
      var t1 := if sweeping && e.sweep then Sweep(t, e.now) else t;
      Outcome(Apply(t1, e.op, e.now), run[1..], sweeping)
  }

  predicate Forward(run: seq<Timed>, start: nat)
  {
    && (forall i :: 0 <= i < |run| ==> start <= run[i].now)
    && (forall i, j :: 0 <= i < j < |run| ==> run[i].now <= run[j].now)
  }

  /** The sweeping limiter lacks nothing but entries that have expired. */
  ghost predicate Simulates(swept: Table, full: Table, now: nat)
  {
    && (forall ip :: ip in swept ==> ip in full && swept[ip] == full[ip])
    && (forall ip :: ip in full && ip !in swept ==> Expired(full[ip], now))
  }

  /** An expired record counts like no record at all. */
  lemma BumpExpired(r: FailRecord, now: nat)
    requires Expired(r, now)
    ensures Bump(Some(r), now) == Bump(None, now)
  {
  }

  /** A record is expired if and only if from now on it neither locks its address nor counts for
      anything: every later failure is counted as if the record were not there. */
  lemma ExpiredIff(r: FailRecord, now: nat)
    requires 0 < r.fails <= U32_MAX
    ensures Expired(r, now) <==>
              forall later: nat :: now <= later ==> !LockActive(r, later) && Bump(Some(r), later) == Bump(None, later)
  {
    if !Expired(r, now) {
      assert LockActive(r, now) || Bump(Some(r), now) != Bump(None, now);
    }
  }

  /** A sweep keeps exactly the records that still lock or count, as they are. */
  lemma SweepIff(t: Table, now: nat, ip: Ip)
    requires ip in t ==> 0 < t[ip].fails <= U32_MAX
    ensures ip in Sweep(t, now) <==>
              ip in t && exists later: nat ::
                now <= later && (LockActive(t[ip], later) || Bump(Some(t[ip]), later) != Bump(None, later))
    ensures ip in Sweep(t, now) ==> Sweep(t, now)[ip] == t[ip]
  {
    if ip in t {
      ExpiredIff(t[ip], now);
    }
  }

  lemma StepSimulates(swept: Table, full: Table, before: nat, e: Timed)
    requires Simulates(swept, full, before) && before <= e.now
    ensures var swept1 := if e.sweep then Sweep(swept, e.now) else swept;
            && Answer(swept1, e.op, e.now) == Answer(full, e.op, e.now)
            && Simulates(Apply(swept1, e.op, e.now), Apply(full, e.op, e.now), e.now)
  {
    var swept1 := if e.sweep then Sweep(swept, e.now) else swept;
    assert Simulates(swept1, full, e.now);
    if e.op.Failure? && e.op.ip in full && e.op.ip !in swept1 {
      BumpExpired(full[e.op.ip], e.now);
    }
  }

  /** Sweeping is invisible: with non-decreasing time and no capacity eviction, a limiter that
      sweeps at arbitrary moments gives the same answers as one that never sweeps, and ends with the
      same records but for those that have expired. */
  lemma {:induction false} SweepingInvisible(swept: Table, full: Table, before: nat, run: seq<Timed>)
    requires Simulates(swept, full, before) && Forward(run, before)
    ensures Answers(swept, run, true) == Answers(full, run, false)
    ensures Simulates(Outcome(swept, run, true), Outcome(full, run, false),
                      if run == [] then before else run[|run| - 1].now)
    decreases |run|
  {
    if run != [] {
      var e := run[0];
      var swept1 := if e.sweep then Sweep(swept, e.now) else swept;
      StepSimulates(swept, full, before, e);
      SweepingInvisible(Apply(swept1, e.op, e.now), Apply(full, e.op, e.now), e.now, run[1..]);
    }
  }

  // ------------------------------------------------------- guarded lockouts

  function After(t: Table, run: seq<Request>): Table
    decreases |run|
  {
    if run == [] then t else After(GuardStep(t, run[0]).table, run[1..])
  }

  function Verdicts(t: Table, run: seq<Request>): (v: seq<Verdict>)
    ensures |v| == |run|
    decreases |run|
  {
    if run == [] then []
    else
      var g := GuardStep(t, run[0]);
      [g.verdict] + Verdicts(g.table, run[1..])
  }

  /** Inside the window of a record one more failure, and a lock for the cooldown from ten on; otherwise
      a new window with one. */
  predicate AfterFailure(before: Option<FailRecord>, now: nat, after: FailRecord)
  {
    if before.Some? && now <= before.value.windowStart + 60_000_000_000 then
      && after.windowStart == before.value.windowStart
      && (before.value.fails < U32_MAX ==> after.fails == before.value.fails + 1)
      && after.lockedUntil == if after.fails >= 10 then Some(now + 300_000_000_000) else before.value.lockedUntil
    else after == FailRecord(1, now, None)
  }

  /** The verdict and what becomes of the address, told from its record: refused if and only if the
      record's lock has not ended; otherwise the token decides, the right one forgets the record and
      the wrong one leaves one. Other records change by sweeping and eviction only. */
  lemma GuardVerdict(t: Table, q: Request)
    ensures var g := GuardStep(t, q);
            var locked := q.ip in t && t[q.ip].lockedUntil.Some? && q.now < t[q.ip].lockedUntil.value;
            && (g.verdict.Refused? <==> locked)
            && (g.verdict.Accepted? <==> !locked && q.tokenOk)
            && (g.verdict.Rejected? <==> !locked && !q.tokenOk)
            && (g.verdict.Refused? ==> q.ip in g.table && g.table[q.ip] == t[q.ip])
            && (g.verdict.Accepted? ==> q.ip !in g.table)
            && (g.verdict.Rejected? ==> q.ip in g.table && AfterFailure(Lookup(t, q.ip), q.now, g.table[q.ip]))
            && (forall x :: x in g.table && x != q.ip ==> x in t && g.table[x] == t[x])
  {
    SweepKeepsLock(t, q.ip, q.now);
  }

  predicate InOrder(run: seq<Request>, from: nat, to: nat)
  {
    && (forall i :: 0 <= i < |run| ==> from <= run[i].now <= to)
    && (forall i, j :: 0 <= i < j < |run| ==> run[i].now <= run[j].now)
  }

  predicate NeverDropped(run: seq<Request>, ip: Ip) { forall i :: 0 <= i < |run| ==> ip !in run[i].drops }

  lemma LockedStep(t: Table, q: Request, ip: Ip)
    requires Locked(t, ip, q.now) && ip !in q.drops
    ensures var g := GuardStep(t, q);
            ip in g.table && g.table[ip] == t[ip] && (q.ip == ip ==> g.verdict.Refused?)
  {
  }

  /** A lockout holds: once an address is locked, every guarded request from it before the lock's
      end is refused, right token or not, unless capacity eviction removed the record; and the
      record itself does not change. */
  lemma {:induction false} LockoutHolds(t: Table, run: seq<Request>, ip: Ip, from: nat, until: nat)
    requires ip in t && t[ip].lockedUntil == Some(until) && InOrder(run, from, until) && NeverDropped(run, ip)
    requires forall i :: 0 <= i < |run| ==> run[i].now < until
    ensures forall i :: 0 <= i < |run| && run[i].ip == ip ==> Verdicts(t, run)[i].Refused?
    ensures ip in After(t, run) && After(t, run)[ip] == t[ip]
    decreases |run|
  {
    if run != [] {
      LockedStep(t, run[0], ip);
      var t1 := GuardStep(t, run[0]).table;
      LockoutHolds(t1, run[1..], ip, from, until);
      forall i | 0 <= i < |run| && run[i].ip == ip ensures Verdicts(t, run)[i].Refused? {
        if i > 0 {
          assert Verdicts(t, run)[i] == Verdicts(t1, run[1..])[i - 1] && run[i] == run[1..][i - 1];
        }
      }
    }
  }

  /** Guarded records: never more than ten failures in a window, and ten failures lock the address
      for the full cooldown, which outlasts the window. */
  predicate RecordOk(r: FailRecord)
  {
    && 1 <= r.fails <= MAX_FAILURES
    && (r.fails == MAX_FAILURES <==> r.lockedUntil.Some?)
    && (r.lockedUntil.Some? ==> r.windowStart + LOCKOUT <= r.lockedUntil.value <= r.windowStart + WINDOW + LOCKOUT)
  }

  ghost predicate TableOk(t: Table) { forall ip :: ip in t ==> RecordOk(t[ip]) }

  /** The failure that makes ten in a window locks; no guarded step breaks the records. */
  lemma BumpOk(r: Option<FailRecord>, now: nat)
    requires r.Some? ==> RecordOk(r.value) && !LockActive(r.value, now) && r.value.windowStart <= now
    ensures var r' := Bump(r, now);
            && RecordOk(r') && r'.windowStart <= now
            && (r'.fails == MAX_FAILURES ==> r'.lockedUntil == Some(now + LOCKOUT))
            && ((r'.windowStart == now && r'.fails == 1)
                || (r.Some? && r'.windowStart == r.value.windowStart && r'.fails == r.value.fails + 1
                    && now <= r.value.windowStart + WINDOW))
  {
  }

  ghost predicate Past(t: Table, now: nat) { forall ip :: ip in t ==> t[ip].windowStart <= now }

  lemma StepOk(t: Table, q: Request)
    requires TableOk(t) && Past(t, q.now)
    ensures TableOk(GuardStep(t, q).table) && Past(GuardStep(t, q).table, q.now)
  {
    var t1 := if q.sweep then Sweep(t, q.now) else t;
    if !Locked(t1, q.ip, q.now) && !q.tokenOk {
      BumpOk(Lookup(t1, q.ip), q.now);
    }
  }

  /** Every table a run of guarded requests can reach from an empty one is in order. */
  lemma {:induction false} RunOk(t: Table, run: seq<Request>, from: nat, to: nat)
    requires TableOk(t) && Past(t, from) && InOrder(run, from, to) && from <= to
    ensures TableOk(After(t, run)) && Past(After(t, run), to)
    decreases |run|
  {
    if run != [] {
      StepOk(t, run[0]);
      RunOk(GuardStep(t, run[0]).table, run[1..], run[0].now, to);
    }
  }

  predicate NoSuccess(run: seq<Request>, ip: Ip)
  {
    forall i :: 0 <= i < |run| ==> !(run[i].ip == ip && run[i].tokenOk)
  }

  /** How many comparisons failed for an address in a run. */
  function Failed(t: Table, run: seq<Request>, ip: Ip): nat
    decreases |run|
  {
    if run == [] then 0
    else
      var g := GuardStep(t, run[0]);
      (if run[0].ip == ip && g.verdict.Rejected? then 1 else 0) + Failed(g.table, run[1..], ip)
  }

  /** The record of `ip` stands for `f` failures since `from`. */
  predicate Counts(t: Table, ip: Ip, from: nat, f: nat)
  {
    if f == 0 then ip in t ==> Expired(t[ip], from) else ip in t && from <= t[ip].windowStart && t[ip].fails == f
  }

  lemma StepCounts(t: Table, q: Request, ip: Ip, from: nat, f: nat)
    requires TableOk(t) && Past(t, q.now) && from <= q.now <= from + WINDOW && ip !in q.drops
    requires !(q.ip == ip && q.tokenOk)
    requires Counts(t, ip, from, f)
    ensures var g := GuardStep(t, q);
            Counts(g.table, ip, from, f + if q.ip == ip && g.verdict.Rejected? then 1 else 0)
  {
    var t1 := if q.sweep then Sweep(t, q.now) else t;
    assert f > 0 ==> Lookup(t1, ip) == Lookup(t, ip);
    if q.ip == ip && !Locked(t1, ip, q.now) {
      BumpOk(Lookup(t1, ip), q.now);
    }
  }

  /** Inside one window the record counts exactly the failed comparisons. */
  lemma {:induction false} WindowCounts(t: Table, run: seq<Request>, ip: Ip, from: nat, start: nat, f: nat)
    requires TableOk(t) && Past(t, start) && from <= start <= from + WINDOW && InOrder(run, start, from + WINDOW)
    requires NeverDropped(run, ip) && NoSuccess(run, ip) && Counts(t, ip, from, f)
    ensures Counts(After(t, run), ip, from, f + Failed(t, run, ip))
    decreases |run|
  {
    if run != [] {
      var g := GuardStep(t, run[0]);
      StepCounts(t, run[0], ip, from, f);
      StepOk(t, run[0]);
      WindowCounts(g.table, run[1..], ip, from, run[0].now,
                   f + if run[0].ip == ip && g.verdict.Rejected? then 1 else 0);
    }
  }

  /** The tenth failure in a window locks the address, for exactly the cooldown. */
  lemma TenthLocks(t: Table, tenth: Request, from: nat)
    requires TableOk(t) && Past(t, tenth.now) && from <= tenth.now <= from + WINDOW
    requires Counts(t, tenth.ip, from, MAX_FAILURES - 1) && !tenth.tokenOk && tenth.ip !in tenth.drops
    ensures var g := GuardStep(t, tenth);
            && g.verdict.Rejected? && tenth.ip in g.table && g.table[tenth.ip].lockedUntil == Some(tenth.now + LOCKOUT)
  {
    var t1 := if tenth.sweep then Sweep(t, tenth.now) else t;
    assert Lookup(t1, tenth.ip) == Lookup(t, tenth.ip);
    BumpOk(Lookup(t, tenth.ip), tenth.now);
  }

  /** Guarded lockout over whole runs: whatever happened before, when nine comparisons of an address
      without a live record have failed and a tenth fails within the same window, every guarded
      request from it in the following run is refused, right token or not, until the cooldown
      counted from the tenth failure has passed; and not a moment longer. */
  lemma {:induction false} TenFailuresLockOut(history: seq<Request>, failing: seq<Request>, tenth: Request,
                                              later: seq<Request>, from: nat)
    requires InOrder(history, 0, from) && InOrder(failing, from, tenth.now) && from <= tenth.now <= from + WINDOW
    requires Counts(After(map[], history), tenth.ip, from, 0) && NeverDropped(failing, tenth.ip)
    requires NoSuccess(failing, tenth.ip)
    requires Failed(After(map[], history), failing, tenth.ip) == MAX_FAILURES - 1
    requires !tenth.tokenOk && tenth.ip !in tenth.drops
    requires InOrder(later, tenth.now, tenth.now + LOCKOUT - 1) && NeverDropped(later, tenth.ip)
    ensures var t := GuardStep(After(After(map[], history), failing), tenth).table;
            && (forall i :: 0 <= i < |later| && later[i].ip == tenth.ip ==> Verdicts(t, later)[i].Refused?)
            && (forall now: nat :: Locked(After(t, later), tenth.ip, now) <==> now < tenth.now + LOCKOUT)
  {
    RunOk(map[], history, 0, from);
    var t := After(map[], history);
    RunOk(t, failing, from, tenth.now);
    WindowCounts(t, failing, tenth.ip, from, from, 0);
    TenthLocks(After(t, failing), tenth, from);
    LockoutHolds(GuardStep(After(t, failing), tenth).table, later, tenth.ip, tenth.now, tenth.now + LOCKOUT);
  }
}
