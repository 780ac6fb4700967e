/** When sweeping cannot be observed although requests interleave. A note keeps the time read before
    the check, so a record can be swept and then noted with a time at which it was not yet expired. */
module RateSweeping {
  import opened Wrappers
  import opened Bytes
  import opened RateLimit
  import opened RateInterleaving

  function WithoutSweep(s: Step): Step { if s.Arrive? then s.(sweep := false) else s }

  /** The sweeping limiter has let the same requests through and differs in no record it still has. */
  ghost predicate Agree(swept: World, full: World)
  {
    && swept.pending == full.pending
    && forall ip :: ip in swept.table ==> ip in full.table && swept.table[ip] == full.table[ip]
  }

  ghost predicate AgreeThroughout(swept: World, full: World, run: seq<Step>)
    decreases |run|
  {
    && Agree(swept, full)
    && (run == [] || AgreeThroughout(Next(swept, run[0]), Next(full, WithoutSweep(run[0])), run[1..]))
  }

  /** The step does not need a record that only the limiter without sweeps still has: no check finds
      its lock active, and no failure falls into its window. */
  predicate Unnoticed(swept: World, full: World, s: Step)
  {
    s.p.ip in full.table && s.p.ip !in swept.table ==>
      match s
      case Arrive(p, _) => !LockActive(full.table[p.ip], p.now)
      case Settle(p, tokenOk, _) => tokenOk || !WindowActive(full.table[p.ip], p.now)
  }

  predicate UnnoticedThroughout(swept: World, full: World, run: seq<Step>)
    decreases |run|
  {
    run == []
    || (Unnoticed(swept, full, run[0])
        && UnnoticedThroughout(Next(swept, run[0]), Next(full, WithoutSweep(run[0])), run[1..]))
  }

  /** Steps that can happen, and no capacity eviction. */
  predicate Possible(w: World, s: Step) { if s.Arrive? then s.p !in w.pending else s.p in w.pending && s.drops == {} }

  predicate AllPossible(w: World, run: seq<Step>)
    decreases |run|
  {
    run == [] || (Possible(w, run[0]) && AllPossible(Next(w, run[0]), run[1..]))
  }

  lemma ArriveAgreeIff(swept: World, full: World, s: Step)
    requires Agree(swept, full) && s.Arrive? && s.p !in swept.pending
    ensures Agree(Next(swept, s), Next(full, WithoutSweep(s))) <==> Unnoticed(swept, full, s)
  {
    SweepKeepsLock(swept.table, s.p.ip, s.p.now);
    assert s.p in Next(swept, s).pending <==> !Locked(swept.table, s.p.ip, s.p.now);
    assert s.p in Next(full, WithoutSweep(s)).pending <==> !Locked(full.table, s.p.ip, s.p.now);
  }

  lemma SettleAgreeIff(swept: World, full: World, s: Step)
    requires Agree(swept, full) && s.Settle? && s.drops == {}
    requires s.p.ip in full.table ==> 1 <= full.table[s.p.ip].fails < U32_MAX
    ensures Agree(Next(swept, s), Next(full, WithoutSweep(s))) <==> Unnoticed(swept, full, s)
  {
    if s.p.ip in full.table && s.p.ip !in swept.table && !s.tokenOk {
      assert Next(swept, s).table[s.p.ip].fails == 1;
    }
  }

  /** Exactly when sweeping cannot be observed in an interleaved run: the two limiters let the same
      requests through and agree on every record at every point if and only if no step needs a record
      that has been swept. */
  lemma {:induction false} SweepingUnnoticedIff(swept: World, full: World, run: seq<Step>, n: nat)
    requires Agree(swept, full) && AllPossible(swept, run)
    requires AllCounted(full.table, n) && n + |run| <= U32_MAX
    ensures AgreeThroughout(swept, full, run) <==> UnnoticedThroughout(swept, full, run)
    decreases |run|
  {
    if run != [] {
      var s := run[0];
      if s.Arrive? {
        ArriveAgreeIff(swept, full, s);
      } else {
        SettleAgreeIff(swept, full, s);
      }
      StepCounted(full, WithoutSweep(s), n);
      if Unnoticed(swept, full, s) {
        SweepingUnnoticedIff(Next(swept, s), Next(full, WithoutSweep(s)), run[1..], n + 1);
      }
    }
  }

  // ---------------------------------------------------- nobody lags a sweep

  /** The newest time at which the limiter has swept. */
  function SweptAt(clock: nat, s: Step): nat { if s.Arrive? && s.sweep && s.p.now > clock then s.p.now else clock }

  /** No step keeps a time older than a sweep before it. */
  predicate NobodyLags(run: seq<Step>, clock: nat)
    decreases |run|
  {
    run == [] || (clock <= run[0].p.now && NobodyLags(run[1..], SweptAt(clock, run[0])))
  }

  ghost predicate MissingExpired(swept: World, full: World, clock: nat)
  {
    forall ip :: ip in full.table && ip !in swept.table ==> Expired(full.table[ip], clock)
  }

  lemma StaysExpired(r: FailRecord, clock: nat, later: nat)
    requires Expired(r, clock) && clock <= later
    ensures Expired(r, later)
  {
  }

  lemma MissingStayExpired(swept: World, full: World, s: Step, clock: nat)
    requires Agree(swept, full) && MissingExpired(swept, full, clock) && clock <= s.p.now
    requires s.Settle? ==> s.drops == {}
    ensures MissingExpired(Next(swept, s), Next(full, WithoutSweep(s)), SweptAt(clock, s))
  {
    assert forall r :: Expired(r, clock) ==> Expired(r, SweptAt(clock, s));
  }

  /** In particular whenever no step keeps a time older than a sweep before it: then the two limiters
      let the same requests through at every point, and what only one of them still has is expired. */
  lemma {:induction false} SweepingInvisibleInFlight(swept: World, full: World, run: seq<Step>, clock: nat)
    requires Agree(swept, full) && AllPossible(swept, run) && MissingExpired(swept, full, clock)
    requires NobodyLags(run, clock)
    ensures AgreeThroughout(swept, full, run) && UnnoticedThroughout(swept, full, run)
    decreases |run|
  {
    if run != [] {
      var s := run[0];
      assert Unnoticed(swept, full, s) by {
        if s.p.ip in full.table && s.p.ip !in swept.table {
          StaysExpired(full.table[s.p.ip], clock, s.p.now);
        }
      }
      if s.Arrive? {
        ArriveAgreeIff(swept, full, s);
      } else {
        UnnoticedSettleAgrees(swept, full, s);
      }
      MissingStayExpired(swept, full, s, clock);
      SweepingInvisibleInFlight(Next(swept, s), Next(full, WithoutSweep(s)), run[1..], SweptAt(clock, s));
    }
  }

  lemma UnnoticedSettleAgrees(swept: World, full: World, s: Step)
    requires Agree(swept, full) && s.Settle? && s.drops == {} && Unnoticed(swept, full, s)
    ensures Agree(Next(swept, s), Next(full, WithoutSweep(s)))
  {
  }
}
