/** What it means that a list holds, in order and each once, what is kept of another list. */
module Listing {

  predicate Increasing(ps: seq<nat>, n: nat)
  {
    && (forall k :: 0 <= k < |ps| ==> ps[k] < n)
    && (forall j, k :: 0 <= j < k < |ps| ==> ps[j] < ps[k])
  }

  /** `ps` are the positions below `n` that are kept, in order, and `out` has an entry that fits for
      each of them. */
  ghost predicate Picks<B>(n: nat, out: seq<B>, kept: nat -> bool, fits: (nat, B) -> bool, ps: seq<nat>)
  {
    && |ps| == |out| && Increasing(ps, n)
    && (forall k :: 0 <= k < |ps| ==> kept(ps[k]) && fits(ps[k], out[k]))
    && (forall i :: 0 <= i < n && kept(i) ==> i in ps)
  }

  ghost predicate Lists<B>(n: nat, out: seq<B>, kept: nat -> bool, fits: (nat, B) -> bool)
  {
    exists ps :: Picks(n, out, kept, fits, ps)
  }

  lemma ListsNone<B>(kept: nat -> bool, fits: (nat, B) -> bool)
    ensures Lists(0, [], kept, fits)
  {
    var none: seq<B> := [];
    assert Picks(0, none, kept, fits, []);
  }

  lemma ListsSkip<B>(n: nat, out: seq<B>, kept: nat -> bool, fits: (nat, B) -> bool)
    requires Lists(n, out, kept, fits) && !kept(n)
    ensures Lists(n + 1, out, kept, fits)
  {
    var ps :| Picks(n, out, kept, fits, ps);
    assert Picks(n + 1, out, kept, fits, ps);
  }

  lemma ListsKeep<B>(n: nat, out: seq<B>, kept: nat -> bool, fits: (nat, B) -> bool, x: B)
    requires Lists(n, out, kept, fits) && kept(n) && fits(n, x)
    ensures Lists(n + 1, out + [x], kept, fits)
  {
    var ps :| Picks(n, out, kept, fits, ps);
    PicksKeep(n, out, kept, fits, x, ps);
  }

  lemma PicksKeep<B>(n: nat, out: seq<B>, kept: nat -> bool, fits: (nat, B) -> bool, x: B, ps: seq<nat>)
    requires Picks(n, out, kept, fits, ps) && kept(n) && fits(n, x)
    ensures Picks(n + 1, out + [x], kept, fits, ps + [n])
  {
    var qs, more := ps + [n], out + [x];
    forall k | 0 <= k < |qs| ensures qs[k] < n + 1 && kept(qs[k]) && fits(qs[k], more[k]) {
      if k < |ps| {
        assert qs[k] == ps[k] && more[k] == out[k];
      }
    }
    forall i | 0 <= i < n + 1 && kept(i) ensures i in qs {
      if i < n {
        assert i in ps;
      } else {
        assert qs[|ps|] == n;
      }
    }
    assert Increasing(qs, n + 1);
  }

  /** One more position, kept or not. */
  lemma ListsMore<B>(n: nat, out: seq<B>, kept: nat -> bool, fits: (nat, B) -> bool, x: B)
    requires Lists(n, out, kept, fits) && (kept(n) ==> fits(n, x))
    ensures Lists(n + 1, if kept(n) then out + [x] else out, kept, fits)
  {
    if kept(n) {
      ListsKeep(n, out, kept, fits, x);
    } else {
      ListsSkip(n, out, kept, fits);
    }
  }

  /** The same for a list that is known under another name. */
  lemma ListsStep<B>(n: nat, out: seq<B>, more: seq<B>, kept: nat -> bool, fits: (nat, B) -> bool, x: B)
    requires Lists(n, out, kept, fits) && (kept(n) ==> fits(n, x))
    requires more == if kept(n) then out + [x] else out
    ensures Lists(n + 1, more, kept, fits)
  {
    ListsMore(n, out, kept, fits, x);
  }

  /** What fits can be told in other words, position by position. */
  lemma ListsAlso<B>(n: nat, out: seq<B>, kept: nat -> bool, fits: (nat, B) -> bool, kept': nat -> bool,
                     fits': (nat, B) -> bool)
    requires Lists(n, out, kept, fits)
    requires forall i :: 0 <= i < n ==> (kept(i) <==> kept'(i))
    requires forall i, x :: 0 <= i < n && kept(i) && fits(i, x) ==> fits'(i, x)
    ensures Lists(n, out, kept', fits')
  {
    var ps :| Picks(n, out, kept, fits, ps);
    forall k | 0 <= k < |ps| ensures kept'(ps[k]) && fits'(ps[k], out[k]) {
      assert kept(ps[k]) && fits(ps[k], out[k]);
    }
    forall i | 0 <= i < n && kept'(i) ensures i in ps {
      assert kept(i);
    }
    assert Picks(n, out, kept', fits', ps);
  }

  /** Every entry has what every fitting entry has. */
  lemma ListsAll<B>(n: nat, out: seq<B>, kept: nat -> bool, fits: (nat, B) -> bool, p: B -> bool)
    requires Lists(n, out, kept, fits) && forall i, x :: 0 <= i < n && kept(i) && fits(i, x) ==> p(x)
    ensures forall k :: 0 <= k < |out| ==> p(out[k])
  {
    var ps :| Picks(n, out, kept, fits, ps);
    forall k | 0 <= k < |out| ensures p(out[k]) {
      assert kept(ps[k]) && fits(ps[k], out[k]);
    }
  }

  /** Changing every entry in place. */
  lemma ListsMap<A, B>(n: nat, a: seq<A>, b: seq<B>, kept: nat -> bool, fits: (nat, A) -> bool,
                       fits': (nat, B) -> bool, f: A -> B)
    requires Lists(n, a, kept, fits) && |a| == |b| && forall k :: 0 <= k < |a| ==> b[k] == f(a[k])
    requires forall i, x :: 0 <= i < n && kept(i) && fits(i, x) ==> fits'(i, f(x))
    ensures Lists(n, b, kept, fits')
  {
    var ps :| Picks(n, a, kept, fits, ps);
    forall k | 0 <= k < |b| ensures kept(ps[k]) && fits'(ps[k], b[k]) {
      assert kept(ps[k]) && fits(ps[k], a[k]);
    }
    assert Picks(n, b, kept, fits', ps);
  }
}
