/** Choosing a tag that collides with none already taken. */
module Tags {
  import opened Decimals

  function Candidate(base: string, n: nat): string { base + "-" + Print(n) }

  lemma CandidateInjective(base: string, m: nat, n: nat)
    ensures Candidate(base, m) == Candidate(base, n) <==> m == n
  {
    PrintInjective(m, n);
    assert Candidate(base, m)[|base| + 1..] == Print(m);
    assert Candidate(base, n)[|base| + 1..] == Print(n);
  }

  ghost predicate IsCandidateFrom(base: string, tag: string, n: nat)
  {
    exists m: nat :: n <= m && tag == Candidate(base, m)
  }

  /** The taken tags that a search from `n` on can still run into. */
  ghost function Ahead(base: string, taken: seq<string>, n: nat): set<string>
  {
    set tag | tag in taken && IsCandidateFrom(base, tag, n)
  }

  lemma AheadShrinks(base: string, taken: seq<string>, n: nat)
    requires Candidate(base, n) in taken
    ensures |Ahead(base, taken, n + 1)| < |Ahead(base, taken, n)|
  {
    var hit := Candidate(base, n);
    assert IsCandidateFrom(base, hit, n);
    if IsCandidateFrom(base, hit, n + 1) {
      var m: nat :| n + 1 <= m && hit == Candidate(base, m);
      CandidateInjective(base, m, n);
    }
    forall tag | tag in Ahead(base, taken, n)
      ensures tag == hit || tag in Ahead(base, taken, n + 1)
    {
      var m: nat :| n <= m && tag == Candidate(base, m);
      if m > n {
        assert IsCandidateFrom(base, tag, n + 1);
      }
    }
    forall tag | tag in Ahead(base, taken, n + 1)
      ensures tag in Ahead(base, taken, n)
    {
      var m: nat :| n + 1 <= m && tag == Candidate(base, m);
      assert IsCandidateFrom(base, tag, n);
    }
    assert Ahead(base, taken, n + 1) == Ahead(base, taken, n) - {hit};
  }

  /** The first free candidate from `n` on; the search ends because each candidate it skips is
      one taken tag fewer ahead. */
  function FreshFrom(base: string, taken: seq<string>, n: nat): (tag: string)
    ensures tag !in taken && tag != ""
    decreases |Ahead(base, taken, n)|
  {
    if Candidate(base, n) in taken then
      AheadShrinks(base, taken, n);
      FreshFrom(base, taken, n + 1)
    else
      assert |Candidate(base, n)| > 0;
      Candidate(base, n)
  }

  function OrNode(base: string): string { if base == "" then "node" else base }

  function Fresh(base: string, taken: seq<string>): (tag: string)
    ensures tag !in taken && tag != ""
    ensures base != "" && base !in taken ==> tag == base
  {
    if OrNode(base) !in taken then OrNode(base) else FreshFrom(OrNode(base), taken, 2)
  }

  /** The tag chosen for a taken base is the base with the least free number from 2 on. */
  lemma {:induction false} FreshIsLeast(base: string, taken: seq<string>, n: nat)
    ensures exists k: nat :: n <= k && FreshFrom(base, taken, n) == Candidate(base, k)
              && forall m: nat :: n <= m < k ==> Candidate(base, m) in taken
    decreases |Ahead(base, taken, n)|
  {
    if Candidate(base, n) in taken {
      AheadShrinks(base, taken, n);
      FreshIsLeast(base, taken, n + 1);
    }
  }

  method UniqueAutoTag(base: string, taken: seq<string>) returns (tag: string, taken': seq<string>)
    ensures tag == Fresh(base, taken) && tag !in taken
    ensures taken' == taken + [tag]
  {
    var base' := OrNode(base);
    if base' !in taken {
      return base', taken + [base'];
    }
    var n := 2;
    tag := Candidate(base', n);
    while tag in taken
      invariant n >= 2 && tag == Candidate(base', n)
      invariant FreshFrom(base', taken, n) == Fresh(base, taken)
      decreases |Ahead(base', taken, n)|
    {
      AheadShrinks(base', taken, n);
      n := n + 1;
      tag := Candidate(base', n);
    }
    taken' := taken + [tag];
  }
}
