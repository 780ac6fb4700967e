/** Which texts are padding schemes, and which scheme each one is. */
module SchemeGrammar {
  import opened Wrappers
  import opened Bytes
  import opened Ciphers
  import opened Decimals
  import opened Records
  import opened Listing
  import opened PaddingScheme

  predicate AllSpace(s: string) { forall i :: 0 <= i < |s| ==> IsSpace(s[i]) }

  /** `t` is the text without the white space around it. */
  ghost predicate IsTrimmed(s: string, t: string)
  {
    && (exists a, b :: s == a + t + b && AllSpace(a) && AllSpace(b))
    && (t != [] ==> !IsSpace(t[0]) && !IsSpace(t[|t| - 1]))
  }

  lemma {:induction false} TrimStartIs(s: string) returns (a: string)
    ensures s == a + TrimStart(s) && AllSpace(a) && (TrimStart(s) != [] ==> !IsSpace(TrimStart(s)[0]))
  {
    a := [];
    if s != [] && IsSpace(s[0]) {
      var rest := TrimStartIs(s[1..]);
      a := [s[0]] + rest;
      assert s == [s[0]] + s[1..];
    }
  }

  lemma {:induction false} TrimEndIs(s: string) returns (b: string)
    ensures s == TrimEnd(s) + b && AllSpace(b) && (TrimEnd(s) != [] ==> !IsSpace(TrimEnd(s)[|TrimEnd(s)| - 1]))
  {
    b := [];
    if s != [] && IsSpace(s[|s| - 1]) {
      var rest := TrimEndIs(s[..|s| - 1]);
      b := rest + [s[|s| - 1]];
      assert s == s[..|s| - 1] + [s[|s| - 1]];
    }
  }

  lemma TrimIs(s: string)
    ensures IsTrimmed(s, Trim(s))
  {
    var a := TrimStartIs(s);
    var b := TrimEndIs(TrimStart(s));
    assert s == a + Trim(s) + b;
    if Trim(s) != [] {
      assert Trim(s)[0] == TrimStart(s)[0];
    }
  }

  lemma BlankIff(s: string)
    ensures Trim(s) == [] <==> AllSpace(s)
  {
    TrimIs(s);
    var a, b :| s == a + Trim(s) + b && AllSpace(a) && AllSpace(b);
    if Trim(s) != [] {
      assert s[|a|] == Trim(s)[0];
    }
  }

  /** Two numbers around the first hyphen, each with white space around it, in order and in range. */
  ghost predicate Denotes(part: string, r: Range)
  {
    exists lo, hi ::
      && part == lo + "-" + hi && '-' !in lo
      && ParseUsize(Trim(lo)) == Some(r.lo) && ParseUsize(Trim(hi)) == Some(r.hi)
      && 1 <= r.lo <= r.hi <= 16384
  }

  lemma DenotesWhenParsed(part: string, r: Range)
    requires ParseRange(part) == Some(r)
    ensures Denotes(part, r)
  {
    var i := Find(part, '-');
    assert part == part[..i] + "-" + part[i + 1..];
  }

  lemma ParsedWhenDenotes(part: string, r: Range, lo: string, hi: string)
    requires part == lo + "-" + hi && '-' !in lo
    requires ParseUsize(Trim(lo)) == Some(r.lo) && ParseUsize(Trim(hi)) == Some(r.hi) && 1 <= r.lo <= r.hi <= 16384
    ensures ParseRange(part) == Some(r)
  {
    FindFirst(lo, '-', hi);
    assert part[..|lo|] == lo && part[|lo| + 1..] == hi;
  }

  lemma ParseRangeIff(part: string, r: Range)
    ensures ParseRange(part) == Some(r) <==> Denotes(part, r)
  {
    if ParseRange(part) == Some(r) {
      DenotesWhenParsed(part, r);
    }
    if Denotes(part, r) {
      var lo, hi :| part == lo + "-" + hi && '-' !in lo && ParseUsize(Trim(lo)) == Some(r.lo)
               && ParseUsize(Trim(hi)) == Some(r.hi) && 1 <= r.lo <= r.hi <= 16384;
      ParsedWhenDenotes(part, r, lo, hi);
    }
  }

  /** What one part between semicolons is. */
  lemma PartIff(part: string)
    ensures AllSpace(part) <==> PartRanges(part) == Some([])
    ensures forall r :: !AllSpace(part) && Denotes(Trim(part), r) <==> PartRanges(part) == Some([r])
    ensures PartRanges(part).Some? ==> |PartRanges(part).value| <= 1
  {
    BlankIff(part);
    forall r ensures ParseRange(Trim(part)) == Some(r) <==> Denotes(Trim(part), r) {
      ParseRangeIff(Trim(part), r);
    }
  }

  function NotBlank(parts: seq<string>): nat -> bool { (i: nat) => i < |parts| && !AllSpace(parts[i]) }

  ghost function IsRange(parts: seq<string>): (nat, Range) -> bool
  {
    (i: nat, r: Range) => i < |parts| && Denotes(Trim(parts[i]), r)
  }

  /** The first `n` parts are all good, and `out` lists their ranges. */
  ghost predicate Good(parts: seq<string>, n: nat, out: seq<Range>)
  {
    Lists(n, out, NotBlank(parts), IsRange(parts))
  }

  /** Some part is neither blank nor a range. */
  ghost predicate Bad(parts: seq<string>, n: nat)
  {
    exists i :: 0 <= i < n && i < |parts| && !AllSpace(parts[i]) && forall r :: !Denotes(Trim(parts[i]), r)
  }

  lemma BadSnoc(parts: seq<string>, n: nat)
    requires n < |parts|
    ensures Bad(parts, n + 1) <==> Bad(parts, n) || PartRanges(parts[n]).None?
  {
    PartIff(parts[n]);
    if PartRanges(parts[n]).None? {
      assert !AllSpace(parts[n]) && forall r :: !Denotes(Trim(parts[n]), r);
    }
  }

  lemma {:induction false} CollectSnoc(parts: seq<string>, n: nat)
    requires n < |parts|
    ensures Collect(PartRanges, parts[..n + 1]) == Join(Collect(PartRanges, parts[..n]), PartRanges(parts[n]))
  {
    CollectSplit(PartRanges, parts[..n + 1], n);
    assert parts[..n + 1][..n] == parts[..n] && parts[..n + 1][n..] == [parts[n]];
    CollectCons(PartRanges, parts[n], []);
  }

  lemma GoodSnoc(parts: seq<string>, n: nat, out: seq<Range>)
    requires n < |parts| && Good(parts, n, out) && PartRanges(parts[n]).Some?
    ensures Good(parts, n + 1, out + PartRanges(parts[n]).value)
  {
    var one := PartRanges(parts[n]).value;
    PartIff(parts[n]);
    if one == [] {
      assert out + one == out;
      ListsSkip(n, out, NotBlank(parts), IsRange(parts));
    } else {
      assert one == [one[0]];
      ListsKeep(n, out, NotBlank(parts), IsRange(parts), one[0]);
    }
  }

  lemma {:induction false} CollectMeans(parts: seq<string>, n: nat)
    requires n <= |parts|
    ensures var r := Collect(PartRanges, parts[..n]);
            && (r.Some? ==> Good(parts, n, r.value)) && (r.None? <==> Bad(parts, n))
  {
    if n == 0 {
      ListsNone(NotBlank(parts), IsRange(parts));
    } else {
      CollectMeans(parts, n - 1);
      CollectSnoc(parts, n - 1);
      BadSnoc(parts, n - 1);
      var before := Collect(PartRanges, parts[..n - 1]);
      if before.Some? && PartRanges(parts[n - 1]).Some? {
        GoodSnoc(parts, n - 1, before.value);
      }
    }
  }

  /** The text is accepted as the scheme if and only if the scheme is not empty and lists, in order,
      the ranges of the parts between semicolons that are not blank, each of them a range; it is
      refused if and only if some part is neither blank nor a range, or all are blank. */
  lemma SchemeIff(s: string)
    ensures var parts := Split(s, ';');
            match ParseScheme(s)
            case Some(scheme) => scheme != [] && Good(parts, |parts|, scheme) && !Bad(parts, |parts|)
            case None => Bad(parts, |parts|) || Good(parts, |parts|, [])
  {
    var parts := Split(s, ';');
    CollectMeans(parts, |parts|);
    assert parts[..|parts|] == parts;
  }

  /** What is configured is in force if it is a scheme, and the eight default ranges otherwise. */
  lemma InForceIs(configured: string)
    ensures match ParseScheme(configured)
            case Some(scheme) => SchemeInForce(configured) == scheme
            case None =>
              SchemeInForce(configured)
                == [Range(64, 256), Range(256, 800), Range(100, 1400), Range(600, 1200), Range(128, 512),
                    Range(900, 1400), Range(64, 700), Range(400, 1400)]
  {
  }
}
