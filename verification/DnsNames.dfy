/** The DNS name walker that hashes a query name (wire format of section 3.1 of RFC 1035), and its
    user-space twin on dotted strings. */
module DnsNames {
  import opened Bytes

  const DOT: byte := 46
  const STEPS: nat := 256

  function Lower(b: byte): byte { if 65 <= b <= 90 then b + 32 else b }

  function LowerAll(s: bytes): (r: bytes)
    ensures |r| == |s|
  {
    seq(|s|, i requires 0 <= i < |s| => Lower(s[i]))
  }

  /** DJB2 in 64-bit arithmetic over the bytes fed to it. */
  function Djb2(fed: bytes): nat
  {
    if fed == [] then 5381
    else (33 * Djb2(fed[..|fed| - 1]) + fed[|fed| - 1]) % (U64_MAX + 1)
  }

  /** Where a walk stops, and the bytes it feeds to the hash. */
  datatype Walked = Walked(off: nat, fed: bytes)

  function Walk(data: bytes, off: nat, remaining: nat, steps: nat): Walked
    decreases steps
  {
    if steps == 0 || off + 1 > |data| then Walked(off, [])
    else
      var b := data[off];
      if remaining == 0 then
        if b == 0 || b > 63 then Walked(off + 1, [])
        else
          var rest := Walk(data, off + 1, b, steps - 1);
          rest.(fed := [b] + rest.fed)
      else
        var rest := Walk(data, off + 1, remaining - 1, steps - 1);
        rest.(fed := [Lower(b)] + rest.fed)
  }

  /** The flat loop of `hash_domain`: never reads past the packet. */
  method HashDomain(data: bytes, offset: nat) returns (hash: nat, off: nat)
    ensures var w := Walk(data, offset, 0, STEPS); hash == Djb2(w.fed) && off == w.off
  {
    hash, off := 5381, offset;
    var remaining, i := 0, 0;
    ghost var whole, fed := Walk(data, offset, 0, STEPS), [];
    assert whole.fed == [] + whole.fed;
    while i < STEPS
      invariant 0 <= i <= STEPS && hash == Djb2(fed)
      invariant var w := Walk(data, off, remaining, STEPS - i); whole.off == w.off && whole.fed == fed + w.fed
      decreases STEPS - i
    {
      if off + 1 > |data| {
        break;
      }
      var b := data[off];
      ghost var here := off;
      off := off + 1;
      if remaining == 0 {
        if b == 0 || b > 63 {
          assert fed + [] == fed;
          return;
        }
        FeedOne(fed, b, Walk(data, off, b, STEPS - i - 1).fed);
        remaining := b;
        hash := (33 * hash + b) % (U64_MAX + 1);
        fed := fed + [b];
      } else {
        var c := Lower(b);
        FeedOne(fed, c, Walk(data, off, remaining - 1, STEPS - i - 1).fed);
        hash := (33 * hash + c) % (U64_MAX + 1);
        remaining := remaining - 1;
        fed := fed + [c];
      }
      i := i + 1;
    }
    assert fed + [] == fed;
  }

  lemma FeedOne(fed: bytes, b: byte, rest: bytes)
    ensures fed + ([b] + rest) == (fed + [b]) + rest
    ensures Djb2(fed + [b]) == (33 * Djb2(fed) + b) % (U64_MAX + 1)
  {
    assert (fed + [b])[..|fed|] == fed;
  }

  /** The base to the power `n`. */
  function Pow33(n: nat): nat { if n == 0 then 1 else 33 * Pow33(n - 1) }

  /** The bytes as digits to base 33, the first one the most significant. */
  function Digits33(fed: bytes): nat
  {
    if fed == [] then 0 else fed[0] * Pow33(|fed| - 1) + Digits33(fed[1..])
  }

  lemma {:induction false} Digits33Snoc(fed: bytes, b: byte)
    ensures Digits33(fed + [b]) == 33 * Digits33(fed) + b
  {
    if fed == [] {
      assert fed + [b] == [b];
    } else {
      var rest := fed[1..];
      Digits33Snoc(rest, b);
      assert (fed + [b])[1..] == rest + [b];
      Distributes(fed[0], Pow33(|fed| - 1), Digits33(rest));
    }
  }

  lemma Distributes(d: nat, p: nat, n: nat)
    ensures d * (33 * p) + 33 * n == 33 * (d * p + n)
  {
  }

  /** The hash in closed form: the bytes as digits to base 33 behind the start value, modulo 2^64. */
  lemma {:induction false} Djb2Is(fed: bytes)
    ensures Djb2(fed) == (5381 * Pow33(|fed|) + Digits33(fed)) % 0x1_0000_0000_0000_0000
  {
    if fed != [] {
      var n := |fed| - 1;
      Djb2Is(fed[..n]);
      Digits33Snoc(fed[..n], fed[n]);
      assert fed == fed[..n] + [fed[n]];
      ModStep(5381 * Pow33(n) + Digits33(fed[..n]), fed[n], 0x1_0000_0000_0000_0000);
    }
  }

  lemma ModStep(x: nat, b: nat, m: nat)
    requires m > 0
    ensures (33 * (x % m) + b) % m == (33 * x + b) % m
  {
    var q := x / m;
    assert 33 * x + b == (33 * (x % m) + b) + m * (33 * q);
    ModAdds(33 * (x % m) + b, 33 * q, m);
  }

  lemma ModAdds(r: nat, k: nat, m: nat)
    requires m > 0
    ensures (r + m * k) % m == r % m
  {
    var q, s := r / m, r % m;
    assert r + m * k == m * (q + k) + s;
    QuotientUnique(m, q + k, s);
  }

  lemma QuotientUnique(m: nat, q: nat, s: nat)
    requires s < m
    ensures (m * q + s) % m == s
  {
    var x := m * q + s;
    assert m * (x / m) + x % m == x;
    if x / m != q {
      NoMultipleBetween(m, x / m - q);
    }
  }

  lemma NoMultipleBetween(m: nat, d: int)
    requires d != 0
    ensures m * d + m <= 0 || m <= m * d
  {
  }

  /** A zero or a length above 63, which no label has, ends the walk right behind it, and so does the
      end of the packet. */
  lemma WalkStops(data: bytes, off: nat, steps: nat)
    requires steps > 0
    ensures off < |data| && (data[off] == 0 || data[off] > 63) ==> Walk(data, off, 0, steps) == Walked(off + 1, [])
    ensures off >= |data| ==> forall remaining :: Walk(data, off, remaining, steps) == Walked(off, [])
  {
  }

  // ----------------------------------------------------------- valid names

  predicate ValidLabels(labels: seq<bytes>) { forall i :: 0 <= i < |labels| ==> 1 <= |labels[i]| <= 63 }

  function Prefixed(lab: bytes): bytes
    requires |lab| <= 63
  {
    [|lab|] + lab
  }

  /** The wire form: length-prefixed labels, then the root label. */
  function Wire(labels: seq<bytes>): bytes
    requires ValidLabels(labels)
  {
    if labels == [] then [0] else Prefixed(labels[0]) + Wire(labels[1..])
  }

  /** What a name feeds to the hash: every length byte and every letter in lower case. */
  function Fed(labels: seq<bytes>): bytes
    requires ValidLabels(labels)
  {
    if labels == [] then [] else Prefixed(LowerAll(labels[0])) + Fed(labels[1..])
  }

  /** `piece` stands in `data` at `off`. */
  predicate At(data: bytes, off: nat, piece: bytes)
  {
    off + |piece| <= |data| && forall i :: off <= i < off + |piece| ==> data[i] == piece[i - off]
  }

  lemma AtSplit(data: bytes, off: nat, a: bytes, b: bytes)
    requires At(data, off, a + b)
    ensures At(data, off, a) && At(data, off + |a|, b)
  {
    forall i | off <= i < off + |a| ensures data[i] == a[i - off] {
      assert data[i] == (a + b)[i - off];
    }
    forall i | off + |a| <= i < off + |a| + |b| ensures data[i] == b[i - off - |a|] {
      assert data[i] == (a + b)[i - off];
    }
  }

  lemma LowerCons(chars: bytes, rest: bytes)
    requires chars != []
    ensures [Lower(chars[0])] + (LowerAll(chars[1..]) + rest) == LowerAll(chars) + rest
  {
  }

  lemma {:induction false} WalkChars(data: bytes, off: nat, chars: bytes, steps: nat)
    requires At(data, off, chars) && |chars| <= steps
    ensures var w := Walk(data, off + |chars|, 0, steps - |chars|);
            Walk(data, off, |chars|, steps) == w.(fed := LowerAll(chars) + w.fed)
    decreases |chars|
  {
    var w := Walk(data, off + |chars|, 0, steps - |chars|);
    if chars == [] {
      assert LowerAll(chars) + w.fed == w.fed;
    } else {
      assert [chars[0]] + chars[1..] == chars;
      AtSplit(data, off, [chars[0]], chars[1..]);
      WalkChars(data, off + 1, chars[1..], steps - 1);
      LowerCons(chars, w.fed);
    }
  }

  lemma WalkLabel(data: bytes, off: nat, lab: bytes, steps: nat)
    requires 1 <= |lab| <= 63 && At(data, off, Prefixed(lab)) && |lab| < steps
    ensures var w := Walk(data, off + 1 + |lab|, 0, steps - 1 - |lab|);
            Walk(data, off, 0, steps) == w.(fed := Prefixed(LowerAll(lab)) + w.fed)
  {
    AtSplit(data, off, [|lab|], lab);
    WalkChars(data, off + 1, lab, steps - 1);
    var w := Walk(data, off + 1 + |lab|, 0, steps - 1 - |lab|);
    assert [|lab|] + (LowerAll(lab) + w.fed) == Prefixed(LowerAll(lab)) + w.fed;
  }

  /** For every valid name, wherever it stands in the packet, the walk stops just past the root
      label and feeds exactly the name. */
  lemma {:induction false} WalkName(data: bytes, off: nat, labels: seq<bytes>, steps: nat)
    requires ValidLabels(labels) && At(data, off, Wire(labels)) && |Wire(labels)| <= steps
    ensures Walk(data, off, 0, steps) == Walked(off + |Wire(labels)|, Fed(labels))
    decreases |labels|
  {
    if labels == [] {
      assert data[off] == [0][0];
    } else {
      var lab, rest := labels[0], labels[1..];
      AtSplit(data, off, Prefixed(lab), Wire(rest));
      WalkLabel(data, off, lab, steps);
      WalkName(data, off + 1 + |lab|, rest, steps - 1 - |lab|);
    }
  }

  /** A name of up to 255 bytes fits the 256 steps of the loop. */
  lemma ValidNameWalked(before: bytes, labels: seq<bytes>, after: bytes)
    requires ValidLabels(labels) && |Wire(labels)| <= 255
    ensures Walk(before + Wire(labels) + after, |before|, 0, STEPS) == Walked(|before| + |Wire(labels)|, Fed(labels))
  {
    WalkName(before + Wire(labels) + after, |before|, labels, STEPS);
  }

  /** The same byte, or the same ASCII letter in the other case. */
  predicate SameByte(x: byte, y: byte)
  {
    x == y || (65 <= x <= 90 && y == x + 32) || (65 <= y <= 90 && x == y + 32)
  }

  /** Labels equal up to ASCII case. */
  predicate SameLabel(x: bytes, y: bytes) { |x| == |y| && forall k :: 0 <= k < |x| ==> SameByte(x[k], y[k]) }

  /** Names equal up to ASCII case. */
  predicate SameIgnoringCase(a: seq<bytes>, b: seq<bytes>)
  {
    |a| == |b| && forall i :: 0 <= i < |a| ==> SameLabel(a[i], b[i])
  }

  lemma {:induction false} LowerAllAt(s: bytes, k: nat)
    requires k < |s|
    ensures LowerAll(s)[k] == Lower(s[k])
  {
    if k > 0 {
      LowerAllAt(s[1..], k - 1);
    }
  }

  lemma SameLabelIff(x: bytes, y: bytes)
    ensures LowerAll(x) == LowerAll(y) <==> SameLabel(x, y)
  {
    forall k | 0 <= k < |x| && k < |y| ensures LowerAll(x)[k] == LowerAll(y)[k] <==> SameByte(x[k], y[k]) {
      LowerAllAt(x, k);
      LowerAllAt(y, k);
    }
  }

  lemma SameIgnoringCaseCons(a: seq<bytes>, b: seq<bytes>)
    requires a != [] && b != []
    ensures SameIgnoringCase(a, b) <==> LowerAll(a[0]) == LowerAll(b[0]) && SameIgnoringCase(a[1..], b[1..])
  {
    SameLabelIff(a[0], b[0]);
    assert a == [a[0]] + a[1..] && b == [b[0]] + b[1..];
  }

  /** A length prefix says where a label ends. */
  lemma PrefixedSplits(u: bytes, v: bytes, r: bytes, s: bytes)
    requires |u| <= 63 && |v| <= 63
    ensures Prefixed(u) + r == Prefixed(v) + s <==> u == v && r == s
  {
    var x, y := Prefixed(u) + r, Prefixed(v) + s;
    assert x[0] == |u| && y[0] == |v|;
    assert x[1..1 + |u|] == u && x[1 + |u|..] == r;
    assert y[1..1 + |v|] == v && y[1 + |v|..] == s;
  }

  /** Two names feed the same bytes to the hash if and only if they differ at most in ASCII case. */
  lemma {:induction false} FedInjective(a: seq<bytes>, b: seq<bytes>)
    requires ValidLabels(a) && ValidLabels(b)
    ensures Fed(a) == Fed(b) <==> SameIgnoringCase(a, b)
    decreases |a|
  {
    if a != [] && b != [] {
      FedInjective(a[1..], b[1..]);
      SameIgnoringCaseCons(a, b);
      PrefixedSplits(LowerAll(a[0]), LowerAll(b[0]), Fed(a[1..]), Fed(b[1..]));
    }
  }

  // ------------------------------------------------------ the user-space twin

  function FirstDot(s: bytes): (i: nat)
    ensures i <= |s| && (i < |s| ==> s[i] == DOT)
  {
    if s == [] || s[0] == DOT then 0 else 1 + FirstDot(s[1..])
  }

  function UserLabel(lab: bytes): (fed: seq<nat>)
    ensures |fed| <= |lab| + 1
  {
    if lab == [] then [] else [|lab|] + LowerAll(lab)
  }

  /** What the user-space hash feeds for a dotted name: per non-empty label, its length and then
      its letters in lower case. A dot that ends no label costs a byte. */
  function UserFed(domain: bytes): (fed: seq<nat>)
    ensures |fed| <= |domain| + 1
    decreases |domain|
  {
    var i := FirstDot(domain);
    if i == |domain| then UserLabel(domain) else UserLabel(domain[..i]) + UserFed(domain[i + 1..])
  }

  function Dotted(labels: seq<bytes>): bytes
  {
    if labels == [] then []
    else if |labels| == 1 then labels[0]
    else labels[0] + [DOT] + Dotted(labels[1..])
  }

  lemma {:induction false} FirstDotAfter(lab: bytes, rest: bytes)
    requires DOT !in lab
    ensures FirstDot(lab) == |lab| && FirstDot(lab + [DOT] + rest) == |lab|
  {
    if lab != [] {
      FirstDotAfter(lab[1..], rest);
      assert (lab + [DOT] + rest)[1..] == lab[1..] + [DOT] + rest;
    }
  }

  lemma UserFedFirst(lab: bytes, rest: bytes)
    requires DOT !in lab
    ensures UserFed(lab) == UserLabel(lab)
    ensures UserFed(lab + [DOT] + rest) == UserLabel(lab) + UserFed(rest)
  {
    FirstDotAfter(lab, rest);
    var s := lab + [DOT] + rest;
    assert s[..|lab|] == lab && s[|lab| + 1..] == rest;
  }

  lemma {:induction false} FedLength(labels: seq<bytes>)
    requires labels != [] && ValidLabels(labels)
    ensures |Fed(labels)| == |Dotted(labels)| + 1
    decreases |labels|
  {
    if |labels| == 1 {
      assert Fed(labels[1..]) == [];
    } else {
      FedLength(labels[1..]);
    }
  }

  lemma {:induction false} FirstDotInside(lab: bytes, rest: bytes)
    requires DOT in lab
    ensures FirstDot(lab) < |lab| && FirstDot(lab + rest) == FirstDot(lab)
  {
    if lab[0] != DOT {
      assert lab == [lab[0]] + lab[1..];
      FirstDotInside(lab[1..], rest);
      assert (lab + rest)[1..] == lab[1..] + rest;
    }
  }

  /** A name that starts with a dot feeds the user-space hash too little. */
  lemma LeadingDot(s: bytes)
    requires s != [] && s[0] == DOT
    ensures |UserFed(s)| <= |s|
  {
    assert UserLabel(s[..0]) == [];
  }

  /** Otherwise the length it feeds first is the distance to the first dot. */
  lemma FirstLength(s: bytes)
    requires 0 < FirstDot(s) < |s|
    ensures UserFed(s) != [] && UserFed(s)[0] == FirstDot(s)
  {
  }

  /** A first label with a dot in it is cut short by the user-space hash. */
  lemma DottedLabelDiffers(labels: seq<bytes>)
    requires labels != [] && ValidLabels(labels) && DOT in labels[0]
    ensures UserFed(Dotted(labels)) != Fed(labels)
  {
    var s, lab := Dotted(labels), labels[0];
    assert s == lab + s[|lab|..];
    FirstDotInside(lab, s[|lab|..]);
    FedLength(labels);
    if FirstDot(s) == 0 {
      LeadingDot(s);
    } else {
      FirstLength(s);
      assert Fed(labels)[0] == |lab|;
    }
  }

  /** Exactly when the two hashes agree: the user-space hash of the dotted form of a valid name is fed
      the same numbers as the packet walker if and only if no label contains a dot. */
  lemma {:induction false} UserSpaceAgrees(labels: seq<bytes>)
    requires ValidLabels(labels)
    ensures UserFed(Dotted(labels)) == Fed(labels) <==> forall i :: 0 <= i < |labels| ==> DOT !in labels[i]
    decreases |labels|
  {
    if labels != [] {
      if DOT in labels[0] {
        DottedLabelDiffers(labels);
      } else {
        var rest := Dotted(labels[1..]);
        UserFedFirst(labels[0], rest);
        UserSpaceAgrees(labels[1..]);
        assert labels == [labels[0]] + labels[1..];
        SamePrefix([|labels[0]|] + LowerAll(labels[0]), UserFed(rest), Fed(labels[1..]));
      }
    }
  }

  lemma SamePrefix(p: seq<nat>, a: seq<nat>, b: seq<nat>)
    ensures p + a == p + b <==> a == b
  {
    assert (p + a)[|p|..] == a && (p + b)[|p|..] == b;
  }
}
