/** Internet checksums (sections 1 and 2 of RFC 1071, section 3 of RFC 1624) as the packet
    programs update them in place. */
module Checksums {
  import opened Bytes

  /** A 16-bit word in one of the two byte orders. */
  function Word(b0: byte, b1: byte, little: bool): nat { if little then b0 + 256 * b1 else 256 * b0 + b1 }

  /** Sum of the 16-bit words of a byte string; an odd last byte is padded with zero. */
  function WordSum(b: bytes, little: bool): nat
  {
    if b == [] then 0
    else if |b| == 1 then Word(b[0], 0, little)
    else Word(b[0], b[1], little) + WordSum(b[2..], little)
  }

  /** End-around-carry folding down to 16 bits. */
  function Fold(n: nat): (r: nat)
    ensures r < 0x1_0000
  {
    if n < 0x1_0000 then n else Fold(n / 0x1_0000 + n % 0x1_0000)
  }

  /** A receiver accepts: the ones-complement sum over everything is all ones. */
  predicate Verifies(b: bytes, little: bool) { Fold(WordSum(b, little)) == 0xFFFF }

  /** Folding is reduction modulo 65535 that keeps zero apart. */
  lemma {:induction false} FoldIsMod(n: nat)
    ensures Fold(n) == 0xFFFF <==> n > 0 && n % 0xFFFF == 0
  {
    if n >= 0x1_0000 {
      var m := n / 0x1_0000 + n % 0x1_0000;
      FoldIsMod(m);
      assert n == 0x1_0000 * (n / 0x1_0000) + n % 0x1_0000;
      assert n - m == 0xFFFF * (n / 0x1_0000);
      ModShift(m, n / 0x1_0000);
    }
  }

  lemma ModShift(m: nat, k: nat)
    ensures (m + 0xFFFF * k) % 0xFFFF == m % 0xFFFF
  {
  }

  lemma {:induction false} WordSumConcat(a: bytes, b: bytes, little: bool)
    requires |a| % 2 == 0
    ensures WordSum(a + b, little) == WordSum(a, little) + WordSum(b, little)
  {
    if a == [] {
      assert a + b == b;
    } else {
      assert (a + b)[2..] == a[2..] + b;
      WordSumConcat(a[2..], b, little);
    }
  }

  // ------------------------------------------- byte order does not matter

  /** Swapping the bytes of every word multiplies the sum by 256 modulo 65535. */
  lemma {:induction false} SwappedSum(b: bytes) returns (k: nat)
    ensures 256 * WordSum(b, true) == WordSum(b, false) + 0xFFFF * k
    ensures WordSum(b, true) == 0 <==> WordSum(b, false) == 0
  {
    if b == [] {
      k := 0;
    } else if |b| == 1 {
      k := 0;
    } else {
      var rest := SwappedSum(b[2..]);
      k := rest + b[1];
    }
  }

  /** Byte-order independence: a checksum computed on words in host order verifies in network order. */
  lemma ByteOrderIndependent(b: bytes)
    ensures Verifies(b, true) <==> Verifies(b, false)
  {
    var k := SwappedSum(b);
    var le, be := WordSum(b, true), WordSum(b, false);
    FoldIsMod(le);
    FoldIsMod(be);
    if le % 0xFFFF == 0 {
      var q := le / 0xFFFF;
      assert be == 0xFFFF * (256 * q - k);
      ModOfMultiple(256 * q - k);
    }
    if be % 0xFFFF == 0 {
      var q := be / 0xFFFF;
      assert 256 * le == 0xFFFF * (q + k);
      assert le == 0xFFFF * (256 * (q + k) - le);
      ModOfMultiple(256 * (q + k) - le);
    }
  }

  lemma ModOfMultiple(q: int)
    ensures (0xFFFF * q) % 0xFFFF == 0
  {
  }

  // ------------------------------------------------ recomputing an IP header

  const IP_HEADER: nat := 20
  const CHECK: nat := 10

  /** The stored checksum for a word sum: two folds, truncated to 16 bits, complemented. */
  function TwoFold(sum: nat): (check: nat)
    requires sum <= 10 * 0xFFFF
    ensures check <= 0xFFFF
  {
    var once := sum % 0x1_0000 + sum / 0x1_0000;
    0xFFFF - (once + once / 0x1_0000) % 0x1_0000
  }

  /** Two folds are enough for ten words: adding the stored checksum gives a multiple of 65535. */
  lemma TwoFoldVerifies(sum: nat)
    requires sum <= 10 * 0xFFFF
    ensures sum + TwoFold(sum) > 0 && (sum + TwoFold(sum)) % 0xFFFF == 0
  {
    var hi := sum / 0x1_0000;
    var once := sum % 0x1_0000 + hi;
    assert hi <= 9 && sum == once + 0xFFFF * hi;
    if once < 0x1_0000 {
      assert sum + TwoFold(sum) == 0xFFFF * (hi + 1);
      ModOfMultiple(hi + 1);
    } else {
      assert once / 0x1_0000 == 1 && (once + 1) % 0x1_0000 == once - 0xFFFF;
      assert sum + TwoFold(sum) == 0xFFFF * (hi + 2);
      ModOfMultiple(hi + 2);
    }
  }

  lemma {:induction false} WordSumBound(b: bytes, little: bool)
    requires |b| % 2 == 0
    ensures WordSum(b, little) <= 0xFFFF * (|b| / 2)
  {
    if b != [] {
      WordSumBound(b[2..], little);
    }
  }

  /** The header split at its checksum word. */
  lemma HeaderSum(h: bytes, little: bool)
    requires |h| == IP_HEADER
    ensures WordSum(h, little)
         == WordSum(h[..CHECK], little) + Word(h[CHECK], h[CHECK + 1], little) + WordSum(h[CHECK + 2..], little)
  {
    assert h == h[..CHECK] + h[CHECK..];
    WordSumConcat(h[..CHECK], h[CHECK..], little);
    assert h[CHECK..][2..] == h[CHECK + 2..];
  }

  /** Adds up the ten words of a header. */
  method SumWords(h: array<byte>, little: bool) returns (csum: nat)
    requires h.Length == IP_HEADER
    ensures csum == WordSum(h[..], little) && csum <= 10 * 0xFFFF
  {
    csum := 0;
    ghost var all := h[..];
    for i := 0 to IP_HEADER / 2
      invariant csum == WordSum(all[..2 * i], little)
    {
      OneMoreWord(all, i, little);
      csum := csum + Word(h[2 * i], h[2 * i + 1], little);
    }
    assert all[..IP_HEADER] == all;
    WordSumBound(all, little);
  }

  lemma OneMoreWord(b: bytes, i: nat, little: bool)
    requires 2 * i + 2 <= |b|
    ensures WordSum(b[..2 * (i + 1)], little) == WordSum(b[..2 * i], little) + Word(b[2 * i], b[2 * i + 1], little)
  {
    assert b[..2 * (i + 1)] == b[..2 * i] + [b[2 * i], b[2 * i + 1]];
    WordSumConcat(b[..2 * i], [b[2 * i], b[2 * i + 1]], little);
    OneWord(b[2 * i], b[2 * i + 1], little);
  }

  /** Zeroes the checksum, sums the ten words in host order and stores the complement of the
      twice-folded sum: the header then verifies in both byte orders and is otherwise unchanged. */
  method RefreshIpChecksum(h: array<byte>, little: bool)
    requires h.Length == IP_HEADER
    modifies h
    ensures Verifies(h[..], false) && Verifies(h[..], true)
    ensures h[..CHECK] == old(h[..CHECK]) && h[CHECK + 2..] == old(h[CHECK + 2..])
  {
    h[CHECK], h[CHECK + 1] := 0, 0;
    ghost var zeroed := h[..];
    var sum := SumWords(h, little);
    var csum := sum % 0x1_0000 + sum / 0x1_0000;
    var check := 0xFFFF - (csum + csum / 0x1_0000) % 0x1_0000;
    if little {
      h[CHECK], h[CHECK + 1] := check % 256, check / 256;
    } else {
      h[CHECK], h[CHECK + 1] := check / 256, check % 256;
    }
    StoredVerifies(zeroed, h[..], little, sum);
  }

  lemma OneWord(b0: byte, b1: byte, little: bool)
    ensures WordSum([b0, b1], little) == Word(b0, b1, little)
  {
    assert WordSum([b0, b1][2..], little) == 0;
  }

  lemma StoredVerifies(zeroed: bytes, h: bytes, little: bool, sum: nat)
    requires |zeroed| == |h| == IP_HEADER && h[..CHECK] == zeroed[..CHECK] && h[CHECK + 2..] == zeroed[CHECK + 2..]
    requires zeroed[CHECK] == 0 && zeroed[CHECK + 1] == 0
    requires sum == WordSum(zeroed, little) && sum <= 10 * 0xFFFF
    requires Word(h[CHECK], h[CHECK + 1], little) == TwoFold(sum)
    ensures Verifies(h, false) && Verifies(h, true)
  {
    HeaderSum(zeroed, little);
    HeaderSum(h, little);
    TwoFoldVerifies(sum);
    FoldIsMod(WordSum(h, little));
    ByteOrderIndependent(h);
  }

  // ------------------------------------------------ reflecting an ICMP echo

  const ETH: nat := 14
  const IP: nat := ETH
  const ICMP: nat := ETH + IP_HEADER
  const ECHO: byte := 8
  const REPLY: byte := 0

  /** Swapping two aligned neighbouring fields does not change a word sum. */
  lemma {:induction false} SwapKeepsSum(head: bytes, a: bytes, b: bytes)
    requires |head| % 2 == 0 && |a| % 2 == 0 && |b| % 2 == 0
    ensures WordSum(head + a + b, false) == WordSum(head + b + a, false)
  {
    WordSumConcat(head + a, b, false);
    WordSumConcat(head, a, false);
    WordSumConcat(head + b, a, false);
    WordSumConcat(head, b, false);
  }

  /** The incremental update for the type byte going from 8 to 0. */
  function UpdatedCheck(check: nat): (r: nat)
    requires check <= 0xFFFF
    ensures r <= 0xFFFF
  {
    var c := check + 0x0800;
    c % 0x1_0000 + c / 0x1_0000
  }

  lemma UpdateKeepsSum(check: nat, rest: nat)
    requires check <= 0xFFFF && (0x0800 + check + rest) % 0xFFFF == 0
    ensures UpdatedCheck(check) + rest > 0 && (UpdatedCheck(check) + rest) % 0xFFFF == 0
  {
    var sum := 0x0800 + check + rest;
    if check + 0x0800 >= 0x1_0000 {
      assert UpdatedCheck(check) + rest == sum - 0xFFFF;
      var q := sum / 0xFFFF;
      assert sum == 0xFFFF * q && q >= 2;
      assert sum - 0xFFFF == 0xFFFF * (q - 1);
      ModOfMultiple(q - 1);
    }
  }

  lemma IcmpSum(m: bytes)
    requires |m| >= 4
    ensures WordSum(m, false) == Word(m[0], m[1], false) + Word(m[2], m[3], false) + WordSum(m[4..], false)
  {
    assert m[2..][2..] == m[4..];
  }

  /** An echo request that verifies is turned into an echo reply that verifies. */
  lemma ReplyVerifies(m: bytes, r: bytes)
    requires |m| == |r| >= 4 && m[0] == 8 && m[1] == 0 && Verifies(m, false)
    requires r[0] == 0 && r[1] == 0 && r[4..] == m[4..]
    requires Word(r[2], r[3], false) == UpdatedCheck(Word(m[2], m[3], false))
    ensures Verifies(r, false)
  {
    IcmpSum(m);
    IcmpSum(r);
    FoldIsMod(WordSum(m, false));
    UpdateKeepsSum(Word(m[2], m[3], false), WordSum(m[4..], false));
    FoldIsMod(WordSum(r, false));
  }

  /** What the reflection makes of a frame. */
  predicate Reflected(old': bytes, new': bytes)
    requires |old'| >= ICMP + 4
  {
    var check := UpdatedCheck(Word(old'[ICMP + 2], old'[ICMP + 3], false));
    new' == old'[6..12] + old'[..6] + old'[12..IP + 12]
            + old'[IP + 16..IP + 20] + old'[IP + 12..IP + 16]
            + [0, 0, check / 256, check % 256] + old'[ICMP + 4..]
  }

  /** `after` is `before` with the `n` bytes at `a` and at `b` exchanged. */
  function Exchanged(before: bytes, a: nat, b: nat, n: nat): bytes
    requires a + n <= b && b + n <= |before|
  {
    before[..a] + before[b..b + n] + before[a + n..b] + before[a..a + n] + before[b + n..]
  }

  /** Where the byte at `k` came from when the first `n` bytes at `a` and at `b` were exchanged. */
  function Origin(a: nat, b: nat, n: nat, k: nat): (i: nat)
    requires a + n <= b
    ensures k < b + n ==> i < b + n
    ensures k >= b + n ==> i == k
  {
    if a <= k < a + n then k - a + b else if b <= k < b + n then k - b + a else k
  }

  lemma ExchangedAt(before: bytes, after: bytes, a: nat, b: nat, n: nat)
    requires a + n <= b && b + n <= |before| == |after|
    requires forall k :: 0 <= k < |after| ==> after[k] == before[Origin(a, b, n, k)]
    ensures after == Exchanged(before, a, b, n)
  {
    var e := Exchanged(before, a, b, n);
    assert |e| == |after|;
    forall k | 0 <= k < |e| ensures e[k] == after[k] {
      assert e[k] == before[Origin(a, b, n, k)];
    }
  }

  /** Exchanges two fields of the frame. */
  method SwapFields(p: array<byte>, a: nat, b: nat, n: nat)
    requires a + n <= b && b + n <= p.Length
    modifies p
    ensures p[..] == Exchanged(old(p[..]), a, b, n)
  {
    ghost var before := p[..];
    for i := 0 to n
      invariant forall k :: 0 <= k < p.Length ==> p[k] == before[Origin(a, b, i, k)]
    {
      p[a + i], p[b + i] := p[b + i], p[a + i];
    }
    ExchangedAt(before, p[..], a, b, n);
  }

  /** The fake range; the address words keep the byte layout of the packet. */
  datatype FakeRange = FakeRange(net: bv32, mask: bv32)

  function AddressWord(b: bytes): bv32
    requires |b| == 4
  {
    (b[0] as bv32) | ((b[1] as bv32) << 8) | ((b[2] as bv32) << 16) | ((b[3] as bv32) << 24)
  }

  predicate InRange(cfg: FakeRange, b: bytes)
    requires |b| == 4
  {
    cfg.mask != 0 && (AddressWord(b) & cfg.mask) == cfg.net
  }

  /** An ICMP echo request to a fake address, in an IPv4 packet without options. */
  predicate EchoToFake(cfg: FakeRange, frame: bytes)
  {
    && |frame| >= ICMP + 4
    && frame[12] == 0x08 && frame[13] == 0x00 && frame[IP] % 16 == 5 && frame[IP + 9] == 1
    && InRange(cfg, frame[IP + 16..IP + 20])
    && frame[ICMP] == ECHO && frame[ICMP + 1] == 0
  }

  /** What a receiver of the reply can rely on: each checksum that verified still verifies, whatever
      part of the frame after the headers the message takes up. */
  predicate ChecksumsKept(before: bytes, after: bytes)
    requires |before| == |after| >= ICMP + 4
  {
    && (Verifies(before[IP..ICMP], false) ==> Verifies(after[IP..ICMP], false))
    && forall end :: ICMP + 4 <= end <= |before| && Verifies(before[ICMP..end], false) ==>
          Verifies(after[ICMP..end], false)
  }

  /** The classifier's way to the reflection: it reflects exactly the echo requests to a fake
      address and leaves every other frame alone. */
  method DivertEcho(cfg: FakeRange, p: array<byte>) returns (reflected: bool)
    modifies p
    ensures reflected <==> EchoToFake(cfg, old(p[..]))
    ensures !reflected ==> p[..] == old(p[..])
    ensures reflected ==> Reflected(old(p[..]), p[..]) && ChecksumsKept(old(p[..]), p[..])
  {
    if p.Length < IP || p[12] != 0x08 || p[13] != 0x00 {
      return false;
    }
    if p.Length < ICMP || p[IP] % 16 != 5 || p[IP + 9] != 1 {
      return false;
    }
    assert p[..][IP + 16..IP + 20] == p[IP + 16..IP + 20];
    if !InRange(cfg, p[IP + 16..IP + 20]) {
      return false;
    }
    if p.Length < ICMP + 4 || p[ICMP] != ECHO || p[ICMP + 1] != 0 {
      return false;
    }
    ReflectIcmpEcho(p);
    reflected := true;
  }

  /** Turns an ICMP echo request into a reply in place. */
  method ReflectIcmpEcho(p: array<byte>)
    requires p.Length >= ICMP + 4 && p[ICMP] == ECHO && p[ICMP + 1] == 0
    modifies p
    ensures Reflected(old(p[..]), p[..]) && ChecksumsKept(old(p[..]), p[..])
  {
    ghost var before := p[..];
    SwapFields(p, 0, 6, 6);
    SwapFields(p, IP + 12, IP + 16, 4);
    ghost var swapped: bytes := p[..];
    SwappedFrame(before);
    var c := Word(p[ICMP + 2], p[ICMP + 3], false) + 0x0800;
    c := c % 0x1_0000 + c / 0x1_0000;
    var hi: byte, lo: byte := c / 256, c % 256;
    p[ICMP + 2], p[ICMP + 3] := hi, lo;
    p[ICMP] := REPLY;
    ghost var after: bytes := p[..];
    assert after == swapped[ICMP := REPLY][ICMP + 2 := hi][ICMP + 3 := lo];
    ReflectedFrame(before, swapped, after, hi, lo);
    ReflectedVerifies(before, after);
  }

  /** The two exchanges put the frame into the reply's layout and leave the ICMP message alone. */
  lemma SwappedFrame(before: bytes)
    requires |before| >= ICMP + 4
    ensures var swapped := Exchanged(Exchanged(before, 0, 6, 6), IP + 12, IP + 16, 4);
            && |swapped| == |before| && swapped[ICMP..] == before[ICMP..]
            && swapped[..ICMP] == before[6..12] + before[..6] + before[12..IP + 12]
                                  + before[IP + 16..IP + 20] + before[IP + 12..IP + 16]
            && swapped[ICMP + 4..] == before[ICMP + 4..]
            && (forall k :: ICMP <= k < ICMP + 4 ==> swapped[k] == before[k])
  {
    var macs := Exchanged(before, 0, 6, 6);
    assert macs == before[6..12] + before[..6] + before[12..];
    assert macs[..IP + 12] == before[6..12] + before[..6] + before[12..IP + 12];
    assert macs[IP + 12..IP + 16] == before[IP + 12..IP + 16] && macs[IP + 16..IP + 20] == before[IP + 16..IP + 20];
    assert macs[ICMP..] == before[ICMP..];
    var swapped := Exchanged(macs, IP + 12, IP + 16, 4);
    assert swapped == macs[..IP + 12] + macs[IP + 16..IP + 20] + macs[IP + 12..IP + 16] + macs[ICMP..];
    assert swapped[ICMP + 4..] == before[ICMP + 4..];
  }

  lemma ReflectedFrame(before: bytes, swapped: bytes, after: bytes, hi: byte, lo: byte)
    requires |before| >= ICMP + 4 && before[ICMP + 1] == 0
    requires swapped == Exchanged(Exchanged(before, 0, 6, 6), IP + 12, IP + 16, 4)
    requires var c := UpdatedCheck(Word(before[ICMP + 2], before[ICMP + 3], false));
             && |swapped| == |before| && hi == c / 256 && lo == c % 256
             && after == swapped[ICMP := REPLY][ICMP + 2 := hi][ICMP + 3 := lo]
    ensures Reflected(before, after)
  {
    SwappedFrame(before);
    assert after[..ICMP] == swapped[..ICMP] && after[ICMP + 4..] == before[ICMP + 4..];
    assert after[ICMP..ICMP + 4] == [0, 0, hi, lo];
    assert after == after[..ICMP] + after[ICMP..ICMP + 4] + after[ICMP + 4..];
  }

  lemma ReflectedVerifies(before: bytes, after: bytes)
    requires |before| >= ICMP + 4 && before[ICMP] == 8 && before[ICMP + 1] == 0 && Reflected(before, after)
    ensures |after| == |before|
    ensures Verifies(before[IP..ICMP], false) ==> Verifies(after[IP..ICMP], false)
    ensures forall end :: ICMP + 4 <= end <= |before| && Verifies(before[ICMP..end], false) ==>
              Verifies(after[ICMP..end], false)
  {
    var head, src, dst := before[IP..IP + 12], before[IP + 12..IP + 16], before[IP + 16..IP + 20];
    assert before[IP..ICMP] == head + src + dst;
    assert after[IP..ICMP] == head + dst + src;
    SwapKeepsSum(head, src, dst);
    forall end | ICMP + 4 <= end <= |before| && Verifies(before[ICMP..end], false)
      ensures Verifies(after[ICMP..end], false)
    {
      var m, r := before[ICMP..end], after[ICMP..end];
      assert m[4..] == before[ICMP + 4..end] == r[4..];
      ReplyVerifies(m, r);
    }
  }

  /** The reply goes back the way the request came: the MAC and IP addresses have changed places, the
      type is that of a reply, the code is 0, and nothing but the checksum is different otherwise. */
  lemma ReplyGoesBack(before: bytes, after: bytes)
    requires |before| >= ICMP + 4 && Reflected(before, after)
    ensures |after| == |before|
    ensures after[0..6] == before[6..12] && after[6..12] == before[0..6]
    ensures after[26..30] == before[30..34] && after[30..34] == before[26..30]
    ensures after[34] == 0 && after[35] == 0
    ensures after[12..26] == before[12..26] && after[38..] == before[38..]
  {
    var check := UpdatedCheck(Word(before[ICMP + 2], before[ICMP + 3], false));
    var head, ips := before[6..12] + before[..6] + before[12..26], before[30..34] + before[26..30];
    var icmp: bytes := [0, 0, check / 256, check % 256];
    assert after == head + ips + icmp + before[38..];
    assert after[..26] == head && after[26..34] == ips && after[34..38] == icmp && after[38..] == before[38..];
    assert after[0..6] == head[0..6] && after[6..12] == head[6..12] && after[12..26] == head[12..26];
    assert after[26..30] == ips[0..4] && after[30..34] == ips[4..8];
  }
}
