/** The walk over a buffer of routing-netlink messages (section 2.3.2 of RFC 3549) that decides
    whether a network change is worth rebuilding connections for. */
module Netlink {
  import opened Bytes

  const NLMSG_HDR: nat := 16

  /** A number in the host's byte order (`from_ne_bytes`). */
  function FromNative(b: bytes, little: bool): nat
  {
    if b == [] then 0
    else if little then b[0] + 256 * FromNative(b[1..], little)
    else 256 * FromNative(b[..|b| - 1], little) + b[|b| - 1]
  }

  function Align(n: nat): (r: nat)
    ensures n <= r < n + 4 && r % 4 == 0
  {
    (n + 3) / 4 * 4
  }

  predicate IsLinkOrAddr(ty: nat) { ty == 16 || ty == 17 || ty == 20 || ty == 21 }
  predicate IsRoute(ty: nat) { ty == 24 || ty == 25 }

  /** The walk from the start of a buffer. */
  function Scan(buf: bytes, little: bool): bool
    decreases |buf|
  {
    if |buf| < NLMSG_HDR then false
    else
      var len, ty := FromNative(buf[..4], little), FromNative(buf[4..6], little);
      if len < NLMSG_HDR || len > |buf| then false
      else if IsLinkOrAddr(ty) then true
      else if IsRoute(ty) && NLMSG_HDR + 2 <= |buf| && buf[NLMSG_HDR + 1] == 0 then true
      else Align(len) <= |buf| && Scan(buf[Align(len)..], little)
  }

  /** `should_bump`: terminates and stays in bounds on arbitrary bytes. */
  method ShouldBump(buf: bytes, little: bool) returns (bump: bool)
    ensures bump == Scan(buf, little)
  {
    var pos := 0;
    assert buf[0..] == buf && ScansFrom(buf, 0, little) == Scan(buf, little);
    while pos + NLMSG_HDR <= |buf|
      invariant pos % 4 == 0
      invariant ScansFrom(buf, pos, little) == Scan(buf, little)
      decreases |buf| - pos
    {
      ScanAt(buf, pos, little);
      var len := FromNative(buf[pos..pos + 4], little);
      var ty := FromNative(buf[pos + 4..pos + 6], little);
      if len < NLMSG_HDR || pos + len > |buf| {
        return false;
      }
      if IsLinkOrAddr(ty) {
        return true;
      }
      if IsRoute(ty) && pos + NLMSG_HDR + 2 <= |buf| && buf[pos + NLMSG_HDR + 1] == 0 {
        return true;
      }
      pos := (pos + len + 3) / 4 * 4;
    }
    NothingLeft(buf, pos, little);
    bump := false;
  }

  /** The walk from a position on. */
  predicate ScansFrom(buf: bytes, pos: nat, little: bool) { pos <= |buf| && Scan(buf[pos..], little) }

  lemma NothingLeft(buf: bytes, pos: nat, little: bool)
    requires pos + NLMSG_HDR > |buf|
    ensures !ScansFrom(buf, pos, little)
  {
  }

  /** One step of the walk, in terms of a position in the whole buffer. */
  lemma ScanAt(buf: bytes, pos: nat, little: bool)
    requires pos % 4 == 0 && pos + NLMSG_HDR <= |buf|
    ensures var len, ty := FromNative(buf[pos..pos + 4], little), FromNative(buf[pos + 4..pos + 6], little);
            var next := (pos + len + 3) / 4 * 4;
            && next % 4 == 0 && pos + len <= next
            && ScansFrom(buf, pos, little) ==
                 if len < NLMSG_HDR || pos + len > |buf| then false
                 else IsLinkOrAddr(ty)
                      || (IsRoute(ty) && pos + NLMSG_HDR + 2 <= |buf| && buf[pos + NLMSG_HDR + 1] == 0)
                      || ScansFrom(buf, next, little)
  {
    var rest, len := buf[pos..], FromNative(buf[pos..pos + 4], little);
    assert rest[..4] == buf[pos..pos + 4] && rest[4..6] == buf[pos + 4..pos + 6];
    AlignShift(pos, len);
    if pos + Align(len) <= |buf| {
      assert rest[Align(len)..] == buf[pos + Align(len)..];
    }
  }

  lemma AlignShift(pos: nat, len: nat)
    requires pos % 4 == 0
    ensures (pos + len + 3) / 4 * 4 == pos + Align(len)
  {
  }

  // ------------------------------------------------ well-formed message lists

  /** A message: its type, the ten header bytes the walk skips, its payload and its padding. */
  datatype Message = Message(ty: nat, header: bytes, payload: bytes, pad: bytes)
  {
    predicate WellFormed()
    {
      && ty <= U16_MAX && |header| == 10 && NLMSG_HDR + |payload| <= U32_MAX
      && NLMSG_HDR + |payload| + |pad| == Align(NLMSG_HDR + |payload|)
    }

    /** A link or address change, or a change of a default route. */
    predicate Worthy()
    {
      ty == 16 || ty == 17 || ty == 20 || ty == 21 || ((ty == 24 || ty == 25) && |payload| >= 2 && payload[1] == 0)
    }
  }

  function ToNative(n: nat, width: nat, little: bool): (b: bytes)
    ensures |b| == width
  {
    if width == 0 then []
    else if little then [n % 256] + ToNative(n / 256, width - 1, little)
    else ToNative(n / 256, width - 1, little) + [n % 256]
  }

  lemma {:induction false} NativeRoundTrip(n: nat, width: nat, little: bool)
    requires n < Pow256(width)
    ensures FromNative(ToNative(n, width, little), little) == n
  {
    if width > 0 {
      NativeRoundTrip(n / 256, width - 1, little);
      var b, inner := ToNative(n, width, little), ToNative(n / 256, width - 1, little);
      assert little ==> b[1..] == inner;
      assert !little ==> b[..|b| - 1] == inner;
    }
  }

  function Encode(m: Message, little: bool): bytes
  {
    ToNative(NLMSG_HDR + |m.payload|, 4, little) + ToNative(m.ty, 2, little) + m.header + m.payload + m.pad
  }

  function EncodeAll(ms: seq<Message>, little: bool): bytes
  {
    if ms == [] then [] else Encode(ms[0], little) + EncodeAll(ms[1..], little)
  }

  /** Whether the walk takes a message for worthy, given the bytes that follow it in the buffer. A
      route is judged by the byte at offset 17, wherever that byte belongs. */
  predicate TakenAsWorthy(m: Message, rest: bytes)
  {
    var body := m.payload + m.pad + rest;
    m.ty == 16 || m.ty == 17 || m.ty == 20 || m.ty == 21
    || ((m.ty == 24 || m.ty == 25) && |body| >= 2 && body[1] == 0)
  }

  /** The walk handles one well-formed message and goes on with the rest. */
  lemma ScanMessage(m: Message, rest: bytes, little: bool)
    requires m.WellFormed()
    ensures Scan(Encode(m, little) + rest, little) <==> TakenAsWorthy(m, rest) || Scan(rest, little)
  {
    var size, tag := ToNative(NLMSG_HDR + |m.payload|, 4, little), ToNative(m.ty, 2, little);
    var buf := Encode(m, little) + rest;
    assert Pow256(2) == 0x1_0000 && Pow256(4) == 0x1_0000_0000;
    NativeRoundTrip(NLMSG_HDR + |m.payload|, 4, little);
    NativeRoundTrip(m.ty, 2, little);
    assert buf[..4] == size && buf[4..6] == tag;
    assert buf[NLMSG_HDR..] == m.payload + m.pad + rest;
    assert buf[Align(NLMSG_HDR + |m.payload|)..] == rest;
  }

  /** The walk over any list of well-formed messages: it answers true exactly when it takes some
      message for worthy, each judged with the bytes that follow it. */
  lemma {:induction false} ScanMeans(ms: seq<Message>, little: bool)
    requires forall i :: 0 <= i < |ms| ==> ms[i].WellFormed()
    ensures Scan(EncodeAll(ms, little), little) <==>
              exists i :: 0 <= i < |ms| && TakenAsWorthy(ms[i], EncodeAll(ms[i + 1..], little))
  {
    if ms != [] {
      var rest := ms[1..];
      ScanMessage(ms[0], EncodeAll(rest, little), little);
      ScanMeans(rest, little);
      forall i | 0 <= i < |rest| ensures rest[i] == ms[i + 1] && rest[i + 1..] == ms[i + 2..] {
      }
      if i :| 0 <= i < |rest| && TakenAsWorthy(rest[i], EncodeAll(rest[i + 1..], little)) {
        assert TakenAsWorthy(ms[i + 1], EncodeAll(ms[i + 2..], little));
      }
      if i :| 0 <= i < |ms| && TakenAsWorthy(ms[i], EncodeAll(ms[i + 1..], little)) {
        assert i > 0 ==> TakenAsWorthy(rest[i - 1], EncodeAll(rest[i..], little));
      }
    }
  }

  /** The walk refines the list predicate: on every concatenation of well-formed aligned messages
      whose route payloads have at least 2 bytes, it answers true exactly when some message is a
      link or address change or a default-route change. The kernel's route messages are never
      shorter: they start with a structure of 12 bytes. */
  lemma ScanIsExists(ms: seq<Message>, little: bool)
    requires forall i :: 0 <= i < |ms| ==>
               ms[i].WellFormed() && (ms[i].ty == 24 || ms[i].ty == 25 ==> |ms[i].payload| >= 2)
    ensures Scan(EncodeAll(ms, little), little) <==> exists i :: 0 <= i < |ms| && ms[i].Worthy()
  {
    ScanMeans(ms, little);
    forall i | 0 <= i < |ms|
      ensures TakenAsWorthy(ms[i], EncodeAll(ms[i + 1..], little)) <==> ms[i].Worthy()
    {
      JudgedByItself(ms[i], EncodeAll(ms[i + 1..], little));
    }
  }

  lemma JudgedByItself(m: Message, rest: bytes)
    requires m.ty == 24 || m.ty == 25 ==> |m.payload| >= 2
    ensures TakenAsWorthy(m, rest) <==> m.Worthy()
  {
    var body := m.payload + m.pad + rest;
    assert |m.payload| >= 2 ==> body[1] == m.payload[1];
  }

  /** A route message with a shorter payload is judged by a byte that is not its own, wherever it
      stands in the list: it counts as a default route if and only if that byte is there and zero. */
  lemma ShortRouteJudgedByNeighbour(ms: seq<Message>, k: nat, little: bool)
    requires k < |ms| && forall i :: 0 <= i < |ms| ==> ms[i].WellFormed()
    requires (ms[k].ty == 24 || ms[k].ty == 25) && |ms[k].payload| < 2
    requires forall i :: 0 <= i < |ms| && i != k ==> !TakenAsWorthy(ms[i], EncodeAll(ms[i + 1..], little))
    ensures !ms[k].Worthy()
    ensures var m, after := ms[k], ms[k].pad + EncodeAll(ms[k + 1..], little);
            Scan(EncodeAll(ms, little), little) <==>
              |after| >= 2 - |m.payload| && after[1 - |m.payload|] == 0
  {
    ScanMeans(ms, little);
    JudgedByNeighbour(ms[k], EncodeAll(ms[k + 1..], little));
  }

  lemma JudgedByNeighbour(m: Message, rest: bytes)
    requires (m.ty == 24 || m.ty == 25) && |m.payload| < 2
    ensures TakenAsWorthy(m, rest) <==> |m.pad + rest| >= 2 - |m.payload| && (m.pad + rest)[1 - |m.payload|] == 0
  {
    assert m.payload + m.pad + rest == m.payload + (m.pad + rest);
  }
}
