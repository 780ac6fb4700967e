/** What a receiver makes of arbitrary bytes, told from the bytes themselves: what it delivers, what
    it refuses, and that nothing is delivered that was not opened under a name of its own. */
module RecordReceive {
  import opened Bytes
  import opened Wrappers
  import opened Ciphers
  import opened Records
  import opened RecordTheorems

  // ---------------------------------------------------------- names and nonces

  /** The name of the key a receiver opens with: the other end's direction. */
  function KeyName(initiator: bool, kind: Cipher): string
  {
    if initiator then (if kind.ChaCha20Poly1305? then "s2c" else "s2c-aes256gcm")
    else (if kind.ChaCha20Poly1305? then "c2s" else "c2s-aes256gcm")
  }

  lemma KeyNameIs(r: Receiver)
    ensures r.Key() == KeyName(r.initiator, r.kind)
  {
  }

  /** A nonce is four zero bytes and the counter, most significant byte first. */
  lemma NonceIs(b: bytes, n: nat)
    requires n <= U64_MAX
    ensures b == FormatNonce(n) <==> |b| == 12 && b[..4] == [0, 0, 0, 0] && FromBigEndian(b[4..]) == n
  {
    assert Pow256(8) == U64_MAX + 1;
    BigEndianRoundTrip(n, 8);
    assert FormatNonce(n)[..4] == [0, 0, 0, 0] && FormatNonce(n)[4..] == BigEndian(n, 8);
    if |b| == 12 && b[..4] == [0, 0, 0, 0] && FromBigEndian(b[4..]) == n {
      BigEndianUnique(b[4..]);
      assert b == b[..4] + b[4..] && FormatNonce(n) == FormatNonce(n)[..4] + FormatNonce(n)[4..];
    }
  }

  lemma {:induction false} BigEndianUnique(b: bytes)
    ensures BigEndian(FromBigEndian(b), |b|) == b
  {
    if b != [] {
      BigEndianUnique(b[..|b| - 1]);
      assert b == b[..|b| - 1] + [b[|b| - 1]];
    }
  }

  // --------------------------------------------------------------- plaintexts

  /** `pt` is the content, a type byte and padding. */
  predicate ReadsAs(pt: bytes, content: bytes, ty: byte)
  {
    && |content| < |pt| && pt[..|content|] == content && pt[|content|] == ty
    && forall i :: |content| < i < |pt| ==> pt[i] == 0
  }

  lemma ReadsOneWay(pt: bytes, content: bytes, ty: byte)
    requires ReadsAs(pt, content, ty) && ty != 0
    ensures Stripped(pt) == |content| + 1 && pt[|content|] == ty && pt[..|content|] == content
  {
    assert pt == Inner(content, ty, |pt| - |content| - 1);
    StrippedInner(content, ty, |pt| - |content| - 1);
  }

  lemma ReadsSomeWay(pt: bytes)
    ensures Stripped(pt) > 0 ==> pt[Stripped(pt) - 1] != 0 && ReadsAs(pt, pt[..Stripped(pt) - 1], pt[Stripped(pt) - 1])
    ensures Stripped(pt) == 0 <==> forall i :: 0 <= i < |pt| ==> pt[i] == 0
  {
    StrippedSplits(pt);
    if Stripped(pt) > 0 {
      var n := Stripped(pt) - 1;
      assert pt == Inner(pt[..n], pt[n], |pt| - n - 1);
    }
  }

  /** Every outcome for an opened record, by its last non-zero byte. */
  lemma PlaintextIff(pt: bytes)
    ensures forall content :: ProcessPlaintext(pt) == Ok(content) <==> ReadsAs(pt, content, 0x17)
    ensures ProcessPlaintext(pt) == Err(PeerClose) <==> exists content :: ReadsAs(pt, content, 0x15)
    ensures forall reason :: ProcessPlaintext(pt) == Err(PeerUnreachable(reason))
              <==> exists content :: ReadsAs(pt, content, 0x18) && reason == if content == [] then 0x01 else content[0]
    ensures forall ty :: ProcessPlaintext(pt) == Err(UnknownType(ty))
              <==> ty !in [0, 0x15, 0x17, 0x18] && exists content :: ReadsAs(pt, content, ty)
    ensures ProcessPlaintext(pt) == Err(EmptyPlaintext) <==> pt == []
    ensures ProcessPlaintext(pt) == Err(PaddingOnly) <==> pt != [] && forall i :: 0 <= i < |pt| ==> pt[i] == 0
  {
    ReadsSomeWay(pt);
    forall content, ty: byte | ReadsAs(pt, content, ty) && ty != 0
      ensures Stripped(pt) == |content| + 1 && pt[|content|] == ty && pt[..|content|] == content
    {
      ReadsOneWay(pt, content, ty);
    }
  }

  // ------------------------------------------------------------------ records

  function BodyLen(input: bytes): nat
    requires |input| >= 5
  {
    var hi: nat, lo: nat := input[3], input[4];
    256 * hi + lo
  }

  predicate GoodHeader(input: bytes)
  {
    |input| >= 5 && input[0] == 0x17 && input[1] == 0x03 && input[2] == 0x03 && BodyLen(input) <= 16384 + 1 + 16
  }

  /** A whole record is there, and the counter is not used up. */
  predicate Readable(r: Receiver, input: bytes)
  {
    GoodHeader(input) && |input| >= 5 + BodyLen(input) && r.nonce != U64_MAX
  }

  /** What the body opens to under the receiver's own key and counter. */
  function Opened(r: Receiver, aead: Aead, input: bytes): Option<bytes>
    requires Readable(r, input)
  {
    aead.open(KeyName(r.initiator, r.kind), FormatNonce(r.nonce), input[5..5 + BodyLen(input)])
  }

  ghost predicate Delivers(r: Receiver, aead: Aead, input: bytes, content: bytes)
  {
    Readable(r, input) && Opened(r, aead, input).Some? && ReadsAs(Opened(r, aead, input).value, content, 0x17)
  }

  /** The counter moves by one for every whole record that is opened or not, and never otherwise. */
  function Moved(r: Receiver, input: bytes): Receiver
  {
    if Readable(r, input) then r.(nonce := r.nonce + 1) else r
  }

  /** What the transport still holds: nothing after a cut record, everything after the header of one
      that is refused by its header, and otherwise everything after the record. */
  function Left(input: bytes): bytes
  {
    if |input| < 5 then []
    else if !GoodHeader(input) then input[5..]
    else if |input| < 5 + BodyLen(input) then []
    else input[5 + BodyLen(input)..]
  }

  lemma HeaderIs(input: bytes)
    requires |input| >= 5
    ensures input[..3] == [0x17, 0x03, 0x03] <==> input[0] == 0x17 && input[1] == 0x03 && input[2] == 0x03
    ensures FromBigEndian(input[3..5]) == BodyLen(input)
  {
    var two := input[3..5];
    assert two[..1] == [input[3]] && two[..1][..0] == [];
    assert FromBigEndian(two[..1]) == input[3];
  }

  /** A receiver on any bytes whatever: it delivers `content` as data if and only if a whole record
      stands there, its counter is not used up, and the body opens under its own key and counter to
      `content`, the data type and padding. A body that does not open is an error; so is every other
      case, and no error is mistaken for data. */
  lemma RecvIff(r: Receiver, aead: Aead, input: bytes)
    ensures var out := Recv(r, aead, input);
            && out.receiver == Moved(r, input) && out.rest == Left(input)
            && (forall content :: out.event == Ok(content) <==> Delivers(r, aead, input, content))
            && (Readable(r, input) && Opened(r, aead, input).None? <==> out.event == Err(OpenFailed))
            && (|input| < 5 || (GoodHeader(input) && |input| < 5 + BodyLen(input)) <==> out.event == Err(Eof))
            && (out.event == Err(NonceExhausted) <==>
                  GoodHeader(input) && |input| >= 5 + BodyLen(input) && r.nonce == U64_MAX)
  {
    KeyNameIs(r);
    if |input| >= 5 {
      HeaderIs(input);
      assert GoodHeader(input) && |input| >= 5 + BodyLen(input) ==>
               input[5..][..BodyLen(input)] == input[5..5 + BodyLen(input)]
               && input[5..][BodyLen(input)..] == input[5 + BodyLen(input)..];
      if Readable(r, input) && Opened(r, aead, input).Some? {
        PlaintextIff(Opened(r, aead, input).value);
      }
    }
  }

  // ---------------------------------------------------------------- whole runs

  /** A cipher and a counter. */
  datatype Name = Name(kind: Cipher, counter: nat)

  /** `content` came out of opening something under the name. */
  ghost predicate Authentic(initiator: bool, aead: Aead, name: Name, content: bytes)
  {
    exists body, pt :: aead.open(KeyName(initiator, name.kind), FormatNonce(name.counter), body) == Some(pt)
                    && ReadsAs(pt, content, 0x17)
  }

  /** Names that a receiver in state `r`, or in any later state of it, may still open under. */
  predicate StillAhead(r: Receiver, name: Name)
  {
    && name.counter < U64_MAX
    && ((name.kind == r.kind && r.nonce <= name.counter) || (r.kind.ChaCha20Poly1305? && name.kind.Aes256Gcm?))
  }

  /** Each delivered event is authentic under a name of its own. */
  ghost predicate AllAuthentic(r: Receiver, aead: Aead, events: seq<Event>, names: seq<Name>)
  {
    && |names| == |events|
    && (forall i :: 0 <= i < |events| && events[i].Ok? ==>
          StillAhead(r, names[i]) && Authentic(r.initiator, aead, names[i], events[i].value))
    && (forall i, j :: 0 <= i < j < |events| && events[i].Ok? && events[j].Ok? ==> names[i] != names[j])
  }

  /** Nothing is delivered that was not sealed for it: over every run on arbitrary bytes, with rekeys
      anywhere, every delivered piece of data was opened under the receiver's key, and no cipher and
      counter open twice, so nothing is accepted a second time. */
  lemma {:induction false} DeliveredIsAuthentic(r: Receiver, aead: Aead, input: bytes, acts: seq<ReaderAct>)
    returns (names: seq<Name>)
    requires r.nonce <= U64_MAX
    ensures AllAuthentic(r, aead, Listen(r, aead, input, acts).events, names)
    decreases |acts|
  {
    if acts == [] {
      names := [];
    } else if acts[0].ReaderRekey? {
      names := DeliveredIsAuthentic(RekeyReceiver(r, acts[0].cipher), aead, input, acts[1..]);
    } else {
      var one := Recv(r, aead, input);
      RecvIff(r, aead, input);
      var more := DeliveredIsAuthentic(one.receiver, aead, one.rest, acts[1..]);
      names := [Name(r.kind, r.nonce)] + more;
      FirstIsAuthentic(r, aead, input);
      JoinAuthentic(r, one.receiver, aead, one.event, Listen(one.receiver, aead, one.rest, acts[1..]).events, more);
    }
  }

  lemma FirstIsAuthentic(r: Receiver, aead: Aead, input: bytes)
    requires r.nonce <= U64_MAX
    ensures var out := Recv(r, aead, input);
            out.event.Ok? ==>
              r.nonce < U64_MAX && out.receiver == r.(nonce := r.nonce + 1)
              && Authentic(r.initiator, aead, Name(r.kind, r.nonce), out.event.value)
  {
    RecvIff(r, aead, input);
    var out := Recv(r, aead, input);
    if out.event.Ok? {
      assert Delivers(r, aead, input, out.event.value);
      var body := input[5..5 + BodyLen(input)];
      assert aead.open(KeyName(r.initiator, r.kind), FormatNonce(r.nonce), body) == Some(Opened(r, aead, input).value);
    }
  }

  lemma JoinAuthentic(r: Receiver, r': Receiver, aead: Aead, first: Event, rest: seq<Event>, more: seq<Name>)
    requires r.nonce <= U64_MAX && (r' == r || r' == r.(nonce := r.nonce + 1))
    requires first.Ok? ==>
               && r.nonce < U64_MAX && r' == r.(nonce := r.nonce + 1)
               && Authentic(r.initiator, aead, Name(r.kind, r.nonce), first.value)
    requires AllAuthentic(r', aead, rest, more)
    ensures AllAuthentic(r, aead, [first] + rest, [Name(r.kind, r.nonce)] + more)
  {
    var events, names := [first] + rest, [Name(r.kind, r.nonce)] + more;
    forall i | 0 <= i < |events| && events[i].Ok?
      ensures StillAhead(r, names[i]) && Authentic(r.initiator, aead, names[i], events[i].value)
      ensures i > 0 ==> StillAhead(r', names[i])
    {
      if i > 0 {
        assert events[i] == rest[i - 1] && names[i] == more[i - 1];
      }
    }
    forall i, j | 0 <= i < j < |events| && events[i].Ok? && events[j].Ok? ensures names[i] != names[j] {
      if i > 0 {
        assert events[i] == rest[i - 1] && names[i] == more[i - 1];
        assert events[j] == rest[j - 1] && names[j] == more[j - 1];
      }
    }
  }
}
