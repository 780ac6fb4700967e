/** CryptoWriter and CryptoReader: the objects that hold a connection's record-layer state. */
module RecordLayer {
  import opened Bytes
  import opened Wrappers
  import opened Ciphers
  import opened Records
  import opened RecordTheorems
  import opened RecordReceive

  /** The whole outcome of a send, seen when the calls in `done` have been made and the payload
      `rest` is still to be sent from state `now`. */
  ghost predicate Resumes(whole: Outcome, done: seq<SealCall>, now: Sender, rng: Rng, rest: bytes)
    requires now.Valid()
  {
    var later := Send(now, rng, rest);
    whole.sender == later.sender && whole.ok == later.ok && whole.calls == done + later.calls
  }

  lemma SendResumes(whole: Outcome, done: seq<SealCall>, now: Sender, rng: Rng, rest: bytes)
    requires now.Valid() && rest != [] && now.nonce < U64_MAX
    requires Resumes(whole, done, now, rng, rest)
    ensures Resumes(whole, done + [NextCall(now, rng, rest)], NextState(now), rng, rest[now.Take(rng, |rest|)..])
  {
    var call := NextCall(now, rng, rest);
    var later := Send(NextState(now), rng, rest[now.Take(rng, |rest|)..]);
    assert done + ([call] + later.calls) == done + [call] + later.calls;
  }

  lemma SendEnds(whole: Outcome, done: seq<SealCall>, now: Sender, rng: Rng, rest: bytes)
    requires now.Valid() && (rest == [] || now.nonce == U64_MAX)
    requires Resumes(whole, done, now, rng, rest)
    ensures whole.calls == done && whole.ok == (rest == [])
    ensures whole.sender == if rest == [] then now else now.Counted()
  {
    assert done + [] == done;
  }

  lemma WireSnoc(aead: Aead, before: bytes, done: seq<SealCall>, call: SealCall)
    ensures before + Wire(aead, done + [call]) == before + Wire(aead, done) + Frame(aead, call)
  {
    WireConcat(aead, done, [call]);
    assert [call][1..] == [];
    assert Wire(aead, [call]) == Frame(aead, call);
  }

  /** The wire holds the records made so far, and the rest of the send is still to come. */
  ghost predicate Underway(aead: Aead, before: bytes, wire: bytes, whole: Outcome, done: seq<SealCall>, now: Sender,
                           rng: Rng, rest: bytes)
  {
    now.Valid() && wire == before + Wire(aead, done) && Resumes(whole, done, now, rng, rest)
  }

  lemma OneMoreRecord(aead: Aead, before: bytes, wire: bytes, whole: Outcome, done: seq<SealCall>, now: Sender,
                      rng: Rng, rest: bytes)
    requires rest != [] && now.nonce < U64_MAX && Underway(aead, before, wire, whole, done, now, rng, rest)
    ensures Underway(aead, before, wire + Frame(aead, NextCall(now, rng, rest)), whole,
                     done + [NextCall(now, rng, rest)],
                     NextState(now), rng, rest[now.Take(rng, |rest|)..])
  {
    SendResumes(whole, done, now, rng, rest);
    WireSnoc(aead, before, done, NextCall(now, rng, rest));
  }

  lemma NoMoreRecords(aead: Aead, before: bytes, wire: bytes, whole: Outcome, done: seq<SealCall>, now: Sender,
                      rng: Rng, rest: bytes)
    requires (rest == [] || now.nonce == U64_MAX) && Underway(aead, before, wire, whole, done, now, rng, rest)
    ensures wire == before + Wire(aead, whole.calls) && whole.ok == (rest == [])
    ensures whole.sender == if rest == [] then now else now.Counted()
  {
    SendEnds(whole, done, now, rng, rest);
  }

  class CryptoWriter {
    const aead: Aead
    const rng: Rng
    const initiator: bool
    const padding: bool
    const scheme: seq<Range>
    var kind: Cipher
    var nonce: nat
    var recordsSent: nat
    var drawn: nat
    var buffer: bytes
    /** Everything written to the transport so far. */
    var wire: bytes

    ghost function State(): Sender
      reads this
    {
      Sender(initiator, kind, nonce, recordsSent, drawn, padding, scheme)
    }

    ghost predicate Valid()
      reads this
    {
      State().Valid()
    }

    constructor (aead: Aead, rng: Rng, initiator: bool, padding: bool, scheme: seq<Range>)
      requires ValidScheme(scheme)
      ensures Valid() && wire == []
      ensures this.aead == aead && this.rng == rng
      ensures State() == Sender(initiator, ChaCha20Poly1305, 0, 0, 0, padding, scheme)
    {
      this.aead, this.rng, this.initiator, this.padding, this.scheme := aead, rng, initiator, padding, scheme;
      kind, nonce, recordsSent, drawn := ChaCha20Poly1305, 0, 0, 0;
      buffer, wire := [], [];
    }

    method Rekey(cipher: Cipher)
      requires Valid()
      modifies this
      ensures Valid() && wire == old(wire)
      ensures State() == Step(old(State()), rng, Act.Rekey(cipher)).sender
      ensures State() == if old(kind) == ChaCha20Poly1305 && cipher == Aes256Gcm
                         then old(State()).(kind := Aes256Gcm, nonce := 0) else old(State())
    {
      if cipher == kind || cipher == ChaCha20Poly1305 {
        return;
      }
      kind := cipher;
      nonce := 0;
    }

    /** Seals the buffer under the next nonce and writes header and body. */
    method WriteSealed()
      requires Valid() && nonce < U64_MAX
      modifies this
      ensures Valid() && State() == old(State()).(nonce := old(nonce) + 1)
      ensures wire == old(wire) + Frame(aead, SealNext(old(State()), old(buffer)))
    {
      var nonceBytes := FormatNonce(nonce);
      nonce := nonce + 1;
      buffer := aead.seal(KeyInfo(initiator, kind), nonceBytes, buffer);
      wire := wire + ([0x17, 0x03, 0x03] + BigEndian(|buffer|, 2));
      wire := wire + buffer;
    }

    /** Fills the buffer with the next data record's plaintext and moves past the payload taken. */
    method FillBuffer(plaintext: bytes, start: nat) returns (offset: nat)
      requires Valid() && start < |plaintext|
      modifies this
      ensures Valid() && State() == old(State()).Counted() && wire == old(wire)
      ensures offset == start + old(State()).Take(rng, |plaintext| - start)
      ensures buffer == old(State()).NextInner(rng, plaintext[start..])
    {
      var remaining := |plaintext| - start;
      if padding && recordsSent < |scheme| {
        var target := Pick(scheme[recordsSent], rng(drawn));
        var take := Min(SaturatingSub(target, 1), remaining);
        buffer := plaintext[start..start + take];
        offset := start + take;
        buffer := buffer + [TYPE_DATA];
        if |buffer| < target {
          buffer := buffer + Zeros(target - |buffer|);
        }
        assert plaintext[start..][..take] == plaintext[start..start + take];
      } else {
        var limit := Bucket(rng(drawn));
        offset := Min(start + limit, |plaintext|);
        buffer := plaintext[start..offset];
        buffer := buffer + [TYPE_DATA];
        assert plaintext[start..][..offset - start] == plaintext[start..offset];
      }
      drawn := drawn + 1;
      recordsSent := Min(recordsSent + 1, U32_MAX);
    }

    /** One turn of the send loop. */
    method SendRecord(plaintext: bytes, start: nat) returns (ok: bool, offset: nat)
      requires Valid() && start < |plaintext|
      modifies this
      ensures Valid() && ok == (old(nonce) < U64_MAX)
      ensures offset == start + old(State()).Take(rng, |plaintext| - start)
      ensures State() == if ok then NextState(old(State())) else old(State()).Counted()
      ensures wire == if ok then old(wire) + Frame(aead, NextCall(old(State()), rng, plaintext[start..])) else old(wire)
    {
      offset := FillBuffer(plaintext, start);
      if nonce == U64_MAX {
        return false, offset;
      }
      WriteSealed();
      ok := true;
    }

    method SendData(plaintext: bytes) returns (ok: bool)
      requires Valid()
      modifies this
      ensures Valid()
      ensures var out := Send(old(State()), rng, plaintext);
              State() == out.sender && ok == out.ok && wire == old(wire) + Wire(aead, out.calls)
    {
      var offset := 0;
      ghost var done: seq<SealCall> := [];
      ghost var whole := Send(State(), rng, plaintext);
      assert plaintext[0..] == plaintext;
      while offset < |plaintext|
        invariant 0 <= offset <= |plaintext| && Valid()
        invariant Underway(aead, old(wire), wire, whole, done, State(), rng, plaintext[offset..])
        decreases |plaintext| - offset, U64_MAX - nonce
      {
        ghost var before, rest, sent := State(), plaintext[offset..], wire;
        ok, offset := SendRecord(plaintext, offset);
        if !ok {
          NoMoreRecords(aead, old(wire), sent, whole, done, before, rng, rest);
          return false;
        }
        assert plaintext[offset..] == rest[before.Take(rng, |rest|)..];
        OneMoreRecord(aead, old(wire), sent, whole, done, before, rng, rest);
        done := done + [NextCall(before, rng, rest)];
      }
      NoMoreRecords(aead, old(wire), wire, whole, done, State(), rng, plaintext[offset..]);
      ok := true;
    }

    method SendControl(b0: byte, b1: byte, ty: byte) returns (ok: bool)
      requires Valid()
      modifies this
      ensures Valid()
      ensures var out := Records.SendControl(old(State()), b0, b1, ty);
              State() == out.sender && ok == out.ok && wire == old(wire) + Wire(aead, out.calls)
      ensures ok <==> old(nonce) < U64_MAX
      ensures wire == old(wire) + if ok then Frame(aead, SealCall(initiator, kind, old(nonce), [b0, b1, ty])) else []
    {
      buffer := [b0, b1, ty];
      if nonce == U64_MAX {
        return false;
      }
      ghost var call := SealNext(State(), buffer);
      WriteSealed();
      assert Wire(aead, [call]) == Frame(aead, call);
      ok := true;
    }

    method SendCloseNotify() returns (ok: bool)
      requires Valid()
      modifies this
      ensures Valid()
      ensures var out := Step(old(State()), rng, CloseNotify);
              State() == out.sender && ok == out.ok && wire == old(wire) + Wire(aead, out.calls)
      ensures wire == old(wire) + if ok then Frame(aead, SealCall(initiator, kind, old(nonce), [0x01, 0x00, 0x15]))
                                  else []
    {
      ok := SendControl(0x01, 0x00, TYPE_ALERT);
    }

    method SendTargetUnreachable(reason: byte) returns (ok: bool)
      requires Valid()
      modifies this
      ensures Valid()
      ensures var out := Step(old(State()), rng, Unreachable(reason));
              State() == out.sender && ok == out.ok && wire == old(wire) + Wire(aead, out.calls)
      ensures wire == old(wire) + if ok then Frame(aead, SealCall(initiator, kind, old(nonce), [reason, 0x00, 0x18]))
                                  else []
    {
      ok := SendControl(reason, 0x00, TYPE_UNREACHABLE);
    }
  }

  /** Strips trailing zeros and reads the inner type byte of an opened record. */
  method ProcessOpened(pt: bytes) returns (event: Event)
    ensures event == ProcessPlaintext(pt)
    ensures forall content :: event == Ok(content) <==> exists pad: nat :: pt == Inner(content, TYPE_DATA, pad)
  {
    forall content
      ensures ProcessPlaintext(pt) == Ok(content) <==> exists pad: nat :: pt == Inner(content, TYPE_DATA, pad)
    {
      DataIffInner(pt, content);
    }
    if |pt| == 0 {
      return Err(EmptyPlaintext);
    }
    var end := |pt|;
    assert pt[..end] == pt;
    while end > 0 && pt[end - 1] == 0
      invariant 0 <= end <= |pt|
      invariant Stripped(pt[..end]) == Stripped(pt)
    {
      assert pt[..end][..end - 1] == pt[..end - 1];
      end := end - 1;
    }
    if end == 0 {
      return Err(PaddingOnly);
    }
    var ty, contentLen := pt[end - 1], end - 1;
    if ty == TYPE_DATA {
      event := Ok(pt[..contentLen]);
    } else if ty == TYPE_ALERT {
      event := Err(PeerClose);
    } else if ty == TYPE_UNREACHABLE {
      event := Err(PeerUnreachable(if contentLen >= 1 then pt[0] else CONNECT_FAILED));
    } else {
      event := Err(UnknownType(ty));
    }
  }

  class CryptoReader {
    const aead: Aead
    const initiator: bool
    var kind: Cipher
    var nonce: nat
    /** The bytes of the transport that have not been read yet. */
    var input: bytes

    ghost function State(): Receiver
      reads this
    {
      Receiver(initiator, kind, nonce)
    }

    constructor (aead: Aead, initiator: bool, input: bytes)
      ensures this.aead == aead && this.input == input
      ensures State() == Receiver(initiator, ChaCha20Poly1305, 0)
    {
      this.aead, this.initiator, this.input := aead, initiator, input;
      kind, nonce := ChaCha20Poly1305, 0;
    }

    method Rekey(cipher: Cipher)
      modifies this
      ensures input == old(input) && State() == RekeyReceiver(old(State()), cipher)
      ensures State() == if old(kind) == ChaCha20Poly1305 && cipher == Aes256Gcm
                         then Receiver(initiator, Aes256Gcm, 0) else old(State())
    {
      if cipher == kind || cipher == ChaCha20Poly1305 {
        return;
      }
      kind := cipher;
      nonce := 0;
    }

    method RecvData() returns (event: Event)
      modifies this
      ensures var out := Recv(old(State()), aead, old(input));
              State() == out.receiver && input == out.rest && event == out.event
      ensures forall content :: event == Ok(content) <==> Delivers(old(State()), aead, old(input), content)
      ensures State() == Moved(old(State()), old(input)) && input == Left(old(input))
      ensures Readable(old(State()), old(input)) && Opened(old(State()), aead, old(input)).None? <==>
                event == Err(OpenFailed)
    {
      RecvIff(State(), aead, input);
      if |input| < HEADER_SIZE {
        input := [];
        return Err(Eof);
      }
      var header := input[..HEADER_SIZE];
      input := input[HEADER_SIZE..];
      assert header[..3] == old(input)[..3];
      assert header[3..5] == old(input)[3..5];
      if header[0] != 0x17 || header[1] != 0x03 || header[2] != 0x03 {
        return Err(BadHeader);
      }
      assert header[..3] == [0x17, 0x03, 0x03];
      var len := FromBigEndian(header[3..5]);
      if len > MAX_RECORD_SIZE + 1 + TAG_SIZE {
        return Err(TooLarge);
      }
      if |input| < len {
        input := [];
        return Err(Eof);
      }
      var scratch := input[..len];
      input := input[len..];
      if nonce == U64_MAX {
        return Err(NonceExhausted);
      }
      var nonceBytes := FormatNonce(nonce);
      nonce := nonce + 1;
      match aead.open(KeyInfo(!initiator, kind), nonceBytes, scratch)
      case None => event := Err(OpenFailed);
      case Some(pt) => event := ProcessOpened(pt);
    }
  }
}
