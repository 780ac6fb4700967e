/** Cipher negotiation over the record layer: the NEGO frame up, the ACK frame down, and the rekey
    of all four halves. Each side reads its frame with a single receive. */
module Negotiation {
  import opened Bytes
  import opened Wrappers
  import opened Ciphers
  import opened Records
  import opened RecordTheorems

  /** How many payload bytes the next data record can carry. */
  function Room(s: Sender, rng: Rng): nat
    requires s.Valid()
  {
    if s.Shaped() then s.Target(rng) - 1 else Bucket(rng(s.drawn))
  }

  /** A frame arrives whole in the first receive if and only if the first record has room for it; a
      padding scheme that starts with a smaller target cuts it. */
  lemma FrameArrivesWhole(s: Sender, r: Receiver, rng: Rng, aead: Aead, frame: bytes, tail: bytes)
    requires aead.Lawful() && s.Valid() && Synced(s, r) && s.nonce < U64_MAX && frame != []
    ensures Whole(s, r, rng, aead, frame, tail) <==> |frame| <= Room(s, rng)
  {
    var n := s.Take(rng, |frame|);
    var text := s.NextInner(rng, frame);
    var rest := Send(NextState(s), rng, frame[n..]);
    NextInnerFits(s, rng, frame);
    FirstFrame(aead, SealNext(s, text), rest.calls, tail);
    RecvFrame(s, r, aead, text, Wire(aead, rest.calls) + tail);
    assert frame[..n] == frame <==> n == |frame|;
  }

  /** The least payload the next data record can carry, whatever is drawn. */
  function LeastRoom(s: Sender): nat
    requires s.Valid()
  {
    if s.Shaped() then s.scheme[s.recordsSent].lo - 1 else 4096
  }

  /** The draw that makes every target and every bucket the least one. */
  function LowestDraws(): Rng { (n: nat) => Draw(0, 1.0) }

  lemma LeastRoomIsLeast(s: Sender, rng: Rng)
    requires s.Valid()
    ensures LeastRoom(s) <= Room(s, rng) && LeastRoom(s) == Room(s, LowestDraws())
  {
  }

  /** The first receive yields the whole frame. */
  ghost predicate Whole(s: Sender, r: Receiver, rng: Rng, aead: Aead, frame: bytes, tail: bytes)
    requires s.Valid()
  {
    Recv(r, aead, Wire(aead, Send(s, rng, frame).calls) + tail).event == Ok(frame)
  }

  /** Judged by the scheme alone: a frame arrives whole under every draw if and only if the lower
      bound of the next range leaves room for it. */
  lemma FrameAlwaysArrivesWhole(s: Sender, r: Receiver, aead: Aead, frame: bytes, tail: bytes)
    requires aead.Lawful() && s.Valid() && Synced(s, r) && s.nonce < U64_MAX && frame != []
    ensures (forall rng: Rng :: Whole(s, r, rng, aead, frame, tail)) <==> |frame| <= LeastRoom(s)
  {
    forall rng: Rng
      ensures Whole(s, r, rng, aead, frame, tail) <==> |frame| <= Room(s, rng)
      ensures LeastRoom(s) <= Room(s, rng)
    {
      FrameArrivesWhole(s, r, rng, aead, frame, tail);
      LeastRoomIsLeast(s, rng);
    }
    LeastRoomIsLeast(s, LowestDraws());
    if |frame| > LeastRoom(s) {
      assert !Whole(s, r, LowestDraws(), aead, frame, tail);
    }
  }

  lemma FirstFrame(aead: Aead, call: SealCall, calls: seq<SealCall>, tail: bytes)
    ensures Wire(aead, [call] + calls) + tail == Frame(aead, call) + (Wire(aead, calls) + tail)
  {
    assert ([call] + calls)[1..] == calls;
  }

  /** A record of its own: the frame is sent as one record and the receiver stays in step. */
  lemma FrameIsOneRecord(s: Sender, r: Receiver, rng: Rng, aead: Aead, frame: bytes, tail: bytes)
    requires aead.Lawful() && s.Valid() && Synced(s, r) && s.nonce < U64_MAX && frame != [] && |frame| <= Room(s, rng)
    ensures var out := Send(s, rng, frame);
            && out.ok && |out.calls| == 1 && out.sender == NextState(s)
            && Recv(r, aead, Wire(aead, out.calls) + tail) == Received(r.(nonce := r.nonce + 1), tail, Ok(frame))
  {
    var n := s.Take(rng, |frame|);
    assert frame[n..] == [] && frame[..n] == frame;
    NextInnerFits(s, rng, frame);
    FirstFrame(aead, SealNext(s, s.NextInner(rng, frame)), [], tail);
    RecvFrame(s, r, aead, s.NextInner(rng, frame), tail);
    assert Wire(aead, []) + tail == tail;
  }

  function RekeySender(s: Sender, c: Cipher): Sender
  {
    if RekeyRefused(s.kind, c) then s else s.(kind := c, nonce := 0)
  }

  /** The first receive yields the frame, cut to what the first record carries. */
  lemma {:induction false} FirstReceive(s: Sender, r: Receiver, rng: Rng, aead: Aead, frame: bytes)
    requires aead.Lawful() && s.Valid() && Synced(s, r) && s.nonce < U64_MAX && frame != []
    ensures Recv(r, aead, Wire(aead, Send(s, rng, frame).calls)).event == Ok(frame[..Min(Room(s, rng), |frame|)])
  {
    var n := s.Take(rng, |frame|);
    var text := s.NextInner(rng, frame);
    var rest := Send(NextState(s), rng, frame[n..]);
    NextInnerFits(s, rng, frame);
    FirstFrame(aead, SealNext(s, text), rest.calls, []);
    RecvFrame(s, r, aead, text, Wire(aead, rest.calls));
    assert Wire(aead, rest.calls) + [] == Wire(aead, rest.calls);
    assert Wire(aead, Send(s, rng, frame).calls) + [] == Wire(aead, Send(s, rng, frame).calls);
  }

  /** Both ends decide on the same cipher, each from the one receive it makes, and are in step again
      after their rekeys. `rng` and `rng'` are the draws of the client and of the server. */
  ghost predicate Agreed(cs: Sender, sr: Receiver, ss: Sender, cr: Receiver, rng: Rng, rng': Rng, aead: Aead,
                         clientAes: bool, serverAes: bool)
    requires cs.Valid() && ss.Valid()
  {
    var up := Send(cs, rng, BuildNego(clientAes));
    var heardUp := Recv(sr, aead, Wire(aead, up.calls));
    var cipher := Negotiate(clientAes, serverAes);
    var down := Send(ss, rng', BuildAck(cipher));
    var heardDown := Recv(cr, aead, Wire(aead, down.calls));
    && heardUp.event.Ok? && ParseNego(heardUp.event.value) == Some(clientAes)
    && heardDown.event.Ok? && ParseAck(heardDown.event.value) == Some(cipher)
    && Synced(RekeySender(up.sender, cipher), RekeyReceiver(heardUp.receiver, cipher))
    && Synced(RekeySender(down.sender, cipher), RekeyReceiver(heardDown.receiver, cipher))
    && (cs.kind.ChaCha20Poly1305? ==>
          && RekeySender(up.sender, cipher).kind == RekeyReceiver(heardUp.receiver, cipher).kind == cipher
          && RekeySender(down.sender, cipher).kind == RekeyReceiver(heardDown.receiver, cipher).kind == cipher)
  }

  /** What both halves of a connection hold before the negotiation. */
  ghost predicate Connected(cs: Sender, sr: Receiver, ss: Sender, cr: Receiver)
  {
    && cs.Valid() && ss.Valid() && Synced(cs, sr) && Synced(ss, cr) && cs.kind == ss.kind
    && cs.nonce < U64_MAX && ss.nonce < U64_MAX
  }

  /** One direction: the frame arrives, and after the rekeys the two halves are in step. */
  lemma {:induction false} FrameThenRekey(s: Sender, r: Receiver, rng: Rng, aead: Aead, frame: bytes, c: Cipher)
    requires aead.Lawful() && s.Valid() && Synced(s, r) && s.nonce < U64_MAX && frame != [] && |frame| <= Room(s, rng)
    ensures var out := Send(s, rng, frame);
            var heard := Recv(r, aead, Wire(aead, out.calls));
            heard.event == Ok(frame) && Synced(RekeySender(out.sender, c), RekeyReceiver(heard.receiver, c))
  {
    FrameIsOneRecord(s, r, rng, aead, frame, []);
    var wire := Wire(aead, Send(s, rng, frame).calls);
    assert wire + [] == wire;
  }

  lemma AgreedWhenRoomy(cs: Sender, sr: Receiver, ss: Sender, cr: Receiver, rng: Rng, rng': Rng, aead: Aead,
                        clientAes: bool, serverAes: bool)
    requires aead.Lawful() && Connected(cs, sr, ss, cr) && Room(cs, rng) >= 3 && Room(ss, rng') >= 2
    ensures Agreed(cs, sr, ss, cr, rng, rng', aead, clientAes, serverAes)
  {
    var cipher := Negotiate(clientAes, serverAes);
    FrameThenRekey(cs, sr, rng, aead, BuildNego(clientAes), cipher);
    FrameThenRekey(ss, cr, rng', aead, BuildAck(cipher), cipher);
  }

  /** For one pair of draws: both ends agree if and only if both frames fit their first record. */
  lemma NegotiationAgrees(cs: Sender, sr: Receiver, ss: Sender, cr: Receiver, rng: Rng, rng': Rng, aead: Aead,
                          clientAes: bool, serverAes: bool)
    requires aead.Lawful() && Connected(cs, sr, ss, cr)
    ensures Agreed(cs, sr, ss, cr, rng, rng', aead, clientAes, serverAes)
       <==> Room(cs, rng) >= 3 && Room(ss, rng') >= 2
    ensures Negotiate(clientAes, serverAes) == Aes256Gcm <==> clientAes && serverAes
  {
    FirstReceive(cs, sr, rng, aead, BuildNego(clientAes));
    FirstReceive(ss, cr, rng', aead, BuildAck(Negotiate(clientAes, serverAes)));
    if Room(cs, rng) >= 3 && Room(ss, rng') >= 2 {
      AgreedWhenRoomy(cs, sr, ss, cr, rng, rng', aead, clientAes, serverAes);
    }
  }

  /** For all draws: the two ends always agree if and only if the next range of each sender leaves
      room for its frame, which the configured scheme settles. */
  lemma NegotiationAlwaysAgrees(cs: Sender, sr: Receiver, ss: Sender, cr: Receiver, aead: Aead,
                                clientAes: bool, serverAes: bool)
    requires aead.Lawful() && Connected(cs, sr, ss, cr)
    ensures (forall rng: Rng, rng': Rng :: Agreed(cs, sr, ss, cr, rng, rng', aead, clientAes, serverAes))
       <==> LeastRoom(cs) >= 3 && LeastRoom(ss) >= 2
  {
    forall rng: Rng, rng': Rng
      ensures Agreed(cs, sr, ss, cr, rng, rng', aead, clientAes, serverAes)
         <==> Room(cs, rng) >= 3 && Room(ss, rng') >= 2
      ensures LeastRoom(cs) <= Room(cs, rng) && LeastRoom(ss) <= Room(ss, rng')
    {
      NegotiationAgrees(cs, sr, ss, cr, rng, rng', aead, clientAes, serverAes);
      LeastRoomIsLeast(cs, rng);
      LeastRoomIsLeast(ss, rng');
    }
    LeastRoomIsLeast(cs, LowestDraws());
    LeastRoomIsLeast(ss, LowestDraws());
    if LeastRoom(cs) < 3 || LeastRoom(ss) < 2 {
      assert !Agreed(cs, sr, ss, cr, LowestDraws(), LowestDraws(), aead, clientAes, serverAes);
    }
  }

  /** A scheme the parser accepts can break it: with a first target of 1 the server's first receive
      is empty, and no NEGO frame is recognised. */
  lemma TinyTargetLosesNego(r: Receiver, rng: Rng, aead: Aead, clientAes: bool)
    requires aead.Lawful() && r == Receiver(false, ChaCha20Poly1305, 0)
    ensures var s := Sender(true, ChaCha20Poly1305, 0, 0, 0, true, [Range(1, 1)]);
            var heard := Recv(r, aead, Wire(aead, Send(s, rng, BuildNego(clientAes)).calls));
            heard.event == Ok([]) && ParseNego([]) == None
  {
    FirstReceive(Sender(true, ChaCha20Poly1305, 0, 0, 0, true, [Range(1, 1)]), r, rng, aead, BuildNego(clientAes));
  }
}
