/** What the record layer promises: the receiver undoes the sender for every payload, padding
    setting, scheme and draw; no key and nonce are sealed together twice; records are shaped
    to their targets; and the wire stays within its size bounds. */
module RecordTheorems {
  import opened Bytes
  import opened Wrappers
  import opened Ciphers
  import opened Records

  /** The AEAD law can be met, so what follows is about something. */
  lemma LawfulAeadExists()
    ensures exists aead: Aead :: aead.Lawful()
  {
    var toy := Aead((_, _, text) => text + Zeros(TAG_SIZE),
                    (_, _, box) => if |box| < TAG_SIZE then None else Some(box[..|box| - TAG_SIZE]));
    forall key, nonce, text
      ensures |toy.seal(key, nonce, text)| == |text| + TAG_SIZE
      ensures toy.open(key, nonce, toy.seal(key, nonce, text)) == Some(text)
    {
      assert (text + Zeros(TAG_SIZE))[..|text|] == text;
    }
    assert toy.Lawful();
  }

  // ------------------------------------------------ stripping undoes padding

  lemma {:induction false} StrippedInner(content: bytes, ty: byte, pad: nat)
    requires ty != 0
    ensures Stripped(Inner(content, ty, pad)) == |content| + 1
  {
    var pt := Inner(content, ty, pad);
    if pad > 0 {
      assert pt[..|pt| - 1] == Inner(content, ty, pad - 1);
      StrippedInner(content, ty, pad - 1);
    }
  }

  lemma OneMoreZero(content: bytes, ty: byte, pad: nat)
    ensures Inner(content, ty, pad) + [0] == Inner(content, ty, pad + 1)
    ensures Zeros(pad) + [0] == Zeros(pad + 1)
  {
  }

  lemma {:induction false} StrippedSplits(pt: bytes)
    ensures Stripped(pt) == 0 ==> pt == Zeros(|pt|)
    ensures Stripped(pt) > 0 ==> pt[Stripped(pt) - 1] != 0
    ensures Stripped(pt) > 0 ==>
              pt == Inner(pt[..Stripped(pt) - 1], pt[Stripped(pt) - 1], |pt| - Stripped(pt))
  {
    var n := Stripped(pt);
    if pt != [] && pt[|pt| - 1] == 0 {
      var fewer := pt[..|pt| - 1];
      StrippedSplits(fewer);
      assert pt == fewer + [0];
      if n == 0 {
        OneMoreZero([], 0, |fewer|);
      } else {
        assert pt[..n - 1] == fewer[..n - 1] && pt[n - 1] == fewer[n - 1];
        OneMoreZero(pt[..n - 1], pt[n - 1], |fewer| - n);
      }
    } else if n > 0 {
      assert pt == pt[..n - 1] + [pt[n - 1]] + Zeros(0);
    }
  }

  /** A plaintext is delivered as data `content` exactly when it is `content`, the data type
      byte and zero padding; so zeros that end the content are never mistaken for padding. */
  lemma DataIffInner(pt: bytes, content: bytes)
    ensures ProcessPlaintext(pt) == Ok(content)
            <==> exists pad: nat :: pt == Inner(content, TYPE_DATA, pad)
  {
    StrippedSplits(pt);
    if pad: nat :| pt == Inner(content, TYPE_DATA, pad) {
      StrippedInner(content, TYPE_DATA, pad);
      assert pt[..|content|] == content;
    }
  }

  // ------------------------------------------------------- one record's trip

  predicate Synced(s: Sender, r: Receiver)
  {
    r.initiator != s.initiator && r.kind == s.kind && r.nonce == s.nonce
  }

  predicate Fits(text: bytes) { 1 <= |text| <= MAX_RECORD_SIZE + 1 }

  /** Every record a data send builds passes the receiver's size guard, whatever was drawn. */
  lemma NextInnerFits(s: Sender, rng: Rng, data: bytes)
    requires s.Valid()
    ensures Fits(s.NextInner(rng, data))
    ensures s.Shaped() ==> |s.NextInner(rng, data)| == s.Target(rng)
    ensures ProcessPlaintext(s.NextInner(rng, data)) == Ok(data[..s.Take(rng, |data|)])
  {
    DataIffInner(s.NextInner(rng, data), data[..s.Take(rng, |data|)]);
  }

  lemma HeaderParses(len: nat, tail: bytes)
    requires len <= U16_MAX
    ensures (Header(len) + tail)[..3] == [0x17, 0x03, 0x03]
    ensures FromBigEndian((Header(len) + tail)[3..5]) == len
    ensures (Header(len) + tail)[5..] == tail
  {
    assert Pow256(2) == 256 * Pow256(1);
    BigEndianRoundTrip(len, 2);
    assert (Header(len) + tail)[3..5] == BigEndian(len, 2);
  }

  lemma RecvFrame(s: Sender, r: Receiver, aead: Aead, text: bytes, tail: bytes)
    requires aead.Lawful() && Synced(s, r) && s.nonce < U64_MAX && Fits(text)
    ensures Recv(r, aead, Frame(aead, SealNext(s, text)) + tail)
         == Received(r.(nonce := r.nonce + 1), tail, ProcessPlaintext(text))
  {
    var call := SealNext(s, text);
    var body := aead.seal(call.Key(), call.Nonce(), call.text);
    assert |body| == |text| + TAG_SIZE;
    var input := Frame(aead, call) + tail;
    assert input == Header(|body|) + (body + tail);
    HeaderParses(|body|, body + tail);
    assert (body + tail)[..|body|] == body;
    assert (body + tail)[|body|..] == tail;
  }

  // ------------------------------------------------------ streams of records

  /** A delivered stream, byte by byte, with the control records in their places. */
  datatype Item = Byte(b: byte) | Closed | NoRoute(reason: byte) | Fault(error: RecvError)

  function Payload(d: bytes): seq<Item> { seq(|d|, i requires 0 <= i < |d| => Byte(d[i])) }

  lemma PayloadConcat(a: bytes, b: bytes)
    ensures Payload(a + b) == Payload(a) + Payload(b)
  {
  }

  function EventItems(e: Event): seq<Item>
  {
    match e
    case Ok(d) => Payload(d)
    case Err(PeerClose) => [Closed]
    case Err(PeerUnreachable(reason)) => [NoRoute(reason)]
    case Err(x) => [Fault(x)]
  }

  function Items(events: seq<Event>): seq<Item>
  {
    if events == [] then [] else EventItems(events[0]) + Items(events[1..])
  }

  function AskedOf(act: Act): seq<Item>
  {
    match act
    case Data(d) => Payload(d)
    case CloseNotify => [Closed]
    case Unreachable(reason) => [NoRoute(reason)]
    case Rekey(_) => []
  }

  /** What the application asked the sender to say. */
  function Asked(acts: seq<Act>): seq<Item>
  {
    if acts == [] then [] else AskedOf(acts[0]) + Asked(acts[1..])
  }

  function Receives(n: nat): seq<ReaderAct> { seq(n, _ => Receive) }

  function ScriptOf(act: Act, out: Outcome): seq<ReaderAct>
  {
    if act.Rekey? then [ReaderRekey(act.cipher)] else Receives(|out.calls|)
  }

  /** The receiver's side of a run: one receive per record written, and a rekey at the record
      boundary at which the sender rekeyed. */
  function Script(s: Sender, rng: Rng, acts: seq<Act>): seq<ReaderAct>
    requires s.Valid()
    decreases |acts|
  {
    if acts == [] then []
    else
      var first := Step(s, rng, acts[0]);
      ScriptOf(acts[0], first) + Script(first.sender, rng, acts[1..])
  }

  lemma {:induction false} WireConcat(aead: Aead, a: seq<SealCall>, b: seq<SealCall>)
    ensures Wire(aead, a + b) == Wire(aead, a) + Wire(aead, b)
  {
    if a == [] {
      assert a + b == b;
    } else {
      assert (a + b)[1..] == a[1..] + b;
      WireConcat(aead, a[1..], b);
    }
  }

  lemma {:induction false} ItemsConcat(a: seq<Event>, b: seq<Event>)
    ensures Items(a + b) == Items(a) + Items(b)
  {
    if a == [] {
      assert a + b == b;
    } else {
      assert (a + b)[1..] == a[1..] + b;
      ItemsConcat(a[1..], b);
    }
  }

  lemma ItemsCons(e: Event, events: seq<Event>)
    ensures Items([e] + events) == EventItems(e) + Items(events)
  {
    assert ([e] + events)[1..] == events;
  }

  lemma {:induction false} ListenConcat(r: Receiver, aead: Aead, input: bytes,
                                        a: seq<ReaderAct>, b: seq<ReaderAct>)
    ensures var one := Listen(r, aead, input, a);
            var two := Listen(one.receiver, aead, one.rest, b);
            Listen(r, aead, input, a + b) == Heard(two.receiver, two.rest, one.events + two.events)
    decreases |a|
  {
    if a == [] {
      assert a + b == b;
    } else {
      assert (a + b)[1..] == a[1..] + b;
      match a[0] {
        case ReaderRekey(c) => ListenConcat(RekeyReceiver(r, c), aead, input, a[1..], b);
        case Receive =>
          var one := Recv(r, aead, input);
          ListenConcat(one.receiver, aead, one.rest, a[1..], b);
      }
    }
  }

  lemma ListenReceive(r: Receiver, aead: Aead, input: bytes, n: nat, one: Received)
    requires n > 0 && Recv(r, aead, input) == one
    ensures Listen(r, aead, input, Receives(n))
         == var more := Listen(one.receiver, aead, one.rest, Receives(n - 1));
            more.(events := [one.event] + more.events)
  {
    assert Receives(n)[1..] == Receives(n - 1);
  }

  /** The first record of a wire is heard, then the rest of the wire is listened to. */
  lemma ListenFrame(s: Sender, r: Receiver, aead: Aead, text: bytes, calls: seq<SealCall>, tail: bytes)
    requires aead.Lawful() && Synced(s, r) && s.nonce < U64_MAX && Fits(text)
    ensures Listen(r, aead, Wire(aead, [SealNext(s, text)] + calls) + tail, Receives(|calls| + 1))
         == var more := Listen(r.(nonce := r.nonce + 1), aead, Wire(aead, calls) + tail, Receives(|calls|));
            more.(events := [ProcessPlaintext(text)] + more.events)
  {
    var all := [SealNext(s, text)] + calls;
    assert all[1..] == calls;
    RecvFrame(s, r, aead, text, Wire(aead, calls) + tail);
    assert Wire(aead, all) + tail == Frame(aead, SealNext(s, text)) + (Wire(aead, calls) + tail);
    ListenReceive(r, aead, Wire(aead, all) + tail, |calls| + 1,
                  Received(r.(nonce := r.nonce + 1), Wire(aead, calls) + tail, ProcessPlaintext(text)));
  }

  /** Receiving the records of `out` yields the payload `heard` and ends in step. */
  ghost predicate HearsPayload(r: Receiver, aead: Aead, out: Outcome, heard: bytes, tail: bytes)
  {
    var l := Listen(r, aead, Wire(aead, out.calls) + tail, Receives(|out.calls|));
    l.rest == tail && Synced(out.sender, l.receiver) && Items(l.events) == Payload(heard)
  }

  lemma HearsOneMore(s: Sender, r: Receiver, aead: Aead, text: bytes, chunk: bytes, more: bytes,
                     rest: Outcome, out: Outcome, tail: bytes)
    requires aead.Lawful() && Synced(s, r) && s.nonce < U64_MAX && Fits(text)
    requires ProcessPlaintext(text) == Ok(chunk)
    requires HearsPayload(r.(nonce := r.nonce + 1), aead, rest, more, tail)
    requires out.sender == rest.sender && out.calls == [SealNext(s, text)] + rest.calls
    ensures HearsPayload(r, aead, out, chunk + more, tail)
  {
    ListenFrame(s, r, aead, text, rest.calls, tail);
    var later := Listen(r.(nonce := r.nonce + 1), aead, Wire(aead, rest.calls) + tail, Receives(|rest.calls|));
    ItemsCons(Ok(chunk), later.events);
    PayloadConcat(chunk, more);
  }

  lemma HearsNothing(r: Receiver, aead: Aead, out: Outcome, tail: bytes)
    requires Synced(out.sender, r) && out.calls == []
    ensures HearsPayload(r, aead, out, [], tail)
  {
    assert Wire(aead, []) + tail == tail;
  }

  /** One record, then the rest of the send. */
  lemma SendUnfolds(s: Sender, rng: Rng, data: bytes)
    requires s.Valid() && data != [] && s.nonce < U64_MAX
    ensures var out, rest := Send(s, rng, data), Send(NextState(s), rng, data[s.Take(rng, |data|)..]);
            && out.sender == rest.sender && out.ok == rest.ok
            && out.calls == [SealNext(s, s.NextInner(rng, data))] + rest.calls
  {
  }

  lemma {:induction false} RecordHeard(s: Sender, r: Receiver, rng: Rng, aead: Aead, data: bytes, more: bytes,
                                       tail: bytes)
    requires aead.Lawful() && s.Valid() && Synced(s, r) && data != [] && s.nonce < U64_MAX
    requires HearsPayload(r.(nonce := r.nonce + 1), aead, Send(NextState(s), rng, data[s.Take(rng, |data|)..]), more,
                          tail)
    ensures HearsPayload(r, aead, Send(s, rng, data), data[..s.Take(rng, |data|)] + more, tail)
  {
    var n := s.Take(rng, |data|);
    NextInnerFits(s, rng, data);
    SendUnfolds(s, rng, data);
    HearsOneMore(s, r, aead, s.NextInner(rng, data), data[..n], more, Send(NextState(s), rng, data[n..]),
                 Send(s, rng, data), tail);
  }

  lemma PrefixJoins(data: bytes, n: nat, more: bytes)
    requires n <= |data| && more <= data[n..]
    ensures data[..n] + more <= data && (more == data[n..] <==> data[..n] + more == data)
  {
    assert data == data[..n] + data[n..];
    assert (data[..n] + more)[n..] == more;
  }

  /** The receiver hears one data send: a prefix of the payload, all of it exactly when the send
      returned Ok, which it does unless the counter is used up, and it ends in step with the sender. */
  lemma {:induction false} SendHeard(s: Sender, r: Receiver, rng: Rng, aead: Aead, data: bytes, tail: bytes)
    returns (heard: bytes)
    requires aead.Lawful() && s.Valid() && Synced(s, r)
    ensures HearsPayload(r, aead, Send(s, rng, data), heard, tail)
    ensures heard <= data && (Send(s, rng, data).ok <==> heard == data)
    ensures !Send(s, rng, data).ok ==> Send(s, rng, data).sender.nonce == U64_MAX
    decreases |data|, U64_MAX - s.nonce
  {
    var out := Send(s, rng, data);
    if data == [] || s.nonce == U64_MAX {
      heard := [];
      HearsNothing(r, aead, out, tail);
    } else {
      var n := s.Take(rng, |data|);
      SendUnfolds(s, rng, data);
      var more := SendHeard(NextState(s), r.(nonce := r.nonce + 1), rng, aead, data[n..], tail);
      heard := data[..n] + more;
      PrefixJoins(data, n, more);
      RecordHeard(s, r, rng, aead, data, more, tail);
    }
  }

  lemma ControlHeard(s: Sender, r: Receiver, aead: Aead, b0: byte, b1: byte, ty: byte, tail: bytes)
    requires aead.Lawful() && s.Valid() && Synced(s, r)
    ensures var out := SendControl(s, b0, b1, ty);
            var l := Listen(r, aead, Wire(aead, out.calls) + tail, Receives(|out.calls|));
            && l.rest == tail && Synced(out.sender, l.receiver)
            && l.events == (if out.ok then [ProcessPlaintext([b0, b1, ty])] else [])
            && (out.ok <==> s.nonce < U64_MAX)
  {
    assert Wire(aead, []) + tail == tail;
    if s.nonce < U64_MAX {
      ListenFrame(s, r, aead, [b0, b1, ty], [], tail);
    }
  }

  lemma ControlItems(reason: byte)
    ensures Items([ProcessPlaintext([0x01, 0x00, TYPE_ALERT])]) == [Closed]
    ensures Items([ProcessPlaintext([reason, 0x00, TYPE_UNREACHABLE])]) == [NoRoute(reason)]
  {
    var close: Event := ProcessPlaintext([0x01, 0x00, TYPE_ALERT]);
    var unreachable: Event := ProcessPlaintext([reason, 0x00, TYPE_UNREACHABLE]);
    assert close == Err(PeerClose) && unreachable == Err(PeerUnreachable(reason));
    ItemsCons(close, []);
    ItemsCons(unreachable, []);
  }

  ghost predicate HearsOutcome(r: Receiver, aead: Aead, out: Outcome, script: seq<ReaderAct>,
                               asked: seq<Item>, tail: bytes)
  {
    var l := Listen(r, aead, Wire(aead, out.calls) + tail, script);
    l.rest == tail && Synced(out.sender, l.receiver) && (out.ok ==> Items(l.events) == asked)
  }

  lemma ControlOutcomeHeard(s: Sender, r: Receiver, aead: Aead, b0: byte, b1: byte, ty: byte,
                            asked: seq<Item>, tail: bytes)
    requires aead.Lawful() && s.Valid() && Synced(s, r)
    requires Items([ProcessPlaintext([b0, b1, ty])]) == asked
    ensures var out := SendControl(s, b0, b1, ty);
            HearsOutcome(r, aead, out, Receives(|out.calls|), asked, tail)
  {
    ControlHeard(s, r, aead, b0, b1, ty, tail);
  }

  lemma RekeyHeard(s: Sender, r: Receiver, rng: Rng, aead: Aead, c: Cipher, tail: bytes)
    requires s.Valid() && Synced(s, r)
    ensures HearsOutcome(r, aead, Step(s, rng, Rekey(c)), [ReaderRekey(c)], [], tail)
  {
    assert Wire(aead, []) + tail == tail;
    assert [ReaderRekey(c)][1..] == [];
  }

  /** What the receiver hears of one operation. */
  lemma StepHeard(s: Sender, r: Receiver, rng: Rng, aead: Aead, act: Act, tail: bytes)
    requires aead.Lawful() && s.Valid() && Synced(s, r)
    ensures var out := Step(s, rng, act);
            HearsOutcome(r, aead, out, ScriptOf(act, out), AskedOf(act), tail)
  {
    match act
    case Data(d) =>
      var heard := SendHeard(s, r, rng, aead, d, tail);
    case CloseNotify =>
      ControlItems(0);
      ControlOutcomeHeard(s, r, aead, 0x01, 0x00, TYPE_ALERT, [Closed], tail);
    case Unreachable(reason) =>
      ControlItems(reason);
      ControlOutcomeHeard(s, r, aead, reason, 0x00, TYPE_UNREACHABLE, [NoRoute(reason)], tail);
    case Rekey(c) =>
      RekeyHeard(s, r, rng, aead, c, tail);
  }

  lemma Associative(x: bytes, y: bytes, z: bytes)
    ensures (x + y) + z == x + (y + z)
  {
  }

  /** Listening to two wires in a row is listening to one and then to the other. */
  lemma {:induction false} JoinHeard(r: Receiver, aead: Aead, a: seq<SealCall>, b: seq<SealCall>, tail: bytes,
                  scriptA: seq<ReaderAct>, scriptB: seq<ReaderAct>, one: Heard, two: Heard)
    requires one == Listen(r, aead, Wire(aead, a) + (Wire(aead, b) + tail), scriptA)
    requires two == Listen(one.receiver, aead, one.rest, scriptB)
    ensures Listen(r, aead, Wire(aead, a + b) + tail, scriptA + scriptB)
         == Heard(two.receiver, two.rest, one.events + two.events)
    ensures Items(one.events + two.events) == Items(one.events) + Items(two.events)
  {
    WireConcat(aead, a, b);
    Associative(Wire(aead, a), Wire(aead, b), tail);
    ListenConcat(r, aead, Wire(aead, a) + (Wire(aead, b) + tail), scriptA, scriptB);
    ItemsConcat(one.events, two.events);
  }

  /** Stream round trip: for every run of data, control and rekey operations, every padding
      setting, scheme and draw, the receiver hears exactly what was asked (when no operation ran
      out of nonces), ends in step with the sender, and leaves the bytes that follow unread. */
  lemma {:induction false} StreamRoundTrip(s: Sender, r: Receiver, rng: Rng, aead: Aead,
                                           acts: seq<Act>, tail: bytes)
    requires aead.Lawful() && s.Valid() && Synced(s, r)
    ensures HearsOutcome(r, aead, Run(s, rng, acts), Script(s, rng, acts), Asked(acts), tail)
    decreases |acts|
  {
    if acts == [] {
      assert Wire(aead, []) + tail == tail;
    } else {
      var first := Step(s, rng, acts[0]);
      var calls := Run(first.sender, rng, acts[1..]).calls;
      var script := Script(first.sender, rng, acts[1..]);
      StepHeard(s, r, rng, aead, acts[0], Wire(aead, calls) + tail);
      var one := Listen(r, aead, Wire(aead, first.calls) + (Wire(aead, calls) + tail), ScriptOf(acts[0], first));
      StreamRoundTrip(first.sender, one.receiver, rng, aead, acts[1..], tail);
      var two := Listen(one.receiver, aead, one.rest, script);
      JoinHeard(r, aead, first.calls, calls, tail, ScriptOf(acts[0], first), script, one, two);
    }
  }
}
