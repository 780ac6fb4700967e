/** The encrypted record layer on values: how a sender cuts, pads and seals, and how a
    receiver frames, opens and strips. The classes of module RecordLayer are proved
    against these functions, and module RecordTheorems proves what they promise. */
module Records {
  import opened Bytes
  import opened Wrappers
  import opened Ciphers

  const TYPE_DATA: byte := 0x17
  const TYPE_ALERT: byte := 0x15
  const TYPE_UNREACHABLE: byte := 0x18
  const CONNECT_FAILED: byte := 0x01
  const HEADER_SIZE: nat := 5
  const RECORD_OVERHEAD: nat := HEADER_SIZE + 1 + TAG_SIZE

  // ---------------------------------------------------------------- the AEAD

  /** An AEAD whose key is named by its HKDF info string (the session master is fixed). */
  datatype Aead = Aead(seal: (string, bytes, bytes) -> bytes,
                       open: (string, bytes, bytes) -> Option<bytes>)
  {
    /** Sealing appends a 16-byte tag, and opening under the same key and nonce undoes it. */
    ghost predicate Lawful()
    {
      forall key, nonce, text ::
        |seal(key, nonce, text)| == |text| + TAG_SIZE &&
        open(key, nonce, seal(key, nonce, text)) == Some(text)
    }
  }

  function FormatNonce(n: nat): (b: bytes)
    ensures |b| == NONCE_SIZE
  {
    Zeros(4) + BigEndian(n, 8)
  }

  /** One call of the seal operation: the direction and cipher that name the key, the counter
      that becomes the nonce, and the plaintext. */
  datatype SealCall = SealCall(fromInitiator: bool, kind: Cipher, counter: nat, text: bytes)
  {
    function Key(): string { KeyInfo(fromInitiator, kind) }
    function Nonce(): bytes { FormatNonce(counter) }
  }

  // -------------------------------------------------------------- the sender

  datatype Range = Range(lo: nat, hi: nat)

  predicate ValidScheme(s: seq<Range>)
  {
    forall i :: 0 <= i < |s| ==> 1 <= s[i].lo <= s[i].hi <= MAX_RECORD_SIZE
  }

  /** One draw of the generator: an integer for a padding target, or a fraction for a bucket. */
  datatype Draw = Draw(size: nat, fraction: real)
  type Rng = nat -> Draw

  /** `usize(lo..=hi)`: every value of the range is the result of some draw. */
  function Pick(range: Range, d: Draw): (n: nat)
    requires range.lo <= range.hi
    ensures range.lo <= n <= range.hi
  {
    if d.size < range.lo then range.lo else if d.size > range.hi then range.hi else d.size
  }

  function Bucket(d: Draw): nat
  {
    if d.fraction <= 0.50 then 16384 else if d.fraction <= 0.85 then 8192 else 4096
  }

  datatype Sender = Sender(initiator: bool, kind: Cipher, nonce: nat, recordsSent: nat,
                           drawn: nat, padding: bool, scheme: seq<Range>)
  {
    predicate Valid() { nonce <= U64_MAX && recordsSent <= U32_MAX && ValidScheme(scheme) }

    predicate Shaped() { padding && recordsSent < |scheme| }

    function Target(rng: Rng): (n: nat)
      requires Valid() && Shaped()
      ensures 1 <= n <= MAX_RECORD_SIZE
    {
      Pick(scheme[recordsSent], rng(drawn))
    }

    /** How many of `remaining` payload bytes the next data record carries. */
    function Take(rng: Rng, remaining: nat): (n: nat)
      requires Valid()
      ensures n <= remaining
    {
      Min(if Shaped() then Target(rng) - 1 else Bucket(rng(drawn)), remaining)
    }

    /** TLSInnerPlaintext of the next data record: content, type byte, zero padding. */
    function NextInner(rng: Rng, data: bytes): bytes
      requires Valid()
    {
      var n := Take(rng, |data|);
      Inner(data[..n], TYPE_DATA, if Shaped() then Target(rng) - n - 1 else 0)
    }

    /** The counters that move before the nonce guard. */
    function Counted(): Sender
    {
      this.(recordsSent := Min(recordsSent + 1, U32_MAX), drawn := drawn + 1)
    }
  }

  function Inner(content: bytes, ty: byte, pad: nat): bytes
  {
    content + [ty] + Zeros(pad)
  }

  /** What one operation of a sender does: its next state, the seal calls it makes in order,
      and whether it returned Ok. */
  datatype Outcome = Outcome(sender: Sender, calls: seq<SealCall>, ok: bool)

  function SealNext(s: Sender, inner: bytes): SealCall
  {
    SealCall(s.initiator, s.kind, s.nonce, inner)
  }

  /** The state after one data record, and the call that sealed it. */
  function NextState(s: Sender): Sender
  {
    s.Counted().(nonce := s.nonce + 1)
  }

  function NextCall(s: Sender, rng: Rng, data: bytes): SealCall
    requires s.Valid()
  {
    SealNext(s, s.NextInner(rng, data))
  }

  function Send(s: Sender, rng: Rng, data: bytes): (r: Outcome)
    requires s.Valid()
    ensures r.sender.Valid()
    decreases |data|, U64_MAX - s.nonce
  {
    if data == [] then Outcome(s, [], true)
    else if s.nonce == U64_MAX then Outcome(s.Counted(), [], false)
    else
      var rest := Send(NextState(s), rng, data[s.Take(rng, |data|)..]);
      rest.(calls := [NextCall(s, rng, data)] + rest.calls)
  }

  function SendControl(s: Sender, b0: byte, b1: byte, ty: byte): Outcome
    requires s.Valid()
  {
    if s.nonce == U64_MAX then Outcome(s, [], false)
    else Outcome(s.(nonce := s.nonce + 1), [SealNext(s, [b0, b1, ty])], true)
  }

  predicate RekeyRefused(current: Cipher, next: Cipher)
  {
    next == current || next == ChaCha20Poly1305
  }

  datatype Act = Data(data: bytes) | CloseNotify | Unreachable(reason: byte) | Rekey(cipher: Cipher)

  function Step(s: Sender, rng: Rng, act: Act): (r: Outcome)
    requires s.Valid()
    ensures r.sender.Valid()
  {
    match act
    case Data(d) => Send(s, rng, d)
    case CloseNotify => SendControl(s, 0x01, 0x00, TYPE_ALERT)
    case Unreachable(reason) => SendControl(s, reason, 0x00, TYPE_UNREACHABLE)
    case Rekey(c) =>
      if RekeyRefused(s.kind, c) then Outcome(s, [], true)
      else Outcome(s.(kind := c, nonce := 0), [], true)
  }

  /** A whole run of a sender; `ok` says that every operation returned Ok. */
  function Run(s: Sender, rng: Rng, acts: seq<Act>): (r: Outcome)
    requires s.Valid()
    ensures r.sender.Valid()
    decreases |acts|
  {
    if acts == [] then Outcome(s, [], true)
    else
      var first := Step(s, rng, acts[0]);
      var rest := Run(first.sender, rng, acts[1..]);
      Outcome(rest.sender, first.calls + rest.calls, first.ok && rest.ok)
  }

  // ---------------------------------------------------------------- the wire

  function Header(bodyLen: nat): (h: bytes)
    ensures |h| == HEADER_SIZE
  {
    [0x17, 0x03, 0x03] + BigEndian(bodyLen, 2)
  }

  function Frame(aead: Aead, call: SealCall): bytes
  {
    var body := aead.seal(call.Key(), call.Nonce(), call.text);
    Header(|body|) + body
  }

  function Wire(aead: Aead, calls: seq<SealCall>): bytes
  {
    if calls == [] then [] else Frame(aead, calls[0]) + Wire(aead, calls[1..])
  }

  // ------------------------------------------------------------ the receiver

  datatype RecvError =
    | Eof
    | BadHeader
    | TooLarge
    | NonceExhausted
    | OpenFailed
    | EmptyPlaintext
    | PaddingOnly
    | PeerClose
    | PeerUnreachable(reason: byte)
    | UnknownType(ty: byte)

  type Event = Result<bytes, RecvError>

  datatype Receiver = Receiver(initiator: bool, kind: Cipher, nonce: nat)
  {
    /** The receiver listens to the opposite direction of its own sender. */
    function Key(): string { KeyInfo(!initiator, kind) }
  }

  /** Length of `pt` without its trailing zero bytes. */
  function Stripped(pt: bytes): (n: nat)
    ensures n <= |pt|
  {
    if pt != [] && pt[|pt| - 1] == 0 then Stripped(pt[..|pt| - 1]) else |pt|
  }

  function ProcessPlaintext(pt: bytes): Event
  {
    if pt == [] then Err(EmptyPlaintext)
    else
      var end := Stripped(pt);
      if end == 0 then Err(PaddingOnly)
      else
        var ty := pt[end - 1];
        if ty == TYPE_DATA then Ok(pt[..end - 1])
        else if ty == TYPE_ALERT then Err(PeerClose)
        else if ty == TYPE_UNREACHABLE then
          Err(PeerUnreachable(if end >= 2 then pt[0] else CONNECT_FAILED))
        else Err(UnknownType(ty))
  }

  datatype Received = Received(receiver: Receiver, rest: bytes, event: Event)

  /** One `recv_data` on the bytes still to be read. */
  function Recv(r: Receiver, aead: Aead, input: bytes): Received
  {
    if |input| < HEADER_SIZE then Received(r, [], Err(Eof))
    else
      var body := input[HEADER_SIZE..];
      if input[..3] != [0x17, 0x03, 0x03] then Received(r, body, Err(BadHeader))
      else
        var len := FromBigEndian(input[3..5]);
        if len > MAX_RECORD_SIZE + 1 + TAG_SIZE then Received(r, body, Err(TooLarge))
        else if |body| < len then Received(r, [], Err(Eof))
        else if r.nonce == U64_MAX then Received(r, body[len..], Err(NonceExhausted))
        else
          var next := r.(nonce := r.nonce + 1);
          match aead.open(r.Key(), FormatNonce(r.nonce), body[..len])
          case None => Received(next, body[len..], Err(OpenFailed))
          case Some(pt) => Received(next, body[len..], ProcessPlaintext(pt))
  }

  datatype ReaderAct = Receive | ReaderRekey(cipher: Cipher)

  function RekeyReceiver(r: Receiver, c: Cipher): Receiver
  {
    if RekeyRefused(r.kind, c) then r else r.(kind := c, nonce := 0)
  }

  datatype Heard = Heard(receiver: Receiver, rest: bytes, events: seq<Event>)

  /** A whole run of a receiver over its input. */
  function Listen(r: Receiver, aead: Aead, input: bytes, acts: seq<ReaderAct>): Heard
    decreases |acts|
  {
    if acts == [] then Heard(r, input, [])
    else
      match acts[0]
      case ReaderRekey(c) => Listen(RekeyReceiver(r, c), aead, input, acts[1..])
      case Receive =>
        var one := Recv(r, aead, input);
        var more := Listen(one.receiver, aead, one.rest, acts[1..]);
        more.(events := [one.event] + more.events)
  }

  // ------------------------------------------------------------- the draws

  /** Every value of a range is drawn by some draw, and nothing else is. */
  lemma PickCovers(range: Range, n: nat)
    requires range.lo <= range.hi
    ensures range.lo <= n <= range.hi <==> exists d: Draw :: Pick(range, d) == n
  {
    if range.lo <= n <= range.hi {
      assert Pick(range, Draw(n, 0.0)) == n;
    }
  }

  /** Half of the fractions give the largest bucket, 35 in a hundred the middle one, 15 the least. */
  lemma BucketShares(d: Draw)
    ensures Bucket(d) == 16384 <==> d.fraction <= 0.5
    ensures Bucket(d) == 8192 <==> 0.5 < d.fraction <= 0.85
    ensures Bucket(d) == 4096 <==> 0.85 < d.fraction
  {
  }
}
