/** Safety of the sender over whole sessions: nonce discipline, record shaping and wire size. */
module RecordSafety {
  import opened Bytes
  import opened Ciphers
  import opened Records
  import opened RecordTheorems
  import opened PaddingScheme

  // ----------------------------------------------------------- nonce safety

  lemma FormatNonceInjective(m: nat, n: nat)
    requires m <= U64_MAX && n <= U64_MAX
    ensures FormatNonce(m) == FormatNonce(n) <==> m == n
  {
    assert Pow256(4) == 0x1_0000_0000;
    assert Pow256(8) == U64_MAX + 1;
    BigEndianRoundTrip(m, 8);
    BigEndianRoundTrip(n, 8);
    assert FormatNonce(m)[4..] == BigEndian(m, 8) && FormatNonce(n)[4..] == BigEndian(n, 8);
  }

  /** `calls` used up consecutive counters of one key, taking `s` to `s'`. */
  predicate Consecutive(s: Sender, s': Sender, calls: seq<SealCall>)
  {
    && s'.initiator == s.initiator && s'.kind == s.kind && s'.nonce == s.nonce + |calls| <= U64_MAX
    && forall i :: 0 <= i < |calls| ==>
         calls[i].fromInitiator == s.initiator && calls[i].kind == s.kind && calls[i].counter == s.nonce + i
  }

  lemma {:induction false} SendCalls(s: Sender, rng: Rng, data: bytes)
    requires s.Valid()
    ensures Consecutive(s, Send(s, rng, data).sender, Send(s, rng, data).calls)
    decreases |data|, U64_MAX - s.nonce
  {
    if data != [] && s.nonce < U64_MAX {
      SendCalls(NextState(s), rng, data[s.Take(rng, |data|)..]);
    }
  }

  /** A step that seals something uses consecutive counters; otherwise it may be the one rekey. */
  lemma StepCalls(s: Sender, rng: Rng, act: Act)
    requires s.Valid()
    ensures var out := Step(s, rng, act);
            || Consecutive(s, out.sender, out.calls)
            || (out.calls == [] && s.kind.ChaCha20Poly1305? && out.sender == s.(kind := Aes256Gcm, nonce := 0))
  {
    if act.Data? {
      SendCalls(s, rng, act.data);
    }
  }

  /** A call that a sender in state `s`, or in any later state of it, may still make. */
  predicate StillUnused(s: Sender, call: SealCall)
  {
    && call.fromInitiator == s.initiator && call.counter <= U64_MAX
    && ((call.kind == s.kind && s.nonce <= call.counter) || (s.kind.ChaCha20Poly1305? && call.kind.Aes256Gcm?))
  }

  predicate AllUnused(client: Sender, server: Sender, calls: seq<SealCall>)
  {
    forall i :: 0 <= i < |calls| ==> StillUnused(client, calls[i]) || StillUnused(server, calls[i])
  }

  predicate SameName(a: SealCall, b: SealCall)
  {
    a.fromInitiator == b.fromInitiator && a.kind == b.kind && a.counter == b.counter
  }

  predicate NamesDistinct(calls: seq<SealCall>)
  {
    forall i, j :: 0 <= i < j < |calls| ==> !SameName(calls[i], calls[j])
  }

  /** One operation of one of the two ends; `byClient` says which. */
  datatype SessionAct = SessionAct(byClient: bool, act: Act)

  /** Every seal call of a session, both directions interleaved as they happened; each end has its
      own draws, `rng` at the client and `rng'` at the server. */
  function SessionCalls(client: Sender, server: Sender, rng: Rng, rng': Rng, acts: seq<SessionAct>): seq<SealCall>
    requires client.Valid() && server.Valid()
    decreases |acts|
  {
    if acts == [] then []
    else if acts[0].byClient then
      var out := Step(client, rng, acts[0].act);
      out.calls + SessionCalls(out.sender, server, rng, rng', acts[1..])
    else
      var out := Step(server, rng', acts[0].act);
      out.calls + SessionCalls(client, out.sender, rng, rng', acts[1..])
  }

  lemma JoinNames(s: Sender, out: Outcome, other: Sender, rest: seq<SealCall>)
    requires s.initiator != other.initiator
    requires || Consecutive(s, out.sender, out.calls)
             || (out.calls == [] && s.kind.ChaCha20Poly1305? && out.sender == s.(kind := Aes256Gcm, nonce := 0))
    requires AllUnused(out.sender, other, rest) && NamesDistinct(rest)
    ensures AllUnused(s, other, out.calls + rest) && NamesDistinct(out.calls + rest)
  {
  }

  lemma {:induction false} NamesNeverRepeat(client: Sender, server: Sender, rng: Rng, rng': Rng, acts: seq<SessionAct>)
    requires client.Valid() && server.Valid() && client.initiator != server.initiator
    ensures AllUnused(client, server, SessionCalls(client, server, rng, rng', acts))
    ensures NamesDistinct(SessionCalls(client, server, rng, rng', acts))
    decreases |acts|
  {
    if acts != [] {
      var byClient := acts[0].byClient;
      var mover := if byClient then client else server;
      var draws := if byClient then rng else rng';
      var out := Step(mover, draws, acts[0].act);
      StepCalls(mover, draws, acts[0].act);
      if byClient {
        NamesNeverRepeat(out.sender, server, rng, rng', acts[1..]);
        JoinNames(client, out, server, SessionCalls(out.sender, server, rng, rng', acts[1..]));
      } else {
        NamesNeverRepeat(client, out.sender, rng, rng', acts[1..]);
        JoinNames(server, out, client, SessionCalls(client, out.sender, rng, rng', acts[1..]));
      }
    }
  }

  /** No key and nonce are ever sealed together twice: over every interleaving of data sends,
      control sends and rekeys at both ends of a session, the HKDF info strings and the twelve
      nonce bytes of any two seal calls differ. */
  lemma NoKeyNonceReuse(client: Sender, server: Sender, rng: Rng, rng': Rng, acts: seq<SessionAct>, i: nat, j: nat)
    requires client.Valid() && server.Valid() && client.initiator != server.initiator
    requires i < j < |SessionCalls(client, server, rng, rng', acts)|
    ensures var calls := SessionCalls(client, server, rng, rng', acts);
            calls[i].Key() != calls[j].Key() || calls[i].Nonce() != calls[j].Nonce()
  {
    NamesNeverRepeat(client, server, rng, rng', acts);
    var a := SessionCalls(client, server, rng, rng', acts)[i];
    var b := SessionCalls(client, server, rng, rng', acts)[j];
    assert !SameName(a, b);
    KeyInfoInjective(a.fromInitiator, a.kind, b.fromInitiator, b.kind);
    FormatNonceInjective(a.counter, b.counter);
  }

  /** How many rekeys of a run take effect. */
  function EffectiveRekeys(s: Sender, rng: Rng, acts: seq<Act>): nat
    requires s.Valid()
    decreases |acts|
  {
    if acts == [] then 0
    else
      (if acts[0].Rekey? && !RekeyRefused(s.kind, acts[0].cipher) then 1 else 0)
      + EffectiveRekeys(Step(s, rng, acts[0]).sender, rng, acts[1..])
  }

  /** The cipher changes at most once, and only away from the bootstrap cipher. */
  lemma {:induction false} RekeyAtMostOnce(s: Sender, rng: Rng, acts: seq<Act>)
    requires s.Valid()
    ensures EffectiveRekeys(s, rng, acts) <= if s.kind.ChaCha20Poly1305? then 1 else 0
    ensures Run(s, rng, acts).sender.kind
         == if EffectiveRekeys(s, rng, acts) == 0 then s.kind else Aes256Gcm
    decreases |acts|
  {
    if acts != [] {
      if acts[0].Data? {
        SendCalls(s, rng, acts[0].data);
      }
      RekeyAtMostOnce(Step(s, rng, acts[0]).sender, rng, acts[1..]);
    }
  }

  /** Over every run the sender ends on AES if and only if it started there or was asked for it. */
  lemma {:induction false} FinalCipherIff(s: Sender, rng: Rng, acts: seq<Act>)
    requires s.Valid()
    ensures Run(s, rng, acts).sender.kind.Aes256Gcm? <==>
              s.kind.Aes256Gcm? || exists i :: 0 <= i < |acts| && acts[i] == Rekey(Aes256Gcm)
    decreases |acts|
  {
    if acts != [] {
      var s' := Step(s, rng, acts[0]).sender;
      if acts[0].Data? {
        SendCalls(s, rng, acts[0].data);
      }
      FinalCipherIff(s', rng, acts[1..]);
      assert acts == [acts[0]] + acts[1..];
      assert s'.kind.Aes256Gcm? <==> s.kind.Aes256Gcm? || acts[0] == Rekey(Aes256Gcm);
    }
  }

  // ---------------------------------------------------- shaping and lengths

  /** Record lengths follow the scheme: the i-th call has the i-th target from `s` on. */
  predicate OnTarget(s: Sender, rng: Rng, calls: seq<SealCall>)
    requires s.Valid()
  {
    forall i :: 0 <= i < |calls| && s.recordsSent + i < |s.scheme| ==>
      |calls[i].text| == Pick(s.scheme[s.recordsSent + i], rng(s.drawn + i))
  }

  /** Shaping: with padding on, every record of a send that falls inside the scheme has exactly
      its drawn target as plaintext length, whatever the payload is. */
  lemma {:induction false} ShapedToTarget(s: Sender, rng: Rng, data: bytes)
    requires s.Valid() && s.padding && |s.scheme| <= U32_MAX
    ensures OnTarget(s, rng, Send(s, rng, data).calls)
    decreases |data|, U64_MAX - s.nonce
  {
    if data != [] && s.nonce < U64_MAX {
      var s' := NextState(s);
      NextInnerFits(s, rng, data);
      ShapedToTarget(s', rng, data[s.Take(rng, |data|)..]);
      OnTargetCons(s, s', rng, NextCall(s, rng, data), Send(s', rng, data[s.Take(rng, |data|)..]).calls);
    }
  }

  lemma OnTargetCons(s: Sender, s': Sender, rng: Rng, call: SealCall, calls: seq<SealCall>)
    requires s.Valid() && s'.Valid() && s'.scheme == s.scheme && s'.drawn == s.drawn + 1
    requires s.recordsSent < |s.scheme| ==>
               s'.recordsSent == s.recordsSent + 1 && |call.text| == Pick(s.scheme[s.recordsSent], rng(s.drawn))
    requires OnTarget(s', rng, calls)
    ensures OnTarget(s, rng, [call] + calls)
  {
  }

  /** Where a sender stands after `n` more data records. */
  predicate Advanced(s: Sender, s': Sender, n: nat)
  {
    && s'.scheme == s.scheme && s'.padding == s.padding && s'.drawn == s.drawn + n
    && s'.recordsSent == Min(s.recordsSent + n, U32_MAX)
  }

  lemma {:induction false} SendAdvances(s: Sender, rng: Rng, data: bytes)
    requires s.Valid() && Send(s, rng, data).ok
    ensures Advanced(s, Send(s, rng, data).sender, |Send(s, rng, data).calls|)
    decreases |data|, U64_MAX - s.nonce
  {
    if data != [] {
      SendAdvances(NextState(s), rng, data[s.Take(rng, |data|)..]);
    }
  }

  /** The seal calls of the data records of a run, in order, control records left out. */
  function DataCalls(s: Sender, rng: Rng, acts: seq<Act>): seq<SealCall>
    requires s.Valid()
    decreases |acts|
  {
    if acts == [] then []
    else
      var first := Step(s, rng, acts[0]);
      (if acts[0].Data? then first.calls else []) + DataCalls(first.sender, rng, acts[1..])
  }

  lemma OnTargetConcat(s: Sender, s': Sender, rng: Rng, a: seq<SealCall>, b: seq<SealCall>)
    requires s.Valid() && s'.Valid() && Advanced(s, s', |a|) && |s.scheme| <= U32_MAX
    requires OnTarget(s, rng, a) && OnTarget(s', rng, b)
    ensures OnTarget(s, rng, a + b)
  {
  }

  /** Shaping over whole runs: control records and rekeys do not move the scheme, and the i-th
      data record of the stream has the i-th drawn target. */
  lemma {:induction false} StreamShaped(s: Sender, rng: Rng, acts: seq<Act>)
    requires s.Valid() && s.padding && |s.scheme| <= U32_MAX && Run(s, rng, acts).ok
    ensures OnTarget(s, rng, DataCalls(s, rng, acts))
    decreases |acts|
  {
    if acts != [] {
      var first := Step(s, rng, acts[0]);
      var rest := DataCalls(first.sender, rng, acts[1..]);
      var own := if acts[0].Data? then first.calls else [];
      if acts[0].Data? {
        ShapedToTarget(s, rng, acts[0].data);
        SendAdvances(s, rng, acts[0].data);
      }
      assert Advanced(s, first.sender, |own|);
      StreamShaped(first.sender, rng, acts[1..]);
      OnTargetConcat(s, first.sender, rng, own, rest);
    }
  }

  function CeilDiv(n: nat, d: nat): nat
    requires d > 0
  {
    (n + d - 1) / d
  }

  /** Records of the scheme that are still ahead of a sender. */
  function SchemeLeft(s: Sender): nat
  {
    if s.Shaped() then |s.scheme| - s.recordsSent else 0
  }

  lemma CeilDivStep(n: nat, taken: nat)
    requires taken == n || 4096 <= taken <= n
    requires n > 0
    ensures CeilDiv(n - taken, 4096) + 1 <= CeilDiv(n, 4096)
  {
  }

  /** A send terminates after a bounded number of records even when a target of 1 carries no
      payload: at most the rest of the scheme, plus one record per 4096 bytes. */
  lemma {:induction false} RecordCountBound(s: Sender, rng: Rng, data: bytes)
    requires s.Valid() && (s.Shaped() ==> |s.scheme| <= U32_MAX)
    ensures |Send(s, rng, data).calls| <= SchemeLeft(s) + CeilDiv(|data|, 4096)
    decreases |data|, SchemeLeft(s)
  {
    if data != [] && s.nonce < U64_MAX {
      var n := s.Take(rng, |data|);
      var s' := NextState(s);
      RecordCountBound(s', rng, data[n..]);
      if !s.Shaped() {
        CeilDivStep(|data|, n);
      } else {
        assert SchemeLeft(s') == SchemeLeft(s) - 1;
        assert CeilDiv(|data| - n, 4096) <= CeilDiv(|data|, 4096);
      }
    }
  }

  function TextSize(calls: seq<SealCall>): nat
  {
    if calls == [] then 0 else |calls[0].text| + TextSize(calls[1..])
  }

  lemma {:induction false} WireSize(aead: Aead, calls: seq<SealCall>)
    requires aead.Lawful()
    ensures |Wire(aead, calls)| == TextSize(calls) + (HEADER_SIZE + TAG_SIZE) * |calls|
  {
    if calls != [] {
      WireSize(aead, calls[1..]);
    }
  }

  /** Without padding, a record's plaintext is its share of the payload and one type byte. */
  lemma {:induction false} UnpaddedText(s: Sender, rng: Rng, data: bytes)
    requires s.Valid() && !s.Shaped()
    ensures var out := Send(s, rng, data);
            TextSize(out.calls) <= |data| + |out.calls| && (out.ok ==> TextSize(out.calls) == |data| + |out.calls|)
    decreases |data|, U64_MAX - s.nonce
  {
    if data != [] && s.nonce < U64_MAX {
      var s' := NextState(s);
      UnpaddedText(s', rng, data[s.Take(rng, |data|)..]);
      assert Send(s, rng, data).calls[1..] == Send(s', rng, data[s.Take(rng, |data|)..]).calls;
    }
  }

  lemma WireOverhead(aead: Aead, calls: seq<SealCall>, n: nat, records: nat)
    requires aead.Lawful() && |calls| <= records && TextSize(calls) <= n + |calls|
    ensures |Wire(aead, calls)| <= n + RECORD_OVERHEAD * records
    ensures TextSize(calls) == n + |calls| ==> |Wire(aead, calls)| == n + RECORD_OVERHEAD * |calls|
  {
    WireSize(aead, calls);
  }

  /** Wire size: an unpadded send of n bytes emits at most n + 22 * ceil(n / 4096) bytes, for
      every sequence of bucket draws, and exactly n + 22 per record when it returns Ok. */
  lemma UnpaddedWireBound(s: Sender, rng: Rng, aead: Aead, data: bytes)
    requires s.Valid() && aead.Lawful() && !s.Shaped()
    ensures var out := Send(s, rng, data);
            && |Wire(aead, out.calls)| <= |data| + RECORD_OVERHEAD * CeilDiv(|data|, 4096)
            && (out.ok ==> |Wire(aead, out.calls)| == |data| + RECORD_OVERHEAD * |out.calls|)
  {
    UnpaddedText(s, rng, data);
    RecordCountBound(s, rng, data);
    WireOverhead(aead, Send(s, rng, data).calls, |data|, CeilDiv(|data|, 4096));
  }

  const WRITER_BUF_CAPACITY: nat := 68 * 1024

  /** A full relay buffer of 65536 bytes always fits the writer's buffer in one flush. */
  lemma RelayBufferFits(s: Sender, rng: Rng, aead: Aead, data: bytes)
    requires s.Valid() && aead.Lawful() && !s.Shaped()
    requires |data| <= 65536
    ensures |Wire(aead, Send(s, rng, data).calls)| <= 65888 < WRITER_BUF_CAPACITY
  {
    UnpaddedWireBound(s, rng, aead, data);
    assert CeilDiv(|data|, 4096) <= 16;
  }

  // ---------------------------------------------------- padded sends

  function Largest(scheme: seq<Range>): nat
  {
    if scheme == [] then 0
    else
      var rest := Largest(scheme[1..]);
      if scheme[0].hi > rest then scheme[0].hi else rest
  }

  /** The largest target that a sender can still draw. */
  function LargestLeft(s: Sender): nat { if s.Shaped() then Largest(s.scheme[s.recordsSent..]) else 0 }

  lemma LargestLeftStep(s: Sender, rng: Rng)
    requires s.Valid() && s.Shaped() && |s.scheme| <= U32_MAX
    ensures s.Target(rng) <= LargestLeft(s) && LargestLeft(NextState(s)) <= LargestLeft(s)
  {
    var left := s.scheme[s.recordsSent..];
    assert left[0] == s.scheme[s.recordsSent] && left[1..] == s.scheme[s.recordsSent + 1..];
  }

  /** Only the last record of a send is padded, so all padding is less than one target. */
  lemma {:induction false} PaddedText(s: Sender, rng: Rng, data: bytes)
    requires s.Valid() && (s.Shaped() ==> |s.scheme| <= U32_MAX)
    ensures var out := Send(s, rng, data);
            TextSize(out.calls) <= |data| + |out.calls| + SaturatingSub(LargestLeft(s), 1)
    decreases |data|, U64_MAX - s.nonce
  {
    if data != [] && s.nonce < U64_MAX {
      var s', n := NextState(s), s.Take(rng, |data|);
      var out, rest := Send(s, rng, data), Send(s', rng, data[n..]);
      PaddedText(s', rng, data[n..]);
      SendUnfolds(s, rng, data);
      assert out.calls[1..] == rest.calls;
      if s.Shaped() {
        LargestLeftStep(s, rng);
      }
    }
  }

  /** Wire size with padding: on top of the payload, 22 bytes per record and less than one target. */
  lemma {:induction false} PaddedWireBound(s: Sender, rng: Rng, aead: Aead, data: bytes)
    requires s.Valid() && aead.Lawful() && (s.Shaped() ==> |s.scheme| <= U32_MAX)
    ensures |Wire(aead, Send(s, rng, data).calls)|
         <= |data| + RECORD_OVERHEAD * (SchemeLeft(s) + CeilDiv(|data|, 4096)) + SaturatingSub(LargestLeft(s), 1)
  {
    PaddedText(s, rng, data);
    RecordCountBound(s, rng, data);
    WireAtMost(aead, Send(s, rng, data).calls, |data|, SchemeLeft(s) + CeilDiv(|data|, 4096),
               SaturatingSub(LargestLeft(s), 1));
  }

  lemma {:induction false} WireAtMost(aead: Aead, calls: seq<SealCall>, n: nat, records: nat, padding: nat)
    requires aead.Lawful() && |calls| <= records && TextSize(calls) <= n + |calls| + padding
    ensures |Wire(aead, calls)| <= n + RECORD_OVERHEAD * records + padding
  {
    WireSize(aead, calls);
  }

  /** A full relay buffer fits the writer's buffer as long as the scheme is short enough, and the
      default scheme is. */
  lemma {:induction false} PaddedRelayBufferFits(s: Sender, rng: Rng, aead: Aead, data: bytes)
    requires s.Valid() && aead.Lawful() && (s.Shaped() ==> |s.scheme| <= U32_MAX) && |data| <= 65536
    requires || s.scheme == DEFAULT_PAD_SCHEME
             || RECORD_OVERHEAD * SchemeLeft(s) + SaturatingSub(LargestLeft(s), 1) <= 3744
    ensures |Wire(aead, Send(s, rng, data).calls)| <= WRITER_BUF_CAPACITY
  {
    PaddedWireBound(s, rng, aead, data);
    DefaultIsShort(s);
    FitsBuffer(|Wire(aead, Send(s, rng, data).calls)|, |data|, SchemeLeft(s), SaturatingSub(LargestLeft(s), 1));
  }

  lemma FitsBuffer(wire: nat, n: nat, left: nat, padding: nat)
    requires n <= 65536 && RECORD_OVERHEAD * left + padding <= 3744
    requires wire <= n + RECORD_OVERHEAD * (left + CeilDiv(n, 4096)) + padding
    ensures wire <= WRITER_BUF_CAPACITY
  {
    assert CeilDiv(n, 4096) <= 16;
    assert RECORD_OVERHEAD == 22;
  }

  lemma DefaultShape()
    ensures |DEFAULT_PAD_SCHEME| == 8
    ensures forall i :: 0 <= i < |DEFAULT_PAD_SCHEME| ==> DEFAULT_PAD_SCHEME[i].hi <= 1400
  {
  }

  lemma EightRanges(s: Sender)
    requires s.Valid() && |s.scheme| == 8 && forall i :: 0 <= i < 8 ==> s.scheme[i].hi <= 1400
    ensures SchemeLeft(s) <= 8 && LargestLeft(s) <= 1400
  {
    if s.Shaped() {
      LargestAtMost(s.scheme[s.recordsSent..], 1400);
    }
  }

  lemma DefaultIsShort(s: Sender)
    requires s.Valid()
    ensures s.scheme == DEFAULT_PAD_SCHEME ==>
              RECORD_OVERHEAD * SchemeLeft(s) + SaturatingSub(LargestLeft(s), 1) <= 3744
  {
    DefaultShape();
    if s.scheme == DEFAULT_PAD_SCHEME {
      EightRanges(s);
      AtMostEight(SchemeLeft(s));
    }
  }

  lemma AtMostEight(n: nat)
    requires n <= 8
    ensures RECORD_OVERHEAD * n <= 176
  {
  }

  lemma {:induction false} LargestAtMost(scheme: seq<Range>, n: nat)
    requires forall i :: 0 <= i < |scheme| ==> scheme[i].hi <= n
    ensures Largest(scheme) <= n
  {
    if scheme != [] {
      LargestAtMost(scheme[1..], n);
    }
  }

  /** A scheme the parser accepts can make it overflow: while the next `k` targets are 1, a payload of
      a single byte costs at least 22 bytes for each of them; 3166 of them exceed the buffer. */
  lemma {:induction false} TinyTargetsOverflow(s: Sender, rng: Rng, aead: Aead, data: bytes, k: nat)
    requires s.Valid() && aead.Lawful() && s.padding && data != [] && s.nonce + k <= U64_MAX
    requires s.recordsSent + k <= |s.scheme| <= U32_MAX
    requires forall i :: s.recordsSent <= i < s.recordsSent + k ==> s.scheme[i] == Range(1, 1)
    ensures |Wire(aead, Send(s, rng, data).calls)| >= RECORD_OVERHEAD * k
    ensures k >= 3166 ==> |Wire(aead, Send(s, rng, data).calls)| > WRITER_BUF_CAPACITY
    decreases k
  {
    if k > 0 {
      TinyTargetsOverflow(NextState(s), rng, aead, data, k - 1);
      EmptyRecord(s, rng, aead, data);
      OneOverhead(k);
    }
  }

  lemma OneOverhead(k: nat)
    requires k > 0
    ensures RECORD_OVERHEAD * k == RECORD_OVERHEAD + RECORD_OVERHEAD * (k - 1)
    ensures k >= 3166 ==> RECORD_OVERHEAD * k > WRITER_BUF_CAPACITY
  {
  }

  /** A target of 1 costs a record and takes nothing. */
  lemma {:induction false} EmptyRecord(s: Sender, rng: Rng, aead: Aead, data: bytes)
    requires s.Valid() && aead.Lawful() && data != [] && s.nonce < U64_MAX
    requires s.Shaped() && s.scheme[s.recordsSent] == Range(1, 1)
    ensures |Wire(aead, Send(s, rng, data).calls)|
         == RECORD_OVERHEAD + |Wire(aead, Send(NextState(s), rng, data).calls)|
  {
    assert s.Take(rng, |data|) == 0 && data[0..] == data;
    SendUnfolds(s, rng, data);
    NextInnerFits(s, rng, data);
    FirstCallSize(aead, SealNext(s, s.NextInner(rng, data)), Send(NextState(s), rng, data).calls);
  }

  lemma {:induction false} FirstCallSize(aead: Aead, call: SealCall, calls: seq<SealCall>)
    requires aead.Lawful()
    ensures |Wire(aead, [call] + calls)| == HEADER_SIZE + |call.text| + TAG_SIZE + |Wire(aead, calls)|
  {
    WireSize(aead, [call] + calls);
    WireSize(aead, calls);
    assert ([call] + calls)[1..] == calls;
  }
}
