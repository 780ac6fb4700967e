/** Cipher agility: the two AEAD algorithms, their key separation, the padding-scheme
    text and the negotiation frames. */
module Ciphers {
  import opened Bytes
  import opened Wrappers

  const MAX_RECORD_SIZE: nat := 16384
  const TAG_SIZE: nat := 16
  const NONCE_SIZE: nat := 12

  datatype Cipher = ChaCha20Poly1305 | Aes256Gcm

  /** HKDF info suffix; empty for the bootstrap cipher. */
  function HkdfSuffix(c: Cipher): string
  {
    match c
    case ChaCha20Poly1305 => ""
    case Aes256Gcm => "-aes256gcm"
  }

  /** The HKDF info string that names the key of one direction under one cipher. */
  function KeyInfo(clientToServer: bool, c: Cipher): string
  {
    (if clientToServer then "c2s" else "s2c") + HkdfSuffix(c)
  }

  /** The four info strings of a session are pairwise distinct. */
  lemma KeyInfoInjective(d1: bool, c1: Cipher, d2: bool, c2: Cipher)
    ensures KeyInfo(d1, c1) == KeyInfo(d2, c2) <==> d1 == d2 && c1 == c2
  {
    var a, b := KeyInfo(d1, c1), KeyInfo(d2, c2);
    if a == b {
      assert a[0] == if d1 then 'c' else 's';
      assert b[0] == if d2 then 'c' else 's';
      assert |HkdfSuffix(c1)| == |a| - 3 && |HkdfSuffix(c2)| == |b| - 3;
    }
  }

  function ToWire(c: Cipher): byte { if c.ChaCha20Poly1305? then 0x01 else 0x02 }

  function FromWire(b: byte): Option<Cipher>
  {
    if b == 0x01 then Some(ChaCha20Poly1305) else if b == 0x02 then Some(Aes256Gcm) else None
  }

  function Negotiate(clientAes: bool, serverAes: bool): Cipher
  {
    if clientAes && serverAes then Aes256Gcm else ChaCha20Poly1305
  }

  function BuildNego(clientAes: bool): bytes { [0xFF, 0xFF, if clientAes then 1 else 0] }

  function ParseNego(frame: bytes): Option<bool>
  {
    if |frame| == 3 && frame[0] == 0xFF && frame[1] == 0xFF then Some(frame[2] != 0) else None
  }

  function BuildAck(c: Cipher): bytes { [0x03, ToWire(c)] }

  function ParseAck(frame: bytes): Option<Cipher>
  {
    if |frame| == 2 && frame[0] == 0x03 then FromWire(frame[1]) else None
  }
}
