/** The sealed payload of an encrypted packet: nonce, ciphertext, tag. */
module AesGcm {
  import opened Basics
  import opened Framing

  const NONCE_SIZE := 12
  const TAG_SIZE := 16
  const OVERHEAD := NONCE_SIZE + TAG_SIZE

  type Key = seq<Byte>
  type Nonce = n: seq<Byte> | |n| == NONCE_SIZE witness seq(NONCE_SIZE, _ => 0)

  datatype Opened = Refused | Plain(text: seq<Byte>)

  /** The primitives the sessions rely on; private keys are numbers here. */
  datatype Crypto = Crypto(
    pub: nat -> seq<Byte>,
    shared: (nat, seq<Byte>) -> Option<seq<Byte>>,
    kdf: seq<Byte> -> Key,
    seal: (Key, Nonce, seq<Byte>) -> (seq<Byte>, seq<Byte>),
    open: (Key, Nonce, seq<Byte>, seq<Byte>) -> Opened)

  const PUB_KEY_SIZE := 65

  /**
   * Key agreement commutes; authenticated decryption undoes encryption under the same key and
   * nonce (NIST SP 800-38D, section 7); sizes are as in P-256 and AES-GCM, a text being as long as
   * its ciphertext.  Key agreement may fail on bytes that are no public key.
   */
  ghost predicate Lawful(c: Crypto) {
    && (forall a, b :: c.shared(a, c.pub(b)).Some? && c.shared(a, c.pub(b)) == c.shared(b, c.pub(a)))
    && (forall a :: |c.pub(a)| == PUB_KEY_SIZE)
    && (forall k, n, p :: |c.seal(k, n, p).0| == |p| && |c.seal(k, n, p).1| == TAG_SIZE)
    && (forall k, n, p :: c.open(k, n, c.seal(k, n, p).0, c.seal(k, n, p).1) == Plain(p))
    && (forall k, n, t, g :: c.open(k, n, t, g).Plain? ==> |c.open(k, n, t, g).text| == |t|)
  }

  /** The laws are consistent: a cipher that changes nothing obeys them. */
  function Transparent(): Crypto {
    Crypto(_ => seq(PUB_KEY_SIZE, _ => 0), (_, _) => Some([]), s => s,
           (_, _, p) => (p, seq(TAG_SIZE, _ => 0)), (_, _, t, _) => Plain(t))
  }

  lemma LawsConsistent()
    ensures Lawful(Transparent())
  {
  }

  function Pack(c: Crypto, key: Key, nonce: Nonce, plain: seq<Byte>): seq<Byte> {
    var (text, tag) := c.seal(key, nonce, plain);
    nonce + text + tag
  }

  function Unpack(c: Crypto, key: Key, payload: seq<Byte>): Opened {
    if |payload| < OVERHEAD then Refused
    else
      var n := |payload| - TAG_SIZE;
      c.open(key, payload[..NONCE_SIZE], payload[NONCE_SIZE..n], payload[n..])
  }

  lemma UnpackPack(c: Crypto, key: Key, nonce: Nonce, plain: seq<Byte>)
    requires Lawful(c)
    ensures |Pack(c, key, nonce, plain)| == |plain| + OVERHEAD
    ensures Unpack(c, key, Pack(c, key, nonce, plain)) == Plain(plain)
  {
    var (text, tag) := c.seal(key, nonce, plain);
    var payload := nonce + text + tag;
    var n := |payload| - TAG_SIZE;
    assert payload[..NONCE_SIZE] == nonce && payload[NONCE_SIZE..n] == text && payload[n..] == tag;
  }

  /** A payload has at least 28 bytes, and between its first 12 and its last 16 lies what the cipher authenticates. */
  ghost predicate Authentic(c: Crypto, key: Key, payload: seq<Byte>) {
    |payload| >= 28 && c.open(key, payload[..12], payload[12..|payload| - 16], payload[|payload| - 16..]).Plain?
  }

  ghost function Text(c: Crypto, key: Key, payload: seq<Byte>): seq<Byte>
    requires Authentic(c, key, payload)
  {
    c.open(key, payload[..12], payload[12..|payload| - 16], payload[|payload| - 16..]).text
  }

  /** Exactly the authentic payloads are taken apart, and to nothing but the text the cipher vouches for. */
  lemma UnpackExactly(c: Crypto, key: Key, payload: seq<Byte>)
    ensures Unpack(c, key, payload) == if Authentic(c, key, payload) then Plain(Text(c, key, payload)) else Refused
  {
  }

  method Put(out: array<Byte>, at: nat, bytes: seq<Byte>)
    requires at + |bytes| <= out.Length
    modifies out
    ensures out[..at] == old(out[..at]) && out[at..at + |bytes|] == bytes
  {
    for i := 0 to |bytes|
      invariant out[..at] == old(out[..at]) && out[at..at + i] == bytes[..i]
    {
      out[at + i] := bytes[i];
    }
  }

  /** Writes nonce, ciphertext and tag at their offsets of the output buffer. */
  method Encrypt(c: Crypto, key: Key, nonce: Nonce, plain: seq<Byte>, out: array<Byte>) returns (outLen: nat)
    requires Lawful(c) && |plain| + OVERHEAD <= out.Length
    modifies out
    ensures outLen == |plain| + OVERHEAD && out[..outLen] == Pack(c, key, nonce, plain)
    ensures out[..12] == nonce && out[12..12 + |plain|] == c.seal(key, nonce, plain).0
    ensures out[12 + |plain|..28 + |plain|] == c.seal(key, nonce, plain).1
  {
    Put(out, 0, nonce);
    var (text, tag) := c.seal(key, nonce, plain);
    Put(out, NONCE_SIZE, text);
    assert out[..NONCE_SIZE + |plain|] == out[..NONCE_SIZE] + out[NONCE_SIZE..NONCE_SIZE + |plain|];
    Put(out, NONCE_SIZE + |plain|, tag);
    outLen := NONCE_SIZE + |plain| + TAG_SIZE;
    assert out[..outLen] == out[..NONCE_SIZE + |plain|] + out[NONCE_SIZE + |plain|..outLen];
  }

  /** What is opened is as long as the ciphertext. */
  lemma UnpackLength(c: Crypto, key: Key, payload: seq<Byte>)
    requires Lawful(c) && Unpack(c, key, payload).Plain?
    ensures |payload| == |Unpack(c, key, payload).text| + OVERHEAD
  {
    var n := |payload| - TAG_SIZE;
    assert |payload[NONCE_SIZE..n]| == |payload| - OVERHEAD;
  }

  /**
   * Takes the three parts apart; a payload shorter than nonce and tag is refused.  The caller's
   * buffer must have room for what lies between them.
   */
  method Decrypt(c: Crypto, key: Key, payload: seq<Byte>, out: array<Byte>) returns (ok: bool, outLen: nat)
    requires Lawful(c) && |payload| <= out.Length + OVERHEAD
    modifies out
    ensures ok <==> Authentic(c, key, payload)
    ensures ok ==> outLen == |payload| - 28 && outLen <= out.Length && out[..outLen] == Text(c, key, payload)
  {
    ok, outLen := false, 0;
    if |payload| < OVERHEAD {
      return;
    }
    var cipherLen := |payload| - OVERHEAD;
    var r := c.open(key, payload[..NONCE_SIZE], payload[NONCE_SIZE..NONCE_SIZE + cipherLen], payload[NONCE_SIZE + cipherLen..]);
    match r
    case Refused =>
    case Plain(text) =>
      Put(out, 0, text);
      ok, outLen := true, |text|;
  }
}
