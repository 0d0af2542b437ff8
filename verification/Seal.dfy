/** Wrapping a symmetric key for one recipient, and unwrapping it: key encapsulation, derivation, sealing. */
module Seal {
  import opened Wrappers
  import opened Signing
  import Base64
  import Buffers

  datatype Suite = Baseline | Hybrid

  /** The primitives.  `None` stands for a call that throws on its arguments. */
  datatype Primitives = Primitives(
    dhPub: Bytes -> Bytes,
    agree: (Bytes, Bytes) -> Option<Bytes>,
    kyberPub: Bytes -> Bytes,
    kyberEncap: (Bytes, Bytes) -> Option<(Bytes, Bytes)>,
    kyberDecap: (Bytes, Bytes) -> Option<Bytes>,
    hkdf: (Bytes, Bytes) -> Bytes,
    seal: (Bytes, Bytes, Bytes, Bytes) -> Bytes,
    open: (Bytes, Bytes, Bytes, Bytes) -> Option<Bytes>,
    mac: (Bytes, Bytes) -> Bytes)

  /** Sizes, opening after sealing, and key agreement from both sides. */
  ghost predicate Lawful(c: Primitives) {
    && (forall x :: |c.dhPub(x)| == 32)
    && (forall a, b :: c.agree(a, c.dhPub(b)) == c.agree(b, c.dhPub(a)))
    && (forall p :: |c.kyberPub(p)| == 1184)
    && (forall p, m | c.kyberEncap(c.kyberPub(p), m).Some? ::
          var e := c.kyberEncap(c.kyberPub(p), m).value; |e.0| == 1088 && c.kyberDecap(p, e.0) == Some(e.1))
    && (forall salt, secret :: |c.hkdf(salt, secret)| == 32)
    && (forall k, n, p, a :: |c.seal(k, n, p, a)| == |p| + 16 && c.open(k, n, c.seal(k, n, p, a), a) == Some(p))
    && (forall k, m :: c.mac(k, m) != [])
  }

  datatype Randomness = Randomness(priv: Bytes, m: Option<Bytes>)

  /** ChaCha20-Poly1305 takes a key of 32 bytes and a nonce of 12. */
  function AeadSeal(c: Primitives, key: Bytes, nonce: Bytes, plain: Bytes, aad: Bytes): Result<Bytes> {
    if |key| != 32 || |nonce| != 12 then Err("aead") else Ok(c.seal(key, nonce, plain, aad))
  }

  function AeadOpen(c: Primitives, key: Bytes, nonce: Bytes, ct: Bytes, aad: Bytes): Result<Bytes> {
    if |key| != 32 || |nonce| != 12 || c.open(key, nonce, ct, aad).None? then Err("aead")
    else Ok(c.open(key, nonce, ct, aad).value)
  }

  /** `slice` clamps to the length. */
  function Front(b: Bytes, n: nat): Bytes {
    if |b| < n then b else b[..n]
  }

  function Back(b: Bytes, n: nat): Bytes {
    if |b| < n then [] else b[n..]
  }

  /** The ciphertext and the shared secret. */
  function Encapsulate(c: Primitives, suite: Suite, pub: Bytes, rand: Randomness): Result<(Bytes, Bytes)> {
    match suite
    case Baseline =>
      if |pub| != 32 || c.agree(rand.priv, pub).None? then Err("encapsulate")
      else Ok((c.dhPub(rand.priv), c.agree(rand.priv, pub).value))
    case Hybrid =>
      if rand.m.None? then Err("kyberEncapsRandomnessM")
      else
        var kyber := c.kyberEncap(Front(pub, 1184), rand.m.value);
        var shared := c.agree(rand.priv, Back(pub, 1184));
        if kyber.None? || shared.None? then Err("encapsulate")
        else Ok((kyber.value.0 + c.dhPub(rand.priv), kyber.value.1 + shared.value))
  }

  function Decapsulate(c: Primitives, suite: Suite, ct: Bytes, priv: Bytes): Result<Bytes> {
    match suite
    case Baseline =>
      if |ct| != 32 || c.agree(priv, ct).None? then Err("decapsulate") else Ok(c.agree(priv, ct).value)
    case Hybrid =>
      if |ct| != 1120 || |priv| != 2432 then Err("size")
      else
        var kyber := c.kyberDecap(priv[..2400], ct[..1088]);
        var shared := c.agree(priv[2400..], ct[1088..]);
        if kyber.None? || shared.None? then Err("decapsulate") else Ok(kyber.value + shared.value)
  }

  function ZeroNonce(): (n: Bytes)
    ensures |n| == 12
  {
    [0, 0, 0, 0, 0, 0, 0, 0, 0, 0, 0, 0]
  }

  function Wrap(c: Primitives, suite: Suite, pub: Bytes, key: Bytes, rand: Randomness): Result<string> {
    var kem :- Encapsulate(c, suite, pub, rand);
    var ct :- AeadSeal(c, c.hkdf(kem.0 + pub, kem.1), ZeroNonce(), key, pub);
    Ok(Base64.Encode(kem.0 + ct))
  }

  /** The ciphertext is all but the last 48 bytes: a key of 32 bytes and the tag. */
  function Unwrap(c: Primitives, suite: Suite, priv: Bytes, pub: Bytes, wrapped: string): Result<Bytes> {
    if priv == [] || pub == [] then Err("empty key")
    else
      var raw := Base64.Decode(wrapped);
      if |raw| < 48 then Err("truncated")
      else
        var kemCt, ct := raw[..|raw| - 48], raw[|raw| - 48..];
        var shared :- Decapsulate(c, suite, kemCt, priv);
        AeadOpen(c, c.hkdf(kemCt + pub, shared), ZeroNonce(), ct, pub)
  }

  /** `wrapWithRandomness`, buffer by buffer. */
  method WrapWithRandomness(c: Primitives, suite: Suite, pub: Bytes, key: Bytes,
      rand: Randomness) returns (r: Result<string>)
    ensures r == Wrap(c, suite, pub, key, rand)
  {
    var kem := Encapsulate(c, suite, pub, rand);
    if kem.Err? {
      return Err(kem.error);
    }
    var salt := Buffers.Concat(kem.value.0, pub);
    var sealed := AeadSeal(c, c.hkdf(salt, kem.value.1), ZeroNonce(), key, pub);
    if sealed.Err? {
      return Err(sealed.error);
    }
    var wrapped := Buffers.Concat(kem.value.0, sealed.value);
    r := Ok(Base64.Encode(wrapped));
  }

  /** The recipient's key pair. */
  ghost predicate KeyPair(c: Primitives, suite: Suite, priv: Bytes, pub: Bytes) {
    match suite
    case Baseline => priv != [] && pub == c.dhPub(priv)
    case Hybrid => |priv| == 2432 && pub == c.kyberPub(priv[..2400]) + c.dhPub(priv[2400..])
  }

  /** Both ends of the encapsulation get the same secret, and the ciphertext has the size the suite says. */
  lemma DecapsulateEncapsulate(c: Primitives, suite: Suite, priv: Bytes, pub: Bytes, rand: Randomness)
    requires Lawful(c) && KeyPair(c, suite, priv, pub) && Encapsulate(c, suite, pub, rand).Ok?
    ensures var kem := Encapsulate(c, suite, pub, rand).value;
      Decapsulate(c, suite, kem.0, priv) == Ok(kem.1) && |kem.0| == if suite == Baseline then 32 else 1120
  {
    if suite == Hybrid {
      var k, x := c.kyberPub(priv[..2400]), c.dhPub(priv[2400..]);
      assert Front(k + x, 1184) == k && Back(k + x, 1184) == x;
      var e, d := c.kyberEncap(k, rand.m.value).value, c.dhPub(rand.priv);
      assert (e.0 + d)[..1088] == e.0 && (e.0 + d)[1088..] == d;
    }
  }

  /** Unwrapping what was wrapped for the key pair gives the key back, exactly for keys of 32 bytes. */
  lemma UnwrapWrap(c: Primitives, suite: Suite, priv: Bytes, pub: Bytes, key: Bytes, rand: Randomness)
    requires Lawful(c) && KeyPair(c, suite, priv, pub) && Wrap(c, suite, pub, key, rand).Ok?
    ensures Unwrap(c, suite, priv, pub, Wrap(c, suite, pub, key, rand).value) == Ok(key) <==> |key| == 32
  {
    var kem := Encapsulate(c, suite, pub, rand).value;
    DecapsulateEncapsulate(c, suite, priv, pub, rand);
    var ct := c.seal(c.hkdf(kem.0 + pub, kem.1), ZeroNonce(), key, pub);
    Base64.RoundTrip(kem.0 + ct);
    var raw := kem.0 + ct;
    if |key| == 32 {
      assert raw[..|raw| - 48] == kem.0 && raw[|raw| - 48..] == ct;
    }
  }
}
