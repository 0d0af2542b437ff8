/** What a signature is made over: a fixed prefix and the canonical text with the signature blanked. */
module Signing {
  import opened Wrappers
  import opened Bits
  import opened Json
  import JsonParser
  import Utf8
  import Base64

  type Bytes = seq<byte>

  function Blank(): (v: Json)
    ensures WellFormed(v)
  {
    JStr("")
  }

  /** The bytes of a prefix, which is ASCII: one byte a character. */
  function PrefixBytes(prefix: string): Bytes {
    seq(|prefix|, i requires 0 <= i < |prefix| => prefix[i] as int % 128)
  }

  /** The prefix and the canonical text. */
  function Prefixed(prefix: string, v: Json): Bytes {
    PrefixBytes(prefix) + Utf8.Encode(Canonical(v))
  }

  function Input(prefix: string, v: Json, field: string): Bytes {
    Prefixed(prefix, v.Put(field, Blank()))
  }

  /** Under one prefix, equal bytes are equal values up to key order. */
  lemma PrefixedInjective(prefix: string, a: Json, b: Json)
    requires WellFormed(a) && WellFormed(b)
    ensures Prefixed(prefix, a) == Prefixed(prefix, b) <==> Canon(a) == Canon(b)
  {
    var p, x, y := PrefixBytes(prefix), Utf8.Encode(Canonical(a)), Utf8.Encode(Canonical(b));
    assert x == (p + x)[|p|..] && y == (p + y)[|p|..];
    if Prefixed(prefix, a) == Prefixed(prefix, b) {
      Utf8.EncodeInjective(Canonical(a), Canonical(b));
      JsonParser.CanonicalRoundTrip(a);
      JsonParser.CanonicalRoundTrip(b);
    }
  }

  /** The object carries the signature of itself with the field blank. */
  function Stamp(v: Json, field: string, sig: Bytes): Json {
    v.Put(field, JStr(Base64.Encode(sig)))
  }

  /** The bytes of a field that holds base64 text; None stands for the TypeError on anything else. */
  function DecodeField(v: Option<Json>): Option<Bytes> {
    if v.Some? && v.value.JStr? then Some(Base64.Decode(v.value.s)) else None
  }

  /** Signing inputs are equal only for objects that agree on every other field. */
  lemma InputInjective(prefix: string, v: Json, w: Json, field: string)
    requires WellFormed(v) && WellFormed(w) && v.JObj? && w.JObj?
    requires Input(prefix, v, field) == Input(prefix, w, field)
    ensures Canon(v.Put(field, Blank())) == Canon(w.Put(field, Blank()))
    ensures forall k | k != field :: AgreeAt(v, w, k)
  {
    PutLaws();
    var a, b := v.Put(field, Blank()), w.Put(field, Blank());
    PrefixedInjective(prefix, a, b);
    CanonByKeys(a, b);
    assert forall k | k != field :: AgreeAt(a, b, k) ==> AgreeAt(v, w, k);
  }

  /** The two objects hold the same value under the key, up to key order, or neither has it. */
  ghost predicate AgreeAt(v: Json, w: Json, k: string) {
    match (Get(v, k), Get(w, k))
    case (Some(x), Some(y)) => Canon(x) == Canon(y)
    case (None, None) => true
    case _ => false
  }

  predicate Scalar(x: Option<Json>) {
    x.Some? ==> !x.value.JArr? && !x.value.JObj?
  }

  /** The same canonical text, the same scalar in every field, and in every field of a field. */
  lemma SameText(v: Json, w: Json, a: string, b: string)
    requires WellFormed(v) && WellFormed(w) && v.JObj? && w.JObj? && Canon(v) == Canon(w)
    ensures Scalar(Get(v, a)) || Scalar(Get(w, a)) ==> Get(v, a) == Get(w, a)
    ensures Get(w, a).Some? && Get(w, a).value.JObj? && (Scalar(Dig(v, a, b)) || Scalar(Dig(w, a, b)))
      ==> Dig(v, a, b) == Dig(w, a, b)
  {
    GetCanon(v, a);
    GetCanon(w, a);
    if Get(w, a).Some? && Get(w, a).value.JObj? {
      FieldWellFormed(v, a);
      FieldWellFormed(w, a);
      GetCanon(Get(v, a).value, b);
      GetCanon(Get(w, a).value, b);
    }
  }

  /** Whatever scalar can be read from one of the objects, at a key or at two, can be read from the other. */
  ghost predicate ReadAlike(v: Json, w: Json) {
    && (forall a :: Scalar(Get(v, a)) || Scalar(Get(w, a)) ==> Get(v, a) == Get(w, a))
    && (forall a, b :: Get(w, a).Some? && Get(w, a).value.JObj? && (Scalar(Dig(v, a, b)) || Scalar(Dig(w, a, b)))
          ==> Dig(v, a, b) == Dig(w, a, b))
  }

  lemma CanonReadsAlike(v: Json, w: Json)
    requires WellFormed(v) && WellFormed(w) && v.JObj? && w.JObj? && Canon(v) == Canon(w)
    ensures ReadAlike(v, w)
  {
    forall a ensures Scalar(Get(v, a)) || Scalar(Get(w, a)) ==> Get(v, a) == Get(w, a) {
      SameText(v, w, a, "");
    }
    forall a, b ensures Get(w, a).Some? && Get(w, a).value.JObj? && (Scalar(Dig(v, a, b)) || Scalar(Dig(w, a, b)))
      ==> Dig(v, a, b) == Dig(w, a, b) {
      SameText(v, w, a, b);
    }
  }

  /** Received text is read as the object that was printed. */
  lemma TextReadsAlike(data: string, v: Json, w: Json)
    requires JsonParser.FromText(data) == Some(v) && WellFormed(w) && w.JObj? && data == Canonical(w)
    ensures v.JObj? && WellFormed(v) && ReadAlike(v, w)
  {
    JsonParser.CanonicalRoundTrip(w);
    CanonWellFormed(w);
    CanonIdempotent(w);
    CanonReadsAlike(v, w);
  }

  /** Objects with the same canonical text are read alike. */
  lemma PrintsReadAlike(v: Json, w: Json)
    requires WellFormed(v) && WellFormed(w) && v.JObj? && w.JObj? && Canonical(v) == Canonical(w)
    ensures ReadAlike(v, w)
  {
    JsonParser.CanonicalRoundTrip(v);
    JsonParser.CanonicalRoundTrip(w);
    CanonReadsAlike(v, w);
  }

  /** The same signing input, the same scalar in every other field. */
  lemma ScalarAgrees(prefix: string, v: Json, w: Json, field: string, k: string)
    requires WellFormed(v) && WellFormed(w) && v.JObj? && w.JObj?
    requires Input(prefix, v, field) == Input(prefix, w, field) && k != field
    ensures Scalar(Get(v, k)) || Scalar(Get(w, k)) ==> Get(v, k) == Get(w, k)
  {
    InputInjective(prefix, v, w, field);
    assert AgreeAt(v, w, k);
  }

  /** `v[a][b]`. */
  function Dig(v: Json, a: string, b: string): Option<Json> {
    if Get(v, a).Some? then Get(Get(v, a).value, b) else None
  }

  /** The same for a field of a field. */
  lemma InnerAgrees(prefix: string, v: Json, w: Json, field: string, a: string, b: string)
    requires WellFormed(v) && WellFormed(w) && v.JObj? && w.JObj?
    requires Input(prefix, v, field) == Input(prefix, w, field) && a != field
    requires Get(w, a).Some? && Get(w, a).value.JObj?
    ensures Scalar(Dig(v, a, b)) || Scalar(Dig(w, a, b)) ==> Dig(v, a, b) == Dig(w, a, b)
  {
    InputInjective(prefix, v, w, field);
    assert AgreeAt(v, w, a);
    FieldWellFormed(v, a);
    FieldWellFormed(w, a);
    GetCanon(Get(v, a).value, b);
    GetCanon(Get(w, a).value, b);
  }

  lemma FieldWellFormed(m: Json, k: string)
    requires WellFormed(m)
    ensures Get(m, k).Some? ==> WellFormed(Get(m, k).value)
  {
    if Get(m, k).Some? {
      GetAbsent(m, k);
      GetSmaller(m, k);
    }
  }

  /** Objects are the same up to key order when they agree under every key. */
  lemma CanonByKeys(a: Json, b: Json)
    requires WellFormed(a) && WellFormed(b) && a.JObj? && b.JObj?
    ensures Canon(a) == Canon(b) <==> forall k :: AgreeAt(a, b, k)
  {
    CanonObjectsEqual(a, b);
    forall k ensures AgreeAt(a, b, k) <==>
      (k in Keys(a.fields) <==> k in Keys(b.fields)) && (k in Keys(a.fields) ==> SameAt(a, b, k)) {
      GetAbsent(a, k);
      GetAbsent(b, k);
    }
    if Canon(a) == Canon(b) {
      forall k ensures AgreeAt(a, b, k) {
        assert k in Keys(a.fields) <==> k in Keys(b.fields);
      }
    }
    if forall k :: AgreeAt(a, b, k) {
      assert forall k :: AgreeAt(a, b, k) ==> (k in Keys(a.fields) <==> k in Keys(b.fields));
      assert forall k | k in Keys(a.fields) :: AgreeAt(a, b, k) && SameAt(a, b, k);
    }
  }

  /** Re-parsing and re-printing what was signed does not change the signing input. */
  lemma InputCanon(prefix: string, v: Json, field: string)
    requires WellFormed(v) && v.JObj?
    ensures WellFormed(Canon(v)) && Input(prefix, Canon(v), field) == Input(prefix, v, field)
  {
    PutLaws();
    CanonWellFormed(v);
    PutCanon(v, field, Blank());
  }

  lemma PutCanon(v: Json, key: string, x: Json)
    requires WellFormed(v) && v.JObj? && WellFormed(x)
    ensures Canon(Canon(v).Put(key, x)) == Canon(v.Put(key, x))
  {
    PutLaws();
    CanonWellFormed(v);
    var a, b := Canon(v).Put(key, x), v.Put(key, x);
    forall k ensures (k in Keys(a.fields) <==> k in Keys(b.fields)) && (k in Keys(a.fields) ==> SameAt(a, b, k)) {
      GetAbsent(a, k);
      GetAbsent(b, k);
      GetCanon(v, k);
      if k != key && Get(v, k).Some? {
        GetSmaller(v, k) by { GetAbsent(v, k); }
        CanonIdempotent(Get(v, k).value);
      }
    }
    CanonObjectsEqual(a, b);
  }

  lemma BlankAfterStamp(prefix: string, v: Json, field: string, sig: Bytes)
    requires v.JObj?
    ensures Input(prefix, Stamp(v, field, sig), field) == Input(prefix, v, field)
  {
    SetTwice(v.fields, field, JStr(Base64.Encode(sig)), Blank());
  }

  lemma StampAgrees(v: Json, field: string, sig: Bytes)
    requires WellFormed(v) && v.JObj?
    ensures WellFormed(Stamp(v, field, sig)) && Stamp(v, field, sig).JObj?
    ensures DecodeField(Get(Stamp(v, field, sig), field)) == Some(sig)
    ensures forall k | k != field :: Get(Stamp(v, field, sig), k) == Get(v, k)
  {
    PutLaws();
    Base64.RoundTrip(sig);
  }

  // ---------------------------------------------------------------- ideal signatures

  /** A signature scheme: the public key of a seed, signing, and verification. */
  datatype Scheme = Scheme(pub: Bytes -> Bytes, sign: (Bytes, Bytes) -> Bytes, verify: (Bytes, Bytes, Bytes) -> bool)

  /** What was signed is accepted; signatures and public keys are not empty. */
  ghost predicate Sound(c: Scheme) {
    forall seed, m :: c.verify(c.pub(seed), c.sign(seed, m), m) && c.sign(seed, m) != [] && c.pub(seed) != []
  }

  /** The text of a signature is not empty and decodes to it. */
  lemma SignatureText(sig: Bytes)
    requires sig != []
    ensures Base64.Encode(sig) != "" && Base64.Decode(Base64.Encode(sig)) == sig
  {
    Base64.EncodeLength(sig);
    Base64.RoundTrip(sig);
  }
}
