/**
 * The envelope: brief and enclosure sealed and wrapped to their recipients, and the two proofs over its canonical
 * text with both proofs blanked.
 */
module Envelope {
  import opened Wrappers
  import opened Json
  import opened JsonParser
  import opened Signing
  import opened Seal
  import Utf8
  import Base64
  import Buffers

  const SEAL_KEY := "seal"
  const SIG_KEY := "signature"
  const MAC_KEY := "session_mac"

  function Prefix(): string { "SEMP-ENVELOPE:" }

  // ---------------------------------------------------------------- what the proofs cover

  function BlankIfPresent(v: Json, k: string): Json {
    if Get(v, k).Some? then v.Put(k, Blank()) else v
  }

  function ElideSeal(seal: Json): Json {
    BlankIfPresent(BlankIfPresent(seal, SIG_KEY), MAC_KEY)
  }

  /** The elision of `canonicalEnvelopeFor`, on a copy. */
  function Elide(v: Json): Json {
    var seal := Get(v, SEAL_KEY);
    if seal.Some? && seal.value.JObj? then v.Put(SEAL_KEY, ElideSeal(seal.value)) else v
  }

  /** The canonical bytes of an envelope. */
  function CanonicalBytes(v: Json): Bytes {
    Utf8.Encode(Canonical(Elide(v)))
  }

  predicate ProofKey(k: string) {
    k == SIG_KEY || k == MAC_KEY
  }

  lemma ElideSealField(seal: Json, k: string)
    requires WellFormed(seal) && seal.JObj?
    ensures WellFormed(ElideSeal(seal)) && ElideSeal(seal).JObj?
    ensures Get(ElideSeal(seal), k) == if ProofKey(k) && Get(seal, k).Some? then Some(Blank()) else Get(seal, k)
  {
    PutLaws();
    assert |SIG_KEY| == 9 && |MAC_KEY| == 11;
  }

  /** The seals agree on every field but the two proofs, and have the same of those. */
  ghost predicate SealsAgree(x: Option<Json>, y: Option<Json>) {
    match (x, y)
    case (None, None) => true
    case (Some(a), Some(b)) =>
      if a.JObj? && b.JObj? then forall k :: if ProofKey(k) then Get(a, k).Some? <==> Get(b, k).Some?
      else AgreeAt(a, b, k)
      else !a.JObj? && !b.JObj? && Canon(a) == Canon(b)
    case _ => false
  }

  ghost predicate AgreeOutsideProofs(v: Json, w: Json) {
    SealsAgree(Get(v, SEAL_KEY), Get(w, SEAL_KEY)) && forall k | k != SEAL_KEY :: AgreeAt(v, w, k)
  }

  lemma ElideField(v: Json, k: string)
    requires WellFormed(v) && v.JObj?
    ensures WellFormed(Elide(v)) && Elide(v).JObj?
    ensures k != SEAL_KEY ==> Get(Elide(v), k) == Get(v, k)
    ensures Get(Elide(v), SEAL_KEY) ==
      if Get(v, SEAL_KEY).Some? && Get(v, SEAL_KEY).value.JObj? then Some(ElideSeal(Get(v, SEAL_KEY).value))
      else Get(v, SEAL_KEY)
  {
    PutLaws();
    FieldWellFormed(v, SEAL_KEY);
    if Get(v, SEAL_KEY).Some? && Get(v, SEAL_KEY).value.JObj? {
      ElideSealField(Get(v, SEAL_KEY).value, "");
    }
  }

  lemma SealsAgreeIff(v: Json, w: Json)
    requires WellFormed(v) && v.JObj? && WellFormed(w) && w.JObj?
    ensures SealsAgree(Get(v, SEAL_KEY), Get(w, SEAL_KEY)) <==> AgreeAt(Elide(v), Elide(w), SEAL_KEY)
  {
    ElideField(v, "");
    ElideField(w, "");
    FieldWellFormed(v, SEAL_KEY);
    FieldWellFormed(w, SEAL_KEY);
    var x, y := Get(v, SEAL_KEY), Get(w, SEAL_KEY);
    if x.Some? && y.Some? && x.value.JObj? && y.value.JObj? {
      ElidedSealsAgree(x.value, y.value);
    } else if x.Some? && x.value.JObj? {
      ElideSealField(x.value, "");
    } else if y.Some? && y.value.JObj? {
      ElideSealField(y.value, "");
    }
  }

  lemma ElidedSealsAgree(a: Json, b: Json)
    requires WellFormed(a) && a.JObj? && WellFormed(b) && b.JObj?
    ensures SealsAgree(Some(a), Some(b)) <==> Canon(ElideSeal(a)) == Canon(ElideSeal(b))
  {
    var x, y := ElideSeal(a), ElideSeal(b);
    ElideSealField(a, "");
    ElideSealField(b, "");
    CanonByKeys(x, y);
    forall k
      ensures AgreeAt(x, y, k) <==> if ProofKey(k) then Get(a, k).Some? <==> Get(b, k).Some? else AgreeAt(a, b, k)
    {
      ElideSealField(a, k);
      ElideSealField(b, k);
    }
  }

  /** Two envelopes have the same canonical bytes exactly when they agree outside the two proofs. */
  lemma CoveredByProofs(v: Json, w: Json)
    requires WellFormed(v) && v.JObj? && WellFormed(w) && w.JObj?
    ensures CanonicalBytes(v) == CanonicalBytes(w) <==> AgreeOutsideProofs(v, w)
  {
    var a, b := Elide(v), Elide(w);
    ElideField(v, "");
    ElideField(w, "");
    PrefixedInjective("", a, b);
    assert PrefixBytes("") == [];
    assert Prefixed("", a) == CanonicalBytes(v) && Prefixed("", b) == CanonicalBytes(w);
    CanonByKeys(a, b);
    SealsAgreeIff(v, w);
    forall k | k != SEAL_KEY ensures AgreeAt(a, b, k) <==> AgreeAt(v, w, k) {
      ElideField(v, k);
      ElideField(w, k);
    }
  }

  // ---------------------------------------------------------------- composing

  datatype Recipient = Recipient(keyId: string, pub: Bytes)

  datatype Input = Input(
    suite: Suite, sealKeyId: string, seed: Bytes, postmark: Json, brief: Json, enclosure: Json,
    briefRecipients: seq<Recipient>, enclosureRecipients: seq<Recipient>,
    kBrief: Bytes, kEnclosure: Bytes, kEnvMac: Bytes, briefNonce: Bytes, enclosureNonce: Bytes,
    randomness: string -> Option<Randomness>,
    extensions: Option<Json>, sealExtensions: Option<Json>, padding: Option<string>)

  ghost predicate InputOk(x: Input) {
    && WellFormed(x.postmark) && x.postmark.JObj? && Get(x.postmark, "id").Some? && Get(x.postmark, "id").value.JStr?
    && WellFormed(x.brief) && WellFormed(x.enclosure)
    && (x.extensions.Some? ==> WellFormed(x.extensions.value))
    && (x.sealExtensions.Some? ==> WellFormed(x.sealExtensions.value))
  }

  function SuiteName(s: Suite): string {
    if s == Baseline then "x25519-chacha20-poly1305" else "pq-kyber768-x25519"
  }

  function TextOf(x: Option<Json>): string {
    if x.Some? && x.value.JStr? then x.value.s else ""
  }

  function Empty(): (v: Json)
    ensures WellFormed(v) && v.JObj? && forall k :: Get(v, k) == None
  {
    JObj([])
  }

  /** One sealed field: the nonce and the ciphertext, with the postmark's id as associated data. */
  function SealField(c: Primitives, key: Bytes, nonce: Bytes, plain: Json, id: string): Result<string> {
    var ct :- AeadSeal(c, key, nonce, Utf8.Encode(Canonical(plain)), Utf8.Encode(id));
    Ok(Base64.Encode(nonce + ct))
  }

  /** The slot map: a key id that comes twice keeps the later wrap. */
  function WrapAll(c: Primitives, suite: Suite, rs: seq<Recipient>, key: Bytes,
      randomness: string -> Option<Randomness>): Result<Json> {
    if rs == [] then Ok(Empty())
    else
      var table :- WrapAll(c, suite, rs[..|rs| - 1], key, randomness);
      var r := rs[|rs| - 1];
      if randomness(r.keyId).None? then Err("missing wrap randomness")
      else
        var w :- Wrap(c, suite, r.pub, key, randomness(r.keyId).value);
        Ok(table.Put(r.keyId, JStr(w)))
  }

  /** The loop over the recipients. */
  method WrapEach(c: Primitives, suite: Suite, rs: seq<Recipient>, key: Bytes, randomness: string -> Option<Randomness>)
    returns (r: Result<Json>)
    ensures r == WrapAll(c, suite, rs, key, randomness)
  {
    var slots := Empty();
    for i := 0 to |rs|
      invariant WrapAll(c, suite, rs[..i], key, randomness) == Ok(slots)
    {
      assert rs[..i + 1][..i] == rs[..i];
      if randomness(rs[i].keyId).None? {
        WrapAllFails(c, suite, rs, key, randomness, i + 1);
        return Err("missing wrap randomness");
      }
      var w := WrapWithRandomness(c, suite, rs[i].pub, key, randomness(rs[i].keyId).value);
      if w.Err? {
        WrapAllFails(c, suite, rs, key, randomness, i + 1);
        return Err(w.error);
      }
      slots := slots.Put(rs[i].keyId, JStr(w.value));
    }
    assert rs[..|rs|] == rs;
    r := Ok(slots);
  }

  /** The first failure is the outcome. */
  lemma {:induction false} WrapAllFails(c: Primitives, suite: Suite, rs: seq<Recipient>, key: Bytes,
      randomness: string -> Option<Randomness>, i: nat)
    requires i <= |rs| && WrapAll(c, suite, rs[..i], key, randomness).Err?
    ensures WrapAll(c, suite, rs, key, randomness) == WrapAll(c, suite, rs[..i], key, randomness)
    decreases |rs|
  {
    if i == |rs| {
      assert rs[..i] == rs;
    } else {
      assert rs[..|rs| - 1][..i] == rs[..i];
      WrapAllFails(c, suite, rs[..|rs| - 1], key, randomness, i);
    }
  }

  /** Enclosure wraps look for randomness of their own first. */
  function EnclosureRandomness(randomness: string -> Option<Randomness>): string -> Option<Randomness> {
    (keyId: string) =>
      if randomness("enclosure:" + keyId).Some? then randomness("enclosure:" + keyId) else randomness(keyId)
  }

  function SealObject(x: Input, briefSlots: Json, enclosureSlots: Json): Json {
    JObj([Field("algorithm", JStr(SuiteName(x.suite))), Field("key_id", JStr(x.sealKeyId)), Field(SIG_KEY, Blank()),
          Field(MAC_KEY, Blank()), Field("brief_recipients", briefSlots), Field("enclosure_recipients", enclosureSlots),
          Field("extensions", if x.sealExtensions.Some? then x.sealExtensions.value else Empty())])
  }

  function SealTags(): seq<nat> {
    [641389, 447588, 648549, 775267, 1103475, 1366387, 709491]
  }

  /** The postmark with an extensions field. */
  function Postmark(postmark: Json): Json {
    var e := Get(postmark, "extensions");
    if e.None? || e.value == JNull then postmark.Put("extensions", Empty()) else postmark
  }

  function EnvelopeObject(postmark: Json, seal: Json, brief: string, enclosure: string, padding: string): Json {
    JObj([Field("type", JStr("SEMP_ENVELOPE")), Field("version", JStr("1.0.0")), Field("postmark", postmark),
          Field(SEAL_KEY, seal), Field("brief", JStr(brief)), Field("enclosure", JStr(enclosure)),
          Field("padding", JStr(padding))])
  }

  function EnvelopeTags(): seq<nat> {
    [320613, 517486, 582251, 316524, 378726, 644965, 515687]
  }

  /** Optional; where it stands does not matter to canonical text. */
  function WithExtensions(v: Json, e: Option<Json>): Json {
    if e.Some? then v.Put("extensions", e.value) else v
  }

  /** The envelope before its proofs. */
  function Assemble(c: Primitives, x: Input): Result<Json> {
    var id := TextOf(Get(x.postmark, "id"));
    var brief :- SealField(c, x.kBrief, x.briefNonce, x.brief, id);
    var enclosure :- SealField(c, x.kEnclosure, x.enclosureNonce, x.enclosure, id);
    var briefSlots :- WrapAll(c, x.suite, x.briefRecipients, x.kBrief, x.randomness);
    var enclosureSlots :- WrapAll(c, x.suite, x.enclosureRecipients, x.kEnclosure, EnclosureRandomness(x.randomness));
    Ok(WithExtensions(
      EnvelopeObject(Postmark(x.postmark), SealObject(x, briefSlots, enclosureSlots), brief, enclosure,
                     if x.padding.Some? then x.padding.value else ""), x.extensions))
  }

  /** The two proofs in their places. */
  function WithProofs(v: Json, sig: string, mac: string): Json {
    var seal := Get(v, SEAL_KEY);
    if seal.Some? then v.Put(SEAL_KEY, seal.value.Put(SIG_KEY, JStr(sig)).Put(MAC_KEY, JStr(mac))) else v
  }

  function SealInput(v: Json): Bytes {
    Prefixed(Prefix(), Elide(v))
  }

  function Prove(c: Primitives, scheme: Scheme, seed: Bytes, macKey: Bytes, v: Json): Json {
    WithProofs(v, Base64.Encode(scheme.sign(seed, SealInput(v))), Base64.Encode(c.mac(macKey, CanonicalBytes(v))))
  }

  function Compose(c: Primitives, scheme: Scheme, x: Input): Result<Json> {
    var v :- Assemble(c, x);
    Ok(Prove(c, scheme, x.seed, x.kEnvMac, v))
  }

  // ---------------------------------------------------------------- verifying

  predicate VerifySealSignature(scheme: Scheme, v: Json, pub: Bytes) {
    var sig := Dig(v, SEAL_KEY, SIG_KEY);
    && sig.Some? && sig.value.JStr? && sig.value.s != ""
    && scheme.verify(pub, Base64.Decode(sig.value.s), SealInput(v))
  }

  predicate VerifySessionMac(c: Primitives, v: Json, key: Bytes) {
    var mac := Dig(v, SEAL_KEY, MAC_KEY);
    && mac.Some? && mac.value.JStr? && mac.value.s != ""
    && Base64.Decode(mac.value.s) == c.mac(key, CanonicalBytes(v))
  }

  method CheckSessionMac(c: Primitives, v: Json, key: Bytes) returns (ok: bool)
    ensures ok == VerifySessionMac(c, v, key)
  {
    var mac := Dig(v, SEAL_KEY, MAC_KEY);
    if mac.None? || !mac.value.JStr? || mac.value.s == "" {
      return false;
    }
    ok := Buffers.ConstantTimeEqual(Base64.Decode(mac.value.s), c.mac(key, CanonicalBytes(v)));
  }

  // ---------------------------------------------------------------- opening

  /** One slot and one field: `brief_recipients` with `brief`, or `enclosure_recipients` with `enclosure`. */
  function OpenField(c: Primitives, suite: Suite, v: Json, slots: string, field: string, keyId: string, priv: Bytes,
      pub: Bytes)
    : Result<Json>
  {
    var table := Dig(v, SEAL_KEY, slots);
    var wrapped := if table.Some? then Get(table.value, keyId) else None;
    if wrapped.None? || !wrapped.value.JStr? then Err("recipient not in slots")
    else
      var key :- Unwrap(c, suite, priv, pub, wrapped.value.s);
      var blob := Base64.Decode(TextOf(Get(v, field)));
      if |blob| < 12 then Err("blob too short")
      else
        var plain :- AeadOpen(c, key, blob[..12], blob[12..], Utf8.Encode(TextOf(Dig(v, "postmark", "id"))));
        var text := Utf8.Decode(plain);
        if text.None? || FromText(text.value).None? then Err("JSON") else Ok(FromText(text.value).value)
  }

  function OpenBrief(c: Primitives, suite: Suite, v: Json, keyId: string, priv: Bytes, pub: Bytes): Result<Json> {
    OpenField(c, suite, v, "brief_recipients", "brief", keyId, priv, pub)
  }

  function OpenEnclosure(c: Primitives, suite: Suite, v: Json, keyId: string, priv: Bytes, pub: Bytes): Result<Json> {
    OpenField(c, suite, v, "enclosure_recipients", "enclosure", keyId, priv, pub)
  }

  function Open(c: Primitives, suite: Suite, v: Json, keyId: string, priv: Bytes, pub: Bytes): Result<(Json, Json)> {
    var brief :- OpenBrief(c, suite, v, keyId, priv, pub);
    var enclosure :- OpenEnclosure(c, suite, v, keyId, priv, pub);
    Ok((brief, enclosure))
  }
}
