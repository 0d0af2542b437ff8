/** What was composed opens, and verifies. */
module EnvelopeLaws {
  import opened Wrappers
  import opened Json
  import opened JsonParser
  import opened Signing
  import opened Seal
  import opened Envelope
  import Utf8
  import Base64

  // ---------------------------------------------------------------- the objects read back

  lemma SealTagged(x: Input, a: Json, b: Json)
    ensures Tagged(SealObject(x, a, b).fields, SealTags())
  {}

  /** The seal before its proofs: both proofs blank, the slot maps as given. */
  ghost predicate BareSeal(seal: Json, a: Json, b: Json) {
    && WellFormed(seal) && seal.JObj? && Get(seal, SIG_KEY) == Some(Blank()) && Get(seal, MAC_KEY) == Some(Blank())
    && Get(seal, "brief_recipients") == Some(a) && Get(seal, "enclosure_recipients") == Some(b)
  }

  lemma SealShape(x: Input, a: Json, b: Json)
    requires InputOk(x) && WellFormed(a) && WellFormed(b)
    ensures BareSeal(SealObject(x, a, b), a, b)
  {
    SealTagged(x, a, b);
    var fs := SealObject(x, a, b).fields;
    TagsDistinct(fs, SealTags());
    assert fs[2].key == SIG_KEY && fs[3].key == MAC_KEY;
    assert fs[4].key == "brief_recipients" && fs[5].key == "enclosure_recipients";
  }

  lemma EnvelopeTagged(postmark: Json, seal: Json, brief: string, enclosure: string, padding: string)
    ensures Tagged(EnvelopeObject(postmark, seal, brief, enclosure, padding).fields, EnvelopeTags())
  {}

  ghost predicate Carries(v: Json, postmark: Json, seal: Json, brief: string, enclosure: string) {
    && WellFormed(v) && v.JObj? && Get(v, "postmark") == Some(postmark) && Get(v, SEAL_KEY) == Some(seal)
    && Get(v, "brief") == Some(JStr(brief)) && Get(v, "enclosure") == Some(JStr(enclosure))
  }

  lemma EnvelopeShape(postmark: Json, seal: Json, brief: string, enclosure: string, padding: string)
    requires WellFormed(postmark) && WellFormed(seal)
    ensures Carries(EnvelopeObject(postmark, seal, brief, enclosure, padding), postmark, seal, brief, enclosure)
  {
    EnvelopeTagged(postmark, seal, brief, enclosure, padding);
    var fs := EnvelopeObject(postmark, seal, brief, enclosure, padding).fields;
    TagsDistinct(fs, EnvelopeTags());
    assert fs[2].key == "postmark" && fs[3].key == SEAL_KEY && fs[4].key == "brief" && fs[5].key == "enclosure";
  }

  lemma ExtendedCarries(v: Json, postmark: Json, seal: Json, brief: string, enclosure: string, e: Option<Json>)
    requires Carries(v, postmark, seal, brief, enclosure) && (e.Some? ==> WellFormed(e.value))
    ensures Carries(WithExtensions(v, e), postmark, seal, brief, enclosure)
  {
    PutLaws();
  }

  lemma PostmarkShape(p: Json)
    requires WellFormed(p) && p.JObj?
    ensures WellFormed(Postmark(p)) && Get(Postmark(p), "id") == Get(p, "id")
  {
    PutLaws();
  }

  // ---------------------------------------------------------------- slots

  lemma {:induction false} WrapAllShape(c: Primitives, suite: Suite, rs: seq<Recipient>, key: Bytes,
      randomness: string -> Option<Randomness>)
    requires WrapAll(c, suite, rs, key, randomness).Ok?
    ensures var t := WrapAll(c, suite, rs, key, randomness).value; WellFormed(t) && t.JObj?
  {
    if rs != [] {
      WrapAllShape(c, suite, rs[..|rs| - 1], key, randomness);
      PutLaws();
    }
  }

  /** The slot of a key id holds the wrap for the last recipient that has it. */
  lemma {:induction false} WrapAllHas(c: Primitives, suite: Suite, rs: seq<Recipient>, key: Bytes,
      randomness: string -> Option<Randomness>, i: nat)
    requires WrapAll(c, suite, rs, key, randomness).Ok? && LastWith(rs, i)
    ensures randomness(rs[i].keyId).Some? && Wrap(c, suite, rs[i].pub, key, randomness(rs[i].keyId).value).Ok?
    ensures Get(WrapAll(c, suite, rs, key, randomness).value, rs[i].keyId)
      == Some(JStr(Wrap(c, suite, rs[i].pub, key, randomness(rs[i].keyId).value).value))
  {
    WrapAllShape(c, suite, rs[..|rs| - 1], key, randomness);
    PutLaws();
    if i < |rs| - 1 {
      var front := rs[..|rs| - 1];
      assert forall j | 0 <= j < |front| :: front[j] == rs[j];
      WrapAllHas(c, suite, front, key, randomness, i);
    }
  }

  /** No later recipient has the same key id; with distinct key ids, every one of them. */
  ghost predicate LastWith(rs: seq<Recipient>, i: nat) {
    i < |rs| && forall j | i < j < |rs| :: rs[j].keyId != rs[i].keyId
  }

  // ---------------------------------------------------------------- opening

  /** What was sealed is opened from the blob, and the text in it read back. */
  lemma SealedFieldOpens(c: Primitives, key: Bytes, nonce: Bytes, plain: Json, id: string)
    requires Lawful(c) && WellFormed(plain) && SealField(c, key, nonce, plain, id).Ok?
    ensures var blob := Base64.Decode(SealField(c, key, nonce, plain, id).value);
      && |blob| >= 12 && AeadOpen(c, key, blob[..12], blob[12..], Utf8.Encode(id)) == Ok(Utf8.Encode(Canonical(plain)))
      && Utf8.Decode(Utf8.Encode(Canonical(plain))) == Some(Canonical(plain))
      && FromText(Canonical(plain)) == Some(Canon(plain))
  {
    var ct := c.seal(key, nonce, Utf8.Encode(Canonical(plain)), Utf8.Encode(id));
    Base64.RoundTrip(nonce + ct);
    assert (nonce + ct)[..12] == nonce && (nonce + ct)[12..] == ct;
    Utf8.DecodeEncode(Canonical(plain));
    CanonicalRoundTrip(plain);
  }

  /** Opening a field that was sealed under the key in its slot gives the value back, with its keys sorted. */
  lemma OpenSealed(c: Primitives, suite: Suite, v: Json, slots: string, field: string, keyId: string, priv: Bytes,
      pub: Bytes,
      key: Bytes, rand: Randomness, nonce: Bytes, plain: Json, id: string)
    requires Lawful(c) && KeyPair(c, suite, priv, pub) && WellFormed(plain)
    requires Wrap(c, suite, pub, key, rand).Ok? && SealField(c, key, nonce, plain, id).Ok?
    requires Dig(v, SEAL_KEY, slots).Some?
    requires Get(Dig(v, SEAL_KEY, slots).value, keyId) == Some(JStr(Wrap(c, suite, pub, key, rand).value))
    requires Get(v, field) == Some(JStr(SealField(c, key, nonce, plain, id).value))
    requires Dig(v, "postmark", "id") == Some(JStr(id))
    ensures OpenField(c, suite, v, slots, field, keyId, priv, pub) == Ok(Canon(plain))
  {
    UnwrapWrap(c, suite, priv, pub, key, rand);
    SealedFieldOpens(c, key, nonce, plain, id);
  }

  /** What the assembled envelope holds. */
  lemma Assembled(c: Primitives, x: Input)
    requires InputOk(x) && Assemble(c, x).Ok?
    ensures var id := TextOf(Get(x.postmark, "id"));
      var brief := SealField(c, x.kBrief, x.briefNonce, x.brief, id);
      var enclosure := SealField(c, x.kEnclosure, x.enclosureNonce, x.enclosure, id);
      var a, b := WrapAll(c, x.suite, x.briefRecipients, x.kBrief, x.randomness),
                  WrapAll(c, x.suite, x.enclosureRecipients, x.kEnclosure, EnclosureRandomness(x.randomness));
      && brief.Ok? && enclosure.Ok? && a.Ok? && b.Ok?
      && BareSeal(SealObject(x, a.value, b.value), a.value, b.value)
      && Carries(Assemble(c, x).value, Postmark(x.postmark), SealObject(x, a.value, b.value),
                 brief.value, enclosure.value)
  {
    var id := TextOf(Get(x.postmark, "id"));
    var brief := SealField(c, x.kBrief, x.briefNonce, x.brief, id);
    var enclosure := SealField(c, x.kEnclosure, x.enclosureNonce, x.enclosure, id);
    var a := WrapAll(c, x.suite, x.briefRecipients, x.kBrief, x.randomness);
    var b := WrapAll(c, x.suite, x.enclosureRecipients, x.kEnclosure, EnclosureRandomness(x.randomness));
    WrapAllShape(c, x.suite, x.briefRecipients, x.kBrief, x.randomness);
    WrapAllShape(c, x.suite, x.enclosureRecipients, x.kEnclosure, EnclosureRandomness(x.randomness));
    SealShape(x, a.value, b.value);
    PostmarkShape(x.postmark);
    var padding := if x.padding.Some? then x.padding.value else "";
    var seal := SealObject(x, a.value, b.value);
    EnvelopeShape(Postmark(x.postmark), seal, brief.value, enclosure.value, padding);
    ExtendedCarries(EnvelopeObject(Postmark(x.postmark), seal, brief.value, enclosure.value, padding),
                    Postmark(x.postmark), seal, brief.value, enclosure.value, x.extensions);
  }

  /** Filling in the proofs changes the seal's two proofs and nothing else. */
  lemma ProofsFilled(v: Json, postmark: Json, seal: Json, brief: string, enclosure: string, a: Json, b: Json,
      sig: string, mac: string)
    requires Carries(v, postmark, seal, brief, enclosure) && BareSeal(seal, a, b)
    ensures var w := WithProofs(v, sig, mac);
      && WellFormed(w) && w.JObj? && AgreeOutsideProofs(w, v)
      && Dig(w, SEAL_KEY, SIG_KEY) == Some(JStr(sig)) && Dig(w, SEAL_KEY, MAC_KEY) == Some(JStr(mac))
      && Dig(w, SEAL_KEY, "brief_recipients") == Some(a) && Dig(w, SEAL_KEY, "enclosure_recipients") == Some(b)
      && forall k | k != SEAL_KEY :: Get(w, k) == Get(v, k)
  {
    PutLaws();
    var s1 := seal.Put(SIG_KEY, JStr(sig));
    var s2 := s1.Put(MAC_KEY, JStr(mac));
    assert |SIG_KEY| == 9 && |MAC_KEY| == 11;
    forall k ensures if ProofKey(k) then Get(s2, k).Some? <==> Get(seal, k).Some? else AgreeAt(s2, seal, k) {}
  }

  /** The same canonical bytes, the same input to both proofs. */
  lemma SameProofInputs(w: Json, v: Json)
    requires WellFormed(v) && v.JObj? && WellFormed(w) && w.JObj? && AgreeOutsideProofs(w, v)
    ensures CanonicalBytes(w) == CanonicalBytes(v) && SealInput(w) == SealInput(v)
  {
    CoveredByProofs(w, v);
    assert Prefixed(Prefix(), Elide(w)) == PrefixBytes(Prefix()) + CanonicalBytes(w);
    assert Prefixed(Prefix(), Elide(v)) == PrefixBytes(Prefix()) + CanonicalBytes(v);
  }

  /** Both proofs of a composed envelope verify under the sender's keys. */
  lemma ComposeVerifies(c: Primitives, scheme: Scheme, x: Input)
    requires Lawful(c) && Sound(scheme) && InputOk(x) && Compose(c, scheme, x).Ok?
    ensures VerifySealSignature(scheme, Compose(c, scheme, x).value, scheme.pub(x.seed))
    ensures VerifySessionMac(c, Compose(c, scheme, x).value, x.kEnvMac)
  {
    Assembled(c, x);
    var v := Assemble(c, x).value;
    var id := TextOf(Get(x.postmark, "id"));
    var a := WrapAll(c, x.suite, x.briefRecipients, x.kBrief, x.randomness).value;
    var b := WrapAll(c, x.suite, x.enclosureRecipients, x.kEnclosure, EnclosureRandomness(x.randomness)).value;
    ProofsVerify(c, scheme, x.seed, x.kEnvMac, v, Postmark(x.postmark), SealObject(x, a, b),
                 SealField(c, x.kBrief, x.briefNonce, x.brief, id).value,
                 SealField(c, x.kEnclosure, x.enclosureNonce, x.enclosure, id).value, a, b);
  }

  lemma ProofsVerify(c: Primitives, scheme: Scheme, seed: Bytes, macKey: Bytes, v: Json,
      postmark: Json, seal: Json, brief: string, enclosure: string, a: Json, b: Json)
    requires Lawful(c) && Sound(scheme) && Carries(v, postmark, seal, brief, enclosure) && BareSeal(seal, a, b)
    ensures VerifySealSignature(scheme, Prove(c, scheme, seed, macKey, v), scheme.pub(seed))
    ensures VerifySessionMac(c, Prove(c, scheme, seed, macKey, v), macKey)
  {
    var sig, mac := scheme.sign(seed, SealInput(v)), c.mac(macKey, CanonicalBytes(v));
    SignatureText(sig);
    SignatureText(mac);
    ProofsFilled(v, postmark, seal, brief, enclosure, a, b, Base64.Encode(sig), Base64.Encode(mac));
    SameProofInputs(WithProofs(v, Base64.Encode(sig), Base64.Encode(mac)), v);
  }

  /** What opening reads of an envelope. */
  ghost predicate Reads(w: Json, id: string, brief: string, enclosure: string, a: Json, b: Json) {
    && Dig(w, "postmark", "id") == Some(JStr(id))
    && Get(w, "brief") == Some(JStr(brief)) && Get(w, "enclosure") == Some(JStr(enclosure))
    && Dig(w, SEAL_KEY, "brief_recipients") == Some(a) && Dig(w, SEAL_KEY, "enclosure_recipients") == Some(b)
  }

  lemma FilledReads(v: Json, postmark: Json, seal: Json, id: string, brief: string, enclosure: string, a: Json,
      b: Json, sig: string, mac: string)
    requires Carries(v, postmark, seal, brief, enclosure) && BareSeal(seal, a, b)
    requires Get(postmark, "id") == Some(JStr(id))
    ensures Reads(WithProofs(v, sig, mac), id, brief, enclosure, a, b)
  {
    ProofsFilled(v, postmark, seal, brief, enclosure, a, b, sig, mac);
  }

  function IdOf(x: Input): string {
    TextOf(Get(x.postmark, "id"))
  }

  function BriefOf(c: Primitives, x: Input): Result<string> {
    SealField(c, x.kBrief, x.briefNonce, x.brief, IdOf(x))
  }

  function EnclosureOf(c: Primitives, x: Input): Result<string> {
    SealField(c, x.kEnclosure, x.enclosureNonce, x.enclosure, IdOf(x))
  }

  function BriefSlots(c: Primitives, x: Input): Result<Json> {
    WrapAll(c, x.suite, x.briefRecipients, x.kBrief, x.randomness)
  }

  function EnclosureSlots(c: Primitives, x: Input): Result<Json> {
    WrapAll(c, x.suite, x.enclosureRecipients, x.kEnclosure, EnclosureRandomness(x.randomness))
  }

  lemma ProvedReads(c: Primitives, scheme: Scheme, x: Input)
    requires InputOk(x) && Compose(c, scheme, x).Ok?
    ensures BriefOf(c, x).Ok? && EnclosureOf(c, x).Ok? && BriefSlots(c, x).Ok? && EnclosureSlots(c, x).Ok?
    ensures Reads(Compose(c, scheme, x).value, IdOf(x), BriefOf(c, x).value, EnclosureOf(c, x).value,
                  BriefSlots(c, x).value, EnclosureSlots(c, x).value)
  {
    Assembled(c, x);
    PostmarkShape(x.postmark);
    var v := Assemble(c, x).value;
    var a, b := BriefSlots(c, x).value, EnclosureSlots(c, x).value;
    FilledReads(v, Postmark(x.postmark), SealObject(x, a, b), IdOf(x), BriefOf(c, x).value, EnclosureOf(c, x).value,
                a, b,
                Base64.Encode(scheme.sign(x.seed, SealInput(v))), Base64.Encode(c.mac(x.kEnvMac, CanonicalBytes(v))));
  }

  /** A brief recipient opens the brief: the last one with its key id. */
  lemma OpensBrief(c: Primitives, scheme: Scheme, x: Input, i: nat, priv: Bytes)
    requires Lawful(c) && InputOk(x) && Compose(c, scheme, x).Ok? && LastWith(x.briefRecipients, i)
    requires KeyPair(c, x.suite, priv, x.briefRecipients[i].pub)
    ensures OpenBrief(c, x.suite, Compose(c, scheme, x).value, x.briefRecipients[i].keyId, priv,
                      x.briefRecipients[i].pub)
      == Ok(Canon(x.brief))
  {
    ProvedReads(c, scheme, x);
    WrapAllHas(c, x.suite, x.briefRecipients, x.kBrief, x.randomness, i);
    var r := x.briefRecipients[i];
    OpenSealed(c, x.suite, Compose(c, scheme, x).value, "brief_recipients", "brief", r.keyId, priv, r.pub,
               x.kBrief, x.randomness(r.keyId).value, x.briefNonce, x.brief, TextOf(Get(x.postmark, "id")));
  }

  lemma OpensEnclosure(c: Primitives, scheme: Scheme, x: Input, i: nat, priv: Bytes)
    requires Lawful(c) && InputOk(x) && Compose(c, scheme, x).Ok? && LastWith(x.enclosureRecipients, i)
    requires KeyPair(c, x.suite, priv, x.enclosureRecipients[i].pub)
    ensures OpenEnclosure(c, x.suite, Compose(c, scheme, x).value, x.enclosureRecipients[i].keyId, priv,
                          x.enclosureRecipients[i].pub)
      == Ok(Canon(x.enclosure))
  {
    ProvedReads(c, scheme, x);
    var randomness := EnclosureRandomness(x.randomness);
    WrapAllHas(c, x.suite, x.enclosureRecipients, x.kEnclosure, randomness, i);
    var r := x.enclosureRecipients[i];
    OpenSealed(c, x.suite, Compose(c, scheme, x).value, "enclosure_recipients", "enclosure", r.keyId, priv, r.pub,
               x.kEnclosure, randomness(r.keyId).value, x.enclosureNonce, x.enclosure, TextOf(Get(x.postmark, "id")));
  }

  /** A client in both lists opens both: the same values, up to the order of keys. */
  lemma OpensBoth(c: Primitives, scheme: Scheme, x: Input, i: nat, j: nat, priv: Bytes)
    requires Lawful(c) && InputOk(x) && Compose(c, scheme, x).Ok?
    requires LastWith(x.briefRecipients, i) && LastWith(x.enclosureRecipients, j)
    requires x.briefRecipients[i] == x.enclosureRecipients[j]
    requires KeyPair(c, x.suite, priv, x.briefRecipients[i].pub)
    ensures Open(c, x.suite, Compose(c, scheme, x).value, x.briefRecipients[i].keyId, priv, x.briefRecipients[i].pub)
      == Ok((Canon(x.brief), Canon(x.enclosure)))
    ensures Same(x.brief, Canon(x.brief)) && Same(x.enclosure, Canon(x.enclosure))
  {
    OpensBrief(c, scheme, x, i, priv);
    OpensEnclosure(c, scheme, x, j, priv);
    CanonicalRoundTrip(x.brief);
    CanonicalRoundTrip(x.enclosure);
  }

  // ---------------------------------------------------------------- what a verified proof was made over

  /** An envelope that was proved, and under which key. */
  datatype Proved = Proved(key: Bytes, envelope: Json)

  ghost predicate LogOk(log: seq<Proved>) {
    forall k | 0 <= k < |log| :: WellFormed(log[k].envelope) && log[k].envelope.JObj?
  }

  /** Some envelope on record was proved under this key and agrees with this one outside the two proofs. */
  ghost predicate OnRecord(log: seq<Proved>, key: Bytes, v: Json) {
    exists k :: 0 <= k < |log| && log[k].key == key && AgreeOutsideProofs(v, log[k].envelope)
  }

  /** Ideal signatures: if the key accepts the one in the seal, its holder signed exactly this input. */
  ghost predicate SealGenuine(scheme: Scheme, log: seq<Proved>, v: Json, pub: Bytes) {
    var sig := Dig(v, SEAL_KEY, SIG_KEY);
    sig.Some? && sig.value.JStr? && scheme.verify(pub, Base64.Decode(sig.value.s), Prefixed(Prefix(), Elide(v))) ==>
      exists k :: 0 <= k < |log| && log[k].key == pub && SealInput(log[k].envelope) == SealInput(v)
  }

  /** An ideal MAC: if it is that of the canonical bytes, a holder of the key made it over exactly these bytes. */
  ghost predicate MacGenuine(c: Primitives, log: seq<Proved>, v: Json, key: Bytes) {
    var mac := Dig(v, SEAL_KEY, MAC_KEY);
    mac.Some? && mac.value.JStr? && Base64.Decode(mac.value.s) == c.mac(key, Utf8.Encode(Canonical(Elide(v)))) ==>
      exists k :: 0 <= k < |log| && log[k].key == key && CanonicalBytes(log[k].envelope) == CanonicalBytes(v)
  }

  lemma SealInputBytes(v: Json, w: Json)
    ensures SealInput(v) == SealInput(w) <==> CanonicalBytes(v) == CanonicalBytes(w)
  {
    var p, a, b := PrefixBytes(Prefix()), CanonicalBytes(v), CanonicalBytes(w);
    assert SealInput(v) == p + a && SealInput(w) == p + b;
    assert a == (p + a)[|p|..] && b == (p + b)[|p|..];
  }

  /** A seal that verifies was signed by the holder of the key over an envelope that agrees outside the two proofs. */
  lemma SealCommitted(scheme: Scheme, v: Json, pub: Bytes, log: seq<Proved>)
    requires WellFormed(v) && v.JObj? && LogOk(log)
    requires VerifySealSignature(scheme, v, pub) && SealGenuine(scheme, log, v, pub)
    ensures OnRecord(log, pub, v)
  {
    var k :| 0 <= k < |log| && log[k].key == pub && SealInput(log[k].envelope) == SealInput(v);
    SealInputBytes(log[k].envelope, v);
    CoveredByProofs(v, log[k].envelope);
  }

  /** And so was the session MAC that verifies, by a holder of its key. */
  lemma MacCommitted(c: Primitives, v: Json, key: Bytes, log: seq<Proved>)
    requires WellFormed(v) && v.JObj? && LogOk(log)
    requires VerifySessionMac(c, v, key) && MacGenuine(c, log, v, key)
    ensures OnRecord(log, key, v)
  {
    var k :| 0 <= k < |log| && log[k].key == key && CanonicalBytes(log[k].envelope) == CanonicalBytes(v);
    CoveredByProofs(v, log[k].envelope);
  }
}
