/** The messages of the server-to-server handshake: what each is made of and what is signed over it. */
module FederationMessages {
  import opened Wrappers
  import opened Json
  import opened JsonParser
  import opened Signing
  import Base64

  datatype Suite = Baseline | Hybrid

  function SuiteName(s: Suite): string {
    if s == Baseline then "x25519-chacha20-poly1305" else "pq-kyber768-x25519"
  }

  /** The primitives.  `None` stands for a call that throws on its arguments. */
  datatype Crypto = Crypto(
    pub: Bytes -> Bytes,
    sign: (Bytes, Bytes) -> Bytes,
    verify: (Bytes, Bytes, Bytes) -> bool,
    fingerprint: Bytes -> string,
    sha256: Bytes -> Bytes,
    dhPub: Bytes -> Bytes,
    agree: (Bytes, Bytes) -> Option<Bytes>,
    hybridPub: Bytes -> Bytes,
    encapsulate: (Bytes, Bytes) -> Option<(Bytes, Bytes)>,
    decapsulate: (Bytes, Bytes) -> Option<Bytes>,
    derive: (Bytes, Bytes) -> Bytes)

  /** The size of a Diffie-Hellman key, private or public. */
  const DH_KEY_SIZE := 32

  /**
   * Ideal primitives: no hash collisions, Diffie-Hellman commutes and its keys have their size, and the KEM opens what
   * it sealed.
   */
  ghost predicate Ideal(c: Crypto) {
    && (forall x, y | c.sha256(x) == c.sha256(y) :: x == y)
    && (forall a :: |c.dhPub(a)| == DH_KEY_SIZE)
    && (forall a, b :: c.agree(a, c.dhPub(b)) == c.agree(b, c.dhPub(a)))
    && (forall priv, r | c.encapsulate(c.hybridPub(priv), r).Some? ::
          c.decapsulate(c.encapsulate(c.hybridPub(priv), r).value.0, priv) ==
          Some(c.encapsulate(c.hybridPub(priv), r).value.1))
  }

  const SIG_FIELD := "server_signature"

  function HandshakePrefix(): string { "SEMP-HANDSHAKE:" }
  function IdentityPrefix(): string { "SEMP-IDENTITY:" }

  function HandshakeInput(v: Json): Bytes {
    Input(HandshakePrefix(), v, SIG_FIELD)
  }

  function IdentityInput(x: Bytes): Bytes {
    PrefixBytes(IdentityPrefix()) + x
  }

  /** The message with its signature filled in. */
  function Sign(c: Crypto, seed: Bytes, body: Json): Json {
    Stamp(body, SIG_FIELD, c.sign(seed, HandshakeInput(body)))
  }

  predicate Verifies(c: Crypto, v: Json, pub: Bytes) {
    && Get(v, SIG_FIELD).Some? && Get(v, SIG_FIELD).value.JStr? && Get(v, SIG_FIELD).value.s != ""
    && c.verify(pub, DecodeField(Get(v, SIG_FIELD)).value, HandshakeInput(v))
  }

  /** The text as a message of the given step. */
  function Receive(data: string, step: string): (r: Option<Json>)
    ensures r.Some? ==> FromText(data) == r && r.value.JObj? && WellFormed(r.value)
    ensures r.Some? ==> Get(r.value, "step") == Some(JStr(step))
  {
    var m := FromText(data);
    if m.Some? && Get(m.value, "type") == Some(JStr("SEMP_HANDSHAKE")) && Get(m.value, "step") == Some(JStr(step))
       && Get(m.value, "party") == Some(JStr("server")) then m else None
  }

  /** What any message says of itself. */
  ghost predicate Headed(v: Json, step: string) {
    && WellFormed(v) && v.JObj?
    && Get(v, "type") == Some(JStr("SEMP_HANDSHAKE")) && Get(v, "step") == Some(JStr(step))
    && Get(v, "party") == Some(JStr("server"))
  }

  /** A field left out when it is undefined.  Its place does not matter: only canonical text is sent or signed. */
  function PutOption(v: Json, key: string, x: Option<Json>): Json {
    if x.Some? then v.Put(key, x.value) else v
  }

  lemma PutOptionShape(v: Json, key: string, x: Option<Json>)
    requires WellFormed(v) && v.JObj? && (x.Some? ==> WellFormed(x.value)) && Get(v, key) == None
    ensures var p := PutOption(v, key, x);
      WellFormed(p) && p.JObj? && Get(p, key) == x && forall k | k != key :: Get(p, k) == Get(v, k)
  {
    PutLaws();
  }

  lemma AbsentAt(fs: seq<Field>, tags: seq<nat>, key: string)
    requires Tagged(fs, tags) && Tag(key) !in tags
    ensures GetField(fs, key) == None
  {
    GetFieldFinds(fs, key);
    assert forall i | 0 <= i < |fs| :: tags[i] in tags;
  }

  // ---------------------------------------------------------------- parts

  function EphemeralKey(c: Crypto, suite: Suite, key: Bytes): Json {
    JObj([Field("algorithm", JStr(SuiteName(suite))), Field("key", JStr(Base64.Encode(key))),
          Field("key_id", JStr(c.fingerprint(key)))])
  }

  lemma KeyShape(c: Crypto, suite: Suite, key: Bytes)
    ensures var v := EphemeralKey(c, suite, key);
      WellFormed(v) && v.JObj? && Get(v, "key") == Some(JStr(Base64.Encode(key)))
  {
    var fs := EphemeralKey(c, suite, key).fields;
    TagsDistinct(fs, [641389, 249977, 447588]);
    assert fs[1].key == "key";
  }

  function Proof(keyId: string, sig: Bytes): Json {
    JObj([Field("key_id", JStr(keyId)), Field("signature", JStr(Base64.Encode(sig)))])
  }

  lemma ProofShape(keyId: string, sig: Bytes)
    ensures var v := Proof(keyId, sig);
      WellFormed(v) && v.JObj? && DecodeField(Get(v, "signature")) == Some(sig)
  {
    var fs := Proof(keyId, sig).fields;
    TagsDistinct(fs, [447588, 648549]);
    assert fs[1].key == "signature";
    Base64.RoundTrip(sig);
  }

  function Empty(): (v: Json)
    ensures WellFormed(v) && v.JObj?
  {
    JObj([])
  }

  // ---------------------------------------------------------------- init

  datatype InitiatorConfig = InitiatorConfig(
    suite: Suite,
    capabilities: Json,
    localDomain: string,
    localServerID: string,
    seed: Bytes,
    lookup: string -> Option<Bytes>,
    peerDomain: string,
    domainProof: Json,
    acceptor: Option<Json> -> Option<string>,
    pinnedPriv: Option<Bytes>,
    pinnedNonce: Option<Bytes>)

  ghost predicate InitiatorConfigOk(cfg: InitiatorConfig) {
    && cfg.localDomain != "" && cfg.localServerID != "" && cfg.seed != [] && cfg.peerDomain != ""
    && WellFormed(cfg.capabilities) && WellFormed(cfg.domainProof)
  }

  function InitBody(c: Crypto, cfg: InitiatorConfig, ephPub: Bytes, nonce: Bytes): Json {
    JObj([Field("type", JStr("SEMP_HANDSHAKE")), Field("step", JStr("init")), Field("party", JStr("server")),
          Field("version", JStr("1.0.0")), Field("nonce", JStr(Base64.Encode(nonce))),
          Field("server_id", JStr(cfg.localServerID)), Field("server_domain", JStr(cfg.localDomain)),
          Field("server_ephemeral_key", EphemeralKey(c, cfg.suite, ephPub)),
          Field("server_identity_proof", InitProof(c, cfg, ephPub, nonce)),
          Field("domain_proof", cfg.domainProof), Field("capabilities", cfg.capabilities),
          Field(SIG_FIELD, Blank()), Field("extensions", Empty())])
  }

  function InitProof(c: Crypto, cfg: InitiatorConfig, ephPub: Bytes, nonce: Bytes): Json {
    Proof(c.fingerprint(c.pub(cfg.seed)), c.sign(cfg.seed, IdentityInput(ephPub + nonce)))
  }

  function InitTags(): seq<nat> {
    [320613, 317552, 386169, 517486, 381285, 646244, 908398, 1366137, 1434214, 840550, 837747, 1107301, 709491]
  }

  lemma InitTagsDiffer()
    ensures AllDiffer(InitTags())
  {}

  lemma InitTagged(c: Crypto, cfg: InitiatorConfig, ephPub: Bytes, nonce: Bytes)
    ensures Tagged(InitBody(c, cfg, ephPub, nonce).fields, InitTags())
  {
    InitTagsDiffer();
  }

  lemma InitValues(c: Crypto, cfg: InitiatorConfig, ephPub: Bytes, nonce: Bytes)
    requires WellFormed(cfg.capabilities) && WellFormed(cfg.domainProof)
    ensures var fs := InitBody(c, cfg, ephPub, nonce).fields; forall i | 0 <= i < |fs| :: WellFormed(fs[i].value)
  {
    KeyShape(c, cfg.suite, ephPub);
    ProofShape(c.fingerprint(c.pub(cfg.seed)), c.sign(cfg.seed, IdentityInput(ephPub + nonce)));
  }

  lemma InitWellFormed(c: Crypto, cfg: InitiatorConfig, ephPub: Bytes, nonce: Bytes)
    requires WellFormed(cfg.capabilities) && WellFormed(cfg.domainProof)
    ensures WellFormed(InitBody(c, cfg, ephPub, nonce))
    ensures var fs := InitBody(c, cfg, ephPub, nonce).fields;
      forall i | 0 <= i < |fs| :: GetField(fs, fs[i].key) == Some(fs[i].value)
  {
    InitValues(c, cfg, ephPub, nonce);
    InitTagged(c, cfg, ephPub, nonce);
    TagsDistinct(InitBody(c, cfg, ephPub, nonce).fields, InitTags());
  }

  /** Field `i` is read under its key. */
  lemma ReadAt(fs: seq<Field>, i: nat, key: string)
    requires i < |fs| && fs[i].key == key && GetField(fs, fs[i].key) == Some(fs[i].value)
    ensures Get(JObj(fs), key) == Some(fs[i].value)
  {}

  lemma InitHeaded(c: Crypto, cfg: InitiatorConfig, ephPub: Bytes, nonce: Bytes)
    requires WellFormed(cfg.capabilities) && WellFormed(cfg.domainProof)
    ensures Headed(InitBody(c, cfg, ephPub, nonce), "init")
  {
    InitWellFormed(c, cfg, ephPub, nonce);
    var fs := InitBody(c, cfg, ephPub, nonce).fields;
    assert fs[0].key == "type" && fs[1].key == "step" && fs[2].key == "party";
  }

  lemma InitShape(c: Crypto, cfg: InitiatorConfig, ephPub: Bytes, nonce: Bytes)
    requires WellFormed(cfg.capabilities) && WellFormed(cfg.domainProof)
    ensures Headed(InitBody(c, cfg, ephPub, nonce), "init")
    ensures var v := InitBody(c, cfg, ephPub, nonce);
      && Get(v, "nonce") == Some(JStr(Base64.Encode(nonce)))
      && Get(v, "server_domain") == Some(JStr(cfg.localDomain))
      && Get(v, "server_ephemeral_key") == Some(EphemeralKey(c, cfg.suite, ephPub))
      && Get(v, "server_identity_proof") == Some(InitProof(c, cfg, ephPub, nonce))
      && Get(v, "domain_proof") == Some(cfg.domainProof)
      && Get(v, "capabilities") == Some(cfg.capabilities)
  {
    InitHeaded(c, cfg, ephPub, nonce);
    InitWellFormed(c, cfg, ephPub, nonce);
    var fs := InitBody(c, cfg, ephPub, nonce).fields;
    ReadAt(fs, 4, "nonce");
    ReadAt(fs, 6, "server_domain");
    ReadAt(fs, 7, "server_ephemeral_key");
    ReadAt(fs, 8, "server_identity_proof");
    ReadAt(fs, 9, "domain_proof");
    ReadAt(fs, 10, "capabilities");
  }

  // ---------------------------------------------------------------- response

  datatype ResponderConfig = ResponderConfig(
    suite: Suite,
    algorithms: seq<string>,
    localDomain: string,
    localServerID: string,
    seed: Bytes,
    lookup: string -> Option<Bytes>,
    verifier: (string, Option<Json>, Option<Json>) -> bool,
    policy: Json,
    ttl: int,
    pinnedPriv: Option<Bytes>,
    pinnedRandomness: Option<Bytes>,
    pinnedNonce: Option<Bytes>)

  ghost predicate ResponderConfigOk(cfg: ResponderConfig) {
    cfg.localDomain != "" && cfg.seed != [] && WellFormed(cfg.policy)
  }

  function RespProof(c: Crypto, cfg: ResponderConfig, ephPub: Bytes, nonce: Bytes, peerNonce: Bytes): Json {
    Proof(c.fingerprint(c.pub(cfg.seed)), c.sign(cfg.seed, IdentityInput(ephPub + nonce + peerNonce)))
  }

  function Verified(m: Json): Json {
    PutOption(JObj([Field("status", JStr("verified"))]), "method", Dig(m, "domain_proof", "method"))
  }

  function Negotiated(suite: Suite): Json {
    JObj([Field("encryption_algorithm", JStr(SuiteName(suite))), Field("extensions", JArr([]))])
  }

  /** The answer to init message `m`, which has a nonce. */
  function RespBody(c: Crypto, cfg: ResponderConfig, m: Json, id: string, ephPub: Bytes, nonce: Bytes,
      peerNonce: Bytes): Json
    requires Get(m, "nonce").Some?
  {
    JObj(RespFields(cfg, id, Get(m, "nonce").value, nonce, EphemeralKey(c, cfg.suite, ephPub),
                    RespProof(c, cfg, ephPub, nonce, peerNonce), Verified(m)))
  }

  function RespFields(cfg: ResponderConfig, id: string, theirs: Json, nonce: Bytes, key: Json, proof: Json,
      verified: Json): seq<Field> {
    [Field("type", JStr("SEMP_HANDSHAKE")), Field("step", JStr("response")), Field("party", JStr("server")),
     Field("version", JStr("1.0.0")), Field("session_id", JStr(id)), Field("client_nonce", theirs),
     Field("server_nonce", JStr(Base64.Encode(nonce))), Field("server_id", JStr(cfg.localServerID)),
     Field("server_domain", JStr(cfg.localDomain)), Field("server_ephemeral_key", key),
     Field("server_identity_proof", proof), Field("domain_verification_result", verified),
     Field("negotiated", Negotiated(cfg.suite)), Field("federation_policy", cfg.policy), Field(SIG_FIELD, Blank()),
     Field("extensions", Empty())]
  }

  lemma VerifiedShape(m: Json)
    requires WellFormed(m)
    ensures WellFormed(Verified(m)) && Get(Verified(m), "status") == Some(JStr("verified"))
  {
    FieldWellFormed(m, "domain_proof");
    if Get(m, "domain_proof").Some? {
      FieldWellFormed(Get(m, "domain_proof").value, "method");
    }
    var fs := [Field("status", JStr("verified"))];
    TagsDistinct(fs, [452723]);
    assert fs[0].key == "status";
    AbsentAt(fs, [452723], "method");
    PutOptionShape(JObj(fs), "method", Dig(m, "domain_proof", "method"));
  }

  lemma NegotiatedShape(suite: Suite)
    ensures WellFormed(Negotiated(suite))
  {
    TagsDistinct(Negotiated(suite).fields, [1363309, 709491]);
  }

  function RespTags(): seq<nat> {
    [320613, 317552, 386169, 517486, 711780, 837221, 841317, 646244, 908398, 1366137, 1434214, 1757300, 709476,
     1165689, 1107301, 709491]
  }

  lemma RespTagsDiffer()
    ensures AllDiffer(RespTags())
  {}

  lemma RespTagged(cfg: ResponderConfig, id: string, theirs: Json, nonce: Bytes, key: Json, proof: Json, verified: Json)
    ensures Tagged(RespFields(cfg, id, theirs, nonce, key, proof, verified), RespTags())
  {
    RespTagsDiffer();
  }

  lemma RespValues(cfg: ResponderConfig, id: string, theirs: Json, nonce: Bytes, key: Json, proof: Json, verified: Json)
    requires WellFormed(theirs) && WellFormed(key) && WellFormed(proof) && WellFormed(verified)
    requires WellFormed(cfg.policy)
    ensures var fs := RespFields(cfg, id, theirs, nonce, key, proof, verified);
      forall i | 0 <= i < |fs| :: WellFormed(fs[i].value)
  {
    NegotiatedShape(cfg.suite);
  }

  lemma RespWellFormed(c: Crypto, cfg: ResponderConfig, m: Json, id: string, ephPub: Bytes, nonce: Bytes,
      peerNonce: Bytes)
    requires WellFormed(m) && Get(m, "nonce").Some? && WellFormed(cfg.policy)
    ensures WellFormed(RespBody(c, cfg, m, id, ephPub, nonce, peerNonce))
    ensures var fs := RespBody(c, cfg, m, id, ephPub, nonce, peerNonce).fields;
      forall i | 0 <= i < |fs| :: GetField(fs, fs[i].key) == Some(fs[i].value)
  {
    KeyShape(c, cfg.suite, ephPub);
    ProofShape(c.fingerprint(c.pub(cfg.seed)), c.sign(cfg.seed, IdentityInput(ephPub + nonce + peerNonce)));
    FieldWellFormed(m, "nonce");
    VerifiedShape(m);
    var theirs, key := Get(m, "nonce").value, EphemeralKey(c, cfg.suite, ephPub);
    var proof := RespProof(c, cfg, ephPub, nonce, peerNonce);
    RespValues(cfg, id, theirs, nonce, key, proof, Verified(m));
    RespTagged(cfg, id, theirs, nonce, key, proof, Verified(m));
    TagsDistinct(RespFields(cfg, id, theirs, nonce, key, proof, Verified(m)), RespTags());
  }

  lemma RespAt(c: Crypto, cfg: ResponderConfig, m: Json, id: string, ephPub: Bytes, nonce: Bytes, peerNonce: Bytes,
      k: nat, key: string)
    requires WellFormed(m) && Get(m, "nonce").Some? && WellFormed(cfg.policy)
    requires k < |RespBody(c, cfg, m, id, ephPub, nonce, peerNonce).fields|
    requires RespBody(c, cfg, m, id, ephPub, nonce, peerNonce).fields[k].key == key
    ensures Get(RespBody(c, cfg, m, id, ephPub, nonce, peerNonce), key)
      == Some(RespBody(c, cfg, m, id, ephPub, nonce, peerNonce).fields[k].value)
  {
    RespWellFormed(c, cfg, m, id, ephPub, nonce, peerNonce);
  }

  lemma RespNames(c: Crypto, cfg: ResponderConfig, m: Json, id: string, ephPub: Bytes, nonce: Bytes, peerNonce: Bytes)
    requires WellFormed(m) && Get(m, "nonce").Some? && WellFormed(cfg.policy)
    ensures var v := RespBody(c, cfg, m, id, ephPub, nonce, peerNonce);
      && Get(v, "type") == Some(JStr("SEMP_HANDSHAKE")) && Get(v, "step") == Some(JStr("response"))
      && Get(v, "party") == Some(JStr("server"))
  {
    RespAt(c, cfg, m, id, ephPub, nonce, peerNonce, 0, "type");
    RespAt(c, cfg, m, id, ephPub, nonce, peerNonce, 1, "step");
    RespAt(c, cfg, m, id, ephPub, nonce, peerNonce, 2, "party");
  }

  lemma RespHead(c: Crypto, cfg: ResponderConfig, m: Json, id: string, ephPub: Bytes, nonce: Bytes, peerNonce: Bytes)
    requires WellFormed(m) && Get(m, "nonce").Some? && WellFormed(cfg.policy)
    ensures Headed(RespBody(c, cfg, m, id, ephPub, nonce, peerNonce), "response")
  {
    RespWellFormed(c, cfg, m, id, ephPub, nonce, peerNonce);
    RespNames(c, cfg, m, id, ephPub, nonce, peerNonce);
  }

  lemma RespNonces(c: Crypto, cfg: ResponderConfig, m: Json, id: string, ephPub: Bytes, nonce: Bytes, peerNonce: Bytes)
    requires WellFormed(m) && Get(m, "nonce").Some? && WellFormed(cfg.policy)
    ensures var v := RespBody(c, cfg, m, id, ephPub, nonce, peerNonce);
      && Get(v, "session_id") == Some(JStr(id))
      && Get(v, "client_nonce") == Get(m, "nonce")
      && Get(v, "server_nonce") == Some(JStr(Base64.Encode(nonce)))
  {
    RespAt(c, cfg, m, id, ephPub, nonce, peerNonce, 4, "session_id");
    RespAt(c, cfg, m, id, ephPub, nonce, peerNonce, 5, "client_nonce");
    RespAt(c, cfg, m, id, ephPub, nonce, peerNonce, 6, "server_nonce");
  }

  lemma RespHeaded(c: Crypto, cfg: ResponderConfig, m: Json, id: string, ephPub: Bytes, nonce: Bytes, peerNonce: Bytes)
    requires WellFormed(m) && Get(m, "nonce").Some? && WellFormed(cfg.policy)
    ensures var v := RespBody(c, cfg, m, id, ephPub, nonce, peerNonce);
      && Headed(v, "response")
      && Get(v, "session_id") == Some(JStr(id))
      && Get(v, "client_nonce") == Get(m, "nonce")
      && Get(v, "server_nonce") == Some(JStr(Base64.Encode(nonce)))
  {
    RespHead(c, cfg, m, id, ephPub, nonce, peerNonce);
    RespNonces(c, cfg, m, id, ephPub, nonce, peerNonce);
  }

  lemma RespDomain(c: Crypto, cfg: ResponderConfig, m: Json, id: string, ephPub: Bytes, nonce: Bytes, peerNonce: Bytes)
    requires WellFormed(m) && Get(m, "nonce").Some? && WellFormed(cfg.policy)
    ensures Get(RespBody(c, cfg, m, id, ephPub, nonce, peerNonce), "server_domain") == Some(JStr(cfg.localDomain))
  {
    RespAt(c, cfg, m, id, ephPub, nonce, peerNonce, 8, "server_domain");
  }

  lemma RespEphemeral(c: Crypto, cfg: ResponderConfig, m: Json, id: string, ephPub: Bytes, nonce: Bytes,
      peerNonce: Bytes)
    requires WellFormed(m) && Get(m, "nonce").Some? && WellFormed(cfg.policy)
    ensures Get(RespBody(c, cfg, m, id, ephPub, nonce, peerNonce), "server_ephemeral_key")
      == Some(EphemeralKey(c, cfg.suite, ephPub))
  {
    RespAt(c, cfg, m, id, ephPub, nonce, peerNonce, 9, "server_ephemeral_key");
  }

  lemma RespIdentity(c: Crypto, cfg: ResponderConfig, m: Json, id: string, ephPub: Bytes, nonce: Bytes,
      peerNonce: Bytes)
    requires WellFormed(m) && Get(m, "nonce").Some? && WellFormed(cfg.policy)
    ensures Get(RespBody(c, cfg, m, id, ephPub, nonce, peerNonce), "server_identity_proof")
      == Some(RespProof(c, cfg, ephPub, nonce, peerNonce))
  {
    RespAt(c, cfg, m, id, ephPub, nonce, peerNonce, 10, "server_identity_proof");
  }

  lemma RespKeys(c: Crypto, cfg: ResponderConfig, m: Json, id: string, ephPub: Bytes, nonce: Bytes, peerNonce: Bytes)
    requires WellFormed(m) && Get(m, "nonce").Some? && WellFormed(cfg.policy)
    ensures var v := RespBody(c, cfg, m, id, ephPub, nonce, peerNonce);
      && Get(v, "server_domain") == Some(JStr(cfg.localDomain))
      && Get(v, "server_ephemeral_key") == Some(EphemeralKey(c, cfg.suite, ephPub))
      && Get(v, "server_identity_proof") == Some(RespProof(c, cfg, ephPub, nonce, peerNonce))
  {
    RespDomain(c, cfg, m, id, ephPub, nonce, peerNonce);
    RespEphemeral(c, cfg, m, id, ephPub, nonce, peerNonce);
    RespIdentity(c, cfg, m, id, ephPub, nonce, peerNonce);
  }

  lemma RespTerms(c: Crypto, cfg: ResponderConfig, m: Json, id: string, ephPub: Bytes, nonce: Bytes, peerNonce: Bytes)
    requires WellFormed(m) && Get(m, "nonce").Some? && WellFormed(cfg.policy)
    ensures var v := RespBody(c, cfg, m, id, ephPub, nonce, peerNonce);
      Get(v, "domain_verification_result") == Some(Verified(m)) && Get(v, "federation_policy") == Some(cfg.policy)
  {
    RespAt(c, cfg, m, id, ephPub, nonce, peerNonce, 11, "domain_verification_result");
    RespAt(c, cfg, m, id, ephPub, nonce, peerNonce, 13, "federation_policy");
  }

  // ---------------------------------------------------------------- confirm and accepted

  /** No reason means the policy is accepted. */
  function Acceptance(reason: Option<string>): Json {
    PutOption(JObj([Field("accepted", JBool(reason.None?)), Field("policy_acknowledged", JBool(reason.None?))]),
              "reason", if reason.Some? then Some(JStr(reason.value)) else None)
  }

  lemma AcceptanceShape(reason: Option<string>)
    ensures WellFormed(Acceptance(reason)) && Acceptance(reason).JObj?
    ensures Get(Acceptance(reason), "accepted") == Some(JBool(reason.None?))
  {
    var fs := [Field("accepted", JBool(reason.None?)), Field("policy_acknowledged", JBool(reason.None?))];
    TagsDistinct(fs, [575076, 1299812]);
    assert fs[0].key == "accepted";
    AbsentAt(fs, [575076, 1299812], "reason");
    PutOptionShape(JObj(fs), "reason", if reason.Some? then Some(JStr(reason.value)) else None);
  }

  function ConfirmFields(hash: Bytes, reason: Option<string>): seq<Field> {
    [Field("type", JStr("SEMP_HANDSHAKE")), Field("step", JStr("confirm")), Field("party", JStr("server")),
     Field("version", JStr("1.0.0")), Field("confirmation_hash", JStr(Base64.Encode(hash))),
     Field("federation_acceptance", Acceptance(reason)), Field(SIG_FIELD, Blank()), Field("extensions", Empty())]
  }

  function ConfirmBody(id: Option<Json>, hash: Bytes, reason: Option<string>): Json {
    PutOption(JObj(ConfirmFields(hash, reason)), "session_id", id)
  }

  function ConfirmTags(): seq<nat> {
    [320613, 317552, 386169, 517486, 1169000, 1427813, 1107301, 709491]
  }

  lemma ConfirmTagged(hash: Bytes, reason: Option<string>)
    ensures Tagged(ConfirmFields(hash, reason), ConfirmTags())
  {}

  lemma ConfirmBase(hash: Bytes, reason: Option<string>)
    ensures var v := JObj(ConfirmFields(hash, reason)); Headed(v, "confirm") && Get(v, "session_id") == None
  {
    AcceptanceShape(reason);
    var fs := ConfirmFields(hash, reason);
    ConfirmTagged(hash, reason);
    TagsDistinct(fs, ConfirmTags());
    assert fs[0].key == "type" && fs[1].key == "step" && fs[2].key == "party";
    AbsentAt(fs, ConfirmTags(), "session_id");
  }

  lemma ConfirmTerms(hash: Bytes, reason: Option<string>)
    ensures var v := JObj(ConfirmFields(hash, reason));
      && Get(v, "confirmation_hash") == Some(JStr(Base64.Encode(hash)))
      && Get(v, "federation_acceptance") == Some(Acceptance(reason))
  {
    var fs := ConfirmFields(hash, reason);
    ConfirmTagged(hash, reason);
    TagsDistinct(fs, ConfirmTags());
    ReadAt(fs, 4, "confirmation_hash");
    ReadAt(fs, 5, "federation_acceptance");
  }

  /** A field added to a message leaves its head and its other fields. */
  lemma HeadedWith(v: Json, step: string, key: string, x: Option<Json>)
    requires Headed(v, step) && Get(v, key) == None && (x.Some? ==> WellFormed(x.value))
    ensures var p := PutOption(v, key, x);
      Headed(p, step) && Get(p, key) == x && forall k | k != key :: Get(p, k) == Get(v, k)
  {
    PutOptionShape(v, key, x);
  }

  lemma ConfirmShape(id: Option<Json>, hash: Bytes, reason: Option<string>)
    requires id.Some? ==> WellFormed(id.value)
    ensures var v := ConfirmBody(id, hash, reason);
      && Headed(v, "confirm")
      && Get(v, "session_id") == id
      && Get(v, "confirmation_hash") == Some(JStr(Base64.Encode(hash)))
      && Get(v, "federation_acceptance") == Some(Acceptance(reason))
  {
    ConfirmBase(hash, reason);
    ConfirmTerms(hash, reason);
    HeadedWith(JObj(ConfirmFields(hash, reason)), "confirm", "session_id", id);
    assert |"session_id"| == 10 && |"confirmation_hash"| == 17 && |"federation_acceptance"| == 21;
  }

  function AcceptedFields(id: string, ttl: int): seq<Field> {
    [Field("type", JStr("SEMP_HANDSHAKE")), Field("step", JStr("accepted")), Field("party", JStr("server")),
     Field("version", JStr("1.0.0")), Field("session_id", JStr(id)), Field("status", JStr("accepted")),
     Field("session_ttl", JNum(ttl)), Field(SIG_FIELD, Blank()), Field("extensions", Empty())]
  }

  function AcceptedBody(id: string, ttl: int, ticket: Option<Json>): Json {
    PutOption(JObj(AcceptedFields(id, ttl)), "resumption_ticket", ticket)
  }

  function AcceptedTags(): seq<nat> {
    [320613, 317552, 386169, 517486, 711780, 452723, 780140, 1107301, 709491]
  }

  lemma AcceptedTagged(id: string, ttl: int)
    ensures Tagged(AcceptedFields(id, ttl), AcceptedTags())
  {}

  lemma AcceptedBase(id: string, ttl: int)
    ensures var v := JObj(AcceptedFields(id, ttl)); Headed(v, "accepted") && Get(v, "resumption_ticket") == None
  {
    var fs := AcceptedFields(id, ttl);
    AcceptedTagged(id, ttl);
    TagsDistinct(fs, AcceptedTags());
    assert fs[0].key == "type" && fs[1].key == "step" && fs[2].key == "party";
    AbsentAt(fs, AcceptedTags(), "resumption_ticket");
  }

  lemma AcceptedTerms(id: string, ttl: int)
    ensures var v := JObj(AcceptedFields(id, ttl));
      Get(v, "session_id") == Some(JStr(id)) && Get(v, "session_ttl") == Some(JNum(ttl))
  {
    var fs := AcceptedFields(id, ttl);
    AcceptedTagged(id, ttl);
    TagsDistinct(fs, AcceptedTags());
    ReadAt(fs, 4, "session_id");
    ReadAt(fs, 6, "session_ttl");
  }

  lemma AcceptedShape(id: string, ttl: int, ticket: Option<Json>)
    requires ticket.Some? ==> WellFormed(ticket.value)
    ensures var v := AcceptedBody(id, ttl, ticket);
      && Headed(v, "accepted") && Get(v, "session_id") == Some(JStr(id)) && Get(v, "session_ttl") == Some(JNum(ttl))
  {
    AcceptedBase(id, ttl);
    AcceptedTerms(id, ttl);
    HeadedWith(JObj(AcceptedFields(id, ttl)), "accepted", "resumption_ticket", ticket);
    assert |"session_id"| == 10 && |"session_ttl"| == 11 && |"resumption_ticket"| == 17;
  }

  /** `resume`; it carries no signature. */
  function ResumeBody(c: Crypto, cfg: InitiatorConfig, nonce: Bytes, ephPub: Bytes, ticket: Bytes,
      revision: int): Json {
    PutOption(
      JObj([Field("type", JStr("SEMP_HANDSHAKE")), Field("step", JStr("resume")), Field("party", JStr("server")),
            Field("version", JStr("1.0.0")), Field("nonce", JStr(Base64.Encode(nonce))),
            Field("server_id", JStr(cfg.localServerID)), Field("server_domain", JStr(cfg.localDomain)),
            Field("resumption_ticket", JStr(Base64.Encode(ticket))),
            Field("client_ephemeral_key", EphemeralKey(c, cfg.suite, ephPub)),
            Field("transport", JStr("websocket")), Field("extensions", Empty())]),
      "peer_configuration_revision", if revision > 0 then Some(JNum(revision)) else None)
  }

  // ---------------------------------------------------------------- what was signed

  /** An identity proof is never taken for a message. */
  lemma IdentityIsNoMessage(x: Bytes, v: Json)
    ensures IdentityInput(x) != HandshakeInput(v)
  {
    PrefixesDiffer();
    assert IdentityInput(x)[5] == PrefixBytes(IdentityPrefix())[5];
    assert HandshakeInput(v)[5] == PrefixBytes(HandshakePrefix())[5];
  }

  lemma PrefixesDiffer()
    ensures |PrefixBytes(IdentityPrefix())| > 5 && |PrefixBytes(HandshakePrefix())| > 5
    ensures PrefixBytes(IdentityPrefix())[5] != PrefixBytes(HandshakePrefix())[5]
  {
    var p, q := IdentityPrefix(), HandshakePrefix();
    assert p[5] == 'I' && q[5] == 'H';
  }

  ghost predicate IsConfirm(v: Json) {
    WellFormed(v) && v.JObj? && Get(v, "step") == Some(JStr("confirm"))
  }

  /** Bytes that are the signing input of no confirm message. */
  ghost predicate NoConfirm(b: Bytes) {
    forall v | IsConfirm(v) :: HandshakeInput(v) != b
  }

  lemma OtherStep(w: Json, step: string)
    requires Headed(w, step) && step != "confirm"
    ensures NoConfirm(HandshakeInput(w))
  {
    forall v | IsConfirm(v) ensures HandshakeInput(v) != HandshakeInput(w) {
      if HandshakeInput(v) == HandshakeInput(w) {
        ScalarAgrees(HandshakePrefix(), v, w, SIG_FIELD, "step");
      }
    }
  }

  lemma NoIdentity(x: Bytes)
    ensures NoConfirm(IdentityInput(x))
  {
    forall v | IsConfirm(v) ensures HandshakeInput(v) != IdentityInput(x) {
      IdentityIsNoMessage(x, v);
    }
  }
}
