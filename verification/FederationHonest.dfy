/** The handshake between two honest servers, with nothing altered on the way: every check passes, and both agree. */
module FederationHonest {
  import opened Wrappers
  import opened Json
  import opened JsonParser
  import opened Signing
  import opened FederationMessages
  import opened Federation
  import R = FederationRuns
  import Base64
  import opened Bits

  /** Signatures of a seed are accepted under its public key, and are not empty. */
  ghost predicate Signs(c: Crypto) {
    forall seed, m :: c.verify(c.pub(seed), c.sign(seed, m), m) && c.sign(seed, m) != []
  }

  // ---------------------------------------------------------------- a message on its way

  /** The text of a message. */
  function TextOf(c: Crypto, seed: Bytes, body: Json): string {
    Canonical(Sign(c, seed, body))
  }

  /** What arrives is the message, up to key order. */
  function Arrived(c: Crypto, seed: Bytes, body: Json): Json {
    Canon(Sign(c, seed, body))
  }

  ghost predicate Reads(m: Json, body: Json) {
    && WellFormed(m) && m.JObj?
    && (forall a | a != SIG_FIELD :: Scalar(Get(body, a)) ==> Get(m, a) == Get(body, a))
    && (forall a, b | a != SIG_FIELD && Get(body, a).Some? && Get(body, a).value.JObj? ::
          Scalar(Dig(body, a, b)) ==> Dig(m, a, b) == Dig(body, a, b))
    && (forall a | a != SIG_FIELD && Get(body, a).Some? :: Get(m, a) == Some(Canon(Get(body, a).value)))
  }

  lemma SignedShape(c: Crypto, seed: Bytes, body: Json, step: string)
    requires Headed(body, step)
    ensures var v := Sign(c, seed, body);
      Headed(v, step) && forall k | k != SIG_FIELD :: Get(v, k) == Get(body, k)
  {
    StampAgrees(body, SIG_FIELD, c.sign(seed, HandshakeInput(body)));
    assert |SIG_FIELD| == 16;
  }

  lemma ArrivedReads(c: Crypto, seed: Bytes, body: Json, step: string)
    requires Headed(body, step)
    ensures Reads(Arrived(c, seed, body), body)
  {
    var v := Sign(c, seed, body);
    SignedShape(c, seed, body, step);
    CanonWellFormed(v);
    CanonIdempotent(v);
    CanonReadsAlike(Canon(v), v);
    forall a | a != SIG_FIELD && Get(body, a).Some? ensures Get(Canon(v), a) == Some(Canon(Get(body, a).value)) {
      GetCanon(v, a);
    }
  }

  lemma ArrivedParses(c: Crypto, seed: Bytes, body: Json, step: string)
    requires Headed(body, step)
    ensures Receive(TextOf(c, seed, body), step) == Some(Arrived(c, seed, body))
  {
    SignedShape(c, seed, body, step);
    CanonicalRoundTrip(Sign(c, seed, body));
    ArrivedReads(c, seed, body, step);
    StepNames(Arrived(c, seed, body), body, step);
  }

  lemma StepNames(m: Json, body: Json, step: string)
    requires Headed(body, step) && Reads(m, body)
    ensures Get(m, "type") == Some(JStr("SEMP_HANDSHAKE")) && Get(m, "step") == Some(JStr(step))
    ensures Get(m, "party") == Some(JStr("server"))
  {
    assert |SIG_FIELD| == 16 && |"type"| == 4 && |"step"| == 4 && |"party"| == 5;
  }

  lemma ArrivedVerifies(c: Crypto, seed: Bytes, body: Json, step: string)
    requires Signs(c) && Headed(body, step)
    ensures Verifies(c, Arrived(c, seed, body), c.pub(seed))
  {
    var sig := c.sign(seed, HandshakeInput(body));
    var v := Sign(c, seed, body);
    SignedShape(c, seed, body, step);
    StampAgrees(body, SIG_FIELD, sig);
    SignatureText(sig);
    GetStamped(body, sig);
    GetCanon(v, SIG_FIELD);
    ArrivedInput(c, seed, body, step);
  }

  /** What arrives has the signing input of what was sent. */
  lemma ArrivedInput(c: Crypto, seed: Bytes, body: Json, step: string)
    requires Headed(body, step)
    ensures HandshakeInput(Arrived(c, seed, body)) == HandshakeInput(body)
  {
    var sig := c.sign(seed, HandshakeInput(body));
    SignedShape(c, seed, body, step);
    InputCanon(HandshakePrefix(), Sign(c, seed, body), SIG_FIELD);
    BlankAfterStamp(HandshakePrefix(), body, SIG_FIELD, sig);
  }

  lemma GetStamped(body: Json, sig: Bytes)
    requires body.JObj?
    ensures Get(Stamp(body, SIG_FIELD, sig), SIG_FIELD) == Some(JStr(Base64.Encode(sig)))
  {
    PutLaws();
  }

  // ---------------------------------------------------------------- suites offered

  lemma OffersCanon(v: Json, s: string)
    ensures Offers(Some(Canon(v)), s) == Offers(Some(v), s)
  {
    if v.JArr? {
      forall i | 0 <= i < |v.items| ensures Canon(v).items[i] == JStr(s) <==> v.items[i] == JStr(s) {}
    }
  }

  lemma {:induction false} PickSuiteCanon(v: Json, supported: seq<string>)
    ensures PickSuite(Some(Canon(v)), supported) == PickSuite(Some(v), supported)
  {
    if supported != [] {
      OffersCanon(v, supported[0]);
      PickSuiteCanon(v, supported[1..]);
    }
  }

  // ---------------------------------------------------------------- the two servers

  /** Two servers that know each other and accept each other's terms. */
  ghost predicate Partners(c: Crypto, i: InitiatorConfig, r: ResponderConfig) {
    && InitiatorConfigOk(i) && ResponderConfigOk(r) && i.suite == r.suite && i.domainProof != JNull
    && i.pinnedPriv == None && i.pinnedNonce == None && r.pinnedPriv == None && r.pinnedRandomness == None
    && r.pinnedNonce == None
    && i.peerDomain == r.localDomain && i.lookup(r.localDomain) == Some(c.pub(r.seed))
    && r.lookup(i.localDomain) == Some(c.pub(i.seed))
    && (forall nonce :: r.verifier(i.localDomain, Some(Canon(i.domainProof)), nonce))
    && i.acceptor(Some(Canon(r.policy))) == None
    && i.capabilities.JObj? && Get(i.capabilities, "encryption_algorithms").Some?
    && PickSuite(Get(i.capabilities, "encryption_algorithms"), r.algorithms) == Some(SuiteName(r.suite))
  }

  /** The key agreement works out on these random bytes. */
  ghost predicate KeysAgree(c: Crypto, suite: Suite, priv: Bytes, random: Bytes) {
    && ResponderShared(c, suite, random, EphemeralPub(c, suite, priv)).Some?
    && (suite == Hybrid ==> |c.hybridPub(priv)| == HYBRID_PUBLIC_KEY_SIZE)
  }

  /** The init message passes the responder's checks. */
  lemma InitAccepted(c: Crypto, i: InitiatorConfig, r: ResponderConfig, pub: Bytes, nonce: Bytes)
    requires Signs(c) && Partners(c, i, r)
    ensures CheckInit(c, NewResponder(r), Arrived(c, i.seed, InitBody(c, i, pub, nonce)))
      == Ok((i.localDomain, pub, nonce))
  {
    var body := InitBody(c, i, pub, nonce);
    InitShape(c, i, pub, nonce);
    BodyArrives(c, i.seed, body, "init");
    InitFields(c, i, Arrived(c, i.seed, body), body, pub, nonce);
    CapabilitiesRead(i, r, Arrived(c, i.seed, body), body);
    InitPasses(c, i, r, Arrived(c, i.seed, body), pub, nonce);
  }

  lemma InitPasses(c: Crypto, i: InitiatorConfig, r: ResponderConfig, m: Json, pub: Bytes, nonce: Bytes)
    requires Signs(c) && Partners(c, i, r) && InitCarries(c, m, i, pub, nonce) && Verifies(c, m, c.pub(i.seed))
    requires PickSuite(Dig(m, "capabilities", "encryption_algorithms"), r.algorithms) == Some(SuiteName(r.suite))
    ensures CheckInit(c, NewResponder(r), m) == Ok((i.localDomain, pub, nonce))
  {}

  lemma CapabilitiesRead(i: InitiatorConfig, r: ResponderConfig, m: Json, body: Json)
    requires Reads(m, body) && Get(body, "capabilities") == Some(i.capabilities) && WellFormed(i.capabilities)
    requires i.capabilities.JObj?
    requires Get(i.capabilities, "encryption_algorithms").Some?
    ensures PickSuite(Dig(m, "capabilities", "encryption_algorithms"), r.algorithms)
      == PickSuite(Get(i.capabilities, "encryption_algorithms"), r.algorithms)
  {
    assert |SIG_FIELD| == 16 && |"capabilities"| == 12;
    GetCanon(i.capabilities, "encryption_algorithms");
    PickSuiteCanon(Get(i.capabilities, "encryption_algorithms").value, r.algorithms);
  }

  ghost predicate InitCarries(c: Crypto, m: Json, i: InitiatorConfig, pub: Bytes, nonce: Bytes) {
    && Get(m, "server_domain") == Some(JStr(i.localDomain))
    && DecodeField(Dig(m, "server_ephemeral_key", "key")) == Some(pub)
    && DecodeField(Get(m, "nonce")) == Some(nonce)
    && DecodeField(Dig(m, "server_identity_proof", "signature")) == Some(c.sign(i.seed, IdentityInput(pub + nonce)))
    && Get(m, "domain_proof") == Some(Canon(i.domainProof))
  }

  lemma ReadBytes(m: Json, body: Json, a: string, x: Bytes)
    requires Reads(m, body) && a != SIG_FIELD && Get(body, a) == Some(JStr(Base64.Encode(x)))
    ensures DecodeField(Get(m, a)) == Some(x)
  {
    Base64.RoundTrip(x);
  }

  lemma ReadInnerBytes(m: Json, body: Json, a: string, b: string, x: Bytes)
    requires Reads(m, body) && a != SIG_FIELD && Get(body, a).Some? && Get(body, a).value.JObj?
    requires Dig(body, a, b).Some? && Dig(body, a, b).value.JStr? && DecodeField(Dig(body, a, b)) == Some(x)
    ensures DecodeField(Dig(m, a, b)) == Some(x)
  {}

  lemma KeyBytes(c: Crypto, suite: Suite, key: Bytes)
    ensures var v := EphemeralKey(c, suite, key);
      v.JObj? && Get(v, "key").Some? && Get(v, "key").value.JStr? && DecodeField(Get(v, "key")) == Some(key)
  {
    KeyShape(c, suite, key);
    Base64.RoundTrip(key);
  }

  lemma ProofBytes(keyId: string, sig: Bytes)
    ensures var v := Proof(keyId, sig);
      && v.JObj? && Get(v, "signature").Some? && Get(v, "signature").value.JStr?
      && DecodeField(Get(v, "signature")) == Some(sig)
  {
    ProofShape(keyId, sig);
  }

  lemma InitBytes(c: Crypto, i: InitiatorConfig, m: Json, body: Json, pub: Bytes, nonce: Bytes)
    requires Reads(m, body) && Get(body, "nonce") == Some(JStr(Base64.Encode(nonce)))
    requires Get(body, "server_ephemeral_key") == Some(EphemeralKey(c, i.suite, pub))
    ensures DecodeField(Dig(m, "server_ephemeral_key", "key")) == Some(pub)
    ensures DecodeField(Get(m, "nonce")) == Some(nonce)
  {
    KeyBytes(c, i.suite, pub);
    assert |SIG_FIELD| == 16 && |"nonce"| == 5 && |"server_ephemeral_key"| == 20;
    ReadBytes(m, body, "nonce", nonce);
    ReadInnerBytes(m, body, "server_ephemeral_key", "key", pub);
  }

  lemma ProofRead(m: Json, body: Json, keyId: string, sig: Bytes)
    requires Reads(m, body) && Get(body, "server_identity_proof") == Some(Proof(keyId, sig))
    ensures DecodeField(Dig(m, "server_identity_proof", "signature")) == Some(sig)
  {
    ProofBytes(keyId, sig);
    assert |SIG_FIELD| == 16 && |"server_identity_proof"| == 21;
    ReadInnerBytes(m, body, "server_identity_proof", "signature", sig);
  }

  lemma ReadScalar(m: Json, body: Json, key: string)
    requires Reads(m, body) && |key| != 16 && Scalar(Get(body, key))
    ensures Get(m, key) == Get(body, key)
  {
    assert |SIG_FIELD| == 16;
  }

  lemma InitFields(c: Crypto, i: InitiatorConfig, m: Json, body: Json, pub: Bytes, nonce: Bytes)
    requires Reads(m, body)
    requires Get(body, "server_domain") == Some(JStr(i.localDomain))
    requires Get(body, "nonce") == Some(JStr(Base64.Encode(nonce)))
    requires Get(body, "server_ephemeral_key") == Some(EphemeralKey(c, i.suite, pub))
    requires Get(body, "server_identity_proof") == Some(InitProof(c, i, pub, nonce))
    requires Get(body, "domain_proof") == Some(i.domainProof)
    ensures InitCarries(c, m, i, pub, nonce)
  {
    InitBytes(c, i, m, body, pub, nonce);
    ProofRead(m, body, c.fingerprint(c.pub(i.seed)), c.sign(i.seed, IdentityInput(pub + nonce)));
    assert |SIG_FIELD| == 16 && |"domain_proof"| == 12;
    ReadScalar(m, body, "server_domain");
  }

  // ---------------------------------------------------------------- the response

  ghost predicate RespCarries(c: Crypto, m: Json, i: InitiatorConfig, r: ResponderConfig, id: string, key: Bytes,
      n: Bytes, nonce: Bytes) {
    && Get(m, "server_domain") == Some(JStr(r.localDomain))
    && Get(m, "client_nonce") == Some(JStr(Base64.Encode(nonce)))
    && Get(m, "session_id") == Some(JStr(id))
    && Dig(m, "domain_verification_result", "status") == Some(JStr("verified"))
    && DecodeField(Dig(m, "server_ephemeral_key", "key")) == Some(key) && DecodeField(Get(m, "server_nonce")) == Some(n)
    && DecodeField(Dig(m, "server_identity_proof", "signature")) == Some(c.sign(r.seed, IdentityInput(key + n + nonce)))
    && Get(m, "federation_policy") == Some(Canon(r.policy))
  }

  lemma StatusRead(m: Json, body: Json, init: Json)
    requires Reads(m, body) && WellFormed(init) && Get(body, "domain_verification_result") == Some(Verified(init))
    ensures Dig(m, "domain_verification_result", "status") == Some(JStr("verified"))
  {
    VerifiedShape(init);
    ReadInner(m, body, "domain_verification_result", "status", Verified(init));
  }

  lemma ReadInner(m: Json, body: Json, a: string, b: string, v: Json)
    requires Reads(m, body) && |a| != 16 && Get(body, a) == Some(v) && Get(v, b).Some? && Scalar(Get(v, b))
    ensures Dig(m, a, b) == Get(v, b)
  {
    assert |SIG_FIELD| == 16 && v.JObj?;
  }

  lemma RespScalars(m: Json, body: Json, r: ResponderConfig, id: string, nonce: Bytes, init: Json)
    requires Reads(m, body) && WellFormed(init)
    requires Get(body, "server_domain") == Some(JStr(r.localDomain))
    requires Get(body, "client_nonce") == Some(JStr(Base64.Encode(nonce)))
    requires Get(body, "session_id") == Some(JStr(id))
    requires Get(body, "domain_verification_result") == Some(Verified(init))
    requires Get(body, "federation_policy") == Some(r.policy)
    ensures Get(m, "server_domain") == Some(JStr(r.localDomain))
    ensures Get(m, "client_nonce") == Some(JStr(Base64.Encode(nonce)))
    ensures Get(m, "session_id") == Some(JStr(id))
    ensures Dig(m, "domain_verification_result", "status") == Some(JStr("verified"))
    ensures Get(m, "federation_policy") == Some(Canon(r.policy))
  {
    StatusRead(m, body, init);
    ReadScalar(m, body, "server_domain");
    ReadScalar(m, body, "client_nonce");
    ReadScalar(m, body, "session_id");
    assert |SIG_FIELD| == 16 && |"federation_policy"| == 17;
  }

  lemma RespBytes(c: Crypto, m: Json, body: Json, r: ResponderConfig, key: Bytes, n: Bytes, nonce: Bytes)
    requires Reads(m, body) && Get(body, "server_ephemeral_key") == Some(EphemeralKey(c, r.suite, key))
    requires Get(body, "server_nonce") == Some(JStr(Base64.Encode(n)))
    requires Get(body, "server_identity_proof") == Some(RespProof(c, r, key, n, nonce))
    ensures DecodeField(Dig(m, "server_ephemeral_key", "key")) == Some(key)
    ensures DecodeField(Get(m, "server_nonce")) == Some(n)
    ensures DecodeField(Dig(m, "server_identity_proof", "signature"))
      == Some(c.sign(r.seed, IdentityInput(key + n + nonce)))
  {
    KeyBytes(c, r.suite, key);
    assert |SIG_FIELD| == 16 && |"server_nonce"| == 12 && |"server_ephemeral_key"| == 20;
    ReadBytes(m, body, "server_nonce", n);
    ReadInnerBytes(m, body, "server_ephemeral_key", "key", key);
    ProofRead(m, body, c.fingerprint(c.pub(r.seed)), c.sign(r.seed, IdentityInput(key + n + nonce)));
  }

  /** The response arrives and passes the initiator's checks. */
  lemma RespAccepted(c: Crypto, i: InitiatorConfig, r: ResponderConfig, s: Initiator, init: Json, id: string,
      key: Bytes, n: Bytes, nonce: Bytes)
    requires Signs(c) && Partners(c, i, r) && s.cfg == i && s.nonce == Some(nonce)
    requires WellFormed(init) && Get(init, "nonce") == Some(JStr(Base64.Encode(nonce)))
    ensures var body := RespBody(c, r, init, id, key, n, nonce);
      && RespCarries(c, Arrived(c, r.seed, body), i, r, id, key, n, nonce)
      && CheckResponse(c, s, Arrived(c, r.seed, body)) == Ok((key, n))
  {
    var body := RespBody(c, r, init, id, key, n, nonce);
    RespHeaded(c, r, init, id, key, n, nonce);
    RespKeys(c, r, init, id, key, n, nonce);
    RespTerms(c, r, init, id, key, n, nonce);
    var m := Arrived(c, r.seed, body);
    ArrivedReads(c, r.seed, body, "response");
    ArrivedVerifies(c, r.seed, body, "response");
    RespScalars(m, body, r, id, nonce, init);
    RespBytes(c, m, body, r, key, n, nonce);
    RespPasses(c, i, r, s, m, id, key, n, nonce);
  }

  lemma RespPasses(c: Crypto, i: InitiatorConfig, r: ResponderConfig, s: Initiator, m: Json, id: string, key: Bytes,
      n: Bytes, nonce: Bytes)
    requires Signs(c) && Partners(c, i, r) && s.cfg == i && s.nonce == Some(nonce)
    requires RespCarries(c, m, i, r, id, key, n, nonce) && Verifies(c, m, c.pub(r.seed))
    ensures CheckResponse(c, s, m) == Ok((key, n))
  {}

  // ---------------------------------------------------------------- confirm and accepted

  lemma ConfirmAccepted(c: Crypto, s: Responder, seed: Bytes, id: string, hash: Bytes)
    requires Signs(c) && s.initText.Some? && s.respText.Some? && s.sessionId == id
    requires hash == ConfirmationHash(c, s.initText.value, s.respText.value)
    requires s.cfg.lookup(s.peerDomain) == Some(c.pub(seed))
    ensures var body := ConfirmBody(Some(JStr(id)), hash, None);
      && Receive(TextOf(c, seed, body), "confirm") == Some(Arrived(c, seed, body))
      && CheckConfirm(c, s, Arrived(c, seed, body)) == None
  {
    var body := ConfirmBody(Some(JStr(id)), hash, None);
    ConfirmShape(Some(JStr(id)), hash, None);
    AcceptanceShape(None);
    ArrivedParses(c, seed, body, "confirm");
    ArrivedReads(c, seed, body, "confirm");
    ArrivedVerifies(c, seed, body, "confirm");
    ConfirmReads(c, Arrived(c, seed, body), body, id, hash);
  }

  lemma ConfirmReads(c: Crypto, m: Json, body: Json, id: string, hash: Bytes)
    requires Reads(m, body) && Get(body, "session_id") == Some(JStr(id))
    requires Get(body, "confirmation_hash") == Some(JStr(Base64.Encode(hash)))
    requires Get(body, "federation_acceptance").Some? && Get(body, "federation_acceptance").value.JObj?
    requires Dig(body, "federation_acceptance", "accepted") == Some(JBool(true))
    ensures Get(m, "session_id") == Some(JStr(id)) && DecodeField(Get(m, "confirmation_hash")) == Some(hash)
    ensures Dig(m, "federation_acceptance", "accepted") == Some(JBool(true))
  {
    assert |SIG_FIELD| == 16 && |"session_id"| == 10 && |"confirmation_hash"| == 17 && |"federation_acceptance"| == 21;
    ReadBytes(m, body, "confirmation_hash", hash);
  }

  lemma AcceptedReads(m: Json, body: Json, id: string, ttl: int)
    requires Reads(m, body) && Get(body, "session_id") == Some(JStr(id)) && Get(body, "session_ttl") == Some(JNum(ttl))
    ensures Get(m, "session_id") == Some(JStr(id)) && Get(m, "session_ttl") == Some(JNum(ttl))
  {
    assert |SIG_FIELD| == 16 && |"session_id"| == 10 && |"session_ttl"| == 11;
  }

  lemma AcceptedArrives(c: Crypto, seed: Bytes, id: string, ttl: int, ticket: Option<Json>)
    requires Signs(c) && (ticket.Some? ==> WellFormed(ticket.value))
    ensures var body := AcceptedBody(id, ttl, ticket);
      var m := Arrived(c, seed, body);
      && Receive(TextOf(c, seed, body), "accepted") == Some(m) && Verifies(c, m, c.pub(seed))
      && Get(m, "session_id") == Some(JStr(id)) && Get(m, "session_ttl") == Some(JNum(ttl))
  {
    AcceptedShape(id, ttl, ticket);
    BodyArrives(c, seed, AcceptedBody(id, ttl, ticket), "accepted");
    AcceptedReads(Arrived(c, seed, AcceptedBody(id, ttl, ticket)), AcceptedBody(id, ttl, ticket), id, ttl);
  }

  /** All there is to say of a message that is not altered. */
  lemma BodyArrives(c: Crypto, seed: Bytes, body: Json, step: string)
    requires Signs(c) && Headed(body, step)
    ensures Receive(TextOf(c, seed, body), step) == Some(Arrived(c, seed, body))
    ensures Reads(Arrived(c, seed, body), body) && Verifies(c, Arrived(c, seed, body), c.pub(seed))
    ensures Canonical(Arrived(c, seed, body)) == TextOf(c, seed, body)
  {
    ArrivedParses(c, seed, body, step);
    ArrivedReads(c, seed, body, step);
    ArrivedVerifies(c, seed, body, step);
    SignedShape(c, seed, body, step);
    CanonIdempotent(Sign(c, seed, body));
  }

  // ---------------------------------------------------------------- the run

  /** The initiator after `init`. */
  ghost predicate Started(c: Crypto, s: Initiator, i: InitiatorConfig, priv: Bytes, nonce: Bytes, text: string) {
    && s.cfg == i && s.nonce == Some(nonce) && s.ephPriv == Some(priv)
    && s.ephPub == Some(EphemeralPub(c, i.suite, priv))
    && s.initText == Some(text)
  }

  lemma StepInit(c: Crypto, i: InitiatorConfig, priv: Bytes, nonce: Bytes)
    requires i.pinnedPriv == None && i.pinnedNonce == None
    ensures var a := Init(c, NewInitiator(i), priv, nonce);
      && a.out == Ok(TextOf(c, i.seed, InitBody(c, i, EphemeralPub(c, i.suite, priv), nonce)))
      && Started(c, a.state, i, priv, nonce, a.out.value)
  {}

  /** The responder after `onInit`. */
  ghost predicate Answering(c: Crypto, s: Responder, r: ResponderConfig, i: InitiatorConfig, id: string, keys: Bytes,
      init: string, resp: string) {
    && s.cfg == r && s.sessionId == id && s.peerDomain == i.localDomain && s.keys == Some(keys)
    && s.initText == Some(init) && s.respText == Some(resp)
  }

  lemma StepOnInit(c: Crypto, i: InitiatorConfig, r: ResponderConfig, text: string, m: Json, pub: Bytes, nonce: Bytes,
      random: Bytes, n: Bytes, id: string, key: (Bytes, Bytes))
    requires Partners(c, i, r) && Receive(text, "init") == Some(m)
    requires CheckInit(c, NewResponder(r), m) == Ok((i.localDomain, pub, nonce))
    requires ResponderShared(c, r.suite, random, pub) == Some(key)
    ensures Get(m, "nonce").Some?
    ensures var b := OnInit(c, NewResponder(r), text, random, n, id);
      && b.out == Ok(TextOf(c, r.seed, RespBody(c, r, m, id, key.0, n, nonce)))
      && Answering(c, b.state, r, i, id, c.derive(key.1, nonce + n), text, b.out.value)
  {}

  /** The initiator after `onResponse`. */
  ghost predicate Agreed(s: Initiator, i: InitiatorConfig, id: string, keys: Bytes) {
    s.cfg == i && s.sessionId == Some(JStr(id)) && s.keys == Some(keys)
  }

  lemma TakesAnswer(c: Crypto, s: Initiator, i: InitiatorConfig, priv: Bytes, nonce: Bytes, init: string, text: string,
      m: Json, key: (Bytes, Bytes), n: Bytes)
    requires Started(c, s, i, priv, nonce, init) && Receive(text, "response") == Some(m)
    requires CheckResponse(c, s, m) == Ok((key.0, n)) && InitiatorShared(c, i.suite, priv, key.0) == Some(key.1)
    requires i.suite == Hybrid ==> |EphemeralPub(c, i.suite, priv)| == HYBRID_PUBLIC_KEY_SIZE
    ensures TakeResponse(c, s, text) == Ok(Answer(m, key.0, n, key.1))
  {}

  lemma StepOnResponse(c: Crypto, s: Initiator, i: InitiatorConfig, priv: Bytes, nonce: Bytes, init: string,
      text: string,
      m: Json, id: string, key: (Bytes, Bytes), n: Bytes)
    requires Started(c, s, i, priv, nonce, init) && TakeResponse(c, s, text) == Ok(Answer(m, key.0, n, key.1))
    requires Get(m, "session_id") == Some(JStr(id))
    requires i.acceptor(Get(m, "federation_policy")) == None && Canonical(m) == text
    ensures var d := OnResponse(c, s, text);
      && d.out == Ok(TextOf(c, i.seed, ConfirmBody(Some(JStr(id)), ConfirmationHash(c, init, text), None)))
      && Agreed(d.state, i, id, c.derive(key.1, nonce + n))
  {}

  lemma StepOnConfirm(c: Crypto, s: Responder, r: ResponderConfig, i: InitiatorConfig, id: string, keys: Bytes,
      init: string, resp: string,
      text: string, m: Json, ticket: Option<Json>)
    requires Answering(c, s, r, i, id, keys, init, resp) && Receive(text, "confirm") == Some(m)
    requires CheckConfirm(c, s, m) == None
    ensures var e := OnConfirm(c, s, text, ticket);
      && e.out == Ok(TextOf(c, r.seed, AcceptedBody(id, r.ttl, ticket)))
      && e.state.session == Some(ResponderSession(id, r.ttl, keys, i.localDomain))
  {}

  lemma StepOnAccepted(c: Crypto, s: Initiator, i: InitiatorConfig, id: string, keys: Bytes, text: string, m: Json,
      pub: Bytes, ttl: int)
    requires Agreed(s, i, id, keys) && Receive(text, "accepted") == Some(m) && i.lookup(i.peerDomain) == Some(pub)
    requires Verifies(c, m, pub)
    requires Get(m, "session_id") == Some(JStr(id)) && Get(m, "session_ttl") == Some(JNum(ttl))
    ensures var f := OnAccepted(c, s, text);
      && f.out.Ok?
      && f.state.session == Some(InitiatorSession(JStr(id), if ttl > 0 then ttl else 3600, keys, i.peerDomain))
  {}

  lemma InitArrives(c: Crypto, i: InitiatorConfig, pub: Bytes, nonce: Bytes)
    requires Signs(c) && InitiatorConfigOk(i)
    ensures var m := Arrived(c, i.seed, InitBody(c, i, pub, nonce));
      && WellFormed(m) && Get(m, "nonce") == Some(JStr(Base64.Encode(nonce)))
      && Receive(TextOf(c, i.seed, InitBody(c, i, pub, nonce)), "init") == Some(m)
  {
    InitShape(c, i, pub, nonce);
    BodyArrives(c, i.seed, InitBody(c, i, pub, nonce), "init");
    ReadNonce(Arrived(c, i.seed, InitBody(c, i, pub, nonce)), InitBody(c, i, pub, nonce), nonce);
  }

  lemma ReadNonce(m: Json, body: Json, nonce: Bytes)
    requires Reads(m, body) && Get(body, "nonce") == Some(JStr(Base64.Encode(nonce)))
    ensures Get(m, "nonce") == Some(JStr(Base64.Encode(nonce)))
  {
    assert |SIG_FIELD| == 16 && |"nonce"| == 5;
  }

  /** What the responder makes of the init message as it was sent. */
  lemma FirstHalf(c: Crypto, i: InitiatorConfig, r: ResponderConfig, m: Json, text: string, pub: Bytes, nonce: Bytes,
      random: Bytes, n: Bytes, id: string, key: (Bytes, Bytes))
    requires Signs(c) && Partners(c, i, r) && ResponderShared(c, r.suite, random, pub) == Some(key)
    requires m == Arrived(c, i.seed, InitBody(c, i, pub, nonce))
    requires text == TextOf(c, i.seed, InitBody(c, i, pub, nonce))
    ensures WellFormed(m) && Get(m, "nonce") == Some(JStr(Base64.Encode(nonce)))
    ensures var b := OnInit(c, NewResponder(r), text, random, n, id);
      && b.out == Ok(TextOf(c, r.seed, RespBody(c, r, m, id, key.0, n, nonce)))
      && Answering(c, b.state, r, i, id, c.derive(key.1, nonce + n), text, b.out.value)
  {
    InitArrives(c, i, pub, nonce);
    InitAccepted(c, i, r, pub, nonce);
    StepOnInit(c, i, r, text, m, pub, nonce, random, n, id, key);
  }

  /** What the initiator makes of the response as it was sent. */
  lemma SecondHalf(c: Crypto, i: InitiatorConfig, r: ResponderConfig, s: Initiator, priv: Bytes, nonce: Bytes,
      init: string, m: Json,
      n: Bytes, id: string, key: (Bytes, Bytes))
    requires Signs(c) && Partners(c, i, r) && Started(c, s, i, priv, nonce, init)
    requires WellFormed(m) && Get(m, "nonce") == Some(JStr(Base64.Encode(nonce)))
    requires InitiatorShared(c, i.suite, priv, key.0) == Some(key.1)
    requires i.suite == Hybrid ==> |EphemeralPub(c, i.suite, priv)| == HYBRID_PUBLIC_KEY_SIZE
    ensures var text := TextOf(c, r.seed, RespBody(c, r, m, id, key.0, n, nonce));
      var d := OnResponse(c, s, text);
      && d.out == Ok(TextOf(c, i.seed, ConfirmBody(Some(JStr(id)), ConfirmationHash(c, init, text), None)))
      && Agreed(d.state, i, id, c.derive(key.1, nonce + n))
  {
    var body := RespBody(c, r, m, id, key.0, n, nonce);
    RespHeaded(c, r, m, id, key.0, n, nonce);
    BodyArrives(c, r.seed, body, "response");
    RespAccepted(c, i, r, s, m, id, key.0, n, nonce);
    TakesAnswer(c, s, i, priv, nonce, init, TextOf(c, r.seed, body), Arrived(c, r.seed, body), key, n);
    StepOnResponse(c, s, i, priv, nonce, init, TextOf(c, r.seed, body), Arrived(c, r.seed, body), id, key, n);
  }

  /** The four messages, one after another, each handed over as it was sent. */
  ghost predicate Completes(c: Crypto, i: InitiatorConfig, r: ResponderConfig, priv: Bytes, nonce: Bytes,
      random: Bytes, n: Bytes,
      id: string, ticket: Option<Json>)
  {
    var a := Init(c, NewInitiator(i), priv, nonce);
    a.out.Ok? &&
    var b := OnInit(c, NewResponder(r), a.out.value, random, n, id);
    b.out.Ok? && b.state.cfg == r && b.state.peerDomain == i.localDomain &&
    var d := OnResponse(c, a.state, b.out.value);
    d.out.Ok? &&
    var e := OnConfirm(c, b.state, d.out.value, ticket);
    e.out.Ok? &&
    var f := OnAccepted(c, d.state, e.out.value);
    f.out.Ok? && SameSession(f.state.session, e.state.session, i, r, id)
  }

  /** Both ends hold the session: the same id, the same keys, each other's domain. */
  ghost predicate SameSession(x: Option<InitiatorSession>, y: Option<ResponderSession>, i: InitiatorConfig,
      r: ResponderConfig, id: string) {
    && x.Some? && y.Some? && x.value.sessionId == JStr(id) && y.value.sessionId == id && x.value.keys == y.value.keys
    && x.value.peerDomain == r.localDomain && y.value.peerDomain == i.localDomain && y.value.ttl == r.ttl
    && x.value.ttl == if r.ttl > 0 then r.ttl else 3600
  }

  /** The last two messages. */
  lemma LastHalf(c: Crypto, i: InitiatorConfig, r: ResponderConfig, s: Responder, t: Initiator, id: string, keys: Bytes,
      init: string, resp: string, text: string, ticket: Option<Json>)
    requires Signs(c) && Partners(c, i, r) && Answering(c, s, r, i, id, keys, init, resp) && Agreed(t, i, id, keys)
    requires text == TextOf(c, i.seed, ConfirmBody(Some(JStr(id)), ConfirmationHash(c, init, resp), None))
    requires ticket.Some? ==> WellFormed(ticket.value)
    ensures var e := OnConfirm(c, s, text, ticket);
      && e.out.Ok?
      && var f := OnAccepted(c, t, e.out.value);
         f.out.Ok? && SameSession(f.state.session, e.state.session, i, r, id)
  {
    var body := ConfirmBody(Some(JStr(id)), ConfirmationHash(c, init, resp), None);
    ConfirmAccepted(c, s, i.seed, id, ConfirmationHash(c, init, resp));
    StepOnConfirm(c, s, r, i, id, keys, init, resp, text, Arrived(c, i.seed, body), ticket);
    AcceptedArrives(c, r.seed, id, r.ttl, ticket);
    var last := AcceptedBody(id, r.ttl, ticket);
    StepOnAccepted(c, t, i, id, keys, TextOf(c, r.seed, last), Arrived(c, r.seed, last), c.pub(r.seed), r.ttl);
  }

  /** Between partners, with nothing altered on the way, the handshake completes and both ends hold the same session. */
  lemma HonestRunCompletes(c: Crypto, i: InitiatorConfig, r: ResponderConfig, priv: Bytes, nonce: Bytes,
      random: Bytes, n: Bytes,
      id: string, ticket: Option<Json>)
    requires Ideal(c) && Signs(c) && Partners(c, i, r) && KeysAgree(c, i.suite, priv, random)
    requires ticket.Some? ==> WellFormed(ticket.value)
    ensures Completes(c, i, r, priv, nonce, random, n, id, ticket)
  {
    var pub := EphemeralPub(c, i.suite, priv);
    var key := ResponderShared(c, i.suite, random, pub).value;
    SharedSecret(c, i.suite, priv, random, key);
    StepInit(c, i, priv, nonce);
    var a := Init(c, NewInitiator(i), priv, nonce);
    var m := Arrived(c, i.seed, InitBody(c, i, pub, nonce));
    FirstHalf(c, i, r, m, a.out.value, pub, nonce, random, n, id, key);
    SecondHalf(c, i, r, a.state, priv, nonce, a.out.value, m, n, id, key);
    var b := OnInit(c, NewResponder(r), a.out.value, random, n, id);
    var d := OnResponse(c, a.state, b.out.value);
    LastHalf(c, i, r, b.state, d.state, id, c.derive(key.1, nonce + n), a.out.value, b.out.value, d.out.value, ticket);
  }

  // ---------------------------------------------------------------- as a run of the system

  lemma RunNext(c: Crypto, actions: seq<R.Action>, k: nat)
    requires k < |actions|
    ensures R.Run(c, actions[..k + 1]) == R.Next(c, R.Run(c, actions[..k]), actions[k])
  {
    assert actions[..k + 1][..k] == actions[..k];
  }

  /** One initiator and one responder, in these states. */
  ghost predicate Two(sys: R.System, s: Initiator, t: Responder) {
    |sys.initiators| == 1 && |sys.responders| == 1 && sys.initiators[0].state == s && sys.responders[0] == t
  }

  /** The system after the first `k` actions. */
  ghost predicate At(c: Crypto, actions: seq<R.Action>, k: nat, s: Initiator, t: Responder) {
    k <= |actions| && Two(R.Run(c, actions[..k]), s, t)
  }

  lemma Founded(c: Crypto, actions: seq<R.Action>, i: InitiatorConfig, r: ResponderConfig)
    requires InitiatorConfigOk(i) && ResponderConfigOk(r)
    requires |actions| >= 2 && actions[0] == R.NewInitiatorAction(i) && actions[1] == R.NewResponderAction(r)
    ensures At(c, actions, 2, NewInitiator(i), NewResponder(r))
  {
    assert actions[..0] == [];
    RunNext(c, actions, 0);
    RunNext(c, actions, 1);
  }

  lemma AfterInit(c: Crypto, actions: seq<R.Action>, k: nat, s: Initiator, t: Responder, priv: Bytes, nonce: Bytes)
    requires At(c, actions, k, s, t) && k < |actions| && actions[k] == R.InitiatorAction(0, R.InitCall(priv, nonce))
    ensures At(c, actions, k + 1, Init(c, s, priv, nonce).state, t)
  {
    RunNext(c, actions, k);
  }

  lemma AfterInitMessage(c: Crypto, actions: seq<R.Action>, k: nat, s: Initiator, t: Responder, data: string,
      random: Bytes, n: Bytes, id: string)
    requires At(c, actions, k, s, t) && k < |actions|
    requires actions[k] == R.ResponderAction(0, R.InitMessageCall(data, random, n, id))
    ensures At(c, actions, k + 1, s, OnInit(c, t, data, random, n, id).state)
  {
    RunNext(c, actions, k);
  }

  lemma StepLogs(c: Crypto, sys: R.System, s: Initiator, t: Responder, step: Step<Initiator>, origin: Option<R.Origin>,
      es: seq<R.Confirmed>, input: Bytes)
    requires Two(sys, s, t) && step.signed == [input]
    ensures var next := R.AfterInitiator(c, sys, 0, step, origin, es);
      next.responders == [t] && R.Entry(c.pub(s.cfg.seed), input) in next.log
  {
    var next := R.AfterInitiator(c, sys, 0, step, origin, es);
    assert next.log[|sys.log|] == R.Entry(c.pub(s.cfg.seed), input);
  }

  /** A call of `onResponse` leaves its signature in the log. */
  lemma ResponseLogs(c: Crypto, sys: R.System, s: Initiator, t: Responder, resp: string, input: Bytes, next: R.System)
    requires Two(sys, s, t) && OnResponse(c, s, resp).signed == [input]
    requires next == R.Next(c, sys, R.InitiatorAction(0, R.ResponseCall(resp)))
    ensures next.responders == [t] && R.Entry(c.pub(s.cfg.seed), input) in next.log
  {
    var tracked := sys.initiators[0];
    StepLogs(c, sys, s, t, OnResponse(c, s, resp), tracked.origin, R.EventOf(c, tracked, resp), input);
  }

  lemma ConfirmsWith(c: Crypto, sys: R.System, t: Responder, pub: Bytes, text: string, input: Bytes,
      ticket: Option<Json>)
    requires sys.responders == [t] && R.Entry(pub, input) in sys.log && t.cfg.lookup(t.peerDomain) == Some(pub)
    requires Receive(text, "confirm").Some? && HandshakeInput(Receive(text, "confirm").value) == input
    requires OnConfirm(c, t, text, ticket).out.Ok?
    ensures Concluded(c, sys, t, text, ticket)
  {
    LoggedIsGenuine(c, sys, pub, Receive(text, "confirm").value);
  }

  /** The confirmation is taken, and `Agreement` speaks of it. */
  ghost predicate Concluded(c: Crypto, sys: R.System, t: Responder, text: string, ticket: Option<Json>) {
    sys.responders == [t] && R.Confirms(c, sys, t, text, ticket)
  }

  lemma AfterResponse(c: Crypto, actions: seq<R.Action>, k: nat, s: Initiator, t: Responder, resp: string, text: string,
      ticket: Option<Json>)
    requires At(c, actions, k, s, t) && |actions| == k + 1 && actions[k] == R.InitiatorAction(0, R.ResponseCall(resp))
    requires OnResponse(c, s, resp).out == Ok(text) && OnConfirm(c, t, text, ticket).out.Ok?
    requires t.cfg.lookup(t.peerDomain) == Some(c.pub(s.cfg.seed))
    ensures Concluded(c, R.Run(c, actions), t, text, ticket)
  {
    var input := SentInput(c, s, resp, text);
    ResponseLogged(c, actions, k, s, t, resp, input);
    ConfirmsWith(c, R.Run(c, actions), t, c.pub(s.cfg.seed), text, input, ticket);
  }

  lemma ResponseLogged(c: Crypto, actions: seq<R.Action>, k: nat, s: Initiator, t: Responder, resp: string,
      input: Bytes)
    requires At(c, actions, k, s, t) && |actions| == k + 1 && actions[k] == R.InitiatorAction(0, R.ResponseCall(resp))
    requires OnResponse(c, s, resp).signed == [input]
    ensures R.Run(c, actions).responders == [t] && R.Entry(c.pub(s.cfg.seed), input) in R.Run(c, actions).log
  {
    RunNext(c, actions, k);
    assert actions[..k + 1] == actions;
    ResponseLogs(c, R.Run(c, actions[..k]), s, t, resp, input, R.Run(c, actions));
  }

  /** The one input that a successful `onResponse` signs is that of the message it sends. */
  lemma SentInput(c: Crypto, s: Initiator, resp: string, text: string) returns (input: Bytes)
    requires OnResponse(c, s, resp).out == Ok(text)
    ensures OnResponse(c, s, resp).signed == [input] && Receive(text, "confirm").Some?
    ensures HandshakeInput(Receive(text, "confirm").value) == input
  {
    ConfirmSent(c, s, resp);
    input := HandshakeInput(ConfirmSentBody(c, s, resp));
    SentArrives(c, s.cfg.seed, ConfirmSentBody(c, s, resp), text);
  }

  lemma LoggedIsGenuine(c: Crypto, sys: R.System, pub: Bytes, m: Json)
    requires R.Entry(pub, HandshakeInput(m)) in sys.log
    ensures R.Genuine(c, sys, pub, m)
  {}

  /** These actions are the calls of the honest handshake, each text handed over as it was sent. */
  ghost predicate HonestActions(c: Crypto, actions: seq<R.Action>, i: InitiatorConfig, r: ResponderConfig, priv: Bytes,
      nonce: Bytes, random: Bytes, n: Bytes, id: string)
  {
    var a := Init(c, NewInitiator(i), priv, nonce);
    a.out.Ok? &&
    var b := OnInit(c, NewResponder(r), a.out.value, random, n, id);
    && b.out.Ok? && |actions| == 5
    && actions[0] == R.NewInitiatorAction(i) && actions[1] == R.NewResponderAction(r)
    && actions[2] == R.InitiatorAction(0, R.InitCall(priv, nonce))
    && actions[3] == R.ResponderAction(0, R.InitMessageCall(a.out.value, random, n, id))
    && actions[4] == R.InitiatorAction(0, R.ResponseCall(b.out.value))
  }

  /** The honest run is one that `Agreement` is about: its confirmation succeeds, and its signature is in the log. */
  lemma HonestRunConfirms(c: Crypto, actions: seq<R.Action>, i: InitiatorConfig, r: ResponderConfig, priv: Bytes,
      nonce: Bytes, random: Bytes, n: Bytes, id: string, ticket: Option<Json>)
    requires Ideal(c) && Signs(c) && Partners(c, i, r) && KeysAgree(c, i.suite, priv, random)
    requires (ticket.Some? ==> WellFormed(ticket.value)) && HonestActions(c, actions, i, r, priv, nonce, random, n, id)
    ensures var a := Init(c, NewInitiator(i), priv, nonce);
      var b := OnInit(c, NewResponder(r), a.out.value, random, n, id);
      var d := OnResponse(c, a.state, b.out.value);
      d.out.Ok? && Concluded(c, R.Run(c, actions), b.state, d.out.value, ticket)
  {
    HonestRunCompletes(c, i, r, priv, nonce, random, n, id, ticket);
    var a := Init(c, NewInitiator(i), priv, nonce);
    var b := OnInit(c, NewResponder(r), a.out.value, random, n, id);
    var d := OnResponse(c, a.state, b.out.value);
    Founded(c, actions, i, r);
    AfterInit(c, actions, 2, NewInitiator(i), NewResponder(r), priv, nonce);
    AfterInitMessage(c, actions, 3, a.state, NewResponder(r), a.out.value, random, n, id);
    InitKeepsConfig(c, NewInitiator(i), priv, nonce);
    AfterResponse(c, actions, 4, a.state, b.state, b.out.value, d.out.value, ticket);
  }

  lemma InitKeepsConfig(c: Crypto, s: Initiator, priv: Bytes, nonce: Bytes)
    ensures Init(c, s, priv, nonce).state.cfg == s.cfg
  {}

  /** The confirmation that `onResponse` sends. */
  function ConfirmSentBody(c: Crypto, s: Initiator, data: string): Json
    requires TakeResponse(c, s, data).Ok?
  {
    ConfirmFor(c, s.cfg, s.initText.value, TakeResponse(c, s, data).value.resp)
  }

  lemma ConfirmSent(c: Crypto, s: Initiator, data: string)
    requires OnResponse(c, s, data).out.Ok?
    ensures TakeResponse(c, s, data).Ok?
    ensures OnResponse(c, s, data).signed == [HandshakeInput(ConfirmSentBody(c, s, data))]
    ensures OnResponse(c, s, data).out == Ok(TextOf(c, s.cfg.seed, ConfirmSentBody(c, s, data)))
    ensures Headed(ConfirmSentBody(c, s, data), "confirm")
  {
    var resp := TakeResponse(c, s, data).value.resp;
    R.TakeResponseTakes(c, s, data);
    FieldWellFormed(resp, "session_id");
    ConfirmShape(Get(resp, "session_id"), ConfirmationHash(c, s.initText.value, Canonical(resp)),
                 s.cfg.acceptor(Get(resp, "federation_policy")));
  }

  lemma SentArrives(c: Crypto, seed: Bytes, body: Json, text: string)
    requires Headed(body, "confirm") && text == TextOf(c, seed, body)
    ensures Receive(text, "confirm").Some? && HandshakeInput(Receive(text, "confirm").value) == HandshakeInput(body)
  {
    ArrivedParses(c, seed, body, "confirm");
    ArrivedInput(c, seed, body, "confirm");
  }

  // ---------------------------------------------------------------- resuming too late

  lemma ResponseLeaves(c: Crypto, s: Initiator, data: string)
    requires OnResponse(c, s, data).out.Ok?
    ensures var t := OnResponse(c, s, data).state;
      && t.cfg == s.cfg && t.nonce == s.nonce && t.initText == s.initText && t.ephPriv.None?
      && t.resumeNonce == s.resumeNonce
  {}

  /** After its response an initiator that resumes makes a new key, and stands as if `init` had announced that one. */
  lemma ResumesAfresh(c: Crypto, s: Initiator, i: InitiatorConfig, nonce: Bytes, text: string, secret: Bytes,
      ticket: Bytes, revision: int, newPriv: Bytes, newNonce: Bytes)
    requires s.cfg == i && i.suite == Baseline && s.nonce == Some(nonce) && s.initText == Some(text) && s.ephPriv.None?
    requires secret != [] && ticket != []
    ensures var resumed := Resume(c, LoadSecret(s, secret).state, ticket, revision, newPriv, newNonce).state;
      Started(c, resumed, i, newPriv, nonce, text)
  {}

  /**
   * The input on which the keys part: init, response, then the secret of an earlier session is loaded and resumed, and
   * the same response handed over again.  The second confirmation is the first one, letter for letter, and the
   * responder takes it; the initiator's keys are now those of the new ephemeral key, and where primitives separate keys
   * they are others than the responder's, unless the two ephemeral keys have the same public key.
   */
  lemma LateResume(c: Crypto, i: InitiatorConfig, r: ResponderConfig, priv: Bytes, nonce: Bytes, random: Bytes,
      n: Bytes,
      id: string, secret: Bytes, ticket: Bytes, newPriv: Bytes, newNonce: Bytes)
    requires Ideal(c) && Signs(c) && Partners(c, i, r) && KeysAgree(c, i.suite, priv, random) && i.suite == Baseline
    requires secret != [] && ticket != [] && c.agree(newPriv, c.dhPub(random)).Some?
    ensures var a := Init(c, NewInitiator(i), priv, nonce);
      a.out.Ok? &&
      var b := OnInit(c, NewResponder(r), a.out.value, random, n, id);
      b.out.Ok? &&
      var d := OnResponse(c, a.state, b.out.value);
      var resumed := Resume(c, LoadSecret(d.state, secret).state, ticket, 0, newPriv, newNonce);
      var again := OnResponse(c, resumed.state, b.out.value);
      && d.out.Ok? && again.out == d.out && OnConfirm(c, b.state, again.out.value, None).out.Ok?
      && c.agree(priv, c.dhPub(random)).Some?
      && b.state.keys == Some(c.derive(c.agree(priv, c.dhPub(random)).value, nonce + n))
      && again.state.keys == Some(c.derive(c.agree(newPriv, c.dhPub(random)).value, nonce + n))
      && (R.Separates(c) ==> (again.state.keys == b.state.keys <==> c.dhPub(newPriv) == c.dhPub(priv)))
  {
    HonestRunCompletes(c, i, r, priv, nonce, random, n, id, None);
    var pub := EphemeralPub(c, i.suite, priv);
    var key := ResponderShared(c, i.suite, random, pub).value;
    SharedSecret(c, i.suite, priv, random, key);
    StepInit(c, i, priv, nonce);
    var a := Init(c, NewInitiator(i), priv, nonce);
    var m := Arrived(c, i.seed, InitBody(c, i, pub, nonce));
    FirstHalf(c, i, r, m, a.out.value, pub, nonce, random, n, id, key);
    SecondHalf(c, i, r, a.state, priv, nonce, a.out.value, m, n, id, key);
    var b := OnInit(c, NewResponder(r), a.out.value, random, n, id);
    var d := OnResponse(c, a.state, b.out.value);
    ResponseLeaves(c, a.state, b.out.value);
    ResumesAfresh(c, d.state, i, nonce, a.out.value, secret, ticket, 0, newPriv, newNonce);
    var resumed := Resume(c, LoadSecret(d.state, secret).state, ticket, 0, newPriv, newNonce);
    var other := c.agree(newPriv, c.dhPub(random)).value;
    SecondHalf(c, i, r, resumed.state, newPriv, nonce, a.out.value, m, n, id, (key.0, other));
    KeysPart(c, priv, newPriv, random, nonce + n);
  }

  lemma KeysPart(c: Crypto, priv: Bytes, newPriv: Bytes, random: Bytes, n: Bytes)
    requires Ideal(c) && c.agree(priv, c.dhPub(random)).Some? && c.agree(newPriv, c.dhPub(random)).Some?
    ensures var x, y := c.agree(newPriv, c.dhPub(random)).value, c.agree(priv, c.dhPub(random)).value;
      R.Separates(c) ==> (c.derive(x, n) == c.derive(y, n) <==> c.dhPub(newPriv) == c.dhPub(priv))
  {
    if R.Separates(c) {
      assert c.agree(priv, c.dhPub(random)) == c.agree(random, c.dhPub(priv));
      R.DerivedMatchIff(c, newPriv, priv, random, n);
    }
  }

  // ---------------------------------------------------------------- such primitives exist

  function Pad(a: Bytes): Bytes {
    seq(DH_KEY_SIZE, i => if 0 <= i < |a| then a[i] else 0)
  }

  function Plus(x: byte, y: byte): byte {
    if x + y < 256 then x + y else x + y - 256
  }

  function Mix(x: Bytes, y: Bytes): Bytes
    requires |x| == |y|
  {
    seq(|x|, i requires 0 <= i < |x| => Plus(x[i], y[i]))
  }

  /** Primitives that keep nothing secret and meet every law that is asked of them. */
  function Transparent(): Crypto {
    Crypto(seed => seed, (seed, m) => [0] + seed + m, (pub, sig, m) => sig == [0] + pub + m, key => "", x => x, Pad,
           (a, x) => if |x| == DH_KEY_SIZE then Some(Mix(Pad(a), x)) else None,
           priv => priv, (pub, r) => Some((r, r)), (text, priv) => Some(text), (s, n) => s + n)
  }

  lemma MixSeparates(a: Bytes, x: Bytes, y: Bytes)
    requires |a| == |x| == |y| && Mix(a, x) == Mix(a, y)
    ensures x == y
  {
    forall i | 0 <= i < |x| ensures x[i] == y[i] {
      assert Mix(a, x)[i] == Mix(a, y)[i];
    }
  }

  lemma LawsAreMet()
    ensures Ideal(Transparent()) && Signs(Transparent()) && R.Separates(Transparent())
    ensures Transparent().dhPub([1]) != Transparent().dhPub([2])
  {
    var c := Transparent();
    forall a, b ensures c.agree(a, c.dhPub(b)) == c.agree(b, c.dhPub(a)) {
      assert Mix(Pad(a), Pad(b)) == Mix(Pad(b), Pad(a));
    }
    forall a, x, y | c.agree(a, x) == c.agree(a, y) && c.agree(a, x).Some? ensures x == y {
      MixSeparates(Pad(a), x, y);
    }
    forall s, t, n | c.derive(s, n) == c.derive(t, n) ensures s == t {
      assert |s + n| == |t + n| && (s + n)[..|s|] == s && (t + n)[..|t|] == t;
    }
    assert Pad([1])[0] == 1 && Pad([2])[0] == 2;
  }
}
