/**
 * The server-to-server handshake: four messages between two single-shot state machines.
 * Each call is a function from a state and the incoming text to the next state, the outgoing text and the
 * inputs it signed; the classes of FederationParties update their fields in place and are proved equal to it.
 */
module Federation {
  import opened Wrappers
  import opened Json
  import opened JsonParser
  import opened Signing
  import opened FederationMessages
  import Utf8
  import Base64

  function ConfirmationHash(c: Crypto, initText: string, respText: string): Bytes {
    c.sha256(Utf8.Encode(initText) + Utf8.Encode(respText))
  }

  // ---------------------------------------------------------------- initiator

  datatype InitiatorSession = InitiatorSession(sessionId: Json, ttl: int, keys: Bytes, peerDomain: string)

  datatype Initiator = Initiator(
    cfg: InitiatorConfig,
    nonce: Option<Bytes>,
    ephPriv: Option<Bytes>,
    ephPub: Option<Bytes>,
    initText: Option<string>,
    respText: Option<string>,
    sessionId: Option<Json>,
    keys: Option<Bytes>,
    session: Option<InitiatorSession>,
    resumptionSecret: Option<Bytes>,
    resumeNonce: Option<Bytes>)

  /** What a call leaves behind: the next state, the text or error it returned, and what it signed. */
  datatype Step<S> = Step(state: S, out: Result<string>, signed: seq<Bytes>)

  function NewInitiator(cfg: InitiatorConfig): Initiator {
    Initiator(cfg, cfg.pinnedNonce, cfg.pinnedPriv, None, None, None, Some(JStr("")), None, None,
              None, None)
  }

  function EphemeralPub(c: Crypto, suite: Suite, priv: Bytes): Bytes {
    if suite == Hybrid then c.hybridPub(priv) else c.dhPub(priv)
  }

  /** `init`; `priv` and `nonce` are what the random source would give. */
  function Init(c: Crypto, s: Initiator, priv: Bytes, nonce: Bytes): Step<Initiator> {
    if s.initText.Some? then Step(s, Err("init already called"), [])
    else if s.cfg.suite == Hybrid && s.cfg.pinnedPriv.Some? then Step(s, Err("PQ ephemeral pinning"), [])
    else
      var p := if s.cfg.suite == Hybrid || s.ephPriv.None? then priv else s.ephPriv.value;
      var n := if s.nonce.None? then nonce else s.nonce.value;
      var ephPub := EphemeralPub(c, s.cfg.suite, p);
      var body := InitBody(c, s.cfg, ephPub, n);
      var text := Canonical(Sign(c, s.cfg.seed, body));
      Step(s.(nonce := Some(n), ephPriv := Some(p), ephPub := Some(ephPub), initText := Some(text)), Ok(text),
           [IdentityInput(ephPub + n), HandshakeInput(body)])
  }

  /** The checks on a response, in order; the result is the responder's ephemeral key and nonce. */
  function CheckResponse(c: Crypto, s: Initiator, m: Json): Result<(Bytes, Bytes)>
    requires s.nonce.Some?
  {
    if Get(m, "server_domain") != Some(JStr(s.cfg.peerDomain)) then Err("server_domain")
    else if Get(m, "client_nonce") != Some(JStr(Base64.Encode(s.nonce.value))) then Err("client_nonce")
    else if Dig(m, "domain_verification_result", "status") != Some(JStr("verified")) then Err("domain proof")
    else
      var pub := s.cfg.lookup(s.cfg.peerDomain);
      if pub.None? then Err("lookup")
      else if !Verifies(c, m, pub.value) then Err("server_signature")
      else
        var ephPub := DecodeField(Dig(m, "server_ephemeral_key", "key"));
        var nonce := DecodeField(Get(m, "server_nonce"));
        var proof := DecodeField(Dig(m, "server_identity_proof", "signature"));
        if ephPub.None? || nonce.None? || proof.None? then Err("base64")
        else if !c.verify(pub.value, proof.value, IdentityInput(ephPub.value + nonce.value + s.nonce.value))
        then Err("identity_signature")
        else Ok((ephPub.value, nonce.value))
  }

  /** The initiator's shared secret. */
  function InitiatorShared(c: Crypto, suite: Suite, priv: Bytes, peer: Bytes): Option<Bytes> {
    if suite == Hybrid then c.decapsulate(peer, priv) else c.agree(priv, peer)
  }

  const HYBRID_PUBLIC_KEY_SIZE := 1216

  /** A response that passed every check, with what the initiator takes from it. */
  datatype Answer = Answer(resp: Json, peerKey: Bytes, peerNonce: Bytes, shared: Bytes)

  /** Everything `onResponse` checks, in order. */
  function TakeResponse(c: Crypto, s: Initiator, data: string): Result<Answer> {
    if s.initText.None? then Err("onResponse before init")
    else if s.ephPriv.None? || s.nonce.None? then Err("state missing")
    else
      var m := Receive(data, "response");
      if m.None? then Err("message")
      else
        match CheckResponse(c, s, m.value)
        case Err(e) => Err(e)
        case Ok(peer) =>
          if s.cfg.suite == Hybrid && (s.ephPub.None? || |s.ephPub.value| != HYBRID_PUBLIC_KEY_SIZE)
          then Err("PQ ephemeral size")
          else
            match InitiatorShared(c, s.cfg.suite, s.ephPriv.value, peer.0)
            case None => Err("shared secret")
            case Some(shared) => Ok(Answer(m.value, peer.0, peer.1, shared))
  }

  /** The confirm message that answers `resp`. */
  function ConfirmFor(c: Crypto, cfg: InitiatorConfig, initText: string, resp: Json): Json {
    ConfirmBody(Get(resp, "session_id"), ConfirmationHash(c, initText, Canonical(resp)),
                cfg.acceptor(Get(resp, "federation_policy")))
  }

  /** The initiator once it has taken an answer: keys derived, ephemeral key gone, texts kept. */
  function Confirming(c: Crypto, s: Initiator, a: Answer): Initiator
    requires s.nonce.Some?
  {
    s.(keys := Some(c.derive(a.shared, s.nonce.value + a.peerNonce)), ephPriv := None,
       respText := Some(Canonical(a.resp)), sessionId := Get(a.resp, "session_id"))
  }

  function OnResponse(c: Crypto, s: Initiator, data: string): Step<Initiator> {
    match TakeResponse(c, s, data)
    case Err(e) => Step(s, Err(e), [])
    case Ok(a) =>
      var body := ConfirmFor(c, s.cfg, s.initText.value, a.resp);
      Step(Confirming(c, s, a), Ok(Canonical(Sign(c, s.cfg.seed, body))), [HandshakeInput(body)])
  }

  /** Equality of JavaScript values as `===` decides it: objects and arrays from two parses differ. */
  predicate StrictlyEqual(a: Option<Json>, b: Option<Json>) {
    a == b && (a.Some? ==> !a.value.JArr? && !a.value.JObj?)
  }

  function TtlOf(v: Option<Json>): int {
    if v.Some? && v.value.JNum? && v.value.n > 0 then v.value.n else 3600
  }

  function OnAccepted(c: Crypto, s: Initiator, data: string): Step<Initiator> {
    if s.keys.None? then Step(s, Err("onAccepted before onResponse"), [])
    else
      var m := Receive(data, "accepted");
      if m.None? then Step(s, Err("message"), [])
      else if !StrictlyEqual(Get(m.value, "session_id"), s.sessionId) then Step(s, Err("session_id"), [])
      else
        var pub := s.cfg.lookup(s.cfg.peerDomain);
        if pub.None? then Step(s, Err("lookup"), [])
        else if !Verifies(c, m.value, pub.value) then Step(s, Err("server_signature"), [])
        else
          var id := if s.sessionId.Some? then s.sessionId.value else JNull;
          var ttl := TtlOf(Get(m.value, "session_ttl"));
          Step(s.(session := Some(InitiatorSession(id, ttl, s.keys.value, s.cfg.peerDomain))), Ok(""), [])
  }

  function LoadSecret(s: Initiator, secret: Bytes): Step<Initiator> {
    if secret == [] then Step(s, Err("empty resumption secret"), [])
    else Step(s.(resumptionSecret := Some(secret)), Ok(""), [])
  }

  /** `resume`: under the ephemeral key at hand, or under a new one.  It signs nothing. */
  function Resume(c: Crypto, s: Initiator, ticket: Bytes, revision: int, priv: Bytes, nonce: Bytes): Step<Initiator> {
    if s.resumptionSecret.None? then Step(s, Err("resume before loadResumptionSecret"), [])
    else if ticket == [] then Step(s, Err("empty resumption ticket"), [])
    else
      var n := if s.resumeNonce.None? then nonce else s.resumeNonce.value;
      var s1 := s.(resumeNonce := Some(n));
      if s.ephPriv.Some? && |s.ephPriv.value| != DH_KEY_SIZE then Step(s1, Err("ephemeral key size"), [])
      else
        var p := if s.ephPriv.None? then priv else s.ephPriv.value;
        Step(s1.(ephPriv := Some(p), ephPub := Some(c.dhPub(p))),
             Ok(Canonical(ResumeBody(c, s.cfg, n, c.dhPub(p), ticket, revision))), [])
  }

  /** Everything `onResumeAccepted` checks, in order. */
  function TakeResumed(c: Crypto, s: Initiator, data: string): Result<Answer> {
    if s.resumptionSecret.None? || s.resumeNonce.None? then Err("onResumeAccepted before resume")
    else if s.ephPriv.None? then Err("ephemeral missing")
    else
      var m := Receive(data, "accepted");
      if m.None? then Err("message")
      else if Get(m.value, "server_ephemeral_key").None? || Get(m.value, "server_nonce").None?
              || Get(m.value, "resumption_ticket").None? then Err("missing field")
      else CheckResumed(c, s, m.value)
  }

  function CheckResumed(c: Crypto, s: Initiator, m: Json): Result<Answer>
    requires s.ephPriv.Some?
  {
    var pub := s.cfg.lookup(s.cfg.peerDomain);
    if pub.None? then Err("lookup")
    else if !Verifies(c, m, pub.value) then Err("server_signature")
    else
      var nonce := DecodeField(Get(m, "server_nonce"));
      var ephPub := DecodeField(Dig(m, "server_ephemeral_key", "key"));
      if ephPub.None? || nonce.None? then Err("base64")
      else
        match c.agree(s.ephPriv.value, ephPub.value)
        case None => Err("shared secret")
        case Some(shared) => Ok(Answer(m, ephPub.value, nonce.value, shared))
  }

  /** `onResumeAccepted`; the session stands before the new ticket is decoded, which may throw. */
  function OnResumeAccepted(c: Crypto, s: Initiator, data: string): Step<Initiator> {
    match TakeResumed(c, s, data)
    case Err(e) => Step(s, Err(e), [])
    case Ok(a) =>
      var ticket := DecodeField(Dig(a.resp, "resumption_ticket", "value"));
      Step(Resuming(c, s, a), if ticket.Some? then Ok("") else Err("resumption ticket"), [])
  }

  /** The initiator with its resumed session: ephemeral key and secret are gone. */
  function Resuming(c: Crypto, s: Initiator, a: Answer): Initiator
    requires s.resumptionSecret.Some? && s.resumeNonce.Some?
  {
    var keys := c.derive(s.resumptionSecret.value + a.shared, s.resumeNonce.value + a.peerNonce);
    var id := if Get(a.resp, "session_id").Some? then Get(a.resp, "session_id").value else JNull;
    s.(ephPriv := None, resumptionSecret := None,
       session := Some(InitiatorSession(id, TtlOf(Get(a.resp, "session_ttl")), keys, s.cfg.peerDomain)))
  }

  function EraseInitiator(s: Initiator): Initiator {
    s.(ephPriv := None, nonce := None, resumptionSecret := None, keys := None)
  }

  // ---------------------------------------------------------------- responder

  datatype ResponderSession = ResponderSession(sessionId: string, ttl: int, keys: Bytes, peerDomain: string)

  datatype Responder = Responder(
    cfg: ResponderConfig,
    sessionId: string,
    peerDomain: string,
    peerNonce: Option<Bytes>,
    serverNonce: Option<Bytes>,
    ephPriv: Option<Bytes>,
    initText: Option<string>,
    respText: Option<string>,
    keys: Option<Bytes>,
    session: Option<ResponderSession>)

  function NewResponder(cfg: ResponderConfig): Responder {
    Responder(cfg, "", "", None, None, None, None, None, None, None)
  }

  /** `text.includes(word)`. */
  predicate Contains(text: string, word: string) {
    Starts(text, word) || (text != "" && Contains(text[1..], word))
  }

  /** `offered.includes(s)` on an array or on a string; on anything else the call throws. */
  predicate Offers(offered: Option<Json>, s: string) {
    && offered.Some?
    && (offered.value.JArr? ==> JStr(s) in offered.value.items)
    && (offered.value.JStr? ==> Contains(offered.value.s, s))
    && (offered.value.JArr? || offered.value.JStr?)
  }

  /** The suite at this place is offered, and none before it is. */
  ghost predicate FirstOffered(offered: Option<Json>, supported: seq<string>, i: int) {
    0 <= i < |supported| && Offers(offered, supported[i]) && forall j | 0 <= j < i :: !Offers(offered, supported[j])
  }

  /** The first supported suite that is offered. */
  function PickSuite(offered: Option<Json>, supported: seq<string>): (r: Option<string>)
    ensures r.Some? ==> exists i :: FirstOffered(offered, supported, i) && supported[i] == r.value
    ensures r.None? <==> forall i | 0 <= i < |supported| :: !Offers(offered, supported[i])
  {
    if supported == [] then None
    else if Offers(offered, supported[0]) then
      assert FirstOffered(offered, supported, 0);
      Some(supported[0])
    else
      var r := PickSuite(offered, supported[1..]);
      assert r.Some? ==> exists i :: FirstOffered(offered, supported[1..], i) && supported[1..][i] == r.value;
      assert forall i | FirstOffered(offered, supported[1..], i) :: FirstOffered(offered, supported, i + 1);
      r
  }

  /** The checks on an init message, in order; the result is the peer's domain, ephemeral key and nonce. */
  function CheckInit(c: Crypto, s: Responder, m: Json): (r: Result<(string, Bytes, Bytes)>)
    ensures r.Ok? ==> Get(m, "server_domain") == Some(JStr(r.value.0))
    ensures r.Ok? ==> DecodeField(Dig(m, "server_ephemeral_key", "key")) == Some(r.value.1)
    ensures r.Ok? ==> DecodeField(Get(m, "nonce")) == Some(r.value.2)
  {
    var domain := Get(m, "server_domain");
    if domain.None? || !domain.value.JStr? || domain.value.s == "" then Err("server_domain")
    else
      var pub := s.cfg.lookup(domain.value.s);
      if pub.None? then Err("lookup")
      else if !Verifies(c, m, pub.value) then Err("server_signature")
      else
        var ephPub := DecodeField(Dig(m, "server_ephemeral_key", "key"));
        var nonce := DecodeField(Get(m, "nonce"));
        var proof := DecodeField(Dig(m, "server_identity_proof", "signature"));
        if ephPub.None? || nonce.None? || proof.None? then Err("base64")
        else if !c.verify(pub.value, proof.value, IdentityInput(ephPub.value + nonce.value))
        then Err("identity_signature")
        else if Get(m, "domain_proof").None? || Get(m, "domain_proof").value == JNull then Err("domain_proof")
        else if !s.cfg.verifier(domain.value.s, Get(m, "domain_proof"), Get(m, "nonce")) then Err("domain proof")
        else if PickSuite(Dig(m, "capabilities", "encryption_algorithms"), s.cfg.algorithms)
                != Some(SuiteName(s.cfg.suite))
        then Err("suite")
        else Ok((domain.value.s, ephPub.value, nonce.value))
  }

  /** The responder's wire key and shared secret from its random bytes. */
  function ResponderShared(c: Crypto, suite: Suite, random: Bytes, peer: Bytes): Option<(Bytes, Bytes)> {
    if suite == Hybrid then c.encapsulate(peer, random)
    else if c.agree(random, peer).None? then None
    else Some((c.dhPub(random), c.agree(random, peer).value))
  }

  /** The random bytes of the responder's key agreement: pinned or new. */
  function ResponderRandom(cfg: ResponderConfig, random: Bytes): Bytes {
    var pinned := if cfg.suite == Hybrid then cfg.pinnedRandomness else cfg.pinnedPriv;
    if pinned.Some? then pinned.value else random
  }

  /** An init message that passed every check. */
  datatype Greeting = Greeting(init: Json, domain: string, peerKey: Bytes, peerNonce: Bytes)

  /** Everything `onInit` checks before it makes a key, in order. */
  function TakeInit(c: Crypto, s: Responder, data: string): (r: Result<Greeting>)
    ensures r.Ok? ==> Get(r.value.init, "nonce").Some?
  {
    if s.initText.Some? then Err("onInit called twice")
    else
      var m := Receive(data, "init");
      if m.None? then Err("message")
      else
        match CheckInit(c, s, m.value)
        case Err(e) => Err(e)
        case Ok(peer) =>
          if s.cfg.suite == Hybrid && s.cfg.pinnedPriv.Some? then Err("PQ ephemeral pinning")
          else Ok(Greeting(m.value, peer.0, peer.1, peer.2))
  }

  /** The responder once it has answered. */
  function Answered(c: Crypto, s: Responder, data: string, g: Greeting, key: (Bytes, Bytes), n: Bytes,
      id: string): Responder
    requires Get(g.init, "nonce").Some?
  {
    var text := Canonical(Sign(c, s.cfg.seed, RespBody(c, s.cfg, g.init, id, key.0, n, g.peerNonce)));
    s.(serverNonce := Some(n), sessionId := id, keys := Some(c.derive(key.1, g.peerNonce + n)),
       peerDomain := g.domain, peerNonce := Some(g.peerNonce), initText := Some(data), respText := Some(text))
  }

  /** `onInit`; `priv`, `nonce` and `id` are what the random source and the id generator would give. */
  function OnInit(c: Crypto, s: Responder, data: string, priv: Bytes, nonce: Bytes, id: string): Step<Responder> {
    match TakeInit(c, s, data)
    case Err(e) => Step(s, Err(e), [])
    case Ok(g) =>
      var random := ResponderRandom(s.cfg, priv);
      var s1 := if s.cfg.suite == Hybrid then s else s.(ephPriv := Some(random));
      match ResponderShared(c, s.cfg.suite, random, g.peerKey)
      case None => Step(s1, Err("shared secret"), [])
      case Some(key) =>
        var n := if s.cfg.pinnedNonce.Some? then s.cfg.pinnedNonce.value else nonce;
        var s2 := Answered(c, s1, data, g, key, n, id);
        Step(s2, Ok(s2.respText.value),
             [IdentityInput(key.0 + n + g.peerNonce),
              HandshakeInput(RespBody(c, s.cfg, g.init, id, key.0, n, g.peerNonce))])
  }

  /** JavaScript truth of a field. */
  predicate Truthy(v: Option<Json>) {
    v.Some? && v.value != JNull && v.value != JBool(false) && v.value != JNum(0) && v.value != JStr("")
  }

  /** The checks on a confirm message, in order; None when all pass. */
  function CheckConfirm(c: Crypto, s: Responder, m: Json): Option<string>
    requires s.initText.Some? && s.respText.Some?
  {
    if Get(m, "session_id") != Some(JStr(s.sessionId)) then Some("session_id")
    else
      var pub := s.cfg.lookup(s.peerDomain);
      if pub.None? then Some("lookup")
      else if !Verifies(c, m, pub.value) then Some("server_signature")
      else if DecodeField(Get(m, "confirmation_hash")) != Some(ConfirmationHash(c, s.initText.value, s.respText.value))
      then Some("confirmation hash")
      else if !Truthy(Dig(m, "federation_acceptance", "accepted")) then Some("policy rejected")
      else None
  }

  function OnConfirm(c: Crypto, s: Responder, data: string, ticket: Option<Json>): Step<Responder> {
    if s.initText.None? || s.respText.None? || s.keys.None? then Step(s, Err("onConfirm before onInit"), [])
    else
      var m := Receive(data, "confirm");
      if m.None? then Step(s, Err("message"), [])
      else
        match CheckConfirm(c, s, m.value)
        case Some(e) => Step(s, Err(e), [])
        case None =>
          var body := AcceptedBody(s.sessionId, s.cfg.ttl, ticket);
          Step(s.(session := Some(ResponderSession(s.sessionId, s.cfg.ttl, s.keys.value, s.peerDomain)),
                  ephPriv := None),
               Ok(Canonical(Sign(c, s.cfg.seed, body))), [HandshakeInput(body)])
  }

  function EraseResponder(s: Responder): Responder {
    s.(ephPriv := None, peerNonce := None, serverNonce := None, keys := None)
  }

  /** The initiator opens what the responder made for its ephemeral key. */
  lemma SharedSecret(c: Crypto, suite: Suite, priv: Bytes, random: Bytes, key: (Bytes, Bytes))
    requires Ideal(c) && ResponderShared(c, suite, random, EphemeralPub(c, suite, priv)) == Some(key)
    ensures InitiatorShared(c, suite, priv, key.0) == Some(key.1)
  {}
}
