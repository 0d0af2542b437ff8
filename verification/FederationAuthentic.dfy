/**
 * Who made what is accepted: in every run, a message that a call takes was signed by a party of the run that holds the
 * key, as that party makes it.
 */
module FederationAuthentic {
  import opened Wrappers
  import opened Json
  import opened Signing
  import opened FederationMessages
  import opened Federation
  import opened FederationRuns
  import Base64

  // ---------------------------------------------------------------- what a logged signature was made over

  /** The signing input of an init message of an initiator so configured. */
  ghost predicate InitInput(c: Crypto, cfg: InitiatorConfig, b: Bytes, priv: Bytes, nonce: Bytes) {
    b == HandshakeInput(InitBody(c, cfg, EphemeralPub(c, cfg.suite, priv), nonce))
  }

  ghost predicate InitBy(c: Crypto, cfg: InitiatorConfig, x: Entry) {
    InitiatorConfigOk(cfg) && x.pub == c.pub(cfg.seed) && exists priv, nonce :: InitInput(c, cfg, x.input, priv, nonce)
  }

  /** The responder holds this response, made for an init text that it received, and its keys if it has any. */
  ghost predicate Replied(c: Crypto, s: Responder, g: Greeting, random: Bytes, n: Bytes, body: Json) {
    && ResponderConfigOk(s.cfg) && s.initText.Some? && Heard(g, s.initText.value) && s.peerDomain == g.domain
    && ResponderShared(c, s.cfg.suite, random, g.peerKey).Some?
    && (var key := ResponderShared(c, s.cfg.suite, random, g.peerKey).value;
        && body == RespBody(c, s.cfg, g.init, s.sessionId, key.0, n, g.peerNonce)
        && (s.keys.Some? ==> s.keys.value == c.derive(key.1, g.peerNonce + n)))
  }

  ghost predicate RespBy(c: Crypto, s: Responder, x: Entry) {
    x.pub == c.pub(s.cfg.seed)
    && exists g, random, n, body :: Replied(c, s, g, random, n, body) && x.input == HandshakeInput(body)
  }

  ghost predicate AcceptInput(s: Responder, b: Bytes, ticket: Option<Json>) {
    (ticket.Some? ==> WellFormed(ticket.value)) && b == HandshakeInput(AcceptedBody(s.sessionId, s.cfg.ttl, ticket))
  }

  /** The responder has its session, and says so. */
  ghost predicate AcceptBy(c: Crypto, s: Responder, x: Entry) {
    && x.pub == c.pub(s.cfg.seed) && s.initText.Some? && s.session.Some?
    && exists ticket :: AcceptInput(s, x.input, ticket)
  }

  ghost predicate IsStep(v: Json, step: string) {
    WellFormed(v) && v.JObj? && Get(v, "step") == Some(JStr(step))
  }

  /** The signing input of no message of that step. */
  ghost predicate NoStep(b: Bytes, step: string) {
    forall v | IsStep(v, step) :: HandshakeInput(v) != b
  }

  lemma StepsDiffer(w: Json, step: string, other: string)
    requires Headed(w, step) && step != other
    ensures NoStep(HandshakeInput(w), other)
  {
    forall v | IsStep(v, other) ensures HandshakeInput(v) != HandshakeInput(w) {
      if HandshakeInput(v) == HandshakeInput(w) {
        ScalarAgrees(HandshakePrefix(), v, w, SIG_FIELD, "step");
      }
    }
  }

  lemma NoIdentityStep(x: Bytes, step: string)
    ensures NoStep(IdentityInput(x), step)
  {
    forall v | IsStep(v, step) ensures HandshakeInput(v) != IdentityInput(x) {
      IdentityIsNoMessage(x, v);
    }
  }

  // ---------------------------------------------------------------- every logged signature has its maker

  ghost predicate Explained(c: Crypto, sys: System, x: Entry) {
    && (NoStep(x.input, "init") || exists i :: 0 <= i < |sys.initiators| && InitBy(c, sys.initiators[i].state.cfg, x))
    && (NoStep(x.input, "response") || exists r :: 0 <= r < |sys.responders| && RespBy(c, sys.responders[r], x))
    && (NoStep(x.input, "accepted") || exists r :: 0 <= r < |sys.responders| && AcceptBy(c, sys.responders[r], x))
  }

  ghost predicate LogExplained(c: Crypto, sys: System) {
    forall k | 0 <= k < |sys.log| :: Explained(c, sys, sys.log[k])
  }

  /** What a responder said stands: it is configured as before, and has its texts and its session. */
  ghost predicate Stands(s: Responder, t: Responder) {
    && t.cfg == s.cfg
    && (s.initText.Some? ==>
          && t.initText == s.initText && t.respText == s.respText && t.sessionId == s.sessionId
          && t.peerDomain == s.peerDomain && (t.keys == s.keys || t.keys.None?))
    && (s.session.Some? ==> t.session.Some?)
  }

  /** Parties stay, each as it was configured, and what they said stands. */
  ghost predicate Grows(a: System, b: System) {
    && |a.initiators| <= |b.initiators| && |a.responders| <= |b.responders|
    && (forall i | 0 <= i < |a.initiators| :: b.initiators[i].state.cfg == a.initiators[i].state.cfg)
    && (forall r | 0 <= r < |a.responders| :: Stands(a.responders[r], b.responders[r]))
  }

  lemma RespStands(c: Crypto, s: Responder, t: Responder, x: Entry)
    requires Stands(s, t) && RespBy(c, s, x)
    ensures RespBy(c, t, x)
  {
    var g, random, n, body :| Replied(c, s, g, random, n, body) && x.input == HandshakeInput(body);
    assert Replied(c, t, g, random, n, body);
  }

  lemma AcceptStands(c: Crypto, s: Responder, t: Responder, x: Entry)
    requires Stands(s, t) && AcceptBy(c, s, x)
    ensures AcceptBy(c, t, x)
  {
    var ticket :| AcceptInput(s, x.input, ticket);
    assert AcceptInput(t, x.input, ticket);
  }

  lemma ExplainedStill(c: Crypto, a: System, b: System, x: Entry)
    requires Explained(c, a, x) && Grows(a, b)
    ensures Explained(c, b, x)
  {
    if i :| 0 <= i < |a.initiators| && InitBy(c, a.initiators[i].state.cfg, x) {
      assert InitBy(c, b.initiators[i].state.cfg, x);
    }
    if r :| 0 <= r < |a.responders| && RespBy(c, a.responders[r], x) {
      RespStands(c, a.responders[r], b.responders[r], x);
    }
    if r :| 0 <= r < |a.responders| && AcceptBy(c, a.responders[r], x) {
      AcceptStands(c, a.responders[r], b.responders[r], x);
    }
  }

  /** A step that keeps what was said and logs only what the new system explains. */
  lemma LogStep(c: Crypto, a: System, b: System, pub: Bytes, signed: seq<Bytes>)
    requires LogExplained(c, a) && Grows(a, b) && b.log == a.log + Logged(pub, signed)
    requires forall k | 0 <= k < |signed| :: Explained(c, b, Entry(pub, signed[k]))
    ensures LogExplained(c, b)
  {
    forall k | 0 <= k < |b.log| ensures Explained(c, b, b.log[k]) {
      if k < |a.log| {
        ExplainedStill(c, a, b, a.log[k]);
      } else {
        assert b.log[k] == Entry(pub, signed[k - |a.log|]);
      }
    }
  }

  // ---------------------------------------------------------------- what each call signs

  /** An identity proof, an init message of its own, or a confirmation. */
  ghost predicate InitiatorSays(c: Crypto, cfg: InitiatorConfig, b: Bytes) {
    && NoStep(b, "response") && NoStep(b, "accepted")
    && (NoStep(b, "init") || InitBy(c, cfg, Entry(c.pub(cfg.seed), b)))
  }

  lemma IdentitySays(c: Crypto, cfg: InitiatorConfig, x: Bytes)
    ensures InitiatorSays(c, cfg, IdentityInput(x))
  {
    NoIdentityStep(x, "response");
    NoIdentityStep(x, "accepted");
    NoIdentityStep(x, "init");
  }

  lemma InitInputSays(c: Crypto, cfg: InitiatorConfig, priv: Bytes, nonce: Bytes)
    requires InitiatorConfigOk(cfg)
    ensures InitiatorSays(c, cfg, HandshakeInput(InitBody(c, cfg, EphemeralPub(c, cfg.suite, priv), nonce)))
  {
    var body := InitBody(c, cfg, EphemeralPub(c, cfg.suite, priv), nonce);
    InitHeaded(c, cfg, EphemeralPub(c, cfg.suite, priv), nonce);
    StepsDiffer(body, "init", "response");
    StepsDiffer(body, "init", "accepted");
    assert InitInput(c, cfg, HandshakeInput(body), priv, nonce);
  }

  lemma ConfirmInputSays(c: Crypto, cfg: InitiatorConfig, id: Option<Json>, hash: Bytes, reason: Option<string>)
    requires id.Some? ==> WellFormed(id.value)
    ensures InitiatorSays(c, cfg, HandshakeInput(ConfirmBody(id, hash, reason)))
  {
    var body := ConfirmBody(id, hash, reason);
    ConfirmShape(id, hash, reason);
    StepsDiffer(body, "confirm", "response");
    StepsDiffer(body, "confirm", "accepted");
    StepsDiffer(body, "confirm", "init");
  }

  ghost predicate AllSaid(c: Crypto, cfg: InitiatorConfig, signed: seq<Bytes>) {
    forall k | 0 <= k < |signed| :: InitiatorSays(c, cfg, signed[k])
  }

  lemma InitCallSays(c: Crypto, s: Initiator, priv: Bytes, nonce: Bytes)
    requires InitiatorConfigOk(s.cfg)
    ensures var step := Init(c, s, priv, nonce); step.state.cfg == s.cfg && AllSaid(c, s.cfg, step.signed)
  {
    var step := Init(c, s, priv, nonce);
    if step.out.Ok? {
      var p, n := step.state.ephPriv.value, step.state.nonce.value;
      IdentitySays(c, s.cfg, EphemeralPub(c, s.cfg.suite, p) + n);
      InitInputSays(c, s.cfg, p, n);
    }
  }

  lemma ResponseCallShape(c: Crypto, s: Initiator, data: string)
    ensures var step, r := OnResponse(c, s, data), TakeResponse(c, s, data);
      && step.state.cfg == s.cfg
      && (r.Ok? ==>
            && s.initText.Some?
            && step.signed == [HandshakeInput(ConfirmFor(c, s.cfg, s.initText.value, r.value.resp))])
      && (r.Err? ==> step.signed == [])
  {}

  lemma ResponseCallSays(c: Crypto, s: Initiator, data: string)
    ensures var step := OnResponse(c, s, data); step.state.cfg == s.cfg && AllSaid(c, s.cfg, step.signed)
  {
    ResponseCallShape(c, s, data);
    var r := TakeResponse(c, s, data);
    if r.Ok? {
      TakeResponseTakes(c, s, data);
      ConfirmForSays(c, s.cfg, s.initText.value, r.value.resp);
    }
  }

  lemma ConfirmForSays(c: Crypto, cfg: InitiatorConfig, text: string, resp: Json)
    requires WellFormed(resp)
    ensures InitiatorSays(c, cfg, HandshakeInput(ConfirmFor(c, cfg, text, resp)))
  {
    FieldWellFormed(resp, "session_id");
    ConfirmInputSays(c, cfg, Get(resp, "session_id"), ConfirmationHash(c, text, Canonical(resp)),
                     cfg.acceptor(Get(resp, "federation_policy")));
  }

  /** The other calls sign nothing. */
  lemma QuietCalls(c: Crypto, s: Initiator, data: string, ticket: Bytes, revision: int, priv: Bytes, nonce: Bytes)
    ensures OnAccepted(c, s, data).signed == [] && OnAccepted(c, s, data).state.cfg == s.cfg
    ensures var step := Resume(c, s, ticket, revision, priv, nonce); step.signed == [] && step.state.cfg == s.cfg
  {}

  lemma QuietResumption(c: Crypto, s: Initiator, data: string)
    ensures OnResumeAccepted(c, s, data).signed == [] && OnResumeAccepted(c, s, data).state.cfg == s.cfg
  {}

  lemma InitiatorStepExplained(c: Crypto, sys: System, i: nat, step: Step<Initiator>, origin: Option<Origin>,
      es: seq<Confirmed>)
    requires LogExplained(c, sys) && i < |sys.initiators|
    requires var cfg := sys.initiators[i].state.cfg; step.state.cfg == cfg && AllSaid(c, cfg, step.signed)
    ensures LogExplained(c, AfterInitiator(c, sys, i, step, origin, es))
  {
    var cfg, b := sys.initiators[i].state.cfg, AfterInitiator(c, sys, i, step, origin, es);
    forall k | 0 <= k < |step.signed| ensures Explained(c, b, Entry(c.pub(cfg.seed), step.signed[k])) {
      assert InitiatorSays(c, b.initiators[i].state.cfg, step.signed[k]);
    }
    LogStep(c, sys, b, c.pub(cfg.seed), step.signed);
  }

  lemma InitiatorCallExplained(c: Crypto, sys: System, i: nat, a: InitiatorCall)
    requires LogExplained(c, sys) && i < |sys.initiators| && InitiatorConfigOk(sys.initiators[i].state.cfg)
    ensures LogExplained(c, OnInitiator(c, sys, sys.initiators[i], i, a))
  {
    var t := sys.initiators[i];
    match a
    case InitCall(priv, nonce) =>
      InitCallSays(c, t.state, priv, nonce);
      var step := Init(c, t.state, priv, nonce);
      InitiatorStepExplained(c, sys, i, step, InitOrigin(t, step), []);
    case ResponseCall(data) =>
      ResponseCallSays(c, t.state, data);
      InitiatorStepExplained(c, sys, i, OnResponse(c, t.state, data), t.origin, EventOf(c, t, data));
    case ResumeCall(ticket, revision, priv, nonce) =>
      QuietCalls(c, t.state, "", ticket, revision, priv, nonce);
      var step := Resume(c, t.state, ticket, revision, priv, nonce);
      InitiatorStepExplained(c, sys, i, step, ResumeOrigin(t, step), []);
    case ResumeAcceptedCall(data) =>
      QuietResumption(c, t.state, data);
      InitiatorStepExplained(c, sys, i, OnResumeAccepted(c, t.state, data), t.origin, []);
    case AcceptedCall(data) =>
      QuietCalls(c, t.state, data, [], 0, [], []);
      InitiatorStepExplained(c, sys, i, OnAccepted(c, t.state, data), t.origin, []);
    case LoadSecretCall(secret) => InitiatorStepExplained(c, sys, i, LoadSecret(t.state, secret), t.origin, []);
    case EraseInitiatorCall =>
      InitiatorStepExplained(c, sys, i, Step(EraseInitiator(t.state), Ok(""), []), t.origin, []);
  }

  /** An identity proof, the response it now holds, or its session. */
  ghost predicate ResponderSays(c: Crypto, t: Responder, b: Bytes) {
    && NoStep(b, "init")
    && (NoStep(b, "response") || RespBy(c, t, Entry(c.pub(t.cfg.seed), b)))
    && (NoStep(b, "accepted") || AcceptBy(c, t, Entry(c.pub(t.cfg.seed), b)))
  }

  lemma IdentityReply(c: Crypto, t: Responder, x: Bytes)
    ensures ResponderSays(c, t, IdentityInput(x))
  {
    NoIdentityStep(x, "response");
    NoIdentityStep(x, "accepted");
    NoIdentityStep(x, "init");
  }

  lemma ReplyInputSays(c: Crypto, t: Responder, g: Greeting, random: Bytes, n: Bytes, body: Json)
    requires Replied(c, t, g, random, n, body) && Headed(body, "response")
    ensures ResponderSays(c, t, HandshakeInput(body))
  {
    StepsDiffer(body, "response", "init");
    StepsDiffer(body, "response", "accepted");
  }

  lemma OnInitReplies(c: Crypto, s: Responder, data: string, priv: Bytes, nonce: Bytes, id: string)
    requires ResponderConfigOk(s.cfg) && OnInit(c, s, data, priv, nonce, id).out.Ok?
    ensures var g, t := TakeInit(c, s, data).value, OnInit(c, s, data, priv, nonce, id).state;
      var random, n := ResponderRandom(s.cfg, priv), t.serverNonce.value;
      && Heard(g, data) && t.serverNonce.Some? && ResponderShared(c, s.cfg.suite, random, g.peerKey).Some?
      && var body := RespBody(c, s.cfg, g.init, id, ResponderShared(c, s.cfg.suite, random, g.peerKey).value.0, n,
                              g.peerNonce);
         && Replied(c, t, g, random, n, body) && t.cfg == s.cfg && s.initText.None? && t.session == s.session
         && OnInit(c, s, data, priv, nonce, id).signed
            == [IdentityInput(ResponderShared(c, s.cfg.suite, random, g.peerKey).value.0 + n + g.peerNonce),
                HandshakeInput(body)]
  {
    TakeInitTakes(c, s, data);
  }

  ghost predicate AllReplied(c: Crypto, t: Responder, signed: seq<Bytes>) {
    forall k | 0 <= k < |signed| :: ResponderSays(c, t, signed[k])
  }

  lemma OnInitFails(c: Crypto, s: Responder, data: string, priv: Bytes, nonce: Bytes, id: string)
    requires OnInit(c, s, data, priv, nonce, id).out.Err?
    ensures var step := OnInit(c, s, data, priv, nonce, id);
      step.signed == [] && step.state == s.(ephPriv := step.state.ephPriv)
  {}

  lemma ReplySaid(c: Crypto, t: Responder, g: Greeting, random: Bytes, n: Bytes, body: Json, proved: Bytes)
    requires Replied(c, t, g, random, n, body)
    ensures AllReplied(c, t, [IdentityInput(proved), HandshakeInput(body)])
  {
    RepliedHeaded(c, t, g, random, n, body);
    IdentityReply(c, t, proved);
    ReplyInputSays(c, t, g, random, n, body);
    TwoReplied(c, t, IdentityInput(proved), HandshakeInput(body));
  }

  lemma TwoReplied(c: Crypto, t: Responder, a: Bytes, b: Bytes)
    requires ResponderSays(c, t, a) && ResponderSays(c, t, b)
    ensures AllReplied(c, t, [a, b])
  {}

  lemma InitMessageSays(c: Crypto, s: Responder, data: string, priv: Bytes, nonce: Bytes, id: string)
    requires ResponderConfigOk(s.cfg)
    ensures var step := OnInit(c, s, data, priv, nonce, id);
      Stands(s, step.state) && AllReplied(c, step.state, step.signed)
  {
    var step := OnInit(c, s, data, priv, nonce, id);
    if step.out.Ok? {
      OnInitReplies(c, s, data, priv, nonce, id);
      var g, random, n := TakeInit(c, s, data).value, ResponderRandom(s.cfg, priv), step.state.serverNonce.value;
      var key := ResponderShared(c, s.cfg.suite, random, g.peerKey).value.0;
      var body := RespBody(c, s.cfg, g.init, id, key, n, g.peerNonce);
      ReplySaid(c, step.state, g, random, n, body, key + n + g.peerNonce);
    } else {
      OnInitFails(c, s, data, priv, nonce, id);
    }
  }

  lemma ConfirmCallShape(c: Crypto, s: Responder, data: string, ticket: Option<Json>)
    ensures var step := OnConfirm(c, s, data, ticket);
      if step.out.Ok? then
        && s.initText.Some? && step.state == s.(session := step.state.session, ephPriv := None)
        && step.state.session.Some?
        && step.signed == [HandshakeInput(AcceptedBody(s.sessionId, s.cfg.ttl, ticket))]
      else step.state == s && step.signed == []
  {}

  lemma ConfirmCallSays(c: Crypto, s: Responder, data: string, ticket: Option<Json>)
    requires ticket.Some? ==> WellFormed(ticket.value)
    ensures var step := OnConfirm(c, s, data, ticket);
      Stands(s, step.state) && AllReplied(c, step.state, step.signed)
  {
    var step := OnConfirm(c, s, data, ticket);
    ConfirmCallShape(c, s, data, ticket);
    if step.out.Ok? {
      var body := AcceptedBody(s.sessionId, s.cfg.ttl, ticket);
      AcceptedShape(s.sessionId, s.cfg.ttl, ticket);
      StepsDiffer(body, "accepted", "init");
      StepsDiffer(body, "accepted", "response");
      assert AcceptInput(step.state, HandshakeInput(body), ticket);
    }
  }

  lemma ResponderStepExplained(c: Crypto, sys: System, r: nat, step: Step<Responder>)
    requires LogExplained(c, sys) && r < |sys.responders|
    requires Stands(sys.responders[r], step.state) && AllReplied(c, step.state, step.signed)
    ensures LogExplained(c, AfterResponder(c, sys, r, step))
  {
    var pub, b := c.pub(sys.responders[r].cfg.seed), AfterResponder(c, sys, r, step);
    forall k | 0 <= k < |step.signed| ensures Explained(c, b, Entry(pub, step.signed[k])) {
      assert ResponderSays(c, b.responders[r], step.signed[k]);
    }
    LogStep(c, sys, b, pub, step.signed);
  }

  lemma ResponderCallExplained(c: Crypto, sys: System, r: nat, a: ResponderCall)
    requires LogExplained(c, sys) && r < |sys.responders| && ResponderConfigOk(sys.responders[r].cfg)
    ensures LogExplained(c, OnResponder(c, sys, sys.responders[r], r, a))
  {
    var s := sys.responders[r];
    match a
    case InitMessageCall(data, priv, nonce, id) =>
      InitMessageSays(c, s, data, priv, nonce, id);
      ResponderStepExplained(c, sys, r, OnInit(c, s, data, priv, nonce, id));
    case ConfirmCall(data, ticket) =>
      if ticket.Some? ==> WellFormed(ticket.value) {
        ConfirmCallSays(c, s, data, ticket);
        ResponderStepExplained(c, sys, r, OnConfirm(c, s, data, ticket));
      }
    case EraseResponderCall => ResponderStepExplained(c, sys, r, Step(EraseResponder(s), Ok(""), []));
  }

  ghost predicate ConfigsOk(sys: System) {
    && (forall i | 0 <= i < |sys.initiators| :: InitiatorConfigOk(sys.initiators[i].state.cfg))
    && (forall r | 0 <= r < |sys.responders| :: ResponderConfigOk(sys.responders[r].cfg))
  }

  lemma NewPartyExplained(c: Crypto, a: System, b: System)
    requires LogExplained(c, a) && Grows(a, b) && b.log == a.log
    ensures LogExplained(c, b)
  {
    forall k | 0 <= k < |b.log| ensures Explained(c, b, b.log[k]) {
      ExplainedStill(c, a, b, a.log[k]);
    }
  }

  lemma NextExplained(c: Crypto, sys: System, a: Action)
    requires LogExplained(c, sys) && ConfigsOk(sys)
    ensures LogExplained(c, Next(c, sys, a))
  {
    match a
    case InitiatorAction(i, call) => if i < |sys.initiators| { InitiatorCallExplained(c, sys, i, call); }
    case ResponderAction(r, call) => if r < |sys.responders| { ResponderCallExplained(c, sys, r, call); }
    case _ => NewPartyExplained(c, sys, Next(c, sys, a));
  }

  /** In every run every signature on an init, a response or an accepted message has its maker among the parties. */
  lemma {:induction false} RunExplained(c: Crypto, actions: seq<Action>)
    requires Ideal(c)
    ensures LogExplained(c, Run(c, actions)) && ConfigsOk(Run(c, actions))
  {
    RunOk(c, actions);
    assert ConfigsOk(Run(c, actions)) by {
      var sys := Run(c, actions);
      assert forall i | 0 <= i < |sys.initiators| :: InitiatorOk(c, sys.initiators[i]);
      assert forall r | 0 <= r < |sys.responders| :: ResponderOk(c, sys.responders[r]);
    }
    if actions != [] {
      RunExplained(c, actions[..|actions| - 1]);
      NextExplained(c, Run(c, actions[..|actions| - 1]), actions[|actions| - 1]);
    }
  }

  // ---------------------------------------------------------------- what is accepted is authentic

  /** The two messages are the same but for their signatures, up to key order. */
  ghost predicate SameMessage(m: Json, w: Json) {
    forall k | k != SIG_FIELD :: AgreeAt(m, w, k)
  }

  ghost predicate InLog(sys: System, x: Entry) {
    exists k :: 0 <= k < |sys.log| && sys.log[k] == x
  }

  /** A logged signature on a message of one of these steps has its maker. */
  lemma LoggedBy(c: Crypto, sys: System, x: Entry)
    requires LogExplained(c, sys) && InLog(sys, x)
    ensures !NoStep(x.input, "init") ==>
      exists i :: 0 <= i < |sys.initiators| && InitBy(c, sys.initiators[i].state.cfg, x)
    ensures !NoStep(x.input, "response") ==> exists r :: 0 <= r < |sys.responders| && RespBy(c, sys.responders[r], x)
    ensures !NoStep(x.input, "accepted") ==> exists r :: 0 <= r < |sys.responders| && AcceptBy(c, sys.responders[r], x)
  {
    var k :| 0 <= k < |sys.log| && sys.log[k] == x;
    assert Explained(c, sys, sys.log[k]);
  }

  lemma InitLogged(c: Crypto, sys: System, pub: Bytes, m: Json) returns (i: nat)
    requires LogExplained(c, sys) && IsStep(m, "init") && InLog(sys, Entry(pub, HandshakeInput(m)))
    ensures i < |sys.initiators| && InitBy(c, sys.initiators[i].state.cfg, Entry(pub, HandshakeInput(m)))
  {
    var x := Entry(pub, HandshakeInput(m));
    LoggedBy(c, sys, x);
    assert !NoStep(x.input, "init");
    i :| i < |sys.initiators| && InitBy(c, sys.initiators[i].state.cfg, x);
  }

  lemma ResponseLogged(c: Crypto, sys: System, pub: Bytes, m: Json) returns (r: nat)
    requires LogExplained(c, sys) && IsStep(m, "response") && InLog(sys, Entry(pub, HandshakeInput(m)))
    ensures r < |sys.responders| && RespBy(c, sys.responders[r], Entry(pub, HandshakeInput(m)))
  {
    var x := Entry(pub, HandshakeInput(m));
    LoggedBy(c, sys, x);
    assert !NoStep(x.input, "response");
    r :| r < |sys.responders| && RespBy(c, sys.responders[r], x);
  }

  lemma AcceptedLogged(c: Crypto, sys: System, pub: Bytes, m: Json) returns (r: nat)
    requires LogExplained(c, sys) && IsStep(m, "accepted") && InLog(sys, Entry(pub, HandshakeInput(m)))
    ensures r < |sys.responders| && AcceptBy(c, sys.responders[r], Entry(pub, HandshakeInput(m)))
  {
    var x := Entry(pub, HandshakeInput(m));
    LoggedBy(c, sys, x);
    assert !NoStep(x.input, "accepted");
    r :| r < |sys.responders| && AcceptBy(c, sys.responders[r], x);
  }

  /** This is the init message of that initiator, under some ephemeral key and nonce. */
  ghost predicate Announces(c: Crypto, cfg: InitiatorConfig, m: Json, priv: Bytes, nonce: Bytes) {
    SameMessage(m, InitBody(c, cfg, EphemeralPub(c, cfg.suite, priv), nonce))
  }

  ghost predicate Announced(c: Crypto, cfg: InitiatorConfig, m: Json) {
    exists priv, nonce :: Announces(c, cfg, m, priv, nonce)
  }

  /** An initiator of the run that holds the key made this message. */
  ghost predicate MadeByInitiator(c: Crypto, sys: System, pub: Bytes, m: Json, i: nat) {
    && i < |sys.initiators| && c.pub(sys.initiators[i].state.cfg.seed) == pub
    && Announced(c, sys.initiators[i].state.cfg, m)
  }

  lemma InitAgrees(c: Crypto, cfg: InitiatorConfig, m: Json, priv: Bytes, nonce: Bytes)
    requires InitiatorConfigOk(cfg) && IsStep(m, "init") && InitInput(c, cfg, HandshakeInput(m), priv, nonce)
    ensures Announces(c, cfg, m, priv, nonce)
  {
    var ephPub := EphemeralPub(c, cfg.suite, priv);
    InitHeaded(c, cfg, ephPub, nonce);
    InputInjective(HandshakePrefix(), m, InitBody(c, cfg, ephPub, nonce), SIG_FIELD);
  }

  lemma InitMaker(c: Crypto, sys: System, pub: Bytes, m: Json) returns (i: nat)
    requires LogExplained(c, sys) && IsStep(m, "init") && InLog(sys, Entry(pub, HandshakeInput(m)))
    ensures MadeByInitiator(c, sys, pub, m, i)
  {
    i := InitLogged(c, sys, pub, m);
    var cfg := sys.initiators[i].state.cfg;
    var priv, nonce :| InitInput(c, cfg, HandshakeInput(m), priv, nonce);
    InitAgrees(c, cfg, m, priv, nonce);
  }

  /** The init message that a responder took: its domain's key accepts both its signature and its identity proof. */
  ghost predicate InitTaken(c: Crypto, s: Responder, m: Json, pub: Bytes) {
    && IsStep(m, "init")
    && Get(m, "server_domain").Some? && Get(m, "server_domain").value.JStr? && Get(m, "server_domain").value.s != ""
    && s.cfg.lookup(Get(m, "server_domain").value.s) == Some(pub)
    && DecodeField(Get(m, SIG_FIELD)).Some?
    && c.verify(pub, DecodeField(Get(m, SIG_FIELD)).value, HandshakeInput(m))
    && DecodeField(Dig(m, "server_ephemeral_key", "key")).Some? && DecodeField(Get(m, "nonce")).Some?
    && DecodeField(Dig(m, "server_identity_proof", "signature")).Some?
    && c.verify(pub, DecodeField(Dig(m, "server_identity_proof", "signature")).value,
                IdentityInput(DecodeField(Dig(m, "server_ephemeral_key", "key")).value
                              + DecodeField(Get(m, "nonce")).value))
    && Get(m, "domain_proof").Some?
    && s.cfg.verifier(Get(m, "server_domain").value.s, Get(m, "domain_proof"), Get(m, "nonce"))
    && SuiteFits(s.cfg, Dig(m, "capabilities", "encryption_algorithms"))
  }

  /** The responder's suite is the first of those it supports that is offered. */
  ghost predicate SuiteFits(cfg: ResponderConfig, offered: Option<Json>) {
    exists i :: FirstOffered(offered, cfg.algorithms, i) && cfg.algorithms[i] == SuiteName(cfg.suite)
  }

  lemma CheckedInit(c: Crypto, s: Responder, m: Json) returns (pub: Bytes)
    requires IsStep(m, "init") && CheckInit(c, s, m).Ok?
    ensures InitTaken(c, s, m, pub)
  {
    pub := s.cfg.lookup(Get(m, "server_domain").value.s).value;
  }

  /**
   * In every run, an init message that `onInit` answers was made, field by field, by an initiator that holds the key of
   * the domain it names: nothing in it was rewritten on the way.
   */
  lemma InitAuthentic(c: Crypto, actions: seq<Action>, r: nat, data: string, priv: Bytes, nonce: Bytes, id: string)
    returns (pub: Bytes)
    requires Ideal(c) && r < |Run(c, actions).responders|
    requires OnInit(c, Run(c, actions).responders[r], data, priv, nonce, id).out.Ok?
    ensures Receive(data, "init").Some?
    ensures InitTaken(c, Run(c, actions).responders[r], Receive(data, "init").value, pub)
    ensures var sys, m := Run(c, actions), Receive(data, "init").value;
      Genuine(c, sys, pub, m) ==>
        InLog(sys, Entry(pub, HandshakeInput(m))) && exists i :: MadeByInitiator(c, sys, pub, m, i)
  {
    var sys := Run(c, actions);
    OnInitTook(c, sys.responders[r], data, priv, nonce, id);
    var m := Receive(data, "init").value;
    pub := CheckedInit(c, sys.responders[r], m);
    InitSigned(c, actions, sys, sys.responders[r], m, pub);
  }

  lemma OnInitTook(c: Crypto, s: Responder, data: string, priv: Bytes, nonce: Bytes, id: string)
    requires OnInit(c, s, data, priv, nonce, id).out.Ok?
    ensures Receive(data, "init").Some? && IsStep(Receive(data, "init").value, "init")
    ensures CheckInit(c, s, Receive(data, "init").value).Ok?
  {}

  lemma InitSigned(c: Crypto, actions: seq<Action>, sys: System, s: Responder, m: Json, pub: Bytes)
    requires Ideal(c) && sys == Run(c, actions) && InitTaken(c, s, m, pub)
    ensures Genuine(c, sys, pub, m) ==>
      InLog(sys, Entry(pub, HandshakeInput(m))) && exists i :: MadeByInitiator(c, sys, pub, m, i)
  {
    if Genuine(c, sys, pub, m) {
      RunExplained(c, actions);
      var i := InitMaker(c, sys, pub, m);
    }
  }

  // ---------------------------------------------------------------- responses

  /** The response that an initiator took: it answers its nonce, and the peer's key accepts both its signatures. */
  ghost predicate ResponseTaken(c: Crypto, s: Initiator, m: Json, pub: Bytes) {
    && IsStep(m, "response") && s.nonce.Some? && s.ephPriv.Some?
    && Get(m, "server_domain") == Some(JStr(s.cfg.peerDomain)) && s.cfg.lookup(s.cfg.peerDomain) == Some(pub)
    && Get(m, "client_nonce") == Some(JStr(Base64.Encode(s.nonce.value)))
    && Dig(m, "domain_verification_result", "status") == Some(JStr("verified"))
    && DecodeField(Get(m, SIG_FIELD)).Some?
    && c.verify(pub, DecodeField(Get(m, SIG_FIELD)).value, HandshakeInput(m))
    && DecodeField(Dig(m, "server_ephemeral_key", "key")).Some? && DecodeField(Get(m, "server_nonce")).Some?
    && DecodeField(Dig(m, "server_identity_proof", "signature")).Some?
    && c.verify(pub, DecodeField(Dig(m, "server_identity_proof", "signature")).value,
                IdentityInput(DecodeField(Dig(m, "server_ephemeral_key", "key")).value
                              + DecodeField(Get(m, "server_nonce")).value + s.nonce.value))
  }

  lemma CheckedResponse(c: Crypto, s: Initiator, m: Json) returns (pub: Bytes)
    requires IsStep(m, "response") && s.nonce.Some? && s.ephPriv.Some? && CheckResponse(c, s, m).Ok?
    ensures ResponseTaken(c, s, m, pub)
  {
    pub := s.cfg.lookup(s.cfg.peerDomain).value;
  }

  /** This is the response that the responder gave, to an init message with that nonce. */
  ghost predicate AnsweredBy(c: Crypto, t: Responder, g: Greeting, random: Bytes, n: Bytes, body: Json, m: Json) {
    && Replied(c, t, g, random, n, body) && SameMessage(m, body)
    && Get(m, "session_id") == Some(JStr(t.sessionId)) && Get(m, "client_nonce") == Get(g.init, "nonce")
  }

  ghost predicate Answered(c: Crypto, t: Responder, m: Json) {
    exists g, random, n, body :: AnsweredBy(c, t, g, random, n, body, m)
  }

  /** A responder of the run that holds the key gave exactly this answer. */
  ghost predicate MadeByResponder(c: Crypto, sys: System, pub: Bytes, m: Json, r: nat) {
    r < |sys.responders| && c.pub(sys.responders[r].cfg.seed) == pub && Answered(c, sys.responders[r], m)
  }

  /** What is read from a message with the signing input of a response. */
  lemma SameInput(m: Json, body: Json)
    requires IsStep(m, "response") && Headed(body, "response") && HandshakeInput(m) == HandshakeInput(body)
    ensures SameMessage(m, body)
    ensures Scalar(Get(body, "session_id")) ==> Get(m, "session_id") == Get(body, "session_id")
    ensures Scalar(Get(m, "client_nonce")) ==> Get(m, "client_nonce") == Get(body, "client_nonce")
    ensures Scalar(Get(body, "server_nonce")) ==> Get(m, "server_nonce") == Get(body, "server_nonce")
  {
    InputInjective(HandshakePrefix(), m, body, SIG_FIELD);
    ScalarAgrees(HandshakePrefix(), m, body, SIG_FIELD, "session_id");
    ScalarAgrees(HandshakePrefix(), m, body, SIG_FIELD, "client_nonce");
    ScalarAgrees(HandshakePrefix(), m, body, SIG_FIELD, "server_nonce");
  }

  lemma RepliedHeaded(c: Crypto, t: Responder, g: Greeting, random: Bytes, n: Bytes, body: Json)
    requires Replied(c, t, g, random, n, body)
    ensures Headed(body, "response") && Get(body, "session_id") == Some(JStr(t.sessionId))
    ensures Get(body, "client_nonce") == Get(g.init, "nonce")
    ensures Get(body, "server_nonce") == Some(JStr(Base64.Encode(n)))
  {
    var key := ResponderShared(c, t.cfg.suite, random, g.peerKey).value.0;
    RespHeaded(c, t.cfg, g.init, t.sessionId, key, n, g.peerNonce);
  }

  lemma AnswerAgrees(c: Crypto, t: Responder, m: Json, pub: Bytes)
    requires RespBy(c, t, Entry(pub, HandshakeInput(m))) && IsStep(m, "response") && Scalar(Get(m, "client_nonce"))
    ensures Answered(c, t, m)
  {
    var g, random, n, body :| Replied(c, t, g, random, n, body) && HandshakeInput(m) == HandshakeInput(body);
    RepliedAnswers(c, t, g, random, n, body, m);
  }

  lemma RepliedAnswers(c: Crypto, t: Responder, g: Greeting, random: Bytes, n: Bytes, body: Json, m: Json)
    requires Replied(c, t, g, random, n, body) && HandshakeInput(m) == HandshakeInput(body)
    requires IsStep(m, "response") && Scalar(Get(m, "client_nonce"))
    ensures AnsweredBy(c, t, g, random, n, body, m)
  {
    RepliedHeaded(c, t, g, random, n, body);
    SameInput(m, body);
  }

  /**
   * In every run, a response that `onResponse` takes was given, field by field, by a responder that holds the key of
   * the peer's domain, to an init message with the initiator's nonce; and the session id is that responder's.
   */
  lemma ResponseAuthentic(c: Crypto, actions: seq<Action>, i: nat, data: string) returns (pub: Bytes)
    requires Ideal(c) && i < |Run(c, actions).initiators|
    requires OnResponse(c, Run(c, actions).initiators[i].state, data).out.Ok?
    ensures Receive(data, "response").Some?
    ensures ResponseTaken(c, Run(c, actions).initiators[i].state, Receive(data, "response").value, pub)
    ensures var sys, m := Run(c, actions), Receive(data, "response").value;
      Genuine(c, sys, pub, m) ==>
        InLog(sys, Entry(pub, HandshakeInput(m))) && exists r :: MadeByResponder(c, sys, pub, m, r)
  {
    var sys := Run(c, actions);
    OnResponseTook(c, sys.initiators[i].state, data);
    var m := Receive(data, "response").value;
    pub := CheckedResponse(c, sys.initiators[i].state, m);
    ResponseSigned(c, actions, sys, sys.initiators[i].state, m, pub);
  }

  lemma OnResponseTook(c: Crypto, s: Initiator, data: string)
    requires OnResponse(c, s, data).out.Ok?
    ensures Receive(data, "response").Some? && IsStep(Receive(data, "response").value, "response")
    ensures s.nonce.Some? && s.ephPriv.Some? && CheckResponse(c, s, Receive(data, "response").value).Ok?
  {}

  lemma ResponseSigned(c: Crypto, actions: seq<Action>, sys: System, s: Initiator, m: Json, pub: Bytes)
    requires Ideal(c) && sys == Run(c, actions) && ResponseTaken(c, s, m, pub)
    ensures Genuine(c, sys, pub, m) ==>
      InLog(sys, Entry(pub, HandshakeInput(m))) && exists r :: MadeByResponder(c, sys, pub, m, r)
  {
    if Genuine(c, sys, pub, m) {
      RunExplained(c, actions);
      var r := ResponseLogged(c, sys, pub, m);
      AnswerAgrees(c, sys.responders[r], m, pub);
      assert MadeByResponder(c, sys, pub, m, r);
    }
  }

  lemma ConfirmingKeys(c: Crypto, s: Initiator, data: string)
    requires TakeResponse(c, s, data).Ok?
    ensures s.nonce.Some? && s.ephPriv.Some?
    ensures var a := TakeResponse(c, s, data).value;
      && Receive(data, "response") == Some(a.resp)
      && OnResponse(c, s, data).state.keys == Some(c.derive(a.shared, s.nonce.value + a.peerNonce))
  {}

  lemma AnswerReadsKey(c: Crypto, t: Responder, g: Greeting, random: Bytes, n: Bytes, body: Json, m: Json)
    requires Replied(c, t, g, random, n, body) && IsStep(m, "response") && HandshakeInput(m) == HandshakeInput(body)
    ensures DecodeField(Get(m, "server_nonce")) == Some(n)
    ensures DecodeField(Dig(m, "server_ephemeral_key", "key"))
      == Some(ResponderShared(c, t.cfg.suite, random, g.peerKey).value.0)
  {
    var key := ResponderShared(c, t.cfg.suite, random, g.peerKey).value.0;
    RepliedHeaded(c, t, g, random, n, body);
    SameInput(m, body);
    Base64.RoundTrip(n);
    RepliedKey(c, t, g, random, n, body, key);
    SameKey(m, body, key);
  }

  lemma RepliedKey(c: Crypto, t: Responder, g: Greeting, random: Bytes, n: Bytes, body: Json, key: Bytes)
    requires Replied(c, t, g, random, n, body)
    requires key == ResponderShared(c, t.cfg.suite, random, g.peerKey).value.0
    ensures CarriesKey(body, key)
  {
    RespKeys(c, t.cfg, g.init, t.sessionId, key, n, g.peerNonce);
    KeyShape(c, t.cfg.suite, key);
  }

  ghost predicate CarriesKey(v: Json, key: Bytes) {
    && Get(v, "server_ephemeral_key").Some? && Get(v, "server_ephemeral_key").value.JObj?
    && Dig(v, "server_ephemeral_key", "key") == Some(JStr(Base64.Encode(key)))
  }

  lemma SameKey(m: Json, body: Json, key: Bytes)
    requires IsStep(m, "response") && Headed(body, "response") && HandshakeInput(m) == HandshakeInput(body)
    requires CarriesKey(body, key)
    ensures DecodeField(Dig(m, "server_ephemeral_key", "key")) == Some(key)
  {
    InnerAgrees(HandshakePrefix(), m, body, SIG_FIELD, "server_ephemeral_key", "key");
    Base64.RoundTrip(key);
  }

  /** Where that responder received the initiator's own ephemeral key, on the same suite, the two hold the same keys. */
  lemma ResponseKeys(c: Crypto, s: Initiator, data: string, t: Responder, g: Greeting, random: Bytes, n: Bytes,
      body: Json)
    requires Ideal(c) && TakeResponse(c, s, data).Ok? && s.nonce.Some? && s.ephPriv.Some?
    requires Receive(data, "response").Some? && Replied(c, t, g, random, n, body) && t.keys.Some?
    requires HandshakeInput(Receive(data, "response").value) == HandshakeInput(body)
    requires t.cfg.suite == s.cfg.suite && g.peerKey == EphemeralPub(c, s.cfg.suite, s.ephPriv.value)
    requires g.peerNonce == s.nonce.value
    ensures OnResponse(c, s, data).state.keys == t.keys
  {
    ConfirmingKeys(c, s, data);
    TakeResponseTakes(c, s, data);
    AnswerReadsKey(c, t, g, random, n, body, Receive(data, "response").value);
    SharedSecret(c, s.cfg.suite, s.ephPriv.value, random, ResponderShared(c, t.cfg.suite, random, g.peerKey).value);
  }

  // ---------------------------------------------------------------- accepted sessions

  /** The accepted message that an initiator took. */
  ghost predicate AcceptedTaken(c: Crypto, s: Initiator, m: Json, pub: Bytes) {
    && IsStep(m, "accepted") && Get(m, "session_id") == s.sessionId && Scalar(s.sessionId)
    && s.cfg.lookup(s.cfg.peerDomain) == Some(pub) && DecodeField(Get(m, SIG_FIELD)).Some?
    && c.verify(pub, DecodeField(Get(m, SIG_FIELD)).value, HandshakeInput(m))
  }

  lemma OnAcceptedTook(c: Crypto, s: Initiator, data: string) returns (pub: Bytes)
    requires OnAccepted(c, s, data).out.Ok?
    ensures Receive(data, "accepted").Some?
    ensures AcceptedTaken(c, s, Receive(data, "accepted").value, pub)
  {
    pub := s.cfg.lookup(s.cfg.peerDomain).value;
  }

  /** A responder of the run that holds the key has its session, under this id. */
  ghost predicate SessionAt(c: Crypto, sys: System, pub: Bytes, id: Option<Json>, r: nat) {
    && r < |sys.responders| && c.pub(sys.responders[r].cfg.seed) == pub && sys.responders[r].session.Some?
    && id == Some(JStr(sys.responders[r].sessionId))
  }

  lemma AcceptedSays(c: Crypto, t: Responder, m: Json, pub: Bytes)
    requires AcceptBy(c, t, Entry(pub, HandshakeInput(m))) && IsStep(m, "accepted") && Scalar(Get(m, "session_id"))
    ensures Get(m, "session_id") == Some(JStr(t.sessionId))
  {
    var ticket :| AcceptInput(t, HandshakeInput(m), ticket);
    AcceptedShape(t.sessionId, t.cfg.ttl, ticket);
    ScalarAgrees(HandshakePrefix(), m, AcceptedBody(t.sessionId, t.cfg.ttl, ticket), SIG_FIELD, "session_id");
  }

  /** In every run, when `onAccepted` succeeds a responder of the peer's key has its session, under the same id. */
  lemma AcceptedAuthentic(c: Crypto, actions: seq<Action>, i: nat, data: string) returns (pub: Bytes)
    requires Ideal(c) && i < |Run(c, actions).initiators|
    requires OnAccepted(c, Run(c, actions).initiators[i].state, data).out.Ok?
    ensures Receive(data, "accepted").Some?
    ensures AcceptedTaken(c, Run(c, actions).initiators[i].state, Receive(data, "accepted").value, pub)
    ensures var sys, m := Run(c, actions), Receive(data, "accepted").value;
      Genuine(c, sys, pub, m) ==>
        && InLog(sys, Entry(pub, HandshakeInput(m)))
        && exists r :: SessionAt(c, sys, pub, sys.initiators[i].state.sessionId, r)
  {
    var sys, m := Run(c, actions), Receive(data, "accepted").value;
    pub := OnAcceptedTook(c, sys.initiators[i].state, data);
    if Genuine(c, sys, pub, m) {
      RunExplained(c, actions);
      var r := AcceptedLogged(c, sys, pub, m);
      AcceptedSays(c, sys.responders[r], m, pub);
      assert SessionAt(c, sys, pub, Get(m, "session_id"), r);
    }
  }

  /** A resumption that is taken was accepted under the peer's key, over the whole message. */
  lemma ResumedVerified(c: Crypto, s: Initiator, data: string)
    requires OnResumeAccepted(c, s, data).state != s
    ensures Receive(data, "accepted").Some?
    ensures var m, pub := Receive(data, "accepted").value, s.cfg.lookup(s.cfg.peerDomain);
      && pub.Some? && DecodeField(Get(m, SIG_FIELD)).Some?
      && c.verify(pub.value, DecodeField(Get(m, SIG_FIELD)).value, HandshakeInput(m))
  {}
}
