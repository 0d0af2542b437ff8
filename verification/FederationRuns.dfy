/**
 * Runs of the server-to-server handshake over a network that may replay, reorder, drop or rewrite text: any
 * number of initiators and responders, each call given any text at all.  Signatures are ideal: a signature that
 * an honest domain key accepts was made, earlier in the run, over exactly that input.
 */
module FederationRuns {
  import opened Wrappers
  import opened Json
  import opened JsonParser
  import opened Signing
  import opened FederationMessages
  import opened Federation
  import Utf8
  import Base64

  // ---------------------------------------------------------------- runs

  /** The ephemeral key that `init` announced, and whether `resume` has put a new one in its place since. */
  datatype Origin = Origin(priv: Bytes, late: bool)

  /** An initiator, with what became of its ephemeral key. */
  datatype Tracked = Tracked(state: Initiator, origin: Option<Origin>)

  /**
   * One successful `onResponse`: the initiator it happened to, the key `init` announced and the key it used, what it
   * took, and the keys it derived.
   */
  datatype Confirmed = Confirmed(cfg: InitiatorConfig, origin: Origin, priv: Bytes, nonce: Bytes, initText: string,
                                 answer: Answer, keys: Bytes)

  function BodyOf(c: Crypto, e: Confirmed): Json {
    ConfirmFor(c, e.cfg, e.initText, e.answer.resp)
  }

  datatype Entry = Entry(pub: Bytes, input: Bytes)

  /** All parties, every signature made so far, and every confirmation sent so far. */
  datatype System = System(initiators: seq<Tracked>, responders: seq<Responder>, log: seq<Entry>,
                           events: seq<Confirmed>)

  /** A call on an initiator, with what arrives and what its random source would give. */
  datatype InitiatorCall =
    | InitCall(priv: Bytes, nonce: Bytes)
    | ResponseCall(data: string)
    | AcceptedCall(data: string)
    | LoadSecretCall(secret: Bytes)
    | ResumeCall(ticket: Bytes, revision: int, priv: Bytes, nonce: Bytes)
    | ResumeAcceptedCall(data: string)
    | EraseInitiatorCall

  /** A call on a responder. */
  datatype ResponderCall =
    | InitMessageCall(data: string, priv: Bytes, nonce: Bytes, id: string)
    | ConfirmCall(data: string, ticket: Option<Json>)
    | EraseResponderCall

  datatype Action =
    | NewInitiatorAction(icfg: InitiatorConfig)
    | InitiatorAction(i: nat, icall: InitiatorCall)
    | NewResponderAction(rcfg: ResponderConfig)
    | ResponderAction(r: nat, rcall: ResponderCall)

  function Logged(pub: Bytes, inputs: seq<Bytes>): (r: seq<Entry>)
    ensures |r| == |inputs| && forall k | 0 <= k < |r| :: r[k] == Entry(pub, inputs[k])
  {
    seq(|inputs|, k requires 0 <= k < |inputs| => Entry(pub, inputs[k]))
  }

  function AfterInitiator(c: Crypto, sys: System, i: nat, step: Step<Initiator>, origin: Option<Origin>,
      events: seq<Confirmed>): System
    requires i < |sys.initiators|
  {
    sys.(initiators := sys.initiators[i := Tracked(step.state, origin)],
         log := sys.log + Logged(c.pub(sys.initiators[i].state.cfg.seed), step.signed),
         events := sys.events + events)
  }

  function AfterResponder(c: Crypto, sys: System, r: nat, step: Step<Responder>): System
    requires r < |sys.responders|
  {
    sys.(responders := sys.responders[r := step.state],
         log := sys.log + Logged(c.pub(sys.responders[r].cfg.seed), step.signed))
  }

  /** The confirmation a successful `onResponse` makes. */
  function EventOf(c: Crypto, t: Tracked, data: string): seq<Confirmed> {
    var r, s := TakeResponse(c, t.state, data), t.state;
    if r.Err? || t.origin.None? then []
    else
      [Confirmed(s.cfg, t.origin.value, s.ephPriv.value, s.nonce.value, s.initText.value, r.value,
                 c.derive(r.value.shared, s.nonce.value + r.value.peerNonce))]
  }

  /** `init` announces its ephemeral key. */
  function InitOrigin(t: Tracked, step: Step<Initiator>): Option<Origin> {
    if step.out.Ok? && step.state.ephPriv.Some? then Some(Origin(step.state.ephPriv.value, false)) else t.origin
  }

  /** `resume` makes a new ephemeral key when there is none. */
  function ResumeOrigin(t: Tracked, step: Step<Initiator>): Option<Origin> {
    if t.origin.Some? && t.state.ephPriv.None? && step.out.Ok? then Some(t.origin.value.(late := true)) else t.origin
  }

  /** The system after a call on an initiator. */
  function OnInitiator(c: Crypto, sys: System, t: Tracked, i: nat, a: InitiatorCall): System
    requires i < |sys.initiators| && sys.initiators[i] == t
  {
    match a
    case InitCall(priv, nonce) =>
      var step := Init(c, t.state, priv, nonce);
      AfterInitiator(c, sys, i, step, InitOrigin(t, step), [])
    case ResponseCall(data) => AfterInitiator(c, sys, i, OnResponse(c, t.state, data), t.origin, EventOf(c, t, data))
    case AcceptedCall(data) => AfterInitiator(c, sys, i, OnAccepted(c, t.state, data), t.origin, [])
    case LoadSecretCall(secret) => AfterInitiator(c, sys, i, LoadSecret(t.state, secret), t.origin, [])
    case ResumeCall(ticket, revision, priv, nonce) =>
      var step := Resume(c, t.state, ticket, revision, priv, nonce);
      AfterInitiator(c, sys, i, step, ResumeOrigin(t, step), [])
    case ResumeAcceptedCall(data) => AfterInitiator(c, sys, i, OnResumeAccepted(c, t.state, data), t.origin, [])
    case EraseInitiatorCall => AfterInitiator(c, sys, i, Step(EraseInitiator(t.state), Ok(""), []), t.origin, [])
  }

  /** The system after a call on a responder. */
  ghost function OnResponder(c: Crypto, sys: System, s: Responder, r: nat, a: ResponderCall): System
    requires r < |sys.responders| && sys.responders[r] == s
  {
    match a
    case InitMessageCall(data, priv, nonce, id) => AfterResponder(c, sys, r, OnInit(c, s, data, priv, nonce, id))
    case ConfirmCall(data, ticket) =>
      if ticket.Some? ==> WellFormed(ticket.value) then AfterResponder(c, sys, r, OnConfirm(c, s, data, ticket))
      else sys
    case EraseResponderCall => AfterResponder(c, sys, r, Step(EraseResponder(s), Ok(""), []))
  }

  /** A constructor that throws makes no party, and an index out of range names none. */
  ghost function Next(c: Crypto, sys: System, a: Action): System {
    match a
    case NewInitiatorAction(cfg) =>
      if InitiatorConfigOk(cfg) then sys.(initiators := sys.initiators + [Tracked(NewInitiator(cfg), None)]) else sys
    case InitiatorAction(i, call) =>
      if i < |sys.initiators| then OnInitiator(c, sys, sys.initiators[i], i, call) else sys
    case NewResponderAction(cfg) =>
      if ResponderConfigOk(cfg) then sys.(responders := sys.responders + [NewResponder(cfg)]) else sys
    case ResponderAction(r, call) =>
      if r < |sys.responders| then OnResponder(c, sys, sys.responders[r], r, call) else sys
  }

  ghost function Run(c: Crypto, actions: seq<Action>): System {
    if actions == [] then System([], [], [], [])
    else Next(c, Run(c, actions[..|actions| - 1]), actions[|actions| - 1])
  }

  // ---------------------------------------------------------------- what every step keeps

  function InitTextOf(c: Crypto, cfg: InitiatorConfig, priv: Bytes, nonce: Bytes): string {
    Canonical(Sign(c, cfg.seed, InitBody(c, cfg, EphemeralPub(c, cfg.suite, priv), nonce)))
  }

  /** The ephemeral key is the one announced: no new one since, or its public key is still a hybrid one. */
  predicate KeyKept(t: Tracked) {
    t.origin.Some? && t.state.ephPriv.Some? &&
    (!t.origin.value.late
     || (t.state.cfg.suite == Hybrid && t.state.ephPub.Some? && |t.state.ephPub.value| == HYBRID_PUBLIC_KEY_SIZE))
  }

  ghost predicate InitiatorOk(c: Crypto, t: Tracked) {
    && InitiatorConfigOk(t.state.cfg)
    && (t.state.initText.Some? && t.state.nonce.Some? ==>
          && t.origin.Some?
          && t.state.initText.value == InitTextOf(c, t.state.cfg, t.origin.value.priv, t.state.nonce.value))
    && (KeyKept(t) ==> t.state.ephPriv == Some(t.origin.value.priv))
  }

  /** On the hybrid suite, and wherever `resume` put no new key in its place, the key used is the one announced. */
  predicate KeyUsed(e: Confirmed) {
    !e.origin.late || e.cfg.suite == Hybrid
  }

  /** A confirmation on record was derived from its init text and its response. */
  ghost predicate EventOk(c: Crypto, e: Confirmed) {
    && InitiatorConfigOk(e.cfg)
    && e.initText == InitTextOf(c, e.cfg, e.origin.priv, e.nonce)
    && (KeyUsed(e) ==> e.priv == e.origin.priv)
    && Taken(c, e.cfg.suite, e.priv, e.answer)
    && e.keys == c.derive(e.answer.shared, e.nonce + e.answer.peerNonce)
  }

  /** What the checks of `onResponse` leave known of an answer. */
  ghost predicate Taken(c: Crypto, suite: Suite, priv: Bytes, a: Answer) {
    && WellFormed(a.resp) && a.resp.JObj?
    && DecodeField(Dig(a.resp, "server_ephemeral_key", "key")) == Some(a.peerKey)
    && DecodeField(Get(a.resp, "server_nonce")) == Some(a.peerNonce)
    && InitiatorShared(c, suite, priv, a.peerKey) == Some(a.shared)
  }

  lemma TakeResponseTakes(c: Crypto, s: Initiator, data: string)
    ensures var r := TakeResponse(c, s, data);
      r.Ok? ==> s.initText.Some? && s.ephPriv.Some? && s.nonce.Some? && Taken(c, s.cfg.suite, s.ephPriv.value, r.value)
  {}

  /** The responder's keys and response follow from the init it received and some random bytes. */
  ghost predicate FromInit(c: Crypto, s: Responder, g: Greeting, random: Bytes, n: Bytes) {
    && s.initText.Some? && s.respText.Some? && s.keys.Some? && s.peerDomain == g.domain
    && Heard(g, s.initText.value)
    && ResponderShared(c, s.cfg.suite, random, g.peerKey).Some?
    && (var key := ResponderShared(c, s.cfg.suite, random, g.peerKey).value;
        && s.keys.value == c.derive(key.1, g.peerNonce + n)
        && s.respText.value
           == Canonical(Sign(c, s.cfg.seed, RespBody(c, s.cfg, g.init, s.sessionId, key.0, n, g.peerNonce))))
  }

  ghost predicate ResponderOk(c: Crypto, s: Responder) {
    && ResponderConfigOk(s.cfg)
    && (s.initText.Some? && s.keys.Some? ==> exists g, random, n :: FromInit(c, s, g, random, n))
    && (s.initText.None? ==> s.keys.None?)
  }

  /** A logged signature on a confirm message belongs to a confirmation on record. */
  ghost predicate EntryOk(c: Crypto, x: Entry, events: seq<Confirmed>) {
    NoConfirm(x.input) || exists k :: MadeBy(c, x, events, k)
  }

  ghost predicate MadeBy(c: Crypto, x: Entry, events: seq<Confirmed>, k: nat) {
    k < |events| && c.pub(events[k].cfg.seed) == x.pub && x.input == HandshakeInput(BodyOf(c, events[k]))
  }

  ghost predicate SystemOk(c: Crypto, sys: System) {
    && (forall i | 0 <= i < |sys.initiators| :: InitiatorOk(c, sys.initiators[i]))
    && (forall r | 0 <= r < |sys.responders| :: ResponderOk(c, sys.responders[r]))
    && (forall k | 0 <= k < |sys.events| :: EventOk(c, sys.events[k]))
    && (forall k | 0 <= k < |sys.log| :: EntryOk(c, sys.log[k], sys.events))
  }

  lemma InitBodyIsNoConfirm(c: Crypto, cfg: InitiatorConfig, ephPub: Bytes, nonce: Bytes)
    requires InitiatorConfigOk(cfg)
    ensures NoConfirm(HandshakeInput(InitBody(c, cfg, ephPub, nonce)))
  {
    InitShape(c, cfg, ephPub, nonce);
    OtherStep(InitBody(c, cfg, ephPub, nonce), "init");
  }

  ghost predicate NoConfirms(signed: seq<Bytes>) {
    forall k | 0 <= k < |signed| :: NoConfirm(signed[k])
  }

  lemma InitSigns(c: Crypto, t: Tracked, priv: Bytes, nonce: Bytes)
    requires InitiatorOk(c, t)
    ensures NoConfirms(Init(c, t.state, priv, nonce).signed)
  {
    var step := Init(c, t.state, priv, nonce);
    if step.out.Ok? {
      var n, ephPub := step.state.nonce.value, step.state.ephPub.value;
      InitBodyIsNoConfirm(c, t.state.cfg, ephPub, n);
      NoIdentity(ephPub + n);
    }
  }

  lemma InitKeeps(c: Crypto, t: Tracked, priv: Bytes, nonce: Bytes)
    requires InitiatorOk(c, t)
    ensures var step := Init(c, t.state, priv, nonce); InitiatorOk(c, Tracked(step.state, InitOrigin(t, step)))
  {}

  lemma ResumeKeeps(c: Crypto, t: Tracked, ticket: Bytes, revision: int, priv: Bytes, nonce: Bytes)
    requires Ideal(c) && InitiatorOk(c, t)
    ensures var step := Resume(c, t.state, ticket, revision, priv, nonce);
      InitiatorOk(c, Tracked(step.state, ResumeOrigin(t, step))) && step.signed == []
  {
    var step := Resume(c, t.state, ticket, revision, priv, nonce);
    ResumeChanges(c, t.state, ticket, revision, priv, nonce);
    ResumedOk(c, t, step.state, step.out.Ok?);
  }

  lemma ResumeChanges(c: Crypto, s: Initiator, ticket: Bytes, revision: int, priv: Bytes, nonce: Bytes)
    requires Ideal(c)
    ensures var step := Resume(c, s, ticket, revision, priv, nonce);
      step.signed == [] && SameInit(s, step.state) && KeyAfter(s, step.state, step.out.Ok?)
  {}

  /** The key is the one before, or a new one where there was none; a public key from here is not a hybrid one. */
  ghost predicate KeyAfter(s: Initiator, t: Initiator, done: bool) {
    if done then
      && t.ephPriv.Some? && (s.ephPriv.Some? ==> t.ephPriv == s.ephPriv)
      && t.ephPub.Some? && |t.ephPub.value| == DH_KEY_SIZE
    else t.ephPriv == s.ephPriv && t.ephPub == s.ephPub
  }

  lemma ResumedOk(c: Crypto, t: Tracked, s: Initiator, done: bool)
    requires InitiatorOk(c, t) && SameInit(t.state, s) && KeyAfter(t.state, s, done)
    ensures InitiatorOk(c, Tracked(s, if t.origin.Some? && t.state.ephPriv.None? && done
      then Some(t.origin.value.(late := true)) else t.origin))
  {}

  lemma ResumeAcceptedChanges(c: Crypto, s: Initiator, data: string)
    ensures var step := OnResumeAccepted(c, s, data);
      && step.signed == []
      && (step.state == s || (step.state.ephPriv.None? && SameInit(s, step.state)))
  {}

  /** Nothing but the ephemeral key and what follows it is different. */
  ghost predicate SameInit(s: Initiator, t: Initiator) {
    t.cfg == s.cfg && t.initText == s.initText && t.nonce == s.nonce
  }

  lemma KeyGone(c: Crypto, t: Tracked, s: Initiator)
    requires InitiatorOk(c, t) && SameInit(t.state, s) && s.ephPriv.None?
    ensures InitiatorOk(c, Tracked(s, t.origin))
  {}

  lemma ResumeAcceptedKeeps(c: Crypto, t: Tracked, data: string)
    requires InitiatorOk(c, t)
    ensures InitiatorOk(c, Tracked(OnResumeAccepted(c, t.state, data).state, t.origin))
    ensures OnResumeAccepted(c, t.state, data).signed == []
  {
    ResumeAcceptedChanges(c, t.state, data);
    if OnResumeAccepted(c, t.state, data).state != t.state {
      KeyGone(c, t, OnResumeAccepted(c, t.state, data).state);
    }
  }

  lemma ResponseChanges(c: Crypto, s: Initiator, data: string)
    ensures var t := OnResponse(c, s, data).state; t == s || (t.ephPriv.None? && SameInit(s, t))
  {}

  lemma ResponseKeeps(c: Crypto, t: Tracked, data: string)
    requires InitiatorOk(c, t)
    ensures InitiatorOk(c, Tracked(OnResponse(c, t.state, data).state, t.origin))
  {
    ResponseChanges(c, t.state, data);
    if OnResponse(c, t.state, data).state != t.state {
      KeyGone(c, t, OnResponse(c, t.state, data).state);
    }
  }

  lemma ResponseEvents(c: Crypto, t: Tracked, data: string)
    requires InitiatorOk(c, t)
    ensures forall k | 0 <= k < |EventOf(c, t, data)| :: EventOk(c, EventOf(c, t, data)[k])
  {
    TakeResponseTakes(c, t.state, data);
    HybridSize(c, t.state, data);
  }

  /** On the hybrid suite a response is taken only under a hybrid key. */
  lemma HybridSize(c: Crypto, s: Initiator, data: string)
    ensures TakeResponse(c, s, data).Ok? && s.cfg.suite == Hybrid ==>
      s.ephPub.Some? && |s.ephPub.value| == HYBRID_PUBLIC_KEY_SIZE
  {}

  ghost predicate Announced(c: Crypto, pub: Bytes, input: Bytes, es: seq<Confirmed>) {
    |es| == 1 && c.pub(es[0].cfg.seed) == pub && input == HandshakeInput(BodyOf(c, es[0]))
  }

  ghost predicate AllAnnounced(c: Crypto, pub: Bytes, signed: seq<Bytes>, es: seq<Confirmed>) {
    forall k | 0 <= k < |signed| :: NoConfirm(signed[k]) || Announced(c, pub, signed[k], es)
  }

  lemma ResponseSigns(c: Crypto, t: Tracked, data: string)
    requires InitiatorOk(c, t)
    ensures AllAnnounced(c, c.pub(t.state.cfg.seed), OnResponse(c, t.state, data).signed, EventOf(c, t, data))
  {}

  lemma TakeInitTakes(c: Crypto, s: Responder, data: string)
    ensures var r := TakeInit(c, s, data);
      r.Ok? ==> Heard(r.value, data)
  {}

  /** What the checks of `onInit` leave known of an init text. */
  ghost predicate Heard(g: Greeting, data: string) {
    FromText(data) == Some(g.init) && WellFormed(g.init) && g.init.JObj? && Noted(g)
  }

  ghost predicate Noted(g: Greeting) {
    && Get(g.init, "server_domain") == Some(JStr(g.domain))
    && DecodeField(Dig(g.init, "server_ephemeral_key", "key")) == Some(g.peerKey)
    && DecodeField(Get(g.init, "nonce")) == Some(g.peerNonce)
  }

  lemma RespBodyIsNoConfirm(c: Crypto, cfg: ResponderConfig, m: Json, id: string, key: Bytes, n: Bytes,
      peerNonce: Bytes)
    requires WellFormed(m) && Get(m, "nonce").Some? && WellFormed(cfg.policy)
    ensures NoConfirm(HandshakeInput(RespBody(c, cfg, m, id, key, n, peerNonce)))
  {
    RespHeaded(c, cfg, m, id, key, n, peerNonce);
    OtherStep(RespBody(c, cfg, m, id, key, n, peerNonce), "response");
  }

  lemma NoConfirmsTwo(a: Bytes, b: Bytes)
    requires NoConfirm(a) && NoConfirm(b)
    ensures NoConfirms([a, b])
  {}

  lemma InitMessageSigns(c: Crypto, s: Responder, data: string, priv: Bytes, nonce: Bytes, id: string)
    requires ResponderOk(c, s)
    ensures NoConfirms(OnInit(c, s, data, priv, nonce, id).signed)
  {
    var step := OnInit(c, s, data, priv, nonce, id);
    TakeInitTakes(c, s, data);
    if step.out.Ok? {
      var g := TakeInit(c, s, data).value;
      var key := ResponderShared(c, s.cfg.suite, ResponderRandom(s.cfg, priv), g.peerKey).value;
      ReplySigns(c, s.cfg, g, id, key.0, step.state.serverNonce.value);
    }
  }

  lemma ReplySigns(c: Crypto, cfg: ResponderConfig, g: Greeting, id: string, key: Bytes, n: Bytes)
    requires WellFormed(g.init) && Get(g.init, "nonce").Some? && WellFormed(cfg.policy)
    ensures NoConfirms([IdentityInput(key + n + g.peerNonce),
                        HandshakeInput(RespBody(c, cfg, g.init, id, key, n, g.peerNonce))])
  {
    RespBodyIsNoConfirm(c, cfg, g.init, id, key, n, g.peerNonce);
    NoIdentity(key + n + g.peerNonce);
    NoConfirmsTwo(IdentityInput(key + n + g.peerNonce), HandshakeInput(RespBody(c, cfg, g.init, id, key, n,
                  g.peerNonce)));
  }

  lemma InitMessageKeeps(c: Crypto, s: Responder, data: string, priv: Bytes, nonce: Bytes, id: string)
    requires ResponderOk(c, s)
    ensures ResponderOk(c, OnInit(c, s, data, priv, nonce, id).state)
  {
    var step := OnInit(c, s, data, priv, nonce, id);
    TakeInitTakes(c, s, data);
    if step.out.Ok? {
      assert FromInit(c, step.state, TakeInit(c, s, data).value, ResponderRandom(s.cfg, priv),
                      step.state.serverNonce.value);
    }
  }

  lemma AcceptedIsNoConfirm(id: string, ttl: int, ticket: Option<Json>)
    requires ticket.Some? ==> WellFormed(ticket.value)
    ensures NoConfirm(HandshakeInput(AcceptedBody(id, ttl, ticket)))
  {
    AcceptedShape(id, ttl, ticket);
    OtherStep(AcceptedBody(id, ttl, ticket), "accepted");
  }

  lemma ConfirmSigns(c: Crypto, s: Responder, data: string, ticket: Option<Json>)
    requires ticket.Some? ==> WellFormed(ticket.value)
    ensures NoConfirms(OnConfirm(c, s, data, ticket).signed)
  {
    AcceptedIsNoConfirm(s.sessionId, s.cfg.ttl, ticket);
  }

  lemma ConfirmChanges(c: Crypto, s: Responder, data: string, ticket: Option<Json>)
    ensures var t := OnConfirm(c, s, data, ticket).state; t == s.(session := t.session, ephPriv := t.ephPriv)
  {}

  lemma StillOk(c: Crypto, s: Responder, t: Responder)
    requires ResponderOk(c, s) && t == s.(session := t.session, ephPriv := t.ephPriv)
    ensures ResponderOk(c, t)
  {
    if s.initText.Some? && s.keys.Some? {
      var g, random, n :| FromInit(c, s, g, random, n);
      assert FromInit(c, t, g, random, n);
    }
  }

  lemma ConfirmKeeps(c: Crypto, s: Responder, data: string, ticket: Option<Json>)
    requires ResponderOk(c, s)
    ensures ResponderOk(c, OnConfirm(c, s, data, ticket).state)
  {
    ConfirmChanges(c, s, data, ticket);
    StillOk(c, s, OnConfirm(c, s, data, ticket).state);
  }

  /** Earlier entries stay justified, and new ones are, when each is no confirm or comes with its event. */
  lemma LogKeeps(c: Crypto, sys: System, pub: Bytes, signed: seq<Bytes>, es: seq<Confirmed>)
    requires SystemOk(c, sys)
    requires AllAnnounced(c, pub, signed, es)
    ensures forall k | 0 <= k < |sys.log + Logged(pub, signed)| ::
      EntryOk(c, (sys.log + Logged(pub, signed))[k], sys.events + es)
  {
    var log, events := sys.log + Logged(pub, signed), sys.events + es;
    forall k | 0 <= k < |log| ensures EntryOk(c, log[k], events) {
      if k < |sys.log| {
        assert EntryOk(c, sys.log[k], sys.events);
        if !NoConfirm(log[k].input) {
          var j :| MadeBy(c, sys.log[k], sys.events, j);
          assert MadeBy(c, log[k], events, j);
        }
      } else if !NoConfirm(log[k].input) {
        assert MadeBy(c, log[k], events, |sys.events|);
      }
    }
  }

  lemma InitiatorStepOk(c: Crypto, sys: System, i: nat, step: Step<Initiator>, origin: Option<Origin>,
      es: seq<Confirmed>)
    requires SystemOk(c, sys) && i < |sys.initiators| && InitiatorOk(c, Tracked(step.state, origin))
    requires forall k | 0 <= k < |es| :: EventOk(c, es[k])
    requires AllAnnounced(c, c.pub(sys.initiators[i].state.cfg.seed), step.signed, es)
    ensures SystemOk(c, AfterInitiator(c, sys, i, step, origin, es))
  {
    LogKeeps(c, sys, c.pub(sys.initiators[i].state.cfg.seed), step.signed, es);
  }

  lemma ResponderStepOk(c: Crypto, sys: System, r: nat, step: Step<Responder>)
    requires SystemOk(c, sys) && r < |sys.responders| && ResponderOk(c, step.state)
    requires NoConfirms(step.signed)
    ensures SystemOk(c, AfterResponder(c, sys, r, step))
  {
    LogKeeps(c, sys, c.pub(sys.responders[r].cfg.seed), step.signed, []);
    assert sys.events + [] == sys.events;
  }

  lemma InitiatorCallOk(c: Crypto, sys: System, i: nat, a: InitiatorCall)
    requires Ideal(c) && SystemOk(c, sys) && i < |sys.initiators|
    ensures SystemOk(c, OnInitiator(c, sys, sys.initiators[i], i, a))
  {
    var t := sys.initiators[i];
    assert InitiatorOk(c, t);
    match a
    case InitCall(priv, nonce) =>
      InitKeeps(c, t, priv, nonce);
      InitSigns(c, t, priv, nonce);
      var step := Init(c, t.state, priv, nonce);
      InitiatorStepOk(c, sys, i, step, InitOrigin(t, step), []);
    case ResponseCall(data) =>
      ResponseKeeps(c, t, data);
      ResponseEvents(c, t, data);
      ResponseSigns(c, t, data);
      InitiatorStepOk(c, sys, i, OnResponse(c, t.state, data), t.origin, EventOf(c, t, data));
    case ResumeCall(ticket, revision, priv, nonce) =>
      ResumeKeeps(c, t, ticket, revision, priv, nonce);
      var step := Resume(c, t.state, ticket, revision, priv, nonce);
      InitiatorStepOk(c, sys, i, step, ResumeOrigin(t, step), []);
    case ResumeAcceptedCall(data) =>
      ResumeAcceptedKeeps(c, t, data);
      InitiatorStepOk(c, sys, i, OnResumeAccepted(c, t.state, data), t.origin, []);
    case AcceptedCall(data) =>
      AcceptedKeeps(c, t, data);
      InitiatorStepOk(c, sys, i, OnAccepted(c, t.state, data), t.origin, []);
    case LoadSecretCall(secret) => InitiatorStepOk(c, sys, i, LoadSecret(t.state, secret), t.origin, []);
    case EraseInitiatorCall =>
      KeyErased(c, t);
      InitiatorStepOk(c, sys, i, Step(EraseInitiator(t.state), Ok(""), []), t.origin, []);
  }

  lemma AcceptedKeeps(c: Crypto, t: Tracked, data: string)
    requires InitiatorOk(c, t)
    ensures InitiatorOk(c, Tracked(OnAccepted(c, t.state, data).state, t.origin))
    ensures OnAccepted(c, t.state, data).signed == []
  {}

  lemma KeyErased(c: Crypto, t: Tracked)
    requires InitiatorOk(c, t)
    ensures InitiatorOk(c, Tracked(EraseInitiator(t.state), t.origin))
  {}

  lemma ResponderCallOk(c: Crypto, sys: System, r: nat, a: ResponderCall)
    requires SystemOk(c, sys) && r < |sys.responders|
    ensures SystemOk(c, OnResponder(c, sys, sys.responders[r], r, a))
  {
    var s := sys.responders[r];
    assert ResponderOk(c, s);
    match a
    case InitMessageCall(data, priv, nonce, id) =>
      InitMessageKeeps(c, s, data, priv, nonce, id);
      InitMessageSigns(c, s, data, priv, nonce, id);
      ResponderStepOk(c, sys, r, OnInit(c, s, data, priv, nonce, id));
    case ConfirmCall(data, ticket) =>
      if ticket.Some? ==> WellFormed(ticket.value) {
        ConfirmKeeps(c, s, data, ticket);
        ConfirmSigns(c, s, data, ticket);
        ResponderStepOk(c, sys, r, OnConfirm(c, s, data, ticket));
      }
    case EraseResponderCall => ResponderStepOk(c, sys, r, Step(EraseResponder(s), Ok(""), []));
  }

  /** Every step, whatever text the network hands over, keeps what is known of parties, log and confirmations. */
  lemma NextOk(c: Crypto, sys: System, a: Action)
    requires Ideal(c) && SystemOk(c, sys)
    ensures SystemOk(c, Next(c, sys, a))
  {
    match a
    case InitiatorAction(i, call) => if i < |sys.initiators| { InitiatorCallOk(c, sys, i, call); }
    case ResponderAction(r, call) => if r < |sys.responders| { ResponderCallOk(c, sys, r, call); }
    case _ =>
  }

  lemma {:induction false} RunOk(c: Crypto, actions: seq<Action>)
    requires Ideal(c)
    ensures SystemOk(c, Run(c, actions))
  {
    if actions != [] {
      RunOk(c, actions[..|actions| - 1]);
      NextOk(c, Run(c, actions[..|actions| - 1]), actions[|actions| - 1]);
    }
  }

  // ---------------------------------------------------------------- agreement

  /** If `pub` accepts the signature on `m`, its holder made it, somewhere in the run, over exactly this message. */
  ghost predicate Genuine(c: Crypto, sys: System, pub: Bytes, m: Json) {
    var sig := DecodeField(Get(m, SIG_FIELD));
    sig.Some? && c.verify(pub, sig.value, HandshakeInput(m)) ==>
      exists k :: 0 <= k < |sys.log| && sys.log[k] == Entry(pub, HandshakeInput(m))
  }

  /** Received text and canonical text that are equal when each is followed by canonical text, are equal. */
  lemma TextsAgree(data: string, v: Json, x: Json, i: Json, y: Json)
    requires FromText(data) == Some(v) && v.JObj? && WellFormed(x) && x.JObj? && WellFormed(i) && i.JObj? && y.JObj?
    requires data + Canonical(x) == Canonical(i) + Canonical(y)
    ensures data == Canonical(i) && Canonical(x) == Canonical(y) && v == Canon(i)
  {
    var r := ParseValue(data).rest;
    ParseValueAppend(data, Canonical(x));
    CanonWellFormed(i);
    ParsePrint(Canon(i), Canonical(y));
    assert r + Canonical(x) == Canonical(y);
    BraceFirst(y);
    if r != "" {
      assert Canonical(y)[0] == r[0];
      SpaceFirst(r);
    }
    assert r + Canonical(x) == Canonical(x);
    var n := |Canonical(x)|;
    assert data == (data + Canonical(x))[..|data|] && Canonical(i) == (Canonical(i) + Canonical(y))[..|data|];
  }

  lemma BraceFirst(v: Json)
    requires v.JObj?
    ensures Canonical(v) != "" && Canonical(v)[0] == '{'
  {}

  lemma SpaceFirst(r: string)
    requires r != "" && Skip(r) == ""
    ensures Space(r[0])
  {}

  /** Equal confirmation hashes, equal texts. */
  lemma HashBinds(c: Crypto, a: string, x: string, b: string, y: string)
    requires Ideal(c) && ConfirmationHash(c, a, x) == ConfirmationHash(c, b, y)
    ensures a + x == b + y
  {
    Utf8.EncodeConcat(a, x);
    Utf8.EncodeConcat(b, y);
    Utf8.EncodeInjective(a + x, b + y);
  }

  /**
   * A confirm message with the signing input of `ConfirmBody(id, hash, reason)` carries its id, hash and acceptance.
   */
  lemma ConfirmSays(m: Json, id: Option<Json>, hash: Bytes, reason: Option<string>)
    requires WellFormed(m) && m.JObj? && (id.Some? ==> WellFormed(id.value))
    requires HandshakeInput(m) == HandshakeInput(ConfirmBody(id, hash, reason))
    ensures Scalar(Get(m, "session_id")) ==> id == Get(m, "session_id")
    ensures DecodeField(Get(m, "confirmation_hash")) == Some(hash)
    ensures Dig(m, "federation_acceptance", "accepted") == Some(JBool(reason.None?))
  {
    ConfirmShape(id, hash, reason);
    AcceptanceShape(reason);
    ConfirmSaysOf(m, ConfirmBody(id, hash, reason), hash);
  }

  lemma ConfirmSaysOf(m: Json, w: Json, hash: Bytes)
    requires WellFormed(m) && m.JObj? && WellFormed(w) && w.JObj? && HandshakeInput(m) == HandshakeInput(w)
    requires Get(w, "confirmation_hash") == Some(JStr(Base64.Encode(hash)))
    requires Get(w, "federation_acceptance").Some? && Get(w, "federation_acceptance").value.JObj?
    requires Scalar(Dig(w, "federation_acceptance", "accepted"))
    ensures Scalar(Get(m, "session_id")) ==> Get(w, "session_id") == Get(m, "session_id")
    ensures DecodeField(Get(m, "confirmation_hash")) == Some(hash)
    ensures Dig(m, "federation_acceptance", "accepted") == Dig(w, "federation_acceptance", "accepted")
  {
    ScalarAgrees(HandshakePrefix(), m, w, SIG_FIELD, "session_id");
    ScalarAgrees(HandshakePrefix(), m, w, SIG_FIELD, "confirmation_hash");
    InnerAgrees(HandshakePrefix(), m, w, SIG_FIELD, "federation_acceptance", "accepted");
    Base64.RoundTrip(hash);
  }

  /** The initiator's confirmation that a successful `onConfirm` answers. */
  ghost predicate Answers(c: Crypto, s: Responder, e: Confirmed) {
    && EventOk(c, e)
    && s.initText == Some(e.initText) && s.respText == Some(Canonical(e.answer.resp))
    && Get(e.answer.resp, "session_id") == Some(JStr(s.sessionId))
    && e.cfg.acceptor(Get(e.answer.resp, "federation_policy")).None?
  }

  /** What a successful `onConfirm` has checked. */
  lemma ConfirmChecked(c: Crypto, s: Responder, data: string, ticket: Option<Json>)
    requires OnConfirm(c, s, data, ticket).out.Ok?
    ensures s.initText.Some? && s.respText.Some? && s.keys.Some? && Receive(data, "confirm").Some?
    ensures var m := Receive(data, "confirm").value;
      && Get(m, "session_id") == Some(JStr(s.sessionId))
      && s.cfg.lookup(s.peerDomain).Some? && Verifies(c, m, s.cfg.lookup(s.peerDomain).value)
      && DecodeField(Get(m, "confirmation_hash")) == Some(ConfirmationHash(c, s.initText.value, s.respText.value))
      && Truthy(Dig(m, "federation_acceptance", "accepted"))
    ensures OnConfirm(c, s, data, ticket).state.session ==
      Some(ResponderSession(s.sessionId, s.cfg.ttl, s.keys.value, s.peerDomain))
  {}

  /** Equal hashes: the same init text and the same response text. */
  lemma TextsMatch(c: Crypto, s: Responder, e: Confirmed)
    requires Ideal(c) && ResponderOk(c, s) && EventOk(c, e) && s.initText.Some? && s.respText.Some? && s.keys.Some?
    requires ConfirmationHash(c, s.initText.value, s.respText.value)
      == ConfirmationHash(c, e.initText, Canonical(e.answer.resp))
    ensures s.initText.value == e.initText && s.respText.value == Canonical(e.answer.resp)
  {
    HashBinds(c, s.initText.value, s.respText.value, e.initText, Canonical(e.answer.resp));
    var g, random, n :| FromInit(c, s, g, random, n);
    AnswerText(c, s, g, random, n);
    var body :| WellFormed(body) && body.JObj? && s.respText.value == Canonical(body);
    InitTextShape(c, e);
    var i :| WellFormed(i) && i.JObj? && e.initText == Canonical(i);
    TextsAgree(s.initText.value, g.init, body, i, e.answer.resp);
  }

  /** What a confirm message says that has the signing input of a confirmation on record. */
  lemma ConfirmOf(c: Crypto, m: Json, e: Confirmed)
    requires WellFormed(m) && m.JObj? && WellFormed(e.answer.resp) && HandshakeInput(m) == HandshakeInput(BodyOf(c, e))
    ensures Says(c, m, e)
  {
    var resp := e.answer.resp;
    FieldWellFormed(resp, "session_id");
    ConfirmSays(m, Get(resp, "session_id"), ConfirmationHash(c, e.initText, Canonical(resp)),
                e.cfg.acceptor(Get(resp, "federation_policy")));
  }

  ghost predicate Says(c: Crypto, m: Json, e: Confirmed) {
    && (Scalar(Get(m, "session_id")) ==> Get(e.answer.resp, "session_id") == Get(m, "session_id"))
    && DecodeField(Get(m, "confirmation_hash")) == Some(ConfirmationHash(c, e.initText, Canonical(e.answer.resp)))
    && Dig(m, "federation_acceptance", "accepted")
       == Some(JBool(e.cfg.acceptor(Get(e.answer.resp, "federation_policy")).None?))
  }

  lemma AgreementOnTexts(c: Crypto, s: Responder, m: Json, e: Confirmed)
    requires Ideal(c) && ResponderOk(c, s) && EventOk(c, e) && s.initText.Some? && s.respText.Some? && s.keys.Some?
    requires Says(c, m, e)
    requires Get(m, "session_id") == Some(JStr(s.sessionId))
    requires DecodeField(Get(m, "confirmation_hash")) == Some(ConfirmationHash(c, s.initText.value, s.respText.value))
    requires Truthy(Dig(m, "federation_acceptance", "accepted"))
    ensures Answers(c, s, e)
  {
    SaysOf(c, m, e, JStr(s.sessionId));
    TextsMatch(c, s, e);
  }

  lemma SaysOf(c: Crypto, m: Json, e: Confirmed, id: Json)
    requires Says(c, m, e) && id.JStr? && Get(m, "session_id") == Some(id)
    requires Truthy(Dig(m, "federation_acceptance", "accepted"))
    ensures Get(e.answer.resp, "session_id") == Some(id)
    ensures e.cfg.acceptor(Get(e.answer.resp, "federation_policy")).None?
  {}

  lemma AnswerText(c: Crypto, s: Responder, g: Greeting, random: Bytes, n: Bytes)
    requires FromInit(c, s, g, random, n) && ResponderConfigOk(s.cfg)
    ensures exists v :: WellFormed(v) && v.JObj? && s.respText.value == Canonical(v)
  {
    var key := ResponderShared(c, s.cfg.suite, random, g.peerKey).value;
    var body := RespBody(c, s.cfg, g.init, s.sessionId, key.0, n, g.peerNonce);
    RespHeaded(c, s.cfg, g.init, s.sessionId, key.0, n, g.peerNonce);
    StampAgrees(body, SIG_FIELD, c.sign(s.cfg.seed, HandshakeInput(body)));
    assert s.respText.value == Canonical(Sign(c, s.cfg.seed, body));
  }

  lemma InitTextShape(c: Crypto, e: Confirmed)
    requires EventOk(c, e)
    ensures exists v :: WellFormed(v) && v.JObj? && e.initText == Canonical(v)
  {
    var body := InitBody(c, e.cfg, EphemeralPub(c, e.cfg.suite, e.origin.priv), e.nonce);
    InitShape(c, e.cfg, EphemeralPub(c, e.cfg.suite, e.origin.priv), e.nonce);
    StampAgrees(body, SIG_FIELD, c.sign(e.cfg.seed, HandshakeInput(body)));
    assert e.initText == Canonical(Sign(c, e.cfg.seed, body));
  }

  lemma GreetingMatches(c: Crypto, g: Greeting, e: Confirmed)
    requires EventOk(c, e) && Heard(g, e.initText)
    ensures g.domain == e.cfg.localDomain && g.peerNonce == e.nonce
    ensures g.peerKey == EphemeralPub(c, e.cfg.suite, e.origin.priv)
  {
    var pub := EphemeralPub(c, e.cfg.suite, e.origin.priv);
    var body := InitBody(c, e.cfg, pub, e.nonce);
    InitShape(c, e.cfg, pub, e.nonce);
    KeyShape(c, e.cfg.suite, pub);
    InitReads(e.initText, g, body, c.sign(e.cfg.seed, HandshakeInput(body)), e.cfg.localDomain, pub, e.nonce);
  }

  ghost predicate InitSays(v: Json, domain: string, pub: Bytes, nonce: Bytes) {
    && Get(v, "server_domain") == Some(JStr(domain)) && Get(v, "nonce") == Some(JStr(Base64.Encode(nonce)))
    && Get(v, "server_ephemeral_key").Some? && Get(v, "server_ephemeral_key").value.JObj?
    && Dig(v, "server_ephemeral_key", "key") == Some(JStr(Base64.Encode(pub)))
  }

  lemma InitReads(text: string, g: Greeting, body: Json, sig: Bytes, domain: string, pub: Bytes, nonce: Bytes)
    requires WellFormed(body) && body.JObj? && FromText(text) == Some(g.init) && Noted(g)
    requires text == Canonical(Stamp(body, SIG_FIELD, sig))
    requires InitSays(body, domain, pub, nonce)
    ensures g.domain == domain && g.peerNonce == nonce && g.peerKey == pub
  {
    StampAgrees(body, SIG_FIELD, sig);
    var v := Stamp(body, SIG_FIELD, sig);
    StampedInit(body, v, domain, pub, nonce);
    TextReadsAlike(text, g.init, v);
    GreetingReads(g, v, domain, pub, nonce);
  }

  lemma StampedInit(body: Json, v: Json, domain: string, pub: Bytes, nonce: Bytes)
    requires InitSays(body, domain, pub, nonce) && forall k | k != SIG_FIELD :: Get(v, k) == Get(body, k)
    ensures InitSays(v, domain, pub, nonce)
  {}

  lemma GreetingReads(g: Greeting, v: Json, domain: string, pub: Bytes, nonce: Bytes)
    requires Noted(g) && ReadAlike(g.init, v) && InitSays(v, domain, pub, nonce)
    ensures g.domain == domain && g.peerNonce == nonce && g.peerKey == pub
  {
    Base64.RoundTrip(nonce);
    Base64.RoundTrip(pub);
  }

  lemma AnswerMatches(c: Crypto, s: Responder, g: Greeting, random: Bytes, n: Bytes, e: Confirmed)
    requires FromInit(c, s, g, random, n) && ResponderConfigOk(s.cfg) && EventOk(c, e)
    requires s.respText == Some(Canonical(e.answer.resp))
    ensures e.answer.peerKey == ResponderShared(c, s.cfg.suite, random, g.peerKey).value.0 && e.answer.peerNonce == n
  {
    var key := ResponderShared(c, s.cfg.suite, random, g.peerKey).value;
    var body := RespBody(c, s.cfg, g.init, s.sessionId, key.0, n, g.peerNonce);
    RespHeaded(c, s.cfg, g.init, s.sessionId, key.0, n, g.peerNonce);
    RespKeys(c, s.cfg, g.init, s.sessionId, key.0, n, g.peerNonce);
    KeyShape(c, s.cfg.suite, key.0);
    StampReads(e.answer, body, c.sign(s.cfg.seed, HandshakeInput(body)), key.0, n, c, e.cfg.suite, e.priv);
  }

  ghost predicate RespSays(v: Json, pub: Bytes, n: Bytes) {
    && Get(v, "server_nonce") == Some(JStr(Base64.Encode(n)))
    && Get(v, "server_ephemeral_key").Some? && Get(v, "server_ephemeral_key").value.JObj?
    && Dig(v, "server_ephemeral_key", "key") == Some(JStr(Base64.Encode(pub)))
  }

  lemma StampReads(a: Answer, body: Json, sig: Bytes, pub: Bytes, n: Bytes, c: Crypto, suite: Suite, priv: Bytes)
    requires WellFormed(body) && body.JObj? && Taken(c, suite, priv, a) && RespSays(body, pub, n)
    requires Canonical(a.resp) == Canonical(Stamp(body, SIG_FIELD, sig))
    ensures a.peerKey == pub && a.peerNonce == n
  {
    StampAgrees(body, SIG_FIELD, sig);
    var v := Stamp(body, SIG_FIELD, sig);
    PrintsReadAlike(a.resp, v);
    AnswerReads(a, v, pub, n, c, suite, priv);
  }

  lemma AnswerReads(a: Answer, v: Json, pub: Bytes, n: Bytes, c: Crypto, suite: Suite, priv: Bytes)
    requires Taken(c, suite, priv, a) && ReadAlike(a.resp, v) && RespSays(v, pub, n)
    ensures a.peerKey == pub && a.peerNonce == n
  {
    Base64.RoundTrip(n);
    Base64.RoundTrip(pub);
  }

  /** The two ends hold the same keys, and the responder knows the initiator's domain. */
  lemma KeysMatch(c: Crypto, s: Responder, e: Confirmed)
    requires Ideal(c) && ResponderOk(c, s) && Answers(c, s, e) && s.keys.Some?
    ensures e.cfg.localDomain == s.peerDomain
    ensures e.cfg.suite == s.cfg.suite && KeyUsed(e) ==> s.keys == Some(e.keys)
  {
    var g, random, n :| FromInit(c, s, g, random, n);
    GreetingMatches(c, g, e);
    AnswerMatches(c, s, g, random, n, e);
    if e.cfg.suite == s.cfg.suite && KeyUsed(e) {
      SharedSecret(c, s.cfg.suite, e.priv, random, ResponderShared(c, s.cfg.suite, random, g.peerKey).value);
    }
  }

  /** A private key gives different secrets with different public keys, and different secrets derive different keys. */
  ghost predicate Separates(c: Crypto) {
    && (forall a, x, y | c.agree(a, x) == c.agree(a, y) && c.agree(a, x).Some? :: x == y)
    && (forall s, t, n | c.derive(s, n) == c.derive(t, n) :: s == t)
  }

  /** On the baseline suite the keys are the same exactly when the key used has the public key that was announced. */
  lemma KeysMatchIff(c: Crypto, s: Responder, e: Confirmed)
    requires Ideal(c) && Separates(c) && ResponderOk(c, s) && Answers(c, s, e) && s.keys.Some?
    requires e.cfg.suite == s.cfg.suite == Baseline
    ensures s.keys == Some(e.keys) <==> c.dhPub(e.priv) == c.dhPub(e.origin.priv)
  {
    var g, random, n :| FromInit(c, s, g, random, n);
    GreetingMatches(c, g, e);
    AnswerMatches(c, s, g, random, n, e);
    BaselineKeys(c, s, g, random, n, e);
    DerivedMatchIff(c, e.priv, e.origin.priv, random, e.nonce + n);
  }

  /** What both ends derived. */
  lemma BaselineKeys(c: Crypto, s: Responder, g: Greeting, random: Bytes, n: Bytes, e: Confirmed)
    requires FromInit(c, s, g, random, n) && EventOk(c, e) && e.cfg.suite == s.cfg.suite == Baseline
    requires g.peerNonce == e.nonce && g.peerKey == EphemeralPub(c, e.cfg.suite, e.origin.priv)
    requires e.answer.peerKey == ResponderShared(c, s.cfg.suite, random, g.peerKey).value.0 && e.answer.peerNonce == n
    ensures c.agree(random, c.dhPub(e.origin.priv)).Some? && c.agree(e.priv, c.dhPub(random)).Some?
    ensures s.keys == Some(c.derive(c.agree(random, c.dhPub(e.origin.priv)).value, e.nonce + n))
    ensures e.keys == c.derive(c.agree(e.priv, c.dhPub(random)).value, e.nonce + n)
  {}

  lemma DerivedMatchIff(c: Crypto, used: Bytes, announced: Bytes, random: Bytes, n: Bytes)
    requires Ideal(c) && Separates(c)
    requires c.agree(used, c.dhPub(random)).Some? && c.agree(random, c.dhPub(announced)).Some?
    ensures var x, y := c.agree(random, c.dhPub(announced)).value, c.agree(used, c.dhPub(random)).value;
      c.derive(x, n) == c.derive(y, n) <==> c.dhPub(used) == c.dhPub(announced)
  {
    assert c.agree(used, c.dhPub(random)) == c.agree(random, c.dhPub(used));
  }

  /**
   * On the same suite: the keys are the same unless `resume` put another ephemeral key in place; and where primitives
   * separate keys, exactly on the hybrid suite and where the key used has the public key that was announced.
   */
  ghost predicate KeysKept(c: Crypto, s: Responder, e: Confirmed) {
    && (KeyUsed(e) ==> s.keys == Some(e.keys))
    && (Separates(c) ==>
          (s.keys == Some(e.keys) <==> e.cfg.suite == Hybrid || c.dhPub(e.priv) == c.dhPub(e.origin.priv)))
  }

  lemma KeysKeptOn(c: Crypto, s: Responder, e: Confirmed)
    requires Ideal(c) && ResponderOk(c, s) && Answers(c, s, e) && s.keys.Some? && e.cfg.suite == s.cfg.suite
    ensures KeysKept(c, s, e)
  {
    KeysMatch(c, s, e);
    if Separates(c) && e.cfg.suite == Baseline {
      KeysMatchIff(c, s, e);
    }
  }

  /**
   * Responder-side agreement: in every run, when `onConfirm` succeeds, some initiator of the peer's domain key sent
   * a confirmation of exactly this init and this response, having accepted the policy; both have the same session id
   * and, on the same suite, the same session keys exactly where `KeysKept` says.
   */
  lemma Agreement(c: Crypto, actions: seq<Action>, r: nat, data: string, ticket: Option<Json>)
    requires Ideal(c) && r < |Run(c, actions).responders|
    requires Confirms(c, Run(c, actions), Run(c, actions).responders[r], data, ticket)
    ensures var sys := Run(c, actions);
      exists k :: 0 <= k < |sys.events| && Agrees(c, sys.responders[r], sys.events[k])
  {
    RunOk(c, actions);
    AgreementIn(c, Run(c, actions), r, data, ticket);
  }

  /** `onConfirm` succeeds, on a message whose signature is genuine. */
  ghost predicate Confirms(c: Crypto, sys: System, s: Responder, data: string, ticket: Option<Json>) {
    && OnConfirm(c, s, data, ticket).out.Ok?
    && (Receive(data, "confirm").Some? && s.cfg.lookup(s.peerDomain).Some? ==>
          Genuine(c, sys, s.cfg.lookup(s.peerDomain).value, Receive(data, "confirm").value))
  }

  lemma AgreementIn(c: Crypto, sys: System, r: nat, data: string, ticket: Option<Json>)
    requires Ideal(c) && SystemOk(c, sys) && r < |sys.responders|
    requires Confirms(c, sys, sys.responders[r], data, ticket)
    ensures exists k :: 0 <= k < |sys.events| && Agrees(c, sys.responders[r], sys.events[k])
  {
    var s := sys.responders[r];
    ConfirmChecked(c, s, data, ticket);
    var m, pub := Receive(data, "confirm").value, s.cfg.lookup(s.peerDomain).value;
    var k := Maker(c, sys, pub, m);
    ConfirmOf(c, m, sys.events[k]);
    AgreementOnTexts(c, s, m, sys.events[k]);
    KeysMatch(c, s, sys.events[k]);
    if sys.events[k].cfg.suite == s.cfg.suite {
      KeysKeptOn(c, s, sys.events[k]);
    }
    assert Agrees(c, s, sys.events[k]);
  }

  /** The confirmation on record behind a genuine confirm message. */
  lemma Maker(c: Crypto, sys: System, pub: Bytes, m: Json) returns (k: nat)
    requires SystemOk(c, sys) && IsConfirm(m) && Verifies(c, m, pub) && Genuine(c, sys, pub, m)
    ensures k < |sys.events| && EventOk(c, sys.events[k])
    ensures c.pub(sys.events[k].cfg.seed) == pub && HandshakeInput(m) == HandshakeInput(BodyOf(c, sys.events[k]))
  {
    var j :| 0 <= j < |sys.log| && sys.log[j] == Entry(pub, HandshakeInput(m));
    assert EntryOk(c, sys.log[j], sys.events);
    k :| MadeBy(c, sys.log[j], sys.events, k);
  }

  ghost predicate Agrees(c: Crypto, s: Responder, e: Confirmed) {
    && s.cfg.lookup(s.peerDomain) == Some(c.pub(e.cfg.seed)) && e.cfg.localDomain == s.peerDomain
    && Answers(c, s, e)
    && (e.cfg.suite == s.cfg.suite ==> KeysKept(c, s, e))
  }
}
