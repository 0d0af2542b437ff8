/** The two ends of the server-to-server handshake as the objects they are: fields set step by step. */
module FederationParties {
  import opened Wrappers
  import opened Json
  import opened Signing
  import opened FederationMessages
  import F = Federation
  import Utf8
  import Buffers

  /** `confirmationHash`: both texts in one buffer, then the digest. */
  method ConfirmationHash(c: Crypto, first: Bytes, second: Bytes) returns (digest: Bytes)
    ensures digest == c.sha256(first + second)
  {
    var buf := Buffers.Concat(first, second);
    digest := c.sha256(buf);
  }

  class FederationInitiator {
    const c: Crypto
    const cfg: InitiatorConfig
    var nonce: Option<Bytes>
    var ephPriv: Option<Bytes>
    var ephPub: Option<Bytes>
    var initText: Option<string>
    var respText: Option<string>
    var sessionId: Option<Json>
    var keys: Option<Bytes>
    var session: Option<F.InitiatorSession>
    var resumptionSecret: Option<Bytes>
    var resumeNonce: Option<Bytes>

    function State(): F.Initiator
      reads this
    {
      F.Initiator(cfg, nonce, ephPriv, ephPub, initText, respText, sessionId, keys, session,
                  resumptionSecret, resumeNonce)
    }

    constructor (c: Crypto, cfg: InitiatorConfig)
      requires InitiatorConfigOk(cfg)
      ensures this.c == c && State() == F.NewInitiator(cfg)
    {
      this.c, this.cfg := c, cfg;
      nonce, ephPriv, ephPub := cfg.pinnedNonce, cfg.pinnedPriv, None;
      initText, respText, sessionId := None, None, Some(JStr(""));
      keys, session, resumptionSecret, resumeNonce := None, None, None, None;
    }

    method Init(freshPriv: Bytes, freshNonce: Bytes) returns (out: Result<string>)
      modifies this
      ensures var step := F.Init(c, old(State()), freshPriv, freshNonce); State() == step.state && out == step.out
    {
      if initText.Some? {
        return Err("init already called");
      }
      if cfg.suite == Hybrid && cfg.pinnedPriv.Some? {
        return Err("PQ ephemeral pinning");
      }
      MakeEphemeral(freshPriv, freshNonce);
      var msg := InitBody(c, cfg, ephPub.value, nonce.value);
      initText := Some(Canonical(Sign(c, cfg.seed, msg)));
      out := Ok(initText.value);
    }

    method MakeEphemeral(freshPriv: Bytes, freshNonce: Bytes)
      modifies this
      ensures nonce == Some(if old(nonce).None? then freshNonce else old(nonce).value)
      ensures ephPriv == Some(if cfg.suite == Hybrid || old(ephPriv).None? then freshPriv else old(ephPriv).value)
      ensures ephPub == Some(F.EphemeralPub(c, cfg.suite, ephPriv.value))
      ensures State() == old(State()).(nonce := nonce, ephPriv := ephPriv, ephPub := ephPub)
    {
      if cfg.suite == Hybrid {
        ephPriv := Some(freshPriv);
        ephPub := Some(c.hybridPub(freshPriv));
      } else {
        if ephPriv.None? {
          ephPriv := Some(freshPriv);
        }
        ephPub := Some(c.dhPub(ephPriv.value));
      }
      if nonce.None? {
        nonce := Some(freshNonce);
      }
    }

    method OnResponse(data: string) returns (out: Result<string>)
      modifies this
      ensures var step := F.OnResponse(c, old(State()), data); State() == step.state && out == step.out
    {
      var taken := F.TakeResponse(c, State(), data);
      if taken.Err? {
        return Err(taken.error);
      }
      Settle(taken.value);
      var digest := ConfirmationHash(c, Utf8.Encode(initText.value), Utf8.Encode(respText.value));
      var reason := cfg.acceptor(Get(taken.value.resp, "federation_policy"));
      var confirm := ConfirmBody(sessionId, digest, reason);
      out := Ok(Canonical(Sign(c, cfg.seed, confirm)));
    }

    /** Derives the keys and gives up the ephemeral key. */
    method Settle(answer: F.Answer)
      requires nonce.Some?
      modifies this
      ensures State() == F.Confirming(c, old(State()), answer)
    {
      keys := Some(c.derive(answer.shared, nonce.value + answer.peerNonce));
      ephPriv := None;
      respText := Some(Canonical(answer.resp));
      sessionId := Get(answer.resp, "session_id");
    }

    method OnAccepted(data: string) returns (out: Result<string>)
      modifies this
      ensures var step := F.OnAccepted(c, old(State()), data); State() == step.state && out == step.out
    {
      if keys.None? {
        return Err("onAccepted before onResponse");
      }
      var m := Receive(data, "accepted");
      if m.None? {
        return Err("message");
      }
      if !F.StrictlyEqual(Get(m.value, "session_id"), sessionId) {
        return Err("session_id");
      }
      var pub := cfg.lookup(cfg.peerDomain);
      if pub.None? {
        return Err("lookup");
      }
      if !Verifies(c, m.value, pub.value) {
        return Err("server_signature");
      }
      var ttl := F.TtlOf(Get(m.value, "session_ttl"));
      var id := if sessionId.Some? then sessionId.value else JNull;
      session := Some(F.InitiatorSession(id, ttl, keys.value, cfg.peerDomain));
      out := Ok("");
    }

    method Erase()
      modifies this
      ensures State() == F.EraseInitiator(old(State()))
    {
      ephPriv, nonce, resumptionSecret := None, None, None;
      keys := None;
    }

    method LoadResumptionSecret(secret: Bytes) returns (out: Result<string>)
      modifies this
      ensures var step := F.LoadSecret(old(State()), secret); State() == step.state && out == step.out
    {
      if secret == [] {
        return Err("empty resumption secret");
      }
      resumptionSecret := Some(secret);
      out := Ok("");
    }

    method Resume(ticket: Bytes, revision: int, freshPriv: Bytes, freshNonce: Bytes) returns (out: Result<string>)
      modifies this
      ensures var step := F.Resume(c, old(State()), ticket, revision, freshPriv, freshNonce);
        State() == step.state && out == step.out
    {
      if resumptionSecret.None? {
        return Err("resume before loadResumptionSecret");
      }
      if ticket == [] {
        return Err("empty resumption ticket");
      }
      if resumeNonce.None? {
        resumeNonce := Some(freshNonce);
      }
      if ephPriv.None? {
        ephPriv := Some(freshPriv);
      } else if |ephPriv.value| != DH_KEY_SIZE {
        return Err("ephemeral key size");
      }
      ephPub := Some(c.dhPub(ephPriv.value));
      out := Ok(Canonical(ResumeBody(c, cfg, resumeNonce.value, ephPub.value, ticket, revision)));
    }

    method OnResumeAccepted(data: string) returns (out: Result<string>)
      modifies this
      ensures var step := F.OnResumeAccepted(c, old(State()), data); State() == step.state && out == step.out
    {
      var taken := F.TakeResumed(c, State(), data);
      if taken.Err? {
        return Err(taken.error);
      }
      var msg := taken.value.resp;
      ephPriv := None;
      var ikm := resumptionSecret.value + taken.value.shared;
      var resumed := c.derive(ikm, resumeNonce.value + taken.value.peerNonce);
      resumptionSecret := None;
      var id := if Get(msg, "session_id").Some? then Get(msg, "session_id").value else JNull;
      session := Some(F.InitiatorSession(id, F.TtlOf(Get(msg, "session_ttl")), resumed, cfg.peerDomain));
      var ticket := DecodeField(Dig(msg, "resumption_ticket", "value"));
      out := if ticket.Some? then Ok("") else Err("resumption ticket");
    }
  }

  class FederationResponder {
    const c: Crypto
    const cfg: ResponderConfig
    var sessionId: string
    var peerDomain: string
    var peerNonce: Option<Bytes>
    var serverNonce: Option<Bytes>
    var ephPriv: Option<Bytes>
    var initText: Option<string>
    var respText: Option<string>
    var keys: Option<Bytes>
    var session: Option<F.ResponderSession>

    function State(): F.Responder
      reads this
    {
      F.Responder(cfg, sessionId, peerDomain, peerNonce, serverNonce, ephPriv, initText, respText, keys, session)
    }

    constructor (c: Crypto, cfg: ResponderConfig)
      requires ResponderConfigOk(cfg)
      ensures this.c == c && State() == F.NewResponder(cfg)
    {
      this.c, this.cfg := c, cfg;
      sessionId, peerDomain, peerNonce, serverNonce := "", "", None, None;
      ephPriv, initText, respText, keys, session := None, None, None, None, None;
    }

    method OnInit(data: string, freshPriv: Bytes, freshNonce: Bytes, id: string) returns (out: Result<string>)
      modifies this
      ensures var step := F.OnInit(c, old(State()), data, freshPriv, freshNonce, id);
        State() == step.state && out == step.out
    {
      var taken := F.TakeInit(c, State(), data);
      if taken.Err? {
        return Err(taken.error);
      }
      var key := AgreeOnKey(taken.value.peerKey, freshPriv);
      if key.None? {
        return Err("shared secret");
      }
      var n := if cfg.pinnedNonce.Some? then cfg.pinnedNonce.value else freshNonce;
      Answer(data, taken.value, key.value, n, id);
      out := Ok(respText.value);
    }

    /** The ephemeral key is stored before the key agreement, which may throw. */
    method AgreeOnKey(peerKey: Bytes, freshPriv: Bytes) returns (key: Option<(Bytes, Bytes)>)
      modifies this
      ensures key == F.ResponderShared(c, cfg.suite, F.ResponderRandom(cfg, freshPriv), peerKey)
      ensures State() == if cfg.suite == Hybrid then old(State())
        else old(State()).(ephPriv := Some(F.ResponderRandom(cfg, freshPriv)))
    {
      var random := F.ResponderRandom(cfg, freshPriv);
      if cfg.suite == Baseline {
        ephPriv := Some(random);
      }
      key := F.ResponderShared(c, cfg.suite, random, peerKey);
    }

    /** Derives the keys, builds the response and keeps both texts. */
    method Answer(data: string, g: F.Greeting, key: (Bytes, Bytes), n: Bytes, id: string)
      requires Get(g.init, "nonce").Some?
      modifies this
      ensures State() == F.Answered(c, old(State()), data, g, key, n, id)
    {
      serverNonce := Some(n);
      sessionId := id;
      keys := Some(c.derive(key.1, g.peerNonce + n));
      var resp := RespBody(c, cfg, g.init, id, key.0, n, g.peerNonce);
      peerDomain := g.domain;
      peerNonce := Some(g.peerNonce);
      initText := Some(data);
      respText := Some(Canonical(Sign(c, cfg.seed, resp)));
    }

    method OnConfirm(data: string, ticket: Option<Json>) returns (out: Result<string>)
      modifies this
      ensures var step := F.OnConfirm(c, old(State()), data, ticket); State() == step.state && out == step.out
    {
      if initText.None? || respText.None? || keys.None? {
        return Err("onConfirm before onInit");
      }
      var m := Receive(data, "confirm");
      if m.None? {
        return Err("message");
      }
      var refused := F.CheckConfirm(c, State(), m.value);
      if refused.Some? {
        return Err(refused.value);
      }
      var accepted := AcceptedBody(sessionId, cfg.ttl, ticket);
      session := Some(F.ResponderSession(sessionId, cfg.ttl, keys.value, peerDomain));
      ephPriv := None;
      out := Ok(Canonical(Sign(c, cfg.seed, accepted)));
    }

    method Erase()
      modifies this
      ensures State() == F.EraseResponder(old(State()))
    {
      ephPriv, peerNonce, serverNonce := None, None, None;
      keys := None;
    }
  }
}
