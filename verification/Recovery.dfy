/**
  Every reachable table can be saved and restored (server/snapshot.go). That the
  restored server answers as the saved one is proved in module Twins.
 */
module Recovery {
  import opened Types
  import opened MacParams
  import opened KeyInput
  import opened Messages
  import opened Tracker
  import opened Server
  import opened ServerRuns
  import opened Conservation
  import opened Snapshot

  /** What verification establishes about a sender (server/protection.go): MAC
      parameters are those captured from the header, and credentials are real. */
  ghost predicate HonestSender(msg: Message, sender: Sender) {
    && WellFormed(CredentialOf(sender))
    && (sender.MacSender? ==>
          msg.header.protectionAlg.Some? && Captured(msg.header.protectionAlg.value) == Some(sender.params))
  }

  ghost predicate HonestVerify(cfg: Config) {
    forall msg :: cfg.verify(msg).Verified? ==> HonestSender(msg, cfg.verify(msg).sender)
  }

  /** The credential is that of a certificate. */
  ghost predicate CertKey(cred: Bytes) {
    exists der: Bytes :: OfCertificate(cred, der)
  }

  predicate OfCertificate(cred: Bytes, der: Bytes) {
    WellFormed(CertCredential(der)) && cred == CredentialInput(CertCredential(der))
  }

  // ---------------------------------------------------------------------------
  // Reachable tables can be restored
  // ---------------------------------------------------------------------------

  /** The server drew a full nonce and read a sane clock, and the CA, if it made the
      client wait, named the pending request. */
  predicate Sound(env: Env, horizon: int) {
    && |env.nonce| >= NONCE_LENGTH
    && ZERO_TIME < env.now <= horizon
    && (env.handler.Handled? && env.handler.waiting.Some? ==>
          env.handler.waiting.value.pollRef != "" && env.handler.waiting.value.checkAfter >= 0)
  }

  ghost predicate Echoes(cred: Bytes, alg: Option<ProtectionAlg>, params: Option<MacOption>) {
    if params.Some? then alg.Some? && Captured(alg.value) == params
    else alg.Some? ==> CertKey(cred)
  }

  ghost predicate Recoverable(key: Key, e: Entry, horizon: int) {
    Restorable(e, horizon - MINUTE) && Echoes(key.cred, e.protectionAlg, e.protectionParams)
  }

  ghost predicate AllRecoverable(entries: map<Key, Entry>, horizon: int) {
    forall k :: k in entries ==> Recoverable(k, entries[k], horizon)
  }

  /** A handler writes a recoverable entry, or nothing. */
  ghost predicate WritesRecoverable(t: Table, key: Key, t': Table, horizon: int) {
    key in t'.entries ==>
      (key in t.entries && t'.entries[key] == t.entries[key]) || Recoverable(key, t'.entries[key], horizon)
  }

  lemma CertSenderKey(sender: Sender)
    requires WellFormed(CredentialOf(sender)) && sender.CertSender?
    ensures CertKey(CredOf(sender))
  {
    assert OfCertificate(CredOf(sender), sender.cert.der);
  }

  lemma DeliverRecoverable(cfg: Config, t: Table, msg: Message, sender: Sender, reqType: RequestType, certReqID: int,
                           env: Env, horizon: int)
    requires env.handler.Handled? && env.handler.waiting.None?
    requires HonestSender(msg, sender) && Sound(env, horizon)
    requires AllRecoverable(t.entries, horizon)
    ensures WritesRecoverable(t, Key(CredOf(sender), msg.header.transactionID),
                              Deliver(cfg, t, msg, sender, reqType, certReqID, env.handler, env).table, horizon)
  {
    if sender.CertSender? {
      CertSenderKey(sender);
    }
  }

  lemma CertRequestRecoverable(cfg: Config, t: Table, msg: Message, sender: Sender, env: Env, horizon: int)
    requires msg.body.CertReq? && HonestSender(msg, sender) && Sound(env, horizon)
    requires AllRecoverable(t.entries, horizon)
    ensures WritesRecoverable(t, Key(CredOf(sender), msg.header.transactionID),
                              HandleCertRequest(cfg, t, msg, sender, env).table, horizon)
  {
    if env.handler.Handled? && env.handler.waiting.None? {
      DeliverRecoverable(cfg, t, msg, sender, msg.body.reqType, CertReqIDOf(msg.body), env, horizon);
    }
  }

  lemma PollRecoverable(cfg: Config, t: Table, msg: Message, sender: Sender, env: Env, horizon: int)
    requires msg.body.PollReq? && HonestSender(msg, sender) && Sound(env, horizon)
    requires AllRecoverable(t.entries, horizon)
    ensures WritesRecoverable(t, Key(CredOf(sender), msg.header.transactionID),
                              HandlePollReq(cfg, t, msg, sender, env).table, horizon)
  {
    var key := Key(CredOf(sender), msg.header.transactionID);
    if msg.body.pollIds.Some? && key in t.entries && env.handler.Handled? && env.handler.waiting.None? {
      var ids := msg.body.pollIds.value;
      DeliverRecoverable(cfg, t, msg, sender, t.entries[key].reqType, if |ids| > 0 then ids[0] else 0, env, horizon);
    }
  }

  lemma OthersRecoverable(cfg: Config, t: Table, msg: Message, sender: Sender, env: Env, horizon: int)
    requires IssuedHaveCerts(t) && Sound(env, horizon) && AllRecoverable(t.entries, horizon)
    ensures var key := Key(CredOf(sender), msg.header.transactionID);
            && (msg.body.CertConf? ==> WritesRecoverable(t, key, HandleCertConf(cfg, t, msg, sender, env).table,
                                                         horizon))
            && WritesRecoverable(t, key, HandleRevocation(cfg, t, msg, sender, env).table, horizon)
  {
    if msg.body.CertConf? {
      CertConfShape(cfg, t, msg, sender, env);
    }
  }

  lemma DispatchRecoverable(cfg: Config, t: Table, msg: Message, sender: Sender, env: Env, horizon: int)
    requires IssuedHaveCerts(t) && HonestSender(msg, sender) && Sound(env, horizon)
    requires AllRecoverable(t.entries, horizon)
    ensures WritesRecoverable(t, Key(CredOf(sender), msg.header.transactionID),
                              Dispatch(cfg, t, msg, sender, env).table, horizon)
  {
    if msg.body.CertReq? {
      CertRequestRecoverable(cfg, t, msg, sender, env, horizon);
    } else if msg.body.PollReq? {
      PollRecoverable(cfg, t, msg, sender, env, horizon);
    } else {
      OthersRecoverable(cfg, t, msg, sender, env, horizon);
    }
  }

  lemma OnlyOwnEntry(t: Table, started: Table, key: Key, o: Outcome, horizon: int)
    requires Shape(t, key, o) && AllRecoverable(t.entries, horizon)
    requires AllRecoverable(started.entries, horizon) && WritesRecoverable(started, key, o.table, horizon)
    ensures AllRecoverable(o.table.entries, horizon)
  {
    forall k | k in o.table.entries ensures Recoverable(k, o.table.entries[k], horizon) {
    }
  }

  lemma StartRecoverable(t: Table, caps: Caps, key: Key, env: Env, horizon: int)
    requires AllRecoverable(t.entries, horizon) && Sound(env, horizon)
    ensures AllRecoverable(Start(t, caps, key, env.now).0.entries, horizon)
  {
  }

  lemma ProcessRecoverable(cfg: Config, t: Table, msg: Message, env: Env, horizon: int)
    requires IssuedHaveCerts(t) && HonestVerify(cfg) && Sound(env, horizon) && AllRecoverable(t.entries, horizon)
    ensures AllRecoverable(Process(cfg, t, msg, env).table.entries, horizon)
  {
    if cfg.verify(msg).Verified? {
      var sender := cfg.verify(msg).sender;
      var check := ValidateHeader(cfg, t, msg, sender, env);
      if check.HeaderOk? && Process(cfg, t, msg, env) == Dispatch(cfg, check.table, check.msg, sender, env) {
        ProcessShape(cfg, t, msg, env);
        var key := KeyFor(msg, sender, env);
        StartRecoverable(t, cfg.caps, key, env, horizon);
        DispatchRecoverable(cfg, check.table, check.msg, sender, env, horizon);
        OnlyOwnEntry(t, check.table, key, Dispatch(cfg, check.table, check.msg, sender, env), horizon);
      }
    }
  }

  ghost predicate SoundStep(step: Step, horizon: int) {
    step.Request? ==> Sound(step.env, horizon)
  }

  /** Every table a server reaches with a sound CA and clock is recoverable. */
  lemma {:induction false} ReachableIsRecoverable(cfg: Config, steps: seq<Step>, run: seq<World>, i: nat, horizon: int)
    requires Run(cfg, steps, run) && i < |run| && HonestVerify(cfg)
    requires forall j :: 0 <= j < |steps| ==> SoundStep(steps[j], horizon)
    ensures AllRecoverable(run[i].table.entries, horizon)
  {
    if i > 0 {
      ReachableIsRecoverable(cfg, steps, run, i - 1, horizon);
      assert StepAt(cfg, steps, run, i - 1) && SoundStep(steps[i - 1], horizon);
      match steps[i - 1]
      case Request(msg, env) =>
        ProcessRecoverable(cfg, run[i - 1].table, msg, env, horizon);
      case Cleanup(now, order) =>
        DeleteAllEntries(run[i - 1].table, order);
    }
  }
}
