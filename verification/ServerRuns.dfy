/**
  Runs of whole requests and cleanups (server/server.go): the counters stay exact,
  and which requests reach the handler.
 */
module ServerRuns {
  import opened Types
  import opened KeyInput
  import opened Messages
  import opened Tracker
  import opened Server

  // ---------------------------------------------------------------------------
  // One request
  // ---------------------------------------------------------------------------

  /** What an initial request does once its transaction has started. */
  ghost predicate Opened(t: Table, key: Key, o: Outcome) {
    var after := o.table.entries;
    && key in after && after == t.entries[key := after[key]]
    && match o.event
       case NoEvent => after[key].state != Issued
       case CertAwaits(k, cert, issueRef) =>
         k == key && after[key].state == Issued && after[key].cert == Some(cert) && after[key].issueRef == issueRef
       case CertImplicit(_, _) => after[key].state == Completed
       case _ => false
  }

  lemma DeliverOpened(cfg: Config, t: Table, msg: Message, sender: Sender, reqType: RequestType, certReqID: int,
                      h: HandlerResult, env: Env)
    requires h.Handled? && h.waiting.None?
    requires var key := Key(CredOf(sender), msg.header.transactionID);
             key in t.entries && t.entries[key].state in {Active, Pending}
    ensures Opened(t, Key(CredOf(sender), msg.header.transactionID),
                   Deliver(cfg, t, msg, sender, reqType, certReqID, h, env))
  {
  }

  lemma CertRequestOpened(cfg: Config, t: Table, msg: Message, sender: Sender, env: Env)
    requires msg.body.CertReq?
    requires var key := Key(CredOf(sender), msg.header.transactionID);
             key in t.entries && t.entries[key].state == Active
    ensures Opened(t, Key(CredOf(sender), msg.header.transactionID), HandleCertRequest(cfg, t, msg, sender, env))
  {
    if env.handler.Handled? && env.handler.waiting.None? {
      DeliverOpened(cfg, t, msg, sender, msg.body.reqType, CertReqIDOf(msg.body), env.handler, env);
    }
  }

  lemma InitialShape(cfg: Config, t: Table, msg: Message, sender: Sender, env: Env)
    requires IsInitial(msg.body) && IssuedHaveCerts(t)
    requires var key := Key(CredOf(sender), msg.header.transactionID); Start(t, cfg.caps, key, env.now).1 == Started
    ensures var key := Key(CredOf(sender), msg.header.transactionID);
            var t' := Start(t, cfg.caps, key, env.now).0;
            IssuedHaveCerts(t') && Shape(t, key, Dispatch(cfg, t', msg, sender, env))
  {
    var key := Key(CredOf(sender), msg.header.transactionID);
    var t' := Start(t, cfg.caps, key, env.now).0;
    var o := Dispatch(cfg, t', msg, sender, env);
    assert Opened(t', key, o) by {
      if msg.body.CertReq? {
        CertRequestOpened(cfg, t', msg, sender, env);
      }
    }
    OpenedShape(t, t', key, o);
  }

  lemma OpenedShape(t: Table, t': Table, key: Key, o: Outcome)
    requires key !in t.entries && key in t'.entries && t'.entries == t.entries[key := t'.entries[key]]
             && Opened(t', key, o)
    ensures Shape(t, key, o)
  {
    var e := o.table.entries[key];
    assert t.entries[key := t'.entries[key]][key := e] == t.entries[key := e];
  }

  /** Every request leaves all transactions but its own alone, never loses a
      certificate, and leaves the table as its event says. */
  lemma ProcessShape(cfg: Config, t: Table, msg: Message, env: Env)
    requires IssuedHaveCerts(t)
    ensures cfg.verify(msg).Verified? ==> Shape(t, KeyFor(msg, cfg.verify(msg).sender, env), Process(cfg, t, msg, env))
    ensures cfg.verify(msg).Unverified? ==>
            Process(cfg, t, msg, env).table == t && Process(cfg, t, msg, env).event == NoEvent
  {
    if cfg.verify(msg).Verified? {
      var sender := cfg.verify(msg).sender;
      var check := ValidateHeader(cfg, t, msg, sender, env);
      if check.HeaderOk? {
        assert Key(CredOf(sender), check.msg.header.transactionID) == KeyFor(msg, sender, env);
        if IsInitial(msg.body) {
          InitialShape(cfg, t, check.msg, sender, env);
        } else if msg.body.PollReq? {
          PollShape(cfg, t, check.msg, sender, env);
        } else if msg.body.CertConf? {
          CertConfShape(cfg, t, check.msg, sender, env);
        }
      }
    }
  }

  /** A handler leaves the table, removes its entry or replaces it. */
  ghost predicate Touches(t: Table, key: Key, t': Table) {
    || t' == t
    || t' == Delete(t, key)
    || (&& key in t.entries && key in t'.entries && t'.entries[key].cred == key.cred
        && t' == t.(entries := t.entries[key := t'.entries[key]]))
  }

  lemma TouchesConsistent(t: Table, key: Key, t': Table, caps: Caps)
    requires Consistent(t, caps) && Touches(t, key, t')
    ensures Consistent(t', caps)
  {
    if t' == Delete(t, key) {
      DeleteConsistent(t, caps, key);
    } else if t' != t {
      ReplaceConsistent(t, caps, key, t'.entries[key]);
    }
  }

  lemma DeliverTouches(cfg: Config, t: Table, msg: Message, sender: Sender, reqType: RequestType, certReqID: int,
                       h: HandlerResult, env: Env)
    requires h.Handled? && h.waiting.None? && Owned(t.entries)
    ensures Touches(t, Key(CredOf(sender), msg.header.transactionID),
                    Deliver(cfg, t, msg, sender, reqType, certReqID, h, env).table)
  {
  }

  lemma CertRequestTouches(cfg: Config, t: Table, msg: Message, sender: Sender, env: Env)
    requires msg.body.CertReq? && Owned(t.entries)
    ensures Touches(t, Key(CredOf(sender), msg.header.transactionID), HandleCertRequest(cfg, t, msg, sender, env).table)
  {
    if env.handler.Handled? && env.handler.waiting.None? {
      DeliverTouches(cfg, t, msg, sender, msg.body.reqType, CertReqIDOf(msg.body), env.handler, env);
    }
  }

  lemma AnswerPollTouches(cfg: Config, t: Table, msg: Message, sender: Sender, reqType: RequestType, certReqID: int,
                          env: Env)
    requires Owned(t.entries)
    ensures Touches(t, Key(CredOf(sender), msg.header.transactionID),
                    AnswerPoll(cfg, t, msg, sender, reqType, certReqID, env).table)
  {
    if env.handler.Handled? && env.handler.waiting.None? {
      DeliverTouches(cfg, t, msg, sender, reqType, certReqID, env.handler, env);
    }
  }

  lemma PollTouches(cfg: Config, t: Table, msg: Message, sender: Sender, env: Env)
    requires msg.body.PollReq? && Owned(t.entries)
    ensures Touches(t, Key(CredOf(sender), msg.header.transactionID), HandlePollReq(cfg, t, msg, sender, env).table)
  {
    var key := Key(CredOf(sender), msg.header.transactionID);
    if key in t.entries && msg.body.pollIds.Some? {
      AnswerPollTouches(cfg, t, msg, sender, t.entries[key].reqType, PolledID(msg.body.pollIds.value), env);
    }
  }

  lemma DispatchTouches(cfg: Config, t: Table, msg: Message, sender: Sender, env: Env)
    requires IssuedHaveCerts(t) && Owned(t.entries)
    ensures Touches(t, Key(CredOf(sender), msg.header.transactionID), Dispatch(cfg, t, msg, sender, env).table)
  {
    if msg.body.CertReq? {
      CertRequestTouches(cfg, t, msg, sender, env);
    } else if msg.body.PollReq? {
      PollTouches(cfg, t, msg, sender, env);
    }
  }

  /** A request starts its transaction, or not, and then touches it. */
  lemma ProcessTouches(cfg: Config, t: Table, msg: Message, env: Env) returns (t': Table)
    requires IssuedHaveCerts(t) && Owned(t.entries)
    ensures cfg.verify(msg).Verified? ==>
              var key := KeyFor(msg, cfg.verify(msg).sender, env);
              (t' == t || t' == Start(t, cfg.caps, key, env.now).0) && Touches(t', key, Process(cfg, t, msg, env).table)
  {
    t' := t;
    if cfg.verify(msg).Verified? {
      var sender := cfg.verify(msg).sender;
      var check := ValidateHeader(cfg, t, msg, sender, env);
      if !cfg.signerBroken && PVNO2 <= msg.header.pvno <= PVNO3 && cfg.recipientMatches(msg)
         && (cfg.strictProfile ==> cfg.profileAccepts(msg, sender)) {
        t' := check.table;
        if check.HeaderOk? {
          DispatchTouches(cfg, t', check.msg, sender, env);
        }
      }
    }
  }

  lemma ProcessConsistent(cfg: Config, t: Table, msg: Message, env: Env)
    requires IssuedHaveCerts(t) && Consistent(t, cfg.caps)
    ensures Consistent(Process(cfg, t, msg, env).table, cfg.caps)
  {
    var t' := ProcessTouches(cfg, t, msg, env);
    if cfg.verify(msg).Verified? {
      var key := KeyFor(msg, cfg.verify(msg).sender, env);
      StartConsistent(t, cfg.caps, key, env.now);
      TouchesConsistent(t', key, Process(cfg, t, msg, env).table, cfg.caps);
    }
  }

  lemma ProcessKeepsCerts(cfg: Config, t: Table, msg: Message, env: Env)
    requires IssuedHaveCerts(t)
    ensures IssuedHaveCerts(Process(cfg, t, msg, env).table)
  {
    ProcessShape(cfg, t, msg, env);
  }

  // ---------------------------------------------------------------------------
  // When the CA is asked for a certificate
  // ---------------------------------------------------------------------------

  /** A request passes every check before it is given to its handler. */
  predicate Passes(cfg: Config, t: Table, msg: Message, env: Env) {
    && !cfg.signerBroken && PVNO2 <= msg.header.pvno <= PVNO3 && cfg.recipientMatches(msg)
    && cfg.verify(msg).Verified?
    && var sender := cfg.verify(msg).sender;
       (cfg.strictProfile ==> cfg.profileAccepts(msg, sender)) && ValidateHeader(cfg, t, msg, sender, env).HeaderOk?
  }

  /** The poll names a pending transaction, quotes its nonce and is not too early. */
  predicate Admits(t: Table, key: Key, msg: Message, now: int) {
    && msg.body.PollReq? && msg.body.pollIds.Some?
    && key in t.entries && t.entries[key].state == Pending && PollObjection(msg, t.entries[key], now).None?
  }

  /** The CA is asked: by a certificate request, or by an admitted poll. */
  predicate AsksCa(cfg: Config, t: Table, msg: Message, env: Env) {
    && Passes(cfg, t, msg, env)
    && (msg.body.CertReq? || Admits(t, KeyFor(msg, cfg.verify(msg).sender, env), msg, env.now))
  }

  /** What a request comes to: the handler sees it as `check` left it, or the table
      entries stay and an error without an event is the answer. */
  lemma ReachesHandler(cfg: Config, t: Table, msg: Message, env: Env)
    requires IssuedHaveCerts(t)
    ensures Passes(cfg, t, msg, env) ==>
              var check := ValidateHeader(cfg, t, msg, cfg.verify(msg).sender, env);
              && IssuedHaveCerts(check.table) && check.msg.body == msg.body
              && Key(CredOf(cfg.verify(msg).sender), check.msg.header.transactionID)
                 == KeyFor(msg, cfg.verify(msg).sender, env)
              && (if IsInitial(msg.body) then HasActive(check.table, KeyFor(msg, cfg.verify(msg).sender, env))
                  else check.table == t && check.msg == msg)
              && Process(cfg, t, msg, env) == Dispatch(cfg, check.table, check.msg, cfg.verify(msg).sender, env)
    ensures !Passes(cfg, t, msg, env) ==>
              var o := Process(cfg, t, msg, env);
              o.table.entries == t.entries && o.event == NoEvent && o.notices == [] && o.reply.body.Error?
  {
  }

  predicate HasActive(t: Table, key: Key) {
    key in t.entries && t.entries[key].state == Active
  }

  // ---------------------------------------------------------------------------
  // Credentials do not see each other
  // ---------------------------------------------------------------------------

  ghost predicate SameFor(t: Table, t': Table, cred: Bytes) {
    && CredCount(t', cred) == CredCount(t, cred)
    && (forall k: Key :: k.cred == cred ==> (k in t.entries <==> k in t'.entries))
    && (forall k: Key :: k.cred == cred && k in t.entries && k in t'.entries ==> t.entries[k] == t'.entries[k])
  }

  lemma TouchesOwnCredential(t: Table, key: Key, t': Table, cred: Bytes)
    requires Owned(t.entries) && Touches(t, key, t') && cred != key.cred
    ensures SameFor(t, t', cred)
  {
  }

  lemma StartOwnCredential(t: Table, caps: Caps, key: Key, now: int, cred: Bytes)
    requires Owned(t.entries) && cred != key.cred
    ensures SameFor(t, Start(t, caps, key, now).0, cred) && Owned(Start(t, caps, key, now).0.entries)
  {
  }

  /** A request leaves every transaction and counter of all other credentials alone. */
  lemma OtherCredentialsUntouched(cfg: Config, t: Table, msg: Message, env: Env, cred: Bytes)
    requires IssuedHaveCerts(t) && Owned(t.entries)
    requires cfg.verify(msg).Verified? ==> cred != CredOf(cfg.verify(msg).sender)
    ensures SameFor(t, Process(cfg, t, msg, env).table, cred)
  {
    var t' := ProcessTouches(cfg, t, msg, env);
    if cfg.verify(msg).Verified? {
      var key := KeyFor(msg, cfg.verify(msg).sender, env);
      StartOwnCredential(t, cfg.caps, key, env.now, cred);
      TouchesOwnCredential(t', key, Process(cfg, t, msg, env).table, cred);
    } else {
      ProcessShape(cfg, t, msg, env);
    }
  }

  /** Senders that differ in their credential never share a transaction, whatever
      transaction identifiers they choose. */
  lemma SendersShareNoTransaction(a: Sender, b: Sender, x: Bytes, y: Bytes)
    requires WellFormed(CredentialOf(a)) && WellFormed(CredentialOf(b))
    ensures Key(CredOf(a), x) == Key(CredOf(b), y) <==> CredentialOf(a) == CredentialOf(b) && x == y
  {
    if CredOf(a) == CredOf(b) {
      CredentialInputInjective(CredentialOf(a), CredentialOf(b));
    }
  }
}
