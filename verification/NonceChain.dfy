/**
  How the nonces of a transaction are chained (server/response.go,
  server/confirm_poll.go): a poll or a confirmation must answer the server's last
  response that was recorded in the transaction.
 */
module NonceChain {
  import opened Types
  import opened Messages
  import opened Tracker
  import opened Server
  import opened ServerRuns
  import opened Conservation

  /** The nonce a transaction expects back. */
  function LiveNonce(e: Entry): Option<Bytes> {
    match e.state
    case Pending => Some(e.senderNonce)
    case Issued => Some(e.issuedSenderNonce)
    case _ => None
  }

  predicate IsFollowUp(body: Body) {
    body.PollReq? || body.CertConf?
  }

  // ---------------------------------------------------------------------------
  // One request
  // ---------------------------------------------------------------------------

  /** A follow-up that is answered, or that changes the table, quoted the nonce its
      transaction expects. */
  ghost predicate Quotes(t: Table, key: Key, recipNonce: Bytes, o: Outcome) {
    !o.reply.body.Error? || o.table != t ==>
      key in t.entries && LiveNonce(t.entries[key]) == Some(recipNonce) && recipNonce != []
  }

  lemma PollQuotes(cfg: Config, t: Table, msg: Message, sender: Sender, env: Env)
    requires msg.body.PollReq?
    ensures Quotes(t, Key(CredOf(sender), msg.header.transactionID), msg.header.recipNonce,
                   HandlePollReq(cfg, t, msg, sender, env))
  {
  }

  lemma CertConfQuotes(cfg: Config, t: Table, msg: Message, sender: Sender, env: Env)
    requires msg.body.CertConf? && IssuedHaveCerts(t)
    ensures Quotes(t, Key(CredOf(sender), msg.header.transactionID), msg.header.recipNonce,
                   HandleCertConf(cfg, t, msg, sender, env))
  {
  }

  lemma FollowUpQuotes(cfg: Config, t: Table, msg: Message, env: Env)
    requires IsFollowUp(msg.body) && IssuedHaveCerts(t)
    ensures cfg.verify(msg).Verified? ==>
              Quotes(t, KeyFor(msg, cfg.verify(msg).sender, env), msg.header.recipNonce, Process(cfg, t, msg, env))
  {
    if cfg.verify(msg).Verified? {
      var sender := cfg.verify(msg).sender;
      if msg.body.PollReq? {
        PollQuotes(cfg, t, msg, sender, env);
      } else {
        CertConfQuotes(cfg, t, msg, sender, env);
      }
    }
  }

  /** A nonce that a request leaves in its transaction is the one it replied with. */
  ghost predicate Records(t: Table, key: Key, o: Outcome, env: Env) {
    key in o.table.entries && LiveNonce(o.table.entries[key]).Some? ==>
      || (key in t.entries && o.table.entries[key] == t.entries[key])
      || (&& LiveNonce(o.table.entries[key]).value == o.reply.header.senderNonce == env.nonce
          && o.reply.header.transactionID == key.txn)
  }

  lemma DeliverRecords(cfg: Config, t: Table, msg: Message, sender: Sender, reqType: RequestType, certReqID: int,
                       h: HandlerResult, env: Env)
    requires h.Handled? && h.waiting.None?
    ensures Records(t, Key(CredOf(sender), msg.header.transactionID),
                    Deliver(cfg, t, msg, sender, reqType, certReqID, h, env), env)
  {
  }

  lemma CertRequestRecords(cfg: Config, t: Table, msg: Message, sender: Sender, env: Env)
    requires msg.body.CertReq?
    ensures Records(t, Key(CredOf(sender), msg.header.transactionID), HandleCertRequest(cfg, t, msg, sender, env), env)
  {
    if env.handler.Handled? && env.handler.waiting.None? {
      DeliverRecords(cfg, t, msg, sender, msg.body.reqType, CertReqIDOf(msg.body), env.handler, env);
    }
  }

  lemma PollRecords(cfg: Config, t: Table, msg: Message, sender: Sender, env: Env)
    requires msg.body.PollReq?
    ensures Records(t, Key(CredOf(sender), msg.header.transactionID), HandlePollReq(cfg, t, msg, sender, env), env)
  {
    var key := Key(CredOf(sender), msg.header.transactionID);
    if msg.body.pollIds.Some? && key in t.entries && env.handler.Handled? && env.handler.waiting.None? {
      var ids := msg.body.pollIds.value;
      DeliverRecords(cfg, t, msg, sender, t.entries[key].reqType, if |ids| > 0 then ids[0] else 0, env.handler, env);
    }
  }

  lemma DispatchRecords(cfg: Config, t: Table, msg: Message, sender: Sender, env: Env)
    requires IssuedHaveCerts(t)
    ensures Records(t, Key(CredOf(sender), msg.header.transactionID), Dispatch(cfg, t, msg, sender, env), env)
  {
    if msg.body.CertReq? {
      CertRequestRecords(cfg, t, msg, sender, env);
    } else if msg.body.PollReq? {
      PollRecords(cfg, t, msg, sender, env);
    }
  }

  lemma ProcessRecords(cfg: Config, t: Table, msg: Message, env: Env)
    requires IssuedHaveCerts(t)
    ensures cfg.verify(msg).Verified? ==>
            Records(t, KeyFor(msg, cfg.verify(msg).sender, env), Process(cfg, t, msg, env), env)
  {
    if cfg.verify(msg).Verified? {
      var sender := cfg.verify(msg).sender;
      var check := ValidateHeader(cfg, t, msg, sender, env);
      if check.HeaderOk? {
        DispatchRecords(cfg, check.table, check.msg, sender, env);
      }
    }
  }

  // ---------------------------------------------------------------------------
  // No response is replaced
  // ---------------------------------------------------------------------------

  /** The reply is the one built first: an error that replaces it because setPending
      or setIssued failed would carry the second nonce. */
  predicate IsFirst(o: Outcome, env: Env) {
    o.reply.header.senderNonce == env.nonce
  }

  lemma OpenIsSet(cfg: Config, t: Table, msg: Message, sender: Sender, reqType: RequestType, certReqID: int, env: Env)
    requires var key := Key(CredOf(sender), msg.header.transactionID); key in t.entries && Open(t.entries[key])
    ensures IsFirst(AnswerPoll(cfg, t, msg, sender, reqType, certReqID, env), env)
    ensures env.handler.Handled? && env.handler.waiting.None? ==>
              IsFirst(Deliver(cfg, t, msg, sender, reqType, certReqID, env.handler, env), env)
  {
  }

  lemma CertRequestIsFirst(cfg: Config, t: Table, msg: Message, sender: Sender, env: Env)
    requires msg.body.CertReq?
    requires var key := Key(CredOf(sender), msg.header.transactionID); key in t.entries && Open(t.entries[key])
    ensures IsFirst(HandleCertRequest(cfg, t, msg, sender, env), env)
  {
    OpenIsSet(cfg, t, msg, sender, msg.body.reqType, CertReqIDOf(msg.body), env);
  }

  lemma PollIsFirst(cfg: Config, t: Table, msg: Message, sender: Sender, env: Env)
    requires msg.body.PollReq?
    ensures IsFirst(HandlePollReq(cfg, t, msg, sender, env), env)
  {
    var key := Key(CredOf(sender), msg.header.transactionID);
    if key in t.entries && t.entries[key].state == Pending && msg.body.pollIds.Some? {
      OpenIsSet(cfg, t, msg, sender, t.entries[key].reqType, PolledID(msg.body.pollIds.value), env);
    }
  }

  lemma OthersAreFirst(cfg: Config, t: Table, msg: Message, sender: Sender, env: Env)
    requires IssuedHaveCerts(t)
    ensures msg.body.CertConf? ==> IsFirst(HandleCertConf(cfg, t, msg, sender, env), env)
    ensures IsFirst(HandleRevocation(cfg, t, msg, sender, env), env)
  {
  }

  lemma DispatchIsFirst(cfg: Config, t: Table, msg: Message, sender: Sender, env: Env)
    requires IssuedHaveCerts(t)
    requires msg.body.CertReq? ==>
             var key := Key(CredOf(sender), msg.header.transactionID); key in t.entries && Open(t.entries[key])
    ensures IsFirst(Dispatch(cfg, t, msg, sender, env), env)
  {
    if msg.body.CertReq? {
      CertRequestIsFirst(cfg, t, msg, sender, env);
    } else if msg.body.PollReq? {
      PollIsFirst(cfg, t, msg, sender, env);
    } else {
      OthersAreFirst(cfg, t, msg, sender, env);
    }
  }

  /** So neither setPending nor setIssued ever fails, for any request in any table. */
  lemma NoResponseIsReplaced(cfg: Config, t: Table, msg: Message, env: Env)
    requires IssuedHaveCerts(t)
    ensures IsFirst(Process(cfg, t, msg, env), env)
  {
    if cfg.verify(msg).Verified? {
      var sender := cfg.verify(msg).sender;
      var check := ValidateHeader(cfg, t, msg, sender, env);
      if check.HeaderOk? {
        DispatchIsFirst(cfg, check.table, check.msg, sender, env);
      }
    }
  }

  // ---------------------------------------------------------------------------
  // Runs
  // ---------------------------------------------------------------------------

  ghost predicate SameEntry(w: World, w': World, key: Key) {
    && key in w.table.entries && key in w'.table.entries
    && w.table.entries[key] == w'.table.entries[key]
  }

  /** Step `s` replied to the transaction of `key` with `nonce`. */
  ghost predicate RepliedAt(cfg: Config, steps: seq<Step>, run: seq<World>, s: int, key: Key, nonce: Bytes) {
    && 0 <= s < |steps| < |run| && steps[s].Request? && IssuedHaveCerts(run[s].table)
    && cfg.verify(steps[s].msg).Verified?
    && KeyFor(steps[s].msg, cfg.verify(steps[s].msg).sender, steps[s].env) == key
    && steps[s].env.nonce == nonce
    && var reply := Process(cfg, run[s].table, steps[s].msg, steps[s].env).reply;
       reply.header.senderNonce == nonce && reply.header.transactionID == key.txn
  }

  /** The nonce that `key` expects at `i` is that of the reply at `s`, and the
      transaction has not changed since. */
  ghost predicate Origin(cfg: Config, steps: seq<Step>, run: seq<World>, i: int, key: Key, s: int)
    requires 0 <= i < |run| && key in run[i].table.entries && LiveNonce(run[i].table.entries[key]).Some?
  {
    && 0 <= s < i
    && RepliedAt(cfg, steps, run, s, key, LiveNonce(run[i].table.entries[key]).value)
    && forall m :: s < m <= i ==> SameEntry(run[m], run[i], key)
  }

  lemma StepRecords(cfg: Config, steps: seq<Step>, run: seq<World>, i: nat, key: Key)
    requires Run(cfg, steps, run) && i < |steps|
    requires key in run[i + 1].table.entries && LiveNonce(run[i + 1].table.entries[key]).Some?
    ensures || SameEntry(run[i], run[i + 1], key)
            || RepliedAt(cfg, steps, run, i, key, LiveNonce(run[i + 1].table.entries[key]).value)
  {
    assert StepAt(cfg, steps, run, i);
    match steps[i]
    case Request(msg, env) =>
      ProcessShape(cfg, run[i].table, msg, env);
      ProcessRecords(cfg, run[i].table, msg, env);
    case Cleanup(now, order) =>
      DeleteAllEntries(run[i].table, order);
  }

  /** In every run the nonce a transaction expects is that of the last response that
      changed the transaction. */
  lemma {:induction false} ExpectedNonceWasSent(cfg: Config, steps: seq<Step>, run: seq<World>, i: nat,
                                                key: Key)
    returns (s: nat)
    requires Run(cfg, steps, run) && i < |run|
    requires key in run[i].table.entries && LiveNonce(run[i].table.entries[key]).Some?
    ensures Origin(cfg, steps, run, i, key, s)
  {
    StepRecords(cfg, steps, run, i - 1, key);
    if SameEntry(run[i - 1], run[i], key) {
      s := ExpectedNonceWasSent(cfg, steps, run, i - 1, key);
      forall m | s < m <= i ensures SameEntry(run[m], run[i], key) {
        assert m < i ==> SameEntry(run[m], run[i - 1], key);
      }
    } else {
      s := i - 1;
    }
  }

  /** Step `i` is a follow-up that changed its transaction. */
  ghost predicate TakesEffect(cfg: Config, steps: seq<Step>, run: seq<World>, i: int) {
    && 0 <= i < |steps| < |run| && steps[i].Request? && IsFollowUp(steps[i].msg.body)
    && run[i + 1].table.entries != run[i].table.entries
  }

  /** A poll to which the CA returned neither a promise nor a certificate. */
  predicate IsIdlePoll(body: Body, h: HandlerResult) {
    body.PollReq? && h.Handled? && h.waiting.None? && h.cert.None?
  }

  /** Step `i` is a follow-up with an answer other than an error, and not an idle poll. */
  ghost predicate IsAnswered(cfg: Config, steps: seq<Step>, run: seq<World>, i: int) {
    && 0 <= i < |steps| < |run| && steps[i].Request? && IsFollowUp(steps[i].msg.body) && IssuedHaveCerts(run[i].table)
    && !Process(cfg, run[i].table, steps[i].msg, steps[i].env).reply.body.Error?
    && !IsIdlePoll(steps[i].msg.body, steps[i].env.handler)
  }

  ghost predicate FreshNonces(steps: seq<Step>) {
    forall i, j :: 0 <= i < j < |steps| && steps[i].Request? && steps[j].Request? ==>
        steps[i].env.nonce != steps[j].env.nonce
  }

  lemma DeliverChanges(cfg: Config, t: Table, msg: Message, sender: Sender, reqType: RequestType, certReqID: int,
                       env: Env)
    requires env.handler.Handled? && env.handler.waiting.None?
    requires HasPending(t, Key(CredOf(sender), msg.header.transactionID))
    ensures var o := Deliver(cfg, t, msg, sender, reqType, certReqID, env.handler, env);
            o.table.entries == t.entries <==> env.handler.cert.None?
  {
  }

  predicate HasPending(t: Table, key: Key) {
    key in t.entries && t.entries[key].state == Pending
  }

  lemma PollChanges(cfg: Config, t: Table, msg: Message, sender: Sender, env: Env)
    requires msg.body.PollReq? && !Expects(t, Key(CredOf(sender), msg.header.transactionID), env.nonce)
    requires !HandlePollReq(cfg, t, msg, sender, env).reply.body.Error?
    ensures HandlePollReq(cfg, t, msg, sender, env).table.entries == t.entries <==> IsIdlePoll(msg.body, env.handler)
  {
    var key := Key(CredOf(sender), msg.header.transactionID);
    assert Admits(t, key, msg, env.now);
    if env.handler.Handled? && env.handler.waiting.None? {
      DeliverChanges(cfg, t, msg, sender, t.entries[key].reqType, PolledID(msg.body.pollIds.value), env);
    }
  }

  lemma CertConfChanges(cfg: Config, t: Table, msg: Message, sender: Sender, env: Env)
    requires msg.body.CertConf? && IssuedHaveCerts(t) && !HandleCertConf(cfg, t, msg, sender, env).reply.body.Error?
    ensures HandleCertConf(cfg, t, msg, sender, env).table.entries != t.entries
  {
    assert HandleCertConf(cfg, t, msg, sender, env).event.CertConfirmed?;
    CertConfShape(cfg, t, msg, sender, env);
  }

  /** An answer other than an error leaves the table as it was exactly when it is the
      answer to an idle poll. */
  lemma AnswersChangeTable(cfg: Config, t: Table, msg: Message, env: Env)
    requires IssuedHaveCerts(t) && IsFollowUp(msg.body) && cfg.verify(msg).Verified?
    requires !Expects(t, KeyFor(msg, cfg.verify(msg).sender, env), env.nonce)
    requires !Process(cfg, t, msg, env).reply.body.Error?
    ensures Process(cfg, t, msg, env).table.entries == t.entries <==> IsIdlePoll(msg.body, env.handler)
  {
    ReachesHandler(cfg, t, msg, env);
    if msg.body.PollReq? {
      PollChanges(cfg, t, msg, cfg.verify(msg).sender, env);
    } else {
      CertConfChanges(cfg, t, msg, cfg.verify(msg).sender, env);
    }
  }

  /** An idle poll is answered and leaves its nonce in force, so it can be repeated. */
  lemma IdlePollRepeats(cfg: Config, now: int) returns (t: Table, sender: Sender, poll: Message, env: Env)
    requires !cfg.signerBroken
    ensures IsIdlePoll(poll.body, env.handler)
    ensures var o := HandlePollReq(cfg, t, poll, sender, env);
            o.table == t && !o.reply.body.Error? && HandlePollReq(cfg, o.table, poll, sender, env) == o
  {
    sender := CertSender(Certificate([0x30], [1], UnknownAlgorithm));
    var key := Key(CredOf(sender), [7]);
    t := Table(map[key := Updated(key, ToPending(RequestIR, "ref", [1], 0, None), now)], 1, map[key.cred := 1]);
    poll := Message(Header(PVNO2, [7], [9], [1], false, None), PollReq(Some([0])), []);
    env := Env(now, [2], [], [], [], [], Handled(None, None, None, []));
  }

  /** With fresh nonces no transaction expects the nonce that is about to be drawn. */
  lemma NextNonceIsNew(cfg: Config, steps: seq<Step>, run: seq<World>, i: nat, key: Key)
    requires Run(cfg, steps, run) && FreshNonces(steps) && i < |steps| && steps[i].Request?
    ensures !Expects(run[i].table, key, steps[i].env.nonce)
  {
    if key in run[i].table.entries && LiveNonce(run[i].table.entries[key]).Some? {
      var s := ExpectedNonceWasSent(cfg, steps, run, i, key);
    }
  }

  lemma AnsweredTakesEffect(cfg: Config, steps: seq<Step>, run: seq<World>, i: nat)
    requires Run(cfg, steps, run) && FreshNonces(steps) && IsAnswered(cfg, steps, run, i)
    ensures TakesEffect(cfg, steps, run, i)
  {
    assert StepAt(cfg, steps, run, i);
    var msg, env := steps[i].msg, steps[i].env;
    ReachesHandler(cfg, run[i].table, msg, env);
    NextNonceIsNew(cfg, steps, run, i, KeyFor(msg, cfg.verify(msg).sender, env));
    AnswersChangeTable(cfg, run[i].table, msg, env);
  }

  /** What a follow-up that takes effect tells about its transaction. */
  lemma EffectiveFollowUp(cfg: Config, steps: seq<Step>, run: seq<World>, i: nat) returns (key: Key)
    requires Run(cfg, steps, run) && TakesEffect(cfg, steps, run, i)
    ensures key in run[i].table.entries && LiveNonce(run[i].table.entries[key]) == Some(steps[i].msg.header.recipNonce)
    ensures !SameEntry(run[i], run[i + 1], key)
  {
    assert StepAt(cfg, steps, run, i);
    var msg, env := steps[i].msg, steps[i].env;
    ProcessShape(cfg, run[i].table, msg, env);
    FollowUpQuotes(cfg, run[i].table, msg, env);
    key := KeyFor(msg, cfg.verify(msg).sender, env);
  }

  /** Step `i` uses up the nonce it quotes. */
  ghost predicate UsesNonce(cfg: Config, steps: seq<Step>, run: seq<World>, i: int) {
    TakesEffect(cfg, steps, run, i) || IsAnswered(cfg, steps, run, i)
  }

  /** When the server draws fresh nonces, each of them lets at most one poll or
      confirmation change a transaction or be answered with anything but an error,
      idle polls excepted, whatever is sent and replayed. */
  lemma NonceWorksOnce(cfg: Config, steps: seq<Step>, run: seq<World>, i: nat, j: nat)
    requires Run(cfg, steps, run) && FreshNonces(steps)
    requires i < j && UsesNonce(cfg, steps, run, i) && UsesNonce(cfg, steps, run, j)
    ensures steps[i].msg.header.recipNonce != steps[j].msg.header.recipNonce
  {
    if !TakesEffect(cfg, steps, run, i) {
      AnsweredTakesEffect(cfg, steps, run, i);
    }
    if !TakesEffect(cfg, steps, run, j) {
      AnsweredTakesEffect(cfg, steps, run, j);
    }
    var k := EffectiveFollowUp(cfg, steps, run, i);
    var k' := EffectiveFollowUp(cfg, steps, run, j);
    var s := ExpectedNonceWasSent(cfg, steps, run, i, k);
    var s' := ExpectedNonceWasSent(cfg, steps, run, j, k');
    assert s == s' ==> k == k';
  }

  // ---------------------------------------------------------------------------
  // The last response is not always the expected one
  // ---------------------------------------------------------------------------

  predicate Expects(t: Table, key: Key, nonce: Bytes) {
    key in t.entries && LiveNonce(t.entries[key]) == Some(nonce)
  }

  /** The CA promised a certificate, or returned one that is not confirmed implicitly. */
  predicate LeavesOpen(cfg: Config, msg: Message, h: HandlerResult) {
    h.Handled? && (h.waiting.Some? || (h.cert.Some? && !(cfg.implicitConfirm && msg.header.implicitConfirm)))
  }

  /** The answer to a started request or an admitted poll. */
  ghost predicate ExpectsReply(cfg: Config, msg: Message, key: Key, env: Env, o: Outcome) {
    Expects(o.table, key, o.reply.header.senderNonce) <==> LeavesOpen(cfg, msg, env.handler)
  }

  lemma DeliverExpects(cfg: Config, t: Table, msg: Message, sender: Sender, reqType: RequestType, certReqID: int,
                       env: Env)
    requires env.handler.Handled? && env.handler.waiting.None?
    requires var key := Key(CredOf(sender), msg.header.transactionID);
             key in t.entries && Open(t.entries[key]) && !Expects(t, key, env.nonce)
    ensures ExpectsReply(cfg, msg, Key(CredOf(sender), msg.header.transactionID), env,
                         Deliver(cfg, t, msg, sender, reqType, certReqID, env.handler, env))
  {
  }

  lemma CertRequestExpects(cfg: Config, t: Table, msg: Message, sender: Sender, env: Env)
    requires msg.body.CertReq? && HasActive(t, Key(CredOf(sender), msg.header.transactionID))
    ensures ExpectsReply(cfg, msg, Key(CredOf(sender), msg.header.transactionID), env,
                         HandleCertRequest(cfg, t, msg, sender, env))
  {
    if env.handler.Handled? && env.handler.waiting.None? {
      DeliverExpects(cfg, t, msg, sender, msg.body.reqType, CertReqIDOf(msg.body), env);
    }
  }

  lemma PollExpects(cfg: Config, t: Table, msg: Message, sender: Sender, env: Env)
    requires var key := Key(CredOf(sender), msg.header.transactionID);
             Admits(t, key, msg, env.now) && !Expects(t, key, env.nonce)
    ensures ExpectsReply(cfg, msg, Key(CredOf(sender), msg.header.transactionID), env,
                         HandlePollReq(cfg, t, msg, sender, env))
  {
    var key := Key(CredOf(sender), msg.header.transactionID);
    if env.handler.Handled? && env.handler.waiting.None? {
      DeliverExpects(cfg, t, msg, sender, t.entries[key].reqType, PolledID(msg.body.pollIds.value), env);
    }
  }

  lemma OthersExpectNothing(cfg: Config, t: Table, msg: Message, sender: Sender, env: Env)
    requires IssuedHaveCerts(t) && !msg.body.CertReq?
    requires var key := Key(CredOf(sender), msg.header.transactionID);
             !Admits(t, key, msg, env.now) && !Expects(t, key, env.nonce)
    ensures !Expects(Dispatch(cfg, t, msg, sender, env).table, Key(CredOf(sender), msg.header.transactionID), env.nonce)
  {
    if msg.body.CertConf? {
      CertConfShape(cfg, t, msg, sender, env);
    }
  }

  /** A transaction expects the nonce of its last response exactly when the request
      was a certificate request or an admitted poll and the CA left it open. After
      every other request the earlier nonce, if any, stays in force. */
  lemma ReplyExpectedIff(cfg: Config, t: Table, msg: Message, env: Env, key: Key)
    requires IssuedHaveCerts(t) && cfg.verify(msg).Verified? && key == KeyFor(msg, cfg.verify(msg).sender, env)
    requires !Expects(t, key, env.nonce)
    ensures var o := Process(cfg, t, msg, env);
            Expects(o.table, key, o.reply.header.senderNonce) <==>
                AsksCa(cfg, t, msg, env) && LeavesOpen(cfg, msg, env.handler)
  {
    ReachesHandler(cfg, t, msg, env);
    NoResponseIsReplaced(cfg, t, msg, env);
    if Passes(cfg, t, msg, env) {
      var sender := cfg.verify(msg).sender;
      var check := ValidateHeader(cfg, t, msg, sender, env);
      if msg.body.CertReq? {
        CertRequestExpects(cfg, check.table, check.msg, sender, env);
      } else if Admits(t, key, msg, env.now) {
        PollExpects(cfg, t, msg, sender, env);
      } else {
        OthersExpectNothing(cfg, check.table, check.msg, sender, env);
      }
    }
  }

  /** A poll that quotes a wrong nonce is answered with a nonce that the next poll
      cannot use, while the older nonce still works. */
  lemma RefusalNonceIsDead(cfg: Config, now: int)
    returns (t: Table, sender: Sender, wrong: Message, right: Message, env: Env, later: Env)
    requires !cfg.signerBroken
    ensures wrong.body.PollReq? && right == wrong.(header := right.header)
    ensures var refused := HandlePollReq(cfg, t, wrong, sender, env);
            var chained := wrong.(header := wrong.header.(recipNonce := refused.reply.header.senderNonce));
            && refused.table == t && refused.reply.body.Error?
            && HandlePollReq(cfg, t, chained, sender, later).reply.body.Error?
            && HandlePollReq(cfg, t, right, sender, later).reply.body.PollRep?
  {
    sender := CertSender(Certificate([0x30], [1], UnknownAlgorithm));
    var key := Key(CredOf(sender), [7]);
    t := Table(map[key := Updated(key, ToPending(RequestIR, "ref", [1], 0, None), now)], 1, map[key.cred := 1]);
    wrong := Message(Header(PVNO2, [7], [9], [8], false, None), PollReq(Some([0])), []);
    right := wrong.(header := wrong.header.(recipNonce := [1]));
    env := Env(now, [2], [], [], [], [], Failed(Refusal(BadRequest)));
    later := Env(now, [3], [], [], [], [], Handled(Some(WaitingResponse(0, "ref")), None, None, []));
  }
}
