/**
  What becomes of every request, said over its own fields and the transaction it names
  (server/server.go, server/response.go, server/confirm_poll.go, server/revocation.go):
  the rules of RFC 9483 sections 3.5 and 4.1 as the server applies them, written down
  without the functions of module Server that apply them.
 */
module ServerRules {
  import opened Types
  import opened MacParams
  import opened Messages
  import opened Tracker
  import opened Server
  import opened ServerRuns

  // ---------------------------------------------------------------------------
  // Before the handler
  // ---------------------------------------------------------------------------

  predicate Begins(body: Body) {
    body.CertReq? || body.RevReq?
  }

  /** The identifier of the transaction: the server names one for a request without. */
  function Id(msg: Message, env: Env): Bytes {
    if |msg.header.transactionID| == 0 then env.newTransactionID else msg.header.transactionID
  }

  function Named(msg: Message, env: Env): Message {
    msg.(header := msg.header.(transactionID := Id(msg, env)))
  }

  function OwnKey(msg: Message, sender: Sender, env: Env): Key {
    Key(CredOf(sender), Id(msg, env))
  }

  /** Why a verified request is refused before its handler sees it. */
  function HeaderObstacle(cfg: Config, t: Table, msg: Message, sender: Sender, env: Env): Option<Failure> {
    if cfg.strictProfile && !cfg.profileAccepts(msg, sender) then Some(BadMessageCheck)
    else if msg.header.transactionID == [] && (cfg.strictProfile || !Begins(msg.body)) then Some(BadDataFormat)
    else if cfg.strictProfile && |msg.header.senderNonce| < 16 then Some(BadSenderNonce)
    else if !cfg.timely(Named(msg, env), env.now) then Some(BadTime)
    else if !Begins(msg.body) then None
    else if msg.header.recipNonce != [] then Some(BadRecipientNonce)
    else if t.count >= cfg.caps.total || CredCount(t, CredOf(sender)) >= cfg.caps.perCredential then Some(SystemUnavail)
    else if OwnKey(msg, sender, env) in t.entries then Some(TransactionIdInUse)
    else None
  }

  /** The first reason to refuse a request before its handler sees it, if there is one. */
  function Obstacle(cfg: Config, t: Table, msg: Message, env: Env): Option<Failure> {
    if cfg.signerBroken then Some(SystemFailure)
    else if msg.header.pvno < 2 || msg.header.pvno > 3 then Some(UnsupportedVersion)
    else if !cfg.recipientMatches(msg) then Some(BadRequest)
    else if cfg.verify(msg).Unverified? then Some(cfg.verify(msg).failure)
    else HeaderObstacle(cfg, t, msg, cfg.verify(msg).sender, env)
  }

  /** What a response says once it is protected: with the MAC of the sender if that has
      a secret, with the option given or else its own, and with the signer otherwise. */
  function Said(cfg: Config, sender: Option<Sender>, option: Option<MacOption>, salt: Bytes, body: Body): Body {
    if sender.Some? && sender.value.MacSender? && sender.value.secret != [] then
      if Protect(if option.Some? then option else Some(sender.value.params), salt).Some? then body
      else Error(Some(StatusInfo(Rejection, {SystemFailure})))
    else if cfg.signerBroken then Error(Some(StatusInfo(Rejection, {SystemFailure})))
    else body
  }

  function Refused(f: Failure): Body {
    Error(Some(StatusInfo(Rejection, {f})))
  }

  /** Who a refusal is protected for: nobody until the request is verified. */
  function Audience(cfg: Config, msg: Message): Option<Sender> {
    if cfg.signerBroken || msg.header.pvno < 2 || msg.header.pvno > 3 || !cfg.recipientMatches(msg)
       || cfg.verify(msg).Unverified? then None
    else Some(cfg.verify(msg).sender)
  }

  /** The algorithm that protects it, if one does. */
  function SaidWith(cfg: Config, sender: Option<Sender>, option: Option<MacOption>,
                    salt: Bytes): Option<ProtectionAlg> {
    if sender.Some? && sender.value.MacSender? && sender.value.secret != []
    then Protect(if option.Some? then option else Some(sender.value.params), salt)
    else if cfg.hasSigner && !cfg.signerBroken then Some(Signature([])) else None
  }

  /** A response: what it says, how it is protected, and how it quotes the request. */
  ghost predicate Replies(cfg: Config, req: Message, sender: Option<Sender>, option: Option<MacOption>, env: Env,
                          implicit: bool, body: Body, reply: Message) {
    && reply.body == Said(cfg, sender, option, env.salt, body)
    && reply.header.protectionAlg == SaidWith(cfg, sender, option, env.salt)
    && reply.header.pvno == req.header.pvno && reply.header.transactionID == req.header.transactionID
    && reply.header.senderNonce == env.nonce && reply.header.recipNonce == req.header.senderNonce
    && reply.header.implicitConfirm == implicit && reply.extraCerts == []
  }

  lemma Responds(cfg: Config, req: Message, body: Body, sender: Option<Sender>, implicit: bool,
                 option: Option<MacOption>, env: Env)
    ensures Replies(cfg, req, sender, option, env, implicit, body,
                    Respond(cfg, req, body, sender, implicit, option, env.nonce, env.salt))
  {
  }

  /** The request as a refusal quotes it: by then it may have been given an identifier,
      and an unsupported version is answered with the nearest supported one. */
  function AsQuoted(cfg: Config, msg: Message, id: Bytes): Message {
    var pvno := if cfg.signerBroken then msg.header.pvno
                else if msg.header.pvno < 2 then 2 else if msg.header.pvno > 3 then 3 else msg.header.pvno;
    msg.(header := msg.header.(transactionID := id, pvno := pvno))
  }

  /** The request is refused with this failure and nothing but a counter is touched. */
  ghost predicate IsRefused(cfg: Config, t: Table, msg: Message, env: Env, f: Failure, o: Outcome) {
    && o.reply.header.transactionID in {msg.header.transactionID, Id(msg, env)}
    && Replies(cfg, AsQuoted(cfg, msg, o.reply.header.transactionID), Audience(cfg, msg), None, env, false, Refused(f),
               o.reply)
    && o.table.entries == t.entries && o.table.count == t.count
    && (forall c :: CredCount(o.table, c) == CredCount(t, c))
    && o.event == NoEvent && o.notices == []
  }

  lemma RefuseRule(cfg: Config, t: Table, t': Table, req: Message, msg: Message, f: Failure, env: Env)
    requires t'.entries == t.entries && t'.count == t.count && forall c :: CredCount(t', c) == CredCount(t, c)
    requires req == AsQuoted(cfg, msg, req.header.transactionID)
    requires req.header.transactionID in {msg.header.transactionID, Id(msg, env)}
    ensures IsRefused(cfg, t, msg, env, f, Refuse(cfg, t', req, Audience(cfg, msg), Refusal(f), env))
  {
    Responds(cfg, req, Refused(f), Audience(cfg, msg), false, None, env);
  }

  lemma HeaderRule(cfg: Config, t: Table, msg: Message, sender: Sender, env: Env)
    requires cfg.strictProfile ==> cfg.profileAccepts(msg, sender)
    ensures var f, check := HeaderObstacle(cfg, t, msg, sender, env), ValidateHeader(cfg, t, msg, sender, env);
            && (check.HeaderOk? <==> f.None?)
            && (check.HeaderBad? ==>
                  && f == Some(check.failure) && (check.msg == msg || check.msg == Named(msg, env))
                  && check.table.entries == t.entries && check.table.count == t.count
                  && (forall c :: CredCount(check.table, c) == CredCount(t, c)))
  {
  }

  lemma EarlyRefusal(cfg: Config, t: Table, msg: Message, env: Env)
    requires IssuedHaveCerts(t) && Audience(cfg, msg).None?
    ensures var f := Obstacle(cfg, t, msg, env);
            f.Some? && IsRefused(cfg, t, msg, env, f.value, Process(cfg, t, msg, env))
  {
    var f := Obstacle(cfg, t, msg, env).value;
    if f == UnsupportedVersion && !cfg.signerBroken && (msg.header.pvno < 2 || msg.header.pvno > 3) {
      Responds(cfg, msg, Refused(f), None, false, None, env);
    } else {
      RefuseRule(cfg, t, t, msg, msg, f, env);
    }
  }

  lemma LateRefusal(cfg: Config, t: Table, msg: Message, env: Env)
    requires IssuedHaveCerts(t) && Audience(cfg, msg).Some? && Obstacle(cfg, t, msg, env).Some?
    ensures IsRefused(cfg, t, msg, env, Obstacle(cfg, t, msg, env).value, Process(cfg, t, msg, env))
  {
    var sender := cfg.verify(msg).sender;
    var f, check := Obstacle(cfg, t, msg, env).value, ValidateHeader(cfg, t, msg, sender, env);
    if cfg.strictProfile && !cfg.profileAccepts(msg, sender) {
      RefuseRule(cfg, t, t, msg, msg, f, env);
    } else {
      HeaderRule(cfg, t, msg, sender, env);
      RefuseRule(cfg, t, check.table, check.msg, msg, f, env);
    }
  }

  /** A request reaches its handler exactly when there is no obstacle. Otherwise the
      first obstacle is what the answer says. */
  lemma RefusalsSayWhy(cfg: Config, t: Table, msg: Message, env: Env)
    requires IssuedHaveCerts(t)
    ensures Passes(cfg, t, msg, env) <==> Obstacle(cfg, t, msg, env).None?
    ensures Obstacle(cfg, t, msg, env).Some? ==>
            IsRefused(cfg, t, msg, env, Obstacle(cfg, t, msg, env).value, Process(cfg, t, msg, env))
  {
    if Audience(cfg, msg).None? {
      EarlyRefusal(cfg, t, msg, env);
    } else {
      if cfg.strictProfile ==> cfg.profileAccepts(msg, cfg.verify(msg).sender) {
        HeaderRule(cfg, t, msg, cfg.verify(msg).sender, env);
      }
      if Obstacle(cfg, t, msg, env).Some? {
        LateRefusal(cfg, t, msg, env);
      }
    }
  }

  // ---------------------------------------------------------------------------
  // Certificate requests
  // ---------------------------------------------------------------------------

  function Kind(reqType: RequestType): RepKind {
    if reqType == RequestIR then IP else if reqType == RequestKUR then KUP else CP
  }

  /** A PKCS #10 request is answered with -1, and one that does not name one request with 0. */
  function RequestedId(body: Body): int
    requires body.CertReq?
  {
    if body.reqType == RequestP10CR then -1
    else if body.ids.Some? && |body.ids.value| == 1 then body.ids.value[0] else 0
  }

  function OneResponse(kind: RepKind, id: int, info: StatusInfo, cert: Option<Certificate>,
                       caCerts: seq<Certificate>): Body {
    CertRep(kind, Some([CertResponse(id, info, cert)]), caCerts)
  }

  function Captures(sender: Sender): Option<MacOption> {
    if sender.MacSender? then Some(sender.params) else None
  }

  function ActiveEntry(cred: Bytes, now: int): Entry {
    Entry(Active, now, cred, RequestIR, "", [], None, 0, None, None, None, [], [], None, None)
  }

  function PendingEntry(cred: Bytes, reqType: RequestType, w: WaitingResponse, last: Option<int>, env: Env): Entry {
    Entry(Pending, env.now, cred, reqType, w.pollRef, env.nonce, last, w.checkAfter, None, None, None, [], [], None,
          None)
  }

  function IssuedEntry(msg: Message, sender: Sender, reqType: RequestType, id: int, cert: Certificate,
                       issueRef: Option<Bytes>, env: Env): Entry
  {
    Entry(Issued, env.now, CredOf(sender), reqType, "", [], None, 0, Some(id), Some(cert), issueRef, env.nonce,
          msg.header.senderNonce, msg.header.protectionAlg, Captures(sender))
  }

  /** The transaction after the CA answered without a promise, `e` being what it was. */
  function DeliveredEntry(cfg: Config, msg: Message, sender: Sender, reqType: RequestType, id: int, e: Entry,
                          env: Env): Entry
    requires env.handler.Handled?
  {
    if env.handler.cert.None? then e
    else if cfg.implicitConfirm && msg.header.implicitConfirm then e.(state := Completed, lastActivity := env.now)
    else IssuedEntry(msg, sender, reqType, id, env.handler.cert.value, env.handler.issueRef, env)
  }

  /** What the CA's answer without a promise comes to. */
  ghost predicate Delivers(cfg: Config, msg: Message, sender: Sender, reqType: RequestType, id: int, env: Env,
                           o: Outcome)
    requires env.handler.Handled?
  {
    var h, implicit := env.handler, cfg.implicitConfirm && msg.header.implicitConfirm;
    && Replies(cfg, msg, Some(sender), None, env, implicit,
               OneResponse(Kind(reqType), id, StatusInfo(Accepted, {}), h.cert, h.caCerts), o.reply)
    && o.event == (if h.cert.None? then NoEvent
                   else if implicit then CertImplicit(h.cert.value, h.issueRef)
                   else CertAwaits(Key(CredOf(sender), msg.header.transactionID), h.cert.value, h.issueRef))
    && o.notices == (if h.cert.Some? && implicit && cfg.hasConfirmer
                     then [Notice(h.cert.value, ConfirmImplicit, h.issueRef)] else [])
  }

  /** The table with one entry replaced. */
  ghost predicate Replaces(t: Table, key: Key, e: Entry, t': Table) {
    t'.entries == t.entries[key := e] && t'.count == t.count && t'.credCounts == t.credCounts
  }

  lemma DeliverRule(cfg: Config, t: Table, msg: Message, sender: Sender, reqType: RequestType, id: int, env: Env)
    requires env.handler.Handled? && env.handler.waiting.None?
    requires var key := Key(CredOf(sender), msg.header.transactionID); key in t.entries && Open(t.entries[key])
    ensures var key, o := Key(CredOf(sender), msg.header.transactionID),
                          Deliver(cfg, t, msg, sender, reqType, id, env.handler, env);
            && Delivers(cfg, msg, sender, reqType, id, env, o)
            && Replaces(t, key, DeliveredEntry(cfg, msg, sender, reqType, id, t.entries[key], env), o.table)
  {
    var key := Key(CredOf(sender), msg.header.transactionID);
    Responds(cfg, msg, OneResponse(Kind(reqType), id, StatusInfo(Accepted, {}), env.handler.cert, env.handler.caCerts),
             Some(sender), cfg.implicitConfirm && msg.header.implicitConfirm, None, env);
    assert t.entries[key := t.entries[key]] == t.entries;
  }

  /** The table with one transaction more. */
  function Opened(t: Table, key: Key, e: Entry): Table {
    Table(t.entries[key := e], t.count + 1, t.credCounts[key.cred := CredCount(t, key.cred) + 1])
  }

  /** A request that begins a transaction, once there is no obstacle. */
  lemma BeginsTransaction(cfg: Config, t: Table, msg: Message, env: Env)
    requires IssuedHaveCerts(t) && Obstacle(cfg, t, msg, env).None? && Begins(msg.body)
    ensures var sender := cfg.verify(msg).sender;
            var key := OwnKey(msg, sender, env);
            var t' := Opened(t, key, ActiveEntry(key.cred, env.now));
            IssuedHaveCerts(t') && Process(cfg, t, msg, env) == Dispatch(cfg, t', Named(msg, env), sender, env)
  {
  }

  /** A request within a transaction, once there is no obstacle. */
  lemma FollowsUp(cfg: Config, t: Table, msg: Message, env: Env)
    requires IssuedHaveCerts(t) && Obstacle(cfg, t, msg, env).None? && !Begins(msg.body)
    ensures Id(msg, env) == msg.header.transactionID
    ensures Process(cfg, t, msg, env) == Dispatch(cfg, t, msg, cfg.verify(msg).sender, env)
  {
  }

  /** The transaction after a certificate request. */
  function RequestedEntry(cfg: Config, msg: Message, sender: Sender, env: Env): Entry
    requires msg.body.CertReq?
  {
    var active := ActiveEntry(CredOf(sender), env.now);
    match env.handler
    case Failed(_) => active
    case Handled(waiting, _, _, _) =>
      if waiting.Some? then PendingEntry(CredOf(sender), msg.body.reqType, waiting.value, None, env)
      else DeliveredEntry(cfg, msg, sender, msg.body.reqType, RequestedId(msg.body), active, env)
  }

  /** What a certificate request is answered with. A failure of the CA is an error message
      if it is about the protection, or about the algorithm of a PKCS #10 request. */
  ghost predicate AnswersRequest(cfg: Config, msg: Message, sender: Sender, env: Env, o: Outcome)
    requires msg.body.CertReq?
  {
    var kind, id := Kind(msg.body.reqType), RequestedId(msg.body);
    var implicit := cfg.implicitConfirm && msg.header.implicitConfirm;
    match env.handler
    case Failed(info) =>
      && o.event == NoEvent && o.notices == []
      && if BadMessageCheck in info.failInfo || (BadAlg in info.failInfo && msg.body.reqType == RequestP10CR)
         then Replies(cfg, msg, Some(sender), None, env, false, Error(Some(info)), o.reply)
         else Replies(cfg, msg, Some(sender), None, env, implicit, OneResponse(kind, id, info, None, []), o.reply)
    case Handled(waiting, _, _, _) =>
      if waiting.Some? then
        && o.event == NoEvent && o.notices == []
        && Replies(cfg, msg, Some(sender), None, env, implicit,
                   OneResponse(kind, id, StatusInfo(Waiting, {}), None, []), o.reply)
      else Delivers(cfg, msg, sender, msg.body.reqType, id, env, o)
  }

  ghost predicate FollowsRequest(cfg: Config, t: Table, msg: Message, sender: Sender, env: Env, o: Outcome)
    requires msg.body.CertReq?
  {
    && AnswersRequest(cfg, msg, sender, env, o)
    && Replaces(t, Key(CredOf(sender), msg.header.transactionID), RequestedEntry(cfg, msg, sender, env), o.table)
  }

  ghost predicate HasJustBegun(t: Table, msg: Message, sender: Sender, env: Env) {
    var key := Key(CredOf(sender), msg.header.transactionID);
    key in t.entries && t.entries[key] == ActiveEntry(key.cred, env.now)
  }

  lemma FailedRequestRule(cfg: Config, t: Table, msg: Message, sender: Sender, env: Env)
    requires msg.body.CertReq? && HasJustBegun(t, msg, sender, env) && env.handler.Failed?
    ensures FollowsRequest(cfg, t, msg, sender, env, HandleCertRequest(cfg, t, msg, sender, env))
  {
    var key, info := Key(CredOf(sender), msg.header.transactionID), env.handler.info;
    assert t.entries[key := t.entries[key]] == t.entries;
    Responds(cfg, msg, Error(Some(info)), Some(sender), false, None, env);
    Responds(cfg, msg, OneResponse(Kind(msg.body.reqType), RequestedId(msg.body), info, None, []), Some(sender),
             cfg.implicitConfirm && msg.header.implicitConfirm, None, env);
  }

  lemma PostponedRequestRule(cfg: Config, t: Table, msg: Message, sender: Sender, env: Env)
    requires msg.body.CertReq? && HasJustBegun(t, msg, sender, env) && env.handler.Handled? && env.handler.waiting.Some?
    ensures FollowsRequest(cfg, t, msg, sender, env, HandleCertRequest(cfg, t, msg, sender, env))
  {
    Responds(cfg, msg, OneResponse(Kind(msg.body.reqType), RequestedId(msg.body), StatusInfo(Waiting, {}), None, []),
             Some(sender), cfg.implicitConfirm && msg.header.implicitConfirm, None, env);
  }

  lemma HandleRequestRule(cfg: Config, t: Table, msg: Message, sender: Sender, env: Env)
    requires msg.body.CertReq? && HasJustBegun(t, msg, sender, env)
    ensures FollowsRequest(cfg, t, msg, sender, env, HandleCertRequest(cfg, t, msg, sender, env))
  {
    if env.handler.Failed? {
      FailedRequestRule(cfg, t, msg, sender, env);
    } else if env.handler.waiting.Some? {
      PostponedRequestRule(cfg, t, msg, sender, env);
    } else {
      DeliverRule(cfg, t, msg, sender, msg.body.reqType, RequestedId(msg.body), env);
    }
  }

  /** Every certificate request without an obstacle opens one transaction, which is left
      as the CA's answer says, and is answered accordingly. */
  lemma CertRequestRule(cfg: Config, t: Table, msg: Message, env: Env)
    requires IssuedHaveCerts(t) && Obstacle(cfg, t, msg, env).None? && msg.body.CertReq?
    ensures var sender, o := cfg.verify(msg).sender, Process(cfg, t, msg, env);
            && AnswersRequest(cfg, Named(msg, env), sender, env, o)
            && o.table == Opened(t, OwnKey(msg, sender, env), RequestedEntry(cfg, Named(msg, env), sender, env))
  {
    var sender := cfg.verify(msg).sender;
    var key := OwnKey(msg, sender, env);
    var active := ActiveEntry(key.cred, env.now);
    BeginsTransaction(cfg, t, msg, env);
    HandleRequestRule(cfg, Opened(t, key, active), Named(msg, env), sender, env);
    var e := RequestedEntry(cfg, Named(msg, env), sender, env);
    assert t.entries[key := active][key := e] == t.entries[key := e];
  }

  // ---------------------------------------------------------------------------
  // Polls
  // ---------------------------------------------------------------------------

  /** Why a poll does not reach the CA. */
  function PollObstacle(t: Table, key: Key, msg: Message, now: int): Option<Failure>
    requires msg.body.PollReq?
  {
    if msg.body.pollIds.None? then Some(BadDataFormat)
    else if key !in t.entries || t.entries[key].state != Pending then Some(BadRequest)
    else if |msg.header.recipNonce| == 0 || msg.header.recipNonce != t.entries[key].senderNonce then
      Some(BadRecipientNonce)
    else if t.entries[key].lastPollTime.Some? && now < t.entries[key].lastPollTime.value + t.entries[key].checkAfter
    then Some(BadRequest)
    else None
  }

  function FirstId(body: Body): int
    requires body.PollReq? && body.pollIds.Some?
  {
    if body.pollIds.value == [] then 0 else body.pollIds.value[0]
  }

  /** Whole seconds, and at least one. */
  function Announced(d: int): int {
    if d < 2_000_000_000 then 1 else d / 1_000_000_000
  }

  /** What a poll is answered with. */
  ghost predicate AnswersPoll(cfg: Config, t: Table, key: Key, msg: Message, sender: Sender, env: Env, o: Outcome)
    requires msg.body.PollReq?
  {
    var obstacle := PollObstacle(t, key, msg, env.now);
    if obstacle.Some? || env.handler.Failed? then
      && o.event == NoEvent && o.notices == []
      && Replies(cfg, msg, Some(sender), None, env, false,
                 if obstacle.Some? then Refused(obstacle.value) else Error(Some(env.handler.info)), o.reply)
    else if env.handler.waiting.Some? then
      && o.event == NoEvent && o.notices == []
      && Replies(cfg, msg, Some(sender), None, env, false,
                 PollRep(Some([PollItem(FirstId(msg.body), Announced(env.handler.waiting.value.checkAfter))])), o.reply)
    else Delivers(cfg, msg, sender, t.entries[key].reqType, FirstId(msg.body), env, o)
  }

  /** The transaction after a poll that reached the CA. */
  function PolledEntry(cfg: Config, msg: Message, sender: Sender, e: Entry, env: Env): Entry
    requires msg.body.PollReq? && msg.body.pollIds.Some? && env.handler.Handled?
  {
    if env.handler.waiting.Some? then
      PendingEntry(CredOf(sender), e.reqType, env.handler.waiting.value, Some(env.now), env)
    else DeliveredEntry(cfg, msg, sender, e.reqType, FirstId(msg.body), e, env)
  }

  lemma AnswerPollRule(cfg: Config, t: Table, msg: Message, sender: Sender, env: Env)
    requires msg.body.PollReq? && PollObstacle(t, Key(CredOf(sender), msg.header.transactionID), msg, env.now).None?
    ensures var key := Key(CredOf(sender), msg.header.transactionID);
            var o := AnswerPoll(cfg, t, msg, sender, t.entries[key].reqType, FirstId(msg.body), env);
            && AnswersPoll(cfg, t, key, msg, sender, env, o)
            && if env.handler.Failed? then o.table == t
               else Replaces(t, key, PolledEntry(cfg, msg, sender, t.entries[key], env), o.table)
  {
    var key := Key(CredOf(sender), msg.header.transactionID);
    match env.handler
    case Failed(info) => Responds(cfg, msg, Error(Some(info)), Some(sender), false, None, env);
    case Handled(waiting, _, _, _) =>
      if waiting.Some? {
        Responds(cfg, msg, PollRep(Some([PollItem(FirstId(msg.body), Announced(waiting.value.checkAfter))])),
                 Some(sender), false, None, env);
      } else {
        DeliverRule(cfg, t, msg, sender, t.entries[key].reqType, FirstId(msg.body), env);
      }
  }

  /** Every poll without an obstacle is refused, or answered as the CA says, and moves its
      transaction accordingly. */
  lemma PollRule(cfg: Config, t: Table, msg: Message, env: Env)
    requires IssuedHaveCerts(t) && Obstacle(cfg, t, msg, env).None? && msg.body.PollReq?
    ensures var sender, o := cfg.verify(msg).sender, Process(cfg, t, msg, env);
            var key := OwnKey(msg, sender, env);
            && AnswersPoll(cfg, t, key, msg, sender, env, o)
            && if PollObstacle(t, key, msg, env.now).Some? || env.handler.Failed? then o.table == t
               else Replaces(t, key, PolledEntry(cfg, msg, sender, t.entries[key], env), o.table)
  {
    var sender := cfg.verify(msg).sender;
    var key := OwnKey(msg, sender, env);
    FollowsUp(cfg, t, msg, env);
    var obstacle := PollObstacle(t, key, msg, env.now);
    if obstacle.Some? {
      Responds(cfg, msg, Refused(obstacle.value), Some(sender), false, None, env);
    } else {
      AnswerPollRule(cfg, t, msg, sender, env);
    }
  }

  // ---------------------------------------------------------------------------
  // Confirmations
  // ---------------------------------------------------------------------------

  /** The hash a status names by its identifier, with parameters absent or NULL, or that
      of the certificate's own signature if it names none. */
  function NamedHash(cs: CertStatus, cert: Certificate): Option<Hash> {
    if cs.hashAlg.Some? then
      if cs.hashAlg.value.parameters != [] && cs.hashAlg.value.parameters != [5, 0] then None
      else if cs.hashAlg.value.oid == [0x60, 0x86, 0x48, 1, 0x65, 3, 4, 2, 1] then Some(SHA256)
      else if cs.hashAlg.value.oid == [0x60, 0x86, 0x48, 1, 0x65, 3, 4, 2, 2] then Some(SHA384)
      else if cs.hashAlg.value.oid == [0x60, 0x86, 0x48, 1, 0x65, 3, 4, 2, 3] then Some(SHA512)
      else None
    else
      match cert.algorithm
      case Classic(h) => Some(h)
      case Composite(h) => Some(h)
      case MLDSA => None
      case UnknownAlgorithm => None
  }

  predicate NamesCertificate(cfg: Config, cs: CertStatus, cert: Certificate) {
    NamedHash(cs, cert).Some? && cs.certHash == cfg.digest(NamedHash(cs, cert).value, cert)
  }

  /** The certReqID of the request. A PKCS #10 request has none, so both -1 and 0 name it. */
  predicate NamesRequest(e: Entry, id: int) {
    e.certReqID.Some? && id != e.certReqID.value ==> e.reqType == RequestP10CR && (id == 0 || id == -1)
  }

  predicate Declines(cs: CertStatus) {
    cs.statusInfo.Some? && cs.statusInfo.value.status == Rejection
  }

  predicate Contradictory(cs: CertStatus) {
    cs.statusInfo.Some? && cs.statusInfo.value.status == Accepted && |cs.statusInfo.value.failInfo| > 0
  }

  /** A status is about the certificate, the request and the verdict of the first one. */
  predicate IsAbout(cfg: Config, cs: CertStatus, first: CertStatus, e: Entry)
    requires e.cert.Some?
  {
    NamesCertificate(cfg, cs, e.cert.value) && NamesRequest(e, cs.certReqID) && (Declines(cs) <==> Declines(first))
  }

  ghost predicate AllAbout(cfg: Config, statuses: seq<CertStatus>, e: Entry, n: nat)
    requires e.cert.Some? && n <= |statuses|
  {
    forall i :: 0 <= i < n ==> IsAbout(cfg, statuses[i], statuses[0], e)
  }

  predicate QuotesIssued(msg: Message, e: Entry) {
    msg.header.recipNonce != [] && msg.header.recipNonce == e.issuedSenderNonce
  }

  predicate FreshNonce(msg: Message, e: Entry) {
    && msg.header.senderNonce != e.issuedSenderNonce
    && (e.clientSenderNonce == [] || msg.header.senderNonce != e.clientSenderNonce)
  }

  predicate SignedByNewKey(sender: Sender, cert: Certificate) {
    sender.CertSender? && sender.cert.key == cert.key
  }

  predicate HoldsCertificate(t: Table, key: Key) {
    key in t.entries && t.entries[key].state == Issued && t.entries[key].cert.Some?
  }

  /** A certConf settles the certificate of its transaction. */
  ghost predicate Settles(cfg: Config, t: Table, key: Key, msg: Message, sender: Sender)
    requires msg.body.CertConf?
  {
    && msg.body.statuses.Some? && HoldsCertificate(t, key)
    && var statuses, e := msg.body.statuses.value, t.entries[key];
       && (forall i :: 0 <= i < |statuses| ==> !Contradictory(statuses[i]))
       && AllAbout(cfg, statuses, e, |statuses|)
       && QuotesIssued(msg, e)
       && (cfg.strictProfile ==> |statuses| <= 1 && FreshNonce(msg, e))
       && !SignedByNewKey(sender, e.cert.value)
  }

  /** It accepts the certificate if its first status does. */
  predicate Accepting(statuses: seq<CertStatus>) {
    |statuses| > 0 && !Declines(statuses[0])
  }

  lemma HashIsNamed(cfg: Config, cs: CertStatus, cert: Certificate)
    ensures CertificateHash(cfg.digest, cs, cert)
         == if NamedHash(cs, cert).Some? then Some(cfg.digest(NamedHash(cs, cert).value, cert)) else None
  {
  }

  lemma StatusRule(cfg: Config, cs: CertStatus, first: CertStatus, e: Entry)
    requires e.cert.Some?
    ensures CheckCertStatus(cfg, cs, first, e)
         == if NamedHash(cs, e.cert.value).None? then Some(BadAlg)
            else if !NamesCertificate(cfg, cs, e.cert.value) || !NamesRequest(e, cs.certReqID) then Some(BadCertId)
            else if Declines(cs) != Declines(first) then Some(BadRequest) else None
  {
    HashIsNamed(cfg, cs, e.cert.value);
  }

  /** Status number `i` is the first that is not about the certificate, and `f` says why. */
  ghost predicate FirstStray(cfg: Config, statuses: seq<CertStatus>, e: Entry, i: nat, f: Failure)
    requires e.cert.Some? && i < |statuses|
  {
    && AllAbout(cfg, statuses, e, i)
    && if NamedHash(statuses[i], e.cert.value).None? then f == BadAlg
       else if !NamesCertificate(cfg, statuses[i], e.cert.value) || !NamesRequest(e, statuses[i].certReqID)
       then f == BadCertId
       else Declines(statuses[i]) != Declines(statuses[0]) && f == BadRequest
  }

  lemma {:induction false} StatusesRule(cfg: Config, statuses: seq<CertStatus>, e: Entry, i: nat)
    requires e.cert.Some? && i <= |statuses| && AllAbout(cfg, statuses, e, i)
    ensures var f := FirstObjection(cfg, statuses, e, i);
            if f.None? then AllAbout(cfg, statuses, e, |statuses|)
            else exists k :: i <= k < |statuses| && FirstStray(cfg, statuses, e, k, f.value)
    decreases |statuses| - i
  {
    if i < |statuses| {
      StatusRule(cfg, statuses[i], statuses[0], e);
      var f := CheckCertStatus(cfg, statuses[i], statuses[0], e);
      if f.None? {
        StatusesRule(cfg, statuses, e, i + 1);
      } else {
        assert FirstStray(cfg, statuses, e, i, f.value);
      }
    }
  }

  lemma StrayIsNotAbout(cfg: Config, statuses: seq<CertStatus>, e: Entry, i: nat, f: Failure)
    requires e.cert.Some? && i < |statuses| && FirstStray(cfg, statuses, e, i, f)
    ensures !AllAbout(cfg, statuses, e, |statuses|)
  {
    assert !IsAbout(cfg, statuses[i], statuses[0], e);
  }

  /** Why a certConf on a certificate is refused. */
  ghost predicate Objects(cfg: Config, msg: Message, statuses: seq<CertStatus>, sender: Sender, e: Entry, f: Failure)
    requires e.cert.Some?
  {
    if cfg.strictProfile && |statuses| > 1 then f == BadRequest
    else if !AllAbout(cfg, statuses, e, |statuses|)
    then exists i :: 0 <= i < |statuses| && FirstStray(cfg, statuses, e, i, f)
    else if !QuotesIssued(msg, e) then f == BadRecipientNonce
    else if cfg.strictProfile && !FreshNonce(msg, e) then f == BadSenderNonce
    else SignedByNewKey(sender, e.cert.value) && f == BadMessageCheck
  }

  lemma ObjectionRule(cfg: Config, msg: Message, statuses: seq<CertStatus>, sender: Sender, e: Entry)
    requires e.cert.Some?
    ensures var f := ConfObjection(cfg, msg, statuses, sender, e);
            if f.Some? then Objects(cfg, msg, statuses, sender, e, f.value)
            else
              && AllAbout(cfg, statuses, e, |statuses|) && QuotesIssued(msg, e)
              && (cfg.strictProfile ==> |statuses| <= 1 && FreshNonce(msg, e)) && !SignedByNewKey(sender, e.cert.value)
  {
    StatusesRule(cfg, statuses, e, 0);
    var f := FirstObjection(cfg, statuses, e, 0);
    if f.Some? {
      var i :| 0 <= i < |statuses| && FirstStray(cfg, statuses, e, i, f.value);
      StrayIsNotAbout(cfg, statuses, e, i, f.value);
    }
  }

  /** What a certConf that does not settle is refused with. */
  ghost predicate ConfObstacle(cfg: Config, t: Table, key: Key, msg: Message, sender: Sender, f: Failure)
    requires msg.body.CertConf?
  {
    if msg.body.statuses.None? then f == BadDataFormat
    else if exists i :: 0 <= i < |msg.body.statuses.value| && Contradictory(msg.body.statuses.value[i])
    then f == BadRequest
    else if !HoldsCertificate(t, key) then f == BadRequest
    else Objects(cfg, msg, msg.body.statuses.value, sender, t.entries[key], f)
  }

  lemma ContradictionRule(statuses: seq<CertStatus>)
    ensures SomeContradicts(statuses) <==> exists i :: 0 <= i < |statuses| && Contradictory(statuses[i])
  {
    forall i | 0 <= i < |statuses| ensures Contradicts(statuses[i]) <==> Contradictory(statuses[i]) {
    }
  }

  /** The table without the transaction. */
  function Closed(t: Table, key: Key): Table
    requires key in t.entries
  {
    var cred := t.entries[key].cred;
    Table(t.entries - {key}, t.count - 1, t.credCounts[cred := CredCount(t, cred) - 1])
  }

  /** What a certConf without an obstacle in its header comes to. */
  ghost predicate FollowsConf(cfg: Config, t: Table, key: Key, msg: Message, sender: Sender, env: Env, o: Outcome)
    requires msg.body.CertConf?
  {
    if !Settles(cfg, t, key, msg, sender) then
      && o.table == t && o.event == NoEvent && o.notices == []
      && exists f :: ConfObstacle(cfg, t, key, msg, sender, f)
                     && Replies(cfg, msg, Some(sender), None, env, false, Refused(f), o.reply)
    else
      var e, accepted := t.entries[key], Accepting(msg.body.statuses.value);
      if env.handler.Failed? then
        && o.table == t && o.event == NoEvent && o.notices == []
        && Replies(cfg, msg, Some(sender), e.protectionParams, env, false, Error(Some(env.handler.info)), o.reply)
      else
        && o.table == Closed(t, key) && o.event == CertConfirmed(key, accepted)
        && o.notices == (if cfg.hasConfirmer
                         then [Notice(e.cert.value, if accepted then ConfirmAccepted else ConfirmRejected, e.issueRef)]
                         else [])
        && Replies(cfg, msg, Some(sender), e.protectionParams, env, false, PkiConf, o.reply)
  }

  lemma ConfirmRule(cfg: Config, t: Table, msg: Message, sender: Sender, env: Env)
    requires msg.body.CertConf? && Settles(cfg, t, Key(CredOf(sender), msg.header.transactionID), msg, sender)
    ensures var key := Key(CredOf(sender), msg.header.transactionID);
            FollowsConf(cfg, t, key, msg, sender, env,
                        Confirm(cfg, t, key, msg, ConfAccepts(msg.body.statuses.value), sender, env))
  {
    var key := Key(CredOf(sender), msg.header.transactionID);
    var e := t.entries[key];
    if env.handler.Failed? {
      Responds(cfg, msg, Error(Some(env.handler.info)), Some(sender), false, e.protectionParams, env);
    } else {
      Responds(cfg, msg, PkiConf, Some(sender), false, e.protectionParams, env);
    }
  }

  lemma RefusedConfRule(cfg: Config, t: Table, key: Key, msg: Message, sender: Sender, env: Env, f: Failure)
    requires msg.body.CertConf? && !Settles(cfg, t, key, msg, sender) && ConfObstacle(cfg, t, key, msg, sender, f)
    ensures FollowsConf(cfg, t, key, msg, sender, env, Refuse(cfg, t, msg, Some(sender), Refusal(f), env))
  {
    Responds(cfg, msg, Refused(f), Some(sender), false, None, env);
  }

  lemma HandleConfRule(cfg: Config, t: Table, msg: Message, sender: Sender, env: Env)
    requires msg.body.CertConf? && IssuedHaveCerts(t)
    ensures FollowsConf(cfg, t, Key(CredOf(sender), msg.header.transactionID), msg, sender, env,
                        HandleCertConf(cfg, t, msg, sender, env))
  {
    var key := Key(CredOf(sender), msg.header.transactionID);
    if msg.body.statuses.None? {
      RefusedConfRule(cfg, t, key, msg, sender, env, BadDataFormat);
    } else {
      var statuses := msg.body.statuses.value;
      ContradictionRule(statuses);
      if SomeContradicts(statuses) || !HoldsCertificate(t, key) {
        RefusedConfRule(cfg, t, key, msg, sender, env, BadRequest);
      } else {
        ObjectionRule(cfg, msg, statuses, sender, t.entries[key]);
        var f := ConfObjection(cfg, msg, statuses, sender, t.entries[key]);
        if f.Some? {
          ObjectedDoesNotSettle(cfg, t, key, msg, sender, f.value);
          RefusedConfRule(cfg, t, key, msg, sender, env, f.value);
        } else {
          ConfirmRule(cfg, t, msg, sender, env);
        }
      }
    }
  }

  lemma ObjectedDoesNotSettle(cfg: Config, t: Table, key: Key, msg: Message, sender: Sender, f: Failure)
    requires msg.body.CertConf? && msg.body.statuses.Some? && HoldsCertificate(t, key)
    requires Objects(cfg, msg, msg.body.statuses.value, sender, t.entries[key], f)
    ensures !Settles(cfg, t, key, msg, sender)
  {
  }

  /** Every certConf without an obstacle in its header. */
  lemma CertConfRule(cfg: Config, t: Table, msg: Message, env: Env)
    requires IssuedHaveCerts(t) && Obstacle(cfg, t, msg, env).None? && msg.body.CertConf?
    ensures var sender := cfg.verify(msg).sender;
            FollowsConf(cfg, t, OwnKey(msg, sender, env), msg, sender, env, Process(cfg, t, msg, env))
  {
    FollowsUp(cfg, t, msg, env);
    HandleConfRule(cfg, t, msg, cfg.verify(msg).sender, env);
  }

  // ---------------------------------------------------------------------------
  // Everything else
  // ---------------------------------------------------------------------------

  /** A revocation leaves its transaction completed. It is answered with the CA's verdict,
      a promise counting as a failure, or with an error if its protection was at fault. */
  lemma RevocationRule(cfg: Config, t: Table, msg: Message, env: Env)
    requires IssuedHaveCerts(t) && Obstacle(cfg, t, msg, env).None? && msg.body.RevReq?
    ensures var sender, o := cfg.verify(msg).sender, Process(cfg, t, msg, env);
            var key := OwnKey(msg, sender, env);
            && o.event == NoEvent && o.notices == []
            && o.table == Opened(t, key, ActiveEntry(key.cred, env.now).(state := Completed))
            && Replies(cfg, Named(msg, env), Some(sender), None, env, false,
                       match env.handler {
                         case Failed(info) =>
                           if BadMessageCheck in info.failInfo then Error(Some(info)) else RevRep(info)
                         case Handled(waiting, _, _, _) =>
                           RevRep(if waiting.Some? then StatusInfo(Rejection, {SystemFailure})
                                  else StatusInfo(Accepted, {}))
                       }, o.reply)
  {
    var sender := cfg.verify(msg).sender;
    var key := OwnKey(msg, sender, env);
    BeginsTransaction(cfg, t, msg, env);
    var active := ActiveEntry(key.cred, env.now);
    assert t.entries[key := active][key := active.(state := Completed)]
           == t.entries[key := active.(state := Completed)];
    match env.handler
    case Failed(info) =>
      Responds(cfg, Named(msg, env), Error(Some(info)), Some(sender), false, None, env);
      Responds(cfg, Named(msg, env), RevRep(info), Some(sender), false, None, env);
    case Handled(waiting, _, _, _) =>
      var info := if waiting.Some? then StatusInfo(Rejection, {SystemFailure}) else StatusInfo(Accepted, {});
      Responds(cfg, Named(msg, env), RevRep(info), Some(sender), false, None, env);
  }

  predicate IsServed(body: Body) {
    body.CertReq? || body.RevReq? || body.PollReq? || body.CertConf?
  }

  /** An error message is acknowledged, and any other body refused. */
  lemma OtherBodiesRule(cfg: Config, t: Table, msg: Message, env: Env)
    requires IssuedHaveCerts(t) && Obstacle(cfg, t, msg, env).None? && !IsServed(msg.body)
    ensures var o := Process(cfg, t, msg, env);
            && o.table == t && o.event == NoEvent && o.notices == []
            && Replies(cfg, msg, Some(cfg.verify(msg).sender), None, env, false,
                       if msg.body.Error? then PkiConf else Refused(BadRequest), o.reply)
  {
    FollowsUp(cfg, t, msg, env);
    Responds(cfg, msg, if msg.body.Error? then PkiConf else Refused(BadRequest), Some(cfg.verify(msg).sender), false,
             None, env);
  }

  /** For every request: a certificate is settled, as accepted or rejected, exactly by a
      certConf without an obstacle that is about it and that the CA takes. */
  lemma ConfirmedIff(cfg: Config, t: Table, msg: Message, env: Env, key: Key, accepted: bool)
    requires IssuedHaveCerts(t)
    ensures Process(cfg, t, msg, env).event == CertConfirmed(key, accepted) <==>
            && Obstacle(cfg, t, msg, env).None? && msg.body.CertConf? && env.handler.Handled?
            && key == OwnKey(msg, cfg.verify(msg).sender, env)
            && Settles(cfg, t, key, msg, cfg.verify(msg).sender)
            && (accepted <==> Accepting(msg.body.statuses.value))
  {
    RefusalsSayWhy(cfg, t, msg, env);
    if Obstacle(cfg, t, msg, env).None? {
      match msg.body
      case CertReq(_, _) => CertRequestRule(cfg, t, msg, env);
      case PollReq(_) => PollRule(cfg, t, msg, env);
      case CertConf(_) => CertConfRule(cfg, t, msg, env);
      case RevReq => RevocationRule(cfg, t, msg, env);
      case _ => OtherBodiesRule(cfg, t, msg, env);
    }
  }
}
