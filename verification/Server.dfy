/**
  Whole requests on the transaction table: what the server answers, how the table
  changes and what the CA is told (server/server.go, server/response.go,
  server/confirm_poll.go, server/revocation.go).

  The handler is an oracle: each step carries what HandleCMP returns. Verification
  of the request, its recipient, its time and its profile are arbitrary functions
  of the message. The server has no RA authorizer, so nested bodies are refused.
 */
module Server {
  import opened Types
  import opened MacParams
  import opened KeyInput
  import opened Messages
  import opened Tracker

  datatype Sender =
    | MacSender(senderKID: Bytes, nameKey: Bytes, secret: Bytes, params: MacOption)
    | CertSender(cert: Certificate)

  function CredentialOf(s: Sender): Credential {
    match s
    case MacSender(kid, name, _, _) => MacCredential(kid, name)
    case CertSender(cert) => CertCredential(cert.der)
  }

  function CredOf(s: Sender): Bytes {
    CredentialInput(CredentialOf(s))
  }

  datatype Verification = Verified(sender: Sender) | Unverified(failure: Failure)

  datatype Config = Config(
    caps: Caps,
    implicitConfirm: bool,
    strictProfile: bool,
    confirmWait: int,
    hasConfirmer: bool,
    hasSigner: bool,
    signerBroken: bool,
    verify: Message -> Verification,
    recipientMatches: Message -> bool,
    profileAccepts: (Message, Sender) -> bool,
    timely: (Message, int) -> bool,
    digest: (Hash, Certificate) -> Bytes)

  datatype WaitingResponse = WaitingResponse(checkAfter: int, pollRef: string)

  /** What HandleCMP returns. */
  datatype HandlerResult =
    | Failed(info: StatusInfo)
    | Handled(waiting: Option<WaitingResponse>, cert: Option<Certificate>, issueRef: Option<Bytes>,
              caCerts: seq<Certificate>)

  /** The clock, the random values and the handler's answer for one request. The
      second nonce and salt serve the error reply that replaces a response. */
  datatype Env = Env(now: int, nonce: Bytes, salt: Bytes, nonce2: Bytes, salt2: Bytes, newTransactionID: Bytes,
                     handler: HandlerResult)

  datatype Verdict = ConfirmAccepted | ConfirmRejected | ConfirmImplicit | ConfirmExpired

  /** One call of ConfirmCertificate. A call on a certConf counts when the CA did not
      answer it with an error, which leaves the transaction issued. */
  datatype Notice = Notice(cert: Certificate, verdict: Verdict, issueRef: Option<Bytes>)

  /** What a request did to an issued certificate. */
  datatype Event =
    | NoEvent
    | CertAwaits(key: Key, cert: Certificate, issueRef: Option<Bytes>)
    | CertImplicit(cert: Certificate, issueRef: Option<Bytes>)
    | CertLost(cert: Certificate)
    | CertConfirmed(key: Key, accepted: bool)

  datatype Outcome = Outcome(table: Table, reply: Message, event: Event, notices: seq<Notice>)

  // ---------------------------------------------------------------------------
  // Responses
  // ---------------------------------------------------------------------------

  const NONCE_LENGTH := 16

  /** The protection of a response: its algorithm, or None when protecting fails. */
  function ProtectionFor(cfg: Config, sender: Option<Sender>, params: Option<MacOption>,
                         salt: Bytes): Option<Option<ProtectionAlg>> {
    if sender.Some? && sender.value.MacSender? && |sender.value.secret| > 0 then
      var p := if params.None? then Some(sender.value.params) else params;
      var alg := Protect(p, salt);
      if alg.None? then None else Some(alg)
    else if cfg.signerBroken then None
    else Some(if cfg.hasSigner then Some(Signature([])) else None)
  }

  function Respond(cfg: Config, req: Message, body: Body, sender: Option<Sender>, implicit: bool,
                   params: Option<MacOption>, nonce: Bytes, salt: Bytes): Message
  {
    var h := Header(req.header.pvno, req.header.transactionID, nonce, req.header.senderNonce, implicit, None);
    var alg := ProtectionFor(cfg, sender, params, salt);
    if alg.None? then Message(h, Error(Some(Refusal(SystemFailure))), [])
    else Message(h.(protectionAlg := alg.value), body, [])
  }

  function ErrorReply(cfg: Config, req: Message, sender: Option<Sender>, info: StatusInfo, env: Env): Message {
    Respond(cfg, req, Error(Some(info)), sender, false, None, env.nonce, env.salt)
  }

  function RepKindOf(reqType: RequestType): RepKind {
    match reqType
    case RequestIR => IP
    case RequestKUR => KUP
    case _ => CP
  }

  function CertReply(cfg: Config, req: Message, certReqID: int, info: StatusInfo, cert: Option<Certificate>,
                     caCerts: seq<Certificate>, sender: Sender, reqType: RequestType, env: Env): Message
  {
    var carried := if info.status == Accepted then cert else None;
    Respond(cfg, req, CertRep(RepKindOf(reqType), Some([CertResponse(certReqID, info, carried)]), caCerts),
            Some(sender),
            cfg.implicitConfirm && req.header.implicitConfirm, None, env.nonce, env.salt)
  }

  function Refuse(cfg: Config, t: Table, req: Message, sender: Option<Sender>, info: StatusInfo, env: Env): Outcome {
    Outcome(t, ErrorReply(cfg, req, sender, info, env), NoEvent, [])
  }

  function ParamsOf(s: Sender): Option<MacOption> {
    if s.MacSender? then Some(s.params) else None
  }

  // ---------------------------------------------------------------------------
  // Certificate requests and polls
  // ---------------------------------------------------------------------------

  function CertReqIDOf(body: Body): int
    requires body.CertReq?
  {
    if body.reqType == RequestP10CR then -1
    else if body.ids.None? || |body.ids.value| != 1 then 0
    else body.ids.value[0]
  }

  /** The handler's certificate or its promise of one is recorded and answered. */
  function Deliver(cfg: Config, t: Table, msg: Message, sender: Sender, reqType: RequestType, certReqID: int,
                   h: HandlerResult, env: Env): Outcome
    requires h.Handled? && h.waiting.None?
  {
    var key := Key(CredOf(sender), msg.header.transactionID);
    var reply := CertReply(cfg, msg, certReqID, StatusInfo(Accepted, {}), h.cert, h.caCerts, sender, reqType, env);
    if h.cert.None? then Outcome(t, reply, NoEvent, [])
    else if cfg.implicitConfirm && msg.header.implicitConfirm then
      Outcome(Complete(t, key, env.now), reply, CertImplicit(h.cert.value, h.issueRef),
              if cfg.hasConfirmer then [Notice(h.cert.value, ConfirmImplicit, h.issueRef)] else [])
    else
      var u := ToIssued(reqType, certReqID, h.cert.value, h.issueRef, reply.header.senderNonce, msg.header.senderNonce,
                        ParamsOf(sender), msg.header.protectionAlg);
      var r := Set(t, key, u, env.now);
      if r.1 then Outcome(r.0, reply, CertAwaits(key, h.cert.value, h.issueRef), [])
      else Outcome(r.0, Respond(cfg, msg, Error(Some(Refusal(TransactionIdInUse))), Some(sender), false, None,
                                env.nonce2, env.salt2),
                   CertLost(h.cert.value), [])
  }

  function Postpone(cfg: Config, t: Table, msg: Message, sender: Sender, reply: Message, reqType: RequestType,
                    w: WaitingResponse, lastPollTime: Option<int>, env: Env): Outcome
  {
    var key := Key(CredOf(sender), msg.header.transactionID);
    var r := Set(t, key, ToPending(reqType, w.pollRef, reply.header.senderNonce, w.checkAfter, lastPollTime), env.now);
    if r.1 then Outcome(r.0, reply, NoEvent, [])
    else Outcome(r.0, Respond(cfg, msg, Error(Some(Refusal(SystemFailure))), Some(sender), false, None, env.nonce2,
                              env.salt2),
                 NoEvent, [])
  }

  function HandleCertRequest(cfg: Config, t: Table, msg: Message, sender: Sender, env: Env): Outcome
    requires msg.body.CertReq?
  {
    var key := Key(CredOf(sender), msg.header.transactionID);
    var reqType, certReqID := msg.body.reqType, CertReqIDOf(msg.body);
    if key in t.entries && t.entries[key].state == Pending then
      Refuse(cfg, t, msg, Some(sender), Refusal(TransactionIdInUse), env)
    else
      match env.handler
      case Failed(info) =>
        if (BadAlg in info.failInfo && reqType == RequestP10CR) || BadMessageCheck in info.failInfo
        then Refuse(cfg, t, msg, Some(sender), info, env)
        else Outcome(t, CertReply(cfg, msg, certReqID, info, None, [], sender, reqType, env), NoEvent, [])
      case Handled(waiting, _, _, _) =>
        if waiting.Some? then
          var reply := CertReply(cfg, msg, certReqID, StatusInfo(Waiting, {}), None, [], sender, reqType, env);
          Postpone(cfg, t, msg, sender, reply, reqType, waiting.value, None, env)
        else Deliver(cfg, t, msg, sender, reqType, certReqID, env.handler, env)
  }

  /** The pollRep interval: whole seconds, at least one. Durations are nanoseconds,
      and Go divides toward zero. */
  function CheckAfterSeconds(d: int): int {
    var s := if d < 0 then -((-d) / SECOND) else d / SECOND;
    if s < 1 then 1 else s
  }

  function AnswerPoll(cfg: Config, t: Table, msg: Message, sender: Sender, reqType: RequestType, certReqID: int,
                      env: Env): Outcome {
    match env.handler
    case Failed(info) => Refuse(cfg, t, msg, Some(sender), info, env)
    case Handled(waiting, _, _, _) =>
      if waiting.Some? then
        var item := PollItem(certReqID, CheckAfterSeconds(waiting.value.checkAfter));
        var reply := Respond(cfg, msg, PollRep(Some([item])), Some(sender), false, None, env.nonce, env.salt);
        Postpone(cfg, t, msg, sender, reply, reqType, waiting.value, Some(env.now), env)
      else Deliver(cfg, t, msg, sender, reqType, certReqID, env.handler, env)
  }

  function PollObjection(msg: Message, pending: Entry, now: int): Option<Failure> {
    if msg.header.recipNonce == [] || msg.header.recipNonce != pending.senderNonce then Some(BadRecipientNonce)
    else if pending.lastPollTime.Some? && now - pending.lastPollTime.value < pending.checkAfter then Some(BadRequest)
    else None
  }

  function PolledID(ids: seq<int>): int {
    if |ids| > 0 then ids[0] else 0
  }

  function HandlePollReq(cfg: Config, t: Table, msg: Message, sender: Sender, env: Env): Outcome
    requires msg.body.PollReq?
  {
    var key := Key(CredOf(sender), msg.header.transactionID);
    if msg.body.pollIds.None? then Refuse(cfg, t, msg, Some(sender), Refusal(BadDataFormat), env)
    else if !(key in t.entries && t.entries[key].state == Pending) then
      Refuse(cfg, t, msg, Some(sender), Refusal(BadRequest), env)
    else
      var objection := PollObjection(msg, t.entries[key], env.now);
      if objection.Some? then Refuse(cfg, t, msg, Some(sender), Refusal(objection.value), env)
      else AnswerPoll(cfg, t, msg, sender, t.entries[key].reqType, PolledID(msg.body.pollIds.value), env)
  }

  // ---------------------------------------------------------------------------
  // Confirmations and revocations
  // ---------------------------------------------------------------------------

  predicate CertReqIDMatches(entry: Entry, certReqID: int) {
    || entry.certReqID.None?
    || certReqID == entry.certReqID.value
    || (entry.reqType == RequestP10CR && (certReqID == 0 || certReqID == -1))
  }

  predicate StatusRejects(cs: CertStatus) {
    cs.statusInfo.Some? && cs.statusInfo.value.status == Rejection
  }

  function CheckCertStatus(cfg: Config, cs: CertStatus, first: CertStatus, entry: Entry): Option<Failure>
    requires entry.cert.Some?
  {
    var expected := CertificateHash(cfg.digest, cs, entry.cert.value);
    if expected.None? then Some(BadAlg)
    else if cs.certHash != expected.value then Some(BadCertId)
    else if !CertReqIDMatches(entry, cs.certReqID) then Some(BadCertId)
    else if StatusRejects(cs) != StatusRejects(first) then Some(BadRequest)
    else None
  }

  /** The first objection to a list of statuses, from number `i` on. */
  function FirstObjection(cfg: Config, statuses: seq<CertStatus>, entry: Entry, i: nat): Option<Failure>
    requires entry.cert.Some? && i <= |statuses|
    decreases |statuses| - i
  {
    if i == |statuses| then None
    else
      var f := CheckCertStatus(cfg, statuses[i], statuses[0], entry);
      if f.Some? then f else FirstObjection(cfg, statuses, entry, i + 1)
  }

  function CheckCertStatuses(cfg: Config, statuses: seq<CertStatus>, entry: Entry): Option<Failure>
    requires entry.cert.Some?
  {
    if cfg.strictProfile && |statuses| > 1 then Some(BadRequest) else FirstObjection(cfg, statuses, entry, 0)
  }

  predicate Contradicts(cs: CertStatus) {
    cs.statusInfo.Some? && cs.statusInfo.value.status == Accepted && cs.statusInfo.value.failInfo != {}
  }

  predicate SomeContradicts(statuses: seq<CertStatus>) {
    exists i :: 0 <= i < |statuses| && Contradicts(statuses[i])
  }

  predicate ConfAccepts(statuses: seq<CertStatus>) {
    |statuses| > 0 && !StatusRejects(statuses[0])
  }

  predicate RepeatsNonce(msg: Message, entry: Entry) {
    || msg.header.senderNonce == entry.issuedSenderNonce
    || (entry.clientSenderNonce != [] && msg.header.senderNonce == entry.clientSenderNonce)
  }

  predicate SignedWithNewKey(sender: Sender, entry: Entry) {
    sender.CertSender? && entry.cert.Some? && sender.cert.key == entry.cert.value.key
  }

  /** Only a certificate can be marked issued, so the source may read it unchecked. */
  ghost predicate IssuedHaveCerts(t: Table) {
    forall k :: k in t.entries && t.entries[k].state == Issued ==> t.entries[k].cert.Some?
  }

  function ConfObjection(cfg: Config, msg: Message, statuses: seq<CertStatus>, sender: Sender,
                         entry: Entry): Option<Failure>
    requires entry.cert.Some?
  {
    var objection := CheckCertStatuses(cfg, statuses, entry);
    if objection.Some? then objection
    else if msg.header.recipNonce == [] || msg.header.recipNonce != entry.issuedSenderNonce then Some(BadRecipientNonce)
    else if cfg.strictProfile && RepeatsNonce(msg, entry) then Some(BadSenderNonce)
    else if SignedWithNewKey(sender, entry) then Some(BadMessageCheck)
    else None
  }

  /** The handler hears of the confirmation, and the transaction ends unless it fails. */
  function Confirm(cfg: Config, t: Table, key: Key, msg: Message, accepted: bool, sender: Sender, env: Env): Outcome
    requires key in t.entries && t.entries[key].cert.Some?
  {
    var entry := t.entries[key];
    if env.handler.Failed? then
      Outcome(t, Respond(cfg, msg, Error(Some(env.handler.info)), Some(sender), false, entry.protectionParams,
                         env.nonce, env.salt),
              NoEvent, [])
    else
      Outcome(Delete(t, key),
              Respond(cfg, msg, PkiConf, Some(sender), false, entry.protectionParams, env.nonce, env.salt),
              CertConfirmed(key, accepted),
              if cfg.hasConfirmer
              then [Notice(entry.cert.value, if accepted then ConfirmAccepted else ConfirmRejected, entry.issueRef)]
              else [])
  }

  function HandleCertConf(cfg: Config, t: Table, msg: Message, sender: Sender, env: Env): Outcome
    requires msg.body.CertConf?
    requires IssuedHaveCerts(t)
  {
    var key := Key(CredOf(sender), msg.header.transactionID);
    if msg.body.statuses.None? then Refuse(cfg, t, msg, Some(sender), Refusal(BadDataFormat), env)
    else if SomeContradicts(msg.body.statuses.value) then Refuse(cfg, t, msg, Some(sender), Refusal(BadRequest), env)
    else if !(key in t.entries && t.entries[key].state == Issued) then
      Refuse(cfg, t, msg, Some(sender), Refusal(BadRequest), env)
    else
      var objection := ConfObjection(cfg, msg, msg.body.statuses.value, sender, t.entries[key]);
      if objection.Some? then Refuse(cfg, t, msg, Some(sender), Refusal(objection.value), env)
      else Confirm(cfg, t, key, msg, ConfAccepts(msg.body.statuses.value), sender, env)
  }

  function HandleRevocation(cfg: Config, t: Table, msg: Message, sender: Sender, env: Env): Outcome {
    var key := Key(CredOf(sender), msg.header.transactionID);
    var reply :=
      match env.handler
      case Failed(info) =>
        if BadMessageCheck in info.failInfo then ErrorReply(cfg, msg, Some(sender), info, env)
        else Respond(cfg, msg, RevRep(info), Some(sender), false, None, env.nonce, env.salt)
      case Handled(waiting, _, _, _) =>
        Respond(cfg, msg, RevRep(if waiting.Some? then Refusal(SystemFailure) else StatusInfo(Accepted, {})),
                Some(sender), false, None, env.nonce, env.salt);
    Outcome(Complete(t, key, env.now), reply, NoEvent, [])
  }

  // ---------------------------------------------------------------------------
  // One request
  // ---------------------------------------------------------------------------

  predicate IsInitial(body: Body) {
    body.CertReq? || body.RevReq?
  }

  /** The header checks: the message as the handler sees it and the table once the
      transaction has started, or what to refuse with. */
  datatype HeaderCheck = HeaderOk(msg: Message, table: Table) | HeaderBad(msg: Message, table: Table, failure: Failure)

  function ValidateHeader(cfg: Config, t: Table, msg: Message, sender: Sender, env: Env): HeaderCheck {
    var first := IsInitial(msg.body);
    if msg.header.transactionID == [] && (cfg.strictProfile || !first) then HeaderBad(msg, t, BadDataFormat)
    else
      var m := if msg.header.transactionID == []
               then msg.(header := msg.header.(transactionID := env.newTransactionID)) else msg;
      if cfg.strictProfile && |m.header.senderNonce| < NONCE_LENGTH then HeaderBad(m, t, BadSenderNonce)
      else if !cfg.timely(m, env.now) then HeaderBad(m, t, BadTime)
      else if first && m.header.recipNonce != [] then HeaderBad(m, t, BadRecipientNonce)
      else if !first then HeaderOk(m, t)
      else
        var r := Start(t, cfg.caps, Key(CredOf(sender), m.header.transactionID), env.now);
        match r.1
        case LimitReached => HeaderBad(m, r.0, SystemUnavail)
        case AlreadyExists => HeaderBad(m, r.0, TransactionIdInUse)
        case Started => HeaderOk(m, r.0)
  }

  function Dispatch(cfg: Config, t: Table, msg: Message, sender: Sender, env: Env): Outcome
    requires IssuedHaveCerts(t)
  {
    match msg.body
    case CertReq(_, _) => HandleCertRequest(cfg, t, msg, sender, env)
    case CertConf(_) => HandleCertConf(cfg, t, msg, sender, env)
    case PollReq(_) => HandlePollReq(cfg, t, msg, sender, env)
    case RevReq => HandleRevocation(cfg, t, msg, sender, env)
    case Error(_) => Outcome(t, Respond(cfg, msg, PkiConf, Some(sender), false, None, env.nonce, env.salt), NoEvent, [])
    case _ => Refuse(cfg, t, msg, Some(sender), Refusal(BadRequest), env)
  }

  function ClampVersion(m: Message): Message {
    m.(header := m.header.(pvno := if m.header.pvno > PVNO3 then PVNO3 else PVNO2))
  }

  function ProcessVerified(cfg: Config, t: Table, msg: Message, sender: Sender, env: Env): Outcome
    requires IssuedHaveCerts(t)
  {
    if cfg.strictProfile && !cfg.profileAccepts(msg, sender)
    then Refuse(cfg, t, msg, Some(sender), Refusal(BadMessageCheck), env)
    else
      match ValidateHeader(cfg, t, msg, sender, env)
      case HeaderBad(m, t', failure) => Refuse(cfg, t', m, Some(sender), Refusal(failure), env)
      case HeaderOk(m, t') => Dispatch(cfg, t', m, sender, env)
  }

  function Process(cfg: Config, t: Table, msg: Message, env: Env): Outcome
    requires IssuedHaveCerts(t)
  {
    if cfg.signerBroken then Refuse(cfg, t, msg, None, Refusal(SystemFailure), env)
    else if msg.header.pvno < PVNO2 || msg.header.pvno > PVNO3 then
      Outcome(t, ClampVersion(ErrorReply(cfg, msg, None, Refusal(UnsupportedVersion), env)), NoEvent, [])
    else if !cfg.recipientMatches(msg) then Refuse(cfg, t, msg, None, Refusal(BadRequest), env)
    else
      match cfg.verify(msg)
      case Unverified(failure) => Refuse(cfg, t, msg, None, Refusal(failure), env)
      case Verified(sender) => ProcessVerified(cfg, t, msg, sender, env)
  }

  // ---------------------------------------------------------------------------
  // What a request can do to the table
  // ---------------------------------------------------------------------------

  /** The transaction a verified request belongs to. */
  function KeyFor(msg: Message, sender: Sender, env: Env): Key {
    Key(CredOf(sender), if msg.header.transactionID == [] then env.newTransactionID else msg.header.transactionID)
  }

  /** The part of an entry's life a request may start from: absent, or pending. */
  predicate Fresh(t: Table, key: Key) {
    key !in t.entries || t.entries[key].state == Pending
  }

  /** The entries after a request under `key`, and what the event says about them. */
  ghost predicate Shape(t: Table, key: Key, o: Outcome) {
    var after := o.table.entries;
    match o.event
    case NoEvent =>
      || after == t.entries
      || (Fresh(t, key) && key in after && after == t.entries[key := after[key]] && after[key].state != Issued)
    case CertAwaits(k, cert, issueRef) =>
      && k == key && Fresh(t, key) && key in after && after == t.entries[key := after[key]]
      && after[key].state == Issued && after[key].cert == Some(cert) && after[key].issueRef == issueRef
    case CertImplicit(_, _) =>
      Fresh(t, key) && key in after && after == t.entries[key := after[key]] && after[key].state == Completed
    case CertConfirmed(k, _) =>
      k == key && key in t.entries && t.entries[key].state == Issued && after == t.entries - {key}
    case CertLost(_) => false
  }

  lemma PollShape(cfg: Config, t: Table, msg: Message, sender: Sender, env: Env)
    requires msg.body.PollReq?
    ensures Shape(t, Key(CredOf(sender), msg.header.transactionID), HandlePollReq(cfg, t, msg, sender, env))
  {
  }

  lemma CertConfShape(cfg: Config, t: Table, msg: Message, sender: Sender, env: Env)
    requires msg.body.CertConf? && IssuedHaveCerts(t)
    ensures Shape(t, Key(CredOf(sender), msg.header.transactionID), HandleCertConf(cfg, t, msg, sender, env))
  {
  }
}
