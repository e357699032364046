/**
  Enrollment and polling by the client, against an arbitrary server
  (client/transport.go, client/client.go).

  The network is a function from what the client has sent so far to the answer.
  Verification of protection and of certificate paths are arbitrary functions.
  Durations are nanoseconds.
 */
module Client {
  import opened Types
  import opened MacParams
  import opened Messages

  type Pool = Option<seq<Certificate>>

  datatype VerifyResult = VerifyResult(macVerified: bool, signer: Option<Certificate>)

  /** No CMP message came back, or one did, with HTTP status 200 or another. */
  datatype NetReply = NoReply | Reply(msg: Message, http200: bool)

  datatype Party = Party(
    maxPolls: int,
    minCheckAfter: int,
    maxCheckAfter: int,
    trustedCAs: Pool,
    transactionID: Bytes,
    requestedKey: Option<Bytes>,
    // The random nonce and the protection of the n-th message. Protect may fail.
    nonces: nat -> Bytes,
    algorithms: nat -> Option<ProtectionAlg>,
    // The context ends while waiting for the n-th poll.
    interrupted: nat -> bool,
    verify: (Message, Pool, Option<Certificate>) -> Option<VerifyResult>,
    chains: (Certificate, seq<Certificate>, seq<Certificate>) -> bool,
    digest: (Hash, Certificate) -> Bytes,
    net: seq<Message> -> NetReply)

  // ---------------------------------------------------------------------------
  // Waiting between polls
  // ---------------------------------------------------------------------------

  newtype int64 = x: int | -0x8000_0000_0000_0000 <= x < 0x8000_0000_0000_0000

  /** The wait a checkAfter asks for, moved into the configured range. */
  function Clamp(seconds: int, minimum: int, maximum: int): int {
    var wait := seconds * SECOND;
    if wait < minimum then minimum else if wait > maximum then maximum else wait
  }

  /** WithCheckAfterLimits. Every pair of bounds becomes an ordered, nonnegative one. */
  method CheckAfterLimits(minimum: int64, maximum: int64) returns (lo: int64, hi: int64)
    ensures 0 <= lo <= hi
    ensures 0 <= minimum <= maximum ==> lo == minimum && hi == maximum
    ensures lo == (if minimum < 0 then 0 else minimum) && (hi == maximum || hi == lo > maximum)
  {
    lo, hi := minimum, maximum;
    if lo < 0 {
      lo := 0;
    }
    if hi < lo {
      hi := lo;
    }
  }

  /** clampCheckAfter on 64-bit integers equals the clamp of unbounded ones: no
      multiplication overflows, whatever the server asks for. */
  method ClampCheckAfter(seconds: int64, minimum: int64, maximum: int64) returns (wait: int64)
    requires 0 <= minimum <= maximum
    ensures wait as int == Clamp(seconds as int, minimum as int, maximum as int)
  {
    if seconds <= 0 {
      return minimum;
    }
    if seconds >= maximum / (SECOND as int64) + 1 {
      return maximum;
    }
    wait := seconds * (SECOND as int64);
    if wait < minimum {
      return minimum;
    }
    if wait > maximum {
      return maximum;
    }
  }

  // ---------------------------------------------------------------------------
  // Messages and their answers
  // ---------------------------------------------------------------------------

  /** The version a message has on the wire: a certHash algorithm needs version 3. */
  function WireVersion(body: Body): int {
    if body.CertConf? && body.statuses.Some?
       && exists i :: 0 <= i < |body.statuses.value| && body.statuses.value[i].hashAlg.Some?
    then PVNO3 else PVNO2
  }

  function Compose(c: Party, sent: seq<Message>, body: Body, recipNonce: Bytes): Option<Message> {
    if c.algorithms(|sent|).None? then None
    else
      Some(Message(Header(WireVersion(body), c.transactionID, c.nonces(|sent|), recipNonce, false,
                          c.algorithms(|sent|)), body, []))
  }

  /** verifyResponse. The alternative nonce of a pollRep is nil, which equals an
      empty recipNonce. */
  function Verify(c: Party, req: Message, resp: Message, pool: Pool, known: Option<Certificate>,
                  alternative: Option<Bytes>): Option<VerifyResult> {
    if resp.header.transactionID != req.header.transactionID then None
    else if resp.header.recipNonce != req.header.senderNonce && Some(resp.header.recipNonce) != alternative then None
    else if resp.header.protectionAlg.None? then None
    else c.verify(resp, pool, known)
  }

  predicate SupportedVersion(m: Message) {
    PVNO2 <= m.header.pvno <= PVNO3
  }

  /** AsError is nil for these. */
  predicate NoError(s: Status) {
    s == Accepted || s == GrantedWithMods
  }

  /** An error message that parseErrorResponse and wrapError turn into a nil error. */
  predicate PassesAsNil(m: Message, http200: bool) {
    m.body.Error? && m.body.info.Some? && NoError(m.body.info.value.status) && http200
  }

  function AnsweringIDs(body: Body): Option<seq<int>>
    requires body.CertReq?
  {
    if body.reqType == RequestP10CR then Some([-1, 0]) else body.ids
  }

  function ExpectedKind(reqType: RequestType): RepKind {
    match reqType
    case RequestIR => IP
    case RequestKUR => KUP
    case _ => CP
  }

  /** The one CertResponse of a certificate response. */
  function SingleResponse(m: Message, kind: RepKind): Option<CertResponse> {
    if m.body.CertRep? && m.body.kind == kind && m.body.responses.Some? && |m.body.responses.value| == 1
    then Some(m.body.responses.value[0]) else None
  }

  function TrustPool(c: Party, vr: VerifyResult, caPubs: seq<Certificate>): Pool {
    if !vr.macVerified || caPubs == [] then c.trustedCAs
    else Some((if c.trustedCAs.Some? then c.trustedCAs.value else []) + caPubs)
  }

  function Newest(vr: VerifyResult, known: Option<Certificate>): Option<Certificate> {
    if vr.signer.Some? then vr.signer else known
  }

  // ---------------------------------------------------------------------------
  // Polling
  // ---------------------------------------------------------------------------

  /** An answer to a poll: a failure, a nil error without a result, a pollRep, or the final response. */
  datatype PollStep =
    | StepFailed
    | StepNil
    | Again(reply: Message, known: Option<Certificate>, wait: int)
    | Final(reply: Message, http200: bool, vr: VerifyResult)

  predicate DecodesItems(items: Option<seq<PollItem>>) {
    items.Some? && forall i :: 0 <= i < |items.value| ==> FitsInt64(items.value[i].checkAfter)
  }

  function RequestedWait(c: Party, items: seq<PollItem>): int {
    Clamp(if |items| > 0 then items[0].checkAfter else 0, c.minCheckAfter, c.maxCheckAfter)
  }

  function Judge(c: Party, orig: Message, poll: Message, answer: NetReply, known: Option<Certificate>): PollStep {
    match answer
    case NoReply => StepFailed
    case Reply(resp, http200) =>
      var alternative := if resp.body.PollRep? then [] else orig.header.senderNonce;
      var vr := Verify(c, poll, resp, c.trustedCAs, known, Some(alternative));
      if vr.None? || !SupportedVersion(resp) then StepFailed
      else if resp.body.Error? then
        if PassesAsNil(resp, http200) then StepNil else StepFailed
      else if resp.body.PollRep? then
        if DecodesItems(resp.body.items) then Again(resp, Newest(vr.value, known),
                                                    RequestedWait(c, resp.body.items.value))
        else StepFailed
      else Final(resp, http200, vr.value)
  }

  function ComposePoll(c: Party, sent: seq<Message>, certReqID: int, last: Message): Option<Message> {
    Compose(c, sent, PollReq(Some([certReqID])), last.header.senderNonce)
  }

  datatype PollResult = PollFailed | PollNil | Polled(reply: Message, http200: bool, vr: VerifyResult)

  datatype PollRun = PollRun(sent: seq<Message>, waits: seq<int>, result: PollResult)

  /** The polls from number `i` on, after the last answer `last`. */
  function PollFrom(c: Party, orig: Message, certReqID: int, last: Message, known: Option<Certificate>, wait: int,
                    i: nat, sent: seq<Message>, waits: seq<int>): PollRun
    decreases c.maxPolls - i
  {
    if i >= c.maxPolls || (i > 0 && c.interrupted(i)) then PollRun(sent, waits, PollFailed)
    else
      var waits' := if i > 0 then waits + [wait] else waits;
      var poll := ComposePoll(c, sent, certReqID, last);
      if poll.None? then PollRun(sent, waits', PollFailed)
      else
        var sent' := sent + [poll.value];
        match Judge(c, orig, poll.value, c.net(sent'), known)
        case Again(reply, known', wait') => PollFrom(c, orig, certReqID, reply, known', wait', i + 1, sent', waits')
        case Final(reply, http200, vr) => PollRun(sent', waits', Polled(reply, http200, vr))
        case StepNil => PollRun(sent', waits', PollNil)
        case _ => PollRun(sent', waits', PollFailed)
  }

  // ---------------------------------------------------------------------------
  // Enrollment
  // ---------------------------------------------------------------------------

  /** How enroll returns: a certificate, an error, neither, or not at all, because
      it reads the response a failed poll did not return. */
  datatype Ending =
    | Enrolled(cert: Certificate, caPubs: seq<Certificate>, extraCerts: seq<Certificate>)
    | EnrollFailed
    | NilResult
    | Panicked

  datatype Session = Session(sent: seq<Message>, waits: seq<int>, ending: Ending)

  predicate CertificateOk(c: Party, ids: seq<int>, resp: Message, cr: CertResponse, pool: Pool)
    requires resp.body.CertRep? && cr.cert.Some?
  {
    && cr.certReqID in ids
    && (pool.Some? ==> c.chains(cr.cert.value, pool.value, resp.extraCerts + resp.body.caPubs))
    && (c.requestedKey.Some? ==> cr.cert.value.key == c.requestedKey.value)
  }

  /** sendCertConf reports no error. */
  predicate ConfirmedBy(c: Party, conf: Message, answer: NetReply, pool: Pool, known: Option<Certificate>) {
    && answer.Reply?
    && Verify(c, conf, answer.msg, pool, known, None).Some?
    && (answer.msg.body.PkiConf? || PassesAsNil(answer.msg, answer.http200))
  }

  /** The confirmation or rejection of a certificate. */
  function StatusFor(c: Party, ids: seq<int>, resp: Message, cr: CertResponse, pool: Pool): Option<CertStatus>
    requires resp.body.CertRep? && cr.cert.Some?
  {
    var status := NewCertStatus(c.digest, cr.cert.value, cr.certReqID);
    if status.None? || CertificateOk(c, ids, resp, cr, pool) then status
    else Some(status.value.(statusInfo := Some(StatusInfo(Rejection, {}))))
  }

  function Conclude(c: Party, ids: seq<int>, kind: RepKind, resp: Message, vr: VerifyResult, known: Option<Certificate>,
                    sent: seq<Message>, waits: seq<int>): Session
  {
    var cr := SingleResponse(resp, kind);
    if cr.None? || !NoError(cr.value.status.status) || cr.value.cert.None? then Session(sent, waits, EnrollFailed)
    else
      var pool := TrustPool(c, vr, resp.body.caPubs);
      var status := StatusFor(c, ids, resp, cr.value, pool);
      var conf := if status.None? then None
                  else Compose(c, sent, CertConf(Some([status.value])), resp.header.senderNonce);
      if conf.None? then Session(sent, waits, EnrollFailed)
      else
        var sent' := sent + [conf.value];
        if CertificateOk(c, ids, resp, cr.value, pool) && ConfirmedBy(c, conf.value, c.net(sent'), pool, known)
        then Session(sent', waits, Enrolled(cr.value.cert.value, resp.body.caPubs, resp.extraCerts))
        else Session(sent', waits, EnrollFailed)
  }

  function AfterPolls(c: Party, ids: seq<int>, kind: RepKind, known: Option<Certificate>, run: PollRun): Session {
    match run.result
    case PollFailed => Session(run.sent, run.waits, EnrollFailed)
    case PollNil => Session(run.sent, run.waits, Panicked)
    case Polled(reply, _, vr) => Conclude(c, ids, kind, reply, vr, Newest(vr, known), run.sent, run.waits)
  }

  function AfterFirst(c: Party, ids: seq<int>, kind: RepKind, req: Message, resp: Message, http200: bool): Session {
    var vr := Verify(c, req, resp, c.trustedCAs, None, None);
    if vr.None? || !SupportedVersion(resp) then Session([req], [], EnrollFailed)
    else if resp.body.Error? then Session([req], [], if PassesAsNil(resp, http200) then NilResult else EnrollFailed)
    else
      var cr := SingleResponse(resp, kind);
      if cr.None? then Session([req], [], EnrollFailed)
      else if cr.value.status.status == Waiting then
        if cr.value.certReqID !in ids then Session([req], [], EnrollFailed)
        else AfterPolls(c, ids, kind, vr.value.signer,
                        PollFrom(c, req, cr.value.certReqID, resp, vr.value.signer, 0, 0, [req], []))
      else Conclude(c, ids, kind, resp, vr.value, vr.value.signer, [req], [])
  }

  function Enroll(c: Party, body: Body): Session
    requires body.CertReq?
  {
    var ids, req := AnsweringIDs(body), Compose(c, [], body, []);
    if ids.None? || req.None? then Session([], [], EnrollFailed)
    else
      match c.net([req.value])
      case NoReply => Session([req.value], [], EnrollFailed)
      case Reply(resp, http200) => AfterFirst(c, ids.value, ExpectedKind(body.reqType), req.value, resp, http200)
  }
}
