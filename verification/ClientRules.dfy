/**
  The client as a function of its transcript (client/transport.go): which message it
  sends next, and how it ends, said over the messages sent and received and without the
  functions of module Client that compute them.
 */
module ClientRules {
  import opened Types
  import opened Messages
  import opened Client
  import opened ClientRuns

  // ---------------------------------------------------------------------------
  // Answers
  // ---------------------------------------------------------------------------

  /** An answer quotes the nonce of the message before it. Once the client polls, an answer
      other than a pollRep may quote the request instead, and a pollRep nothing. */
  predicate QuotesRight(sent: seq<Message>, resp: Message)
    requires |sent| > 0
  {
    || resp.header.recipNonce == sent[|sent| - 1].header.senderNonce
    || (|sent| > 1 && if resp.body.PollRep? then resp.header.recipNonce == []
                      else resp.header.recipNonce == sent[0].header.senderNonce)
  }

  /** The last message was answered, and the answer is one the client reads on in. */
  ghost predicate Reads(c: Party, sent: seq<Message>)
    requires |sent| > 0
  {
    var answer := c.net(sent);
    && answer.Reply? && 2 <= answer.msg.header.pvno <= 3
    && answer.msg.header.transactionID == sent[|sent| - 1].header.transactionID
    && QuotesRight(sent, answer.msg)
    && answer.msg.header.protectionAlg.Some? && VerifiedAs(c, sent, |sent|).Some?
  }

  predicate Succeeds(s: Status) {
    s == Accepted || s == GrantedWithMods
  }

  /** Status, in an error message, that is taken for no error. */
  predicate SaysNothing(answer: NetReply) {
    && answer.Reply? && answer.http200 && answer.msg.body.Error?
    && answer.msg.body.info.Some? && Succeeds(answer.msg.body.info.value.status)
  }

  /** The numbers a response may answer with. */
  function Asked(body: Body): Option<seq<int>>
    requires body.CertReq?
  {
    if body.reqType == RequestP10CR then Some([-1, 0]) else body.ids
  }

  /** The response to a request: of its kind, and one. */
  function ResponseIn(body: Body, resp: Message): Option<CertResponse>
    requires body.CertReq?
  {
    var kind := if body.reqType == RequestIR then IP else if body.reqType == RequestKUR then KUP else CP;
    if !resp.body.CertRep? || resp.body.kind != kind || resp.body.responses.None? || |resp.body.responses.value| != 1
    then None else Some(resp.body.responses.value[0])
  }

  // ---------------------------------------------------------------------------
  // Messages
  // ---------------------------------------------------------------------------

  function MessageOf(c: Party, n: nat, body: Body, recipNonce: Bytes, pvno: int): Option<Message> {
    if c.algorithms(n).None? then None
    else Some(Message(Header(pvno, c.transactionID, c.nonces(n), recipNonce, false, c.algorithms(n)), body, []))
  }

  /** The anchors the certificate is checked against: those of the client, and those the
      response brings if a MAC protects it. */
  function Anchors(c: Party, vr: VerifyResult, caPubs: seq<Certificate>): Pool {
    if vr.macVerified && |caPubs| > 0
    then Some(if c.trustedCAs.None? then caPubs else c.trustedCAs.value + caPubs) else c.trustedCAs
  }

  /** The certificate is the one asked for: it answers the request, leads to an anchor
      through the certificates sent with it, and certifies the requested key. */
  predicate IsWanted(c: Party, ids: seq<int>, resp: Message, cr: CertResponse, cert: Certificate, vr: VerifyResult)
    requires resp.body.CertRep?
  {
    var pool := Anchors(c, vr, resp.body.caPubs);
    && cr.certReqID in ids
    && (pool.Some? ==> c.chains(cert, pool.value, resp.extraCerts + resp.body.caPubs))
    && (c.requestedKey.Some? ==> c.requestedKey.value == cert.key)
  }

  /** How a certificate is named: by its digest under the hash of its signature. The hash
      is named where the signature does not tell it to every receiver. */
  function StatusOf(c: Party, cert: Certificate, id: int): Option<CertStatus> {
    match cert.algorithm
    case Classic(h) => Some(CertStatus(c.digest(h, cert), id, None, None))
    case MLDSA =>
      Some(CertStatus(c.digest(SHA512, cert), id, None, Some(HashAlg([0x60, 0x86, 0x48, 1, 0x65, 3, 4, 2, 3], []))))
    case Composite(h) =>
      var arc := if h == SHA256 then 1 else if h == SHA384 then 2 else 3;
      Some(CertStatus(c.digest(h, cert), id, None, Some(HashAlg([0x60, 0x86, 0x48, 1, 0x65, 3, 4, 2, arc], []))))
    case UnknownAlgorithm => None
  }

  /** The confirmation of a response with a certificate, accepting or declining it. */
  function ConfirmationOf(c: Party, ids: seq<int>, n: nat, resp: Message, cr: CertResponse,
                          vr: VerifyResult): Option<Message>
    requires resp.body.CertRep?
  {
    if !Succeeds(cr.status.status) || cr.cert.None? then None
    else
      var cert := cr.cert.value;
      var status := StatusOf(c, cert, cr.certReqID);
      if status.None? then None
      else
        var said := if IsWanted(c, ids, resp, cr, cert, vr) then status.value
                    else status.value.(statusInfo := Some(StatusInfo(Rejection, {})));
        MessageOf(c, n, CertConf(Some([said])), resp.header.senderNonce, if said.hashAlg.Some? then 3 else 2)
  }

  /** The next poll, if another is allowed. `n` messages have been sent, `n - 1` of them polls. */
  function PollOf(c: Party, n: nat, id: int, resp: Message): Option<Message> {
    if n > c.maxPolls || (n > 1 && c.interrupted(n - 1)) then None
    else MessageOf(c, n, PollReq(Some([id])), resp.header.senderNonce, 2)
  }

  /** The number the client polls for: that of the first response. */
  function PolledId(c: Party, body: Body, sent: seq<Message>): int
    requires body.CertReq? && |sent| > 0
  {
    var first := c.net(sent[..1]);
    if first.Reply? && ResponseIn(body, first.msg).Some? then ResponseIn(body, first.msg).value.certReqID else 0
  }

  predicate Decodes(items: Option<seq<PollItem>>) {
    && items.Some?
    && forall i :: 0 <= i < |items.value| ==>
       -0x8000_0000_0000_0000 <= items.value[i].checkAfter < 0x8000_0000_0000_0000
  }

  /** What the client sends after this transcript, if anything. */
  ghost function NextMessage(c: Party, body: Body, sent: seq<Message>): Option<Message>
    requires body.CertReq?
  {
    var n, ids := |sent|, Asked(body);
    if ids.None? then None
    else if n == 0 then MessageOf(c, 0, body, [], 2)
    else if sent[n - 1].body.CertConf? || !Reads(c, sent) || c.net(sent).msg.body.Error? then None
    else
      var resp := c.net(sent).msg;
      if n > 1 && resp.body.PollRep? then
        if Decodes(resp.body.items) then PollOf(c, n, PolledId(c, body, sent), resp) else None
      else
        var cr := ResponseIn(body, resp);
        if cr.None? then None
        else if n == 1 && cr.value.status.status == Waiting then
          if cr.value.certReqID in ids.value then PollOf(c, n, cr.value.certReqID, resp) else None
        else ConfirmationOf(c, ids.value, n, resp, cr.value, VerifiedAs(c, sent, n).value)
  }

  /** The transcript follows the rule message by message. */
  ghost predicate Follows(c: Party, body: Body, sent: seq<Message>, from: nat)
    requires body.CertReq?
  {
    forall k :: from <= k < |sent| ==> NextMessage(c, body, sent[..k]) == Some(sent[k])
  }

  /** The wait before a poll after the first: what the pollRep asks for, within the limits. */
  function WaitAfter(c: Party, answer: NetReply): int {
    var seconds := if answer.Reply? && answer.msg.body.PollRep? && answer.msg.body.items.Some?
                      && |answer.msg.body.items.value| > 0 then answer.msg.body.items.value[0].checkAfter else 0;
    var wait := seconds * 1_000_000_000;
    if wait < c.minCheckAfter then c.minCheckAfter else if wait > c.maxCheckAfter then c.maxCheckAfter else wait
  }

  ghost predicate Waits(c: Party, sent: seq<Message>, waits: seq<int>) {
    && (|waits| + 1 <= |sent| || waits == [])
    && forall m :: 0 <= m < |waits| ==> waits[m] == WaitAfter(c, c.net(sent[..m + 2]))
  }

  // ---------------------------------------------------------------------------
  // The pieces
  // ---------------------------------------------------------------------------

  lemma AnchorsRule(c: Party, vr: VerifyResult, caPubs: seq<Certificate>)
    ensures TrustPool(c, vr, caPubs) == Anchors(c, vr, caPubs)
  {
    assert [] + caPubs == caPubs;
  }

  lemma WantedRule(c: Party, ids: seq<int>, resp: Message, cr: CertResponse, vr: VerifyResult)
    requires resp.body.CertRep? && cr.cert.Some?
    ensures CertificateOk(c, ids, resp, cr, TrustPool(c, vr, resp.body.caPubs)) <==>
            IsWanted(c, ids, resp, cr, cr.cert.value, vr)
  {
    AnchorsRule(c, vr, resp.body.caPubs);
  }

  lemma StatusRule(c: Party, cert: Certificate, id: int)
    ensures NewCertStatus(c.digest, cert, id) == StatusOf(c, cert, id)
  {
  }

  lemma ComposeRule(c: Party, sent: seq<Message>, body: Body, recipNonce: Bytes, pvno: int)
    requires if body.CertConf? then body.statuses.Some? && |body.statuses.value| == 1
                                    && pvno == (if body.statuses.value[0].hashAlg.Some? then 3 else 2)
             else pvno == 2
    ensures Compose(c, sent, body, recipNonce) == MessageOf(c, |sent|, body, recipNonce, pvno)
  {
    if body.CertConf? {
      assert body.statuses.value == [body.statuses.value[0]];
    }
  }

  lemma ConfirmationRule(c: Party, ids: seq<int>, kind: RepKind, resp: Message, cr: CertResponse, vr: VerifyResult,
                         known: Option<Certificate>, sent: seq<Message>, waits: seq<int>)
    requires SingleResponse(resp, kind) == Some(cr)
    ensures var s := Conclude(c, ids, kind, resp, vr, known, sent, waits);
            var conf := ConfirmationOf(c, ids, |sent|, resp, cr, vr);
            s.waits == waits && s.sent == if conf.Some? then sent + [conf.value] else sent
  {
    if Succeeds(cr.status.status) && cr.cert.Some? {
      WantedRule(c, ids, resp, cr, vr);
      StatusRule(c, cr.cert.value, cr.certReqID);
      var status := StatusFor(c, ids, resp, cr, TrustPool(c, vr, resp.body.caPubs));
      if status.Some? {
        ComposeRule(c, sent, CertConf(Some([status.value])), resp.header.senderNonce,
                    if status.value.hashAlg.Some? then 3 else 2);
      }
    }
  }

  lemma ResponseRule(body: Body, resp: Message)
    requires body.CertReq?
    ensures SingleResponse(resp, ExpectedKind(body.reqType)) == ResponseIn(body, resp)
            && AnsweringIDs(body) == Asked(body)
  {
  }

  // ---------------------------------------------------------------------------
  // How it ends
  // ---------------------------------------------------------------------------

  /** The answer to the confirmation is one that enroll takes for a confirmation. */
  ghost predicate Confirmed(c: Party, sent: seq<Message>)
    requires |sent| > 1 && c.net(sent[..|sent| - 1]).Reply? && c.net(sent[..|sent| - 1]).msg.body.CertRep?
  {
    var n, answer := |sent| - 1, c.net(sent);
    var resp, vr, first := c.net(sent[..n]).msg, VerifiedAs(c, sent, n), VerifiedAs(c, sent, 1);
    && answer.Reply? && vr.Some? && first.Some?
    && answer.msg.header.transactionID == sent[n].header.transactionID
    && answer.msg.header.recipNonce == sent[n].header.senderNonce
    && answer.msg.header.protectionAlg.Some?
    && c.verify(answer.msg, Anchors(c, vr.value, resp.body.caPubs),
                if vr.value.signer.Some? then vr.value.signer else first.value.signer).Some?
    && (answer.msg.body.PkiConf? || SaysNothing(answer))
  }

  predicate Accepts(m: Message) {
    && m.body.CertConf? && m.body.statuses.Some? && |m.body.statuses.value| == 1
    && m.body.statuses.value[0].statusInfo.None?
  }

  /** How enroll ends after its last message. */
  ghost function EndingAfter(c: Party, body: Body, sent: seq<Message>): Ending
    requires body.CertReq?
  {
    var n := |sent|;
    if n > 1 && sent[n - 1].body.CertConf? then
      var answer := c.net(sent[..n - 1]);
      if answer.Reply? && ResponseIn(body, answer.msg).Some? && ResponseIn(body, answer.msg).value.cert.Some?
         && Accepts(sent[n - 1]) && Confirmed(c, sent)
      then Enrolled(ResponseIn(body, answer.msg).value.cert.value, answer.msg.body.caPubs, answer.msg.extraCerts)
      else EnrollFailed
    else if n > 0 && Reads(c, sent) && SaysNothing(c.net(sent)) then if n == 1 then NilResult else Panicked
    else EnrollFailed
  }

  /** A session that keeps to the rules after it sent `base`. */
  ghost predicate ByRule(c: Party, body: Body, s: Session, base: seq<Message>)
    requires body.CertReq?
  {
    && base <= s.sent && Follows(c, body, s.sent, |base|) && NextMessage(c, body, s.sent) == None
    && s.ending == EndingAfter(c, body, s.sent)
    && Waits(c, s.sent, s.waits)
  }

  /** The session ends with the message answered last. */
  lemma EndsHere(c: Party, body: Body, s: Session)
    requires body.CertReq? && NextMessage(c, body, s.sent) == None && s.ending == EndingAfter(c, body, s.sent)
    requires Waits(c, s.sent, s.waits)
    ensures ByRule(c, body, s, s.sent)
  {
  }

  lemma GoesOn(c: Party, body: Body, s: Session, base: seq<Message>, m: Message)
    requires body.CertReq? && NextMessage(c, body, base) == Some(m) && ByRule(c, body, s, base + [m])
    ensures ByRule(c, body, s, base)
  {
    assert s.sent[..|base|] == base && s.sent[|base|] == m;
  }

  lemma WaitsStay(c: Party, sent: seq<Message>, waits: seq<int>, m: Message)
    requires Waits(c, sent, waits)
    ensures Waits(c, sent + [m], waits)
  {
    forall k | 0 <= k < |waits| ensures waits[k] == WaitAfter(c, c.net((sent + [m])[..k + 2])) {
      assert (sent + [m])[..k + 2] == sent[..k + 2];
    }
  }

  lemma ConfirmedRule(c: Party, sent: seq<Message>, conf: Message, resp: Message, vr: VerifyResult)
    requires |sent| > 0 && c.net(sent).Reply? && c.net(sent).msg == resp && resp.body.CertRep?
    requires VerifiedAs(c, sent, |sent|) == Some(vr) && VerifiedAs(c, sent, 1).Some?
    ensures (sent + [conf])[..|sent|] == sent
    ensures Confirmed(c, sent + [conf]) <==>
            ConfirmedBy(c, conf, c.net(sent + [conf]), TrustPool(c, vr, resp.body.caPubs), ConfirmSigner(c, sent, vr))
  {
    assert (sent + [conf])[..|sent|] == sent;
    KnownFromPrefix(c, sent, conf, |sent|);
    KnownFromPrefix(c, sent, conf, 1);
    AnchorsRule(c, vr, resp.body.caPubs);
  }

  /** The last answer is read, and it is neither an error nor a reason to poll. */
  ghost predicate Decides(c: Party, body: Body, sent: seq<Message>)
    requires body.CertReq?
  {
    && |sent| > 0 && !sent[|sent| - 1].body.CertConf? && Reads(c, sent) && VerifiedAs(c, sent, 1).Some?
    && var resp := c.net(sent).msg;
       && !resp.body.Error? && Asked(body).Some?
       && (|sent| > 1 ==> !resp.body.PollRep?)
       && (|sent| == 1 && ResponseIn(body, resp).Some? ==> ResponseIn(body, resp).value.status.status != Waiting)
  }

  /** What Conclude comes to, by the session it returns. */
  lemma ConcludeRule(c: Party, ids: seq<int>, kind: RepKind, resp: Message, cr: CertResponse, vr: VerifyResult,
                     known: Option<Certificate>, sent: seq<Message>, waits: seq<int>)
    requires SingleResponse(resp, kind) == Some(cr) && ConfirmationOf(c, ids, |sent|, resp, cr, vr).Some?
    ensures var s := Conclude(c, ids, kind, resp, vr, known, sent, waits);
            var conf := ConfirmationOf(c, ids, |sent|, resp, cr, vr).value;
            && s.sent == sent + [conf] && s.waits == waits && conf.body.CertConf? && cr.cert.Some?
            && var pool := TrustPool(c, vr, resp.body.caPubs);
               s.ending == if Accepts(conf) && ConfirmedBy(c, conf, c.net(s.sent), pool, known)
                           then Enrolled(cr.cert.value, resp.body.caPubs, resp.extraCerts) else EnrollFailed
  {
    ConfirmationRule(c, ids, kind, resp, cr, vr, known, sent, waits);
    WantedRule(c, ids, resp, cr, vr);
    StatusRule(c, cr.cert.value, cr.certReqID);
  }

  lemma ConcludesByRule(c: Party, body: Body, sent: seq<Message>, waits: seq<int>, vr: VerifyResult)
    requires body.CertReq? && Decides(c, body, sent) && VerifiedAs(c, sent, |sent|) == Some(vr) && Waits(c, sent, waits)
    ensures ByRule(c, body, Conclude(c, Asked(body).value, ExpectedKind(body.reqType), c.net(sent).msg, vr,
                                     ConfirmSigner(c, sent, vr), sent, waits), sent)
  {
    var ids, kind, resp := Asked(body).value, ExpectedKind(body.reqType), c.net(sent).msg;
    var s := Conclude(c, ids, kind, resp, vr, ConfirmSigner(c, sent, vr), sent, waits);
    ResponseRule(body, resp);
    var cr := ResponseIn(body, resp);
    if cr.Some? && ConfirmationOf(c, ids, |sent|, resp, cr.value, vr).Some? {
      var conf := ConfirmationOf(c, ids, |sent|, resp, cr.value, vr).value;
      ConcludeRule(c, ids, kind, resp, cr.value, vr, ConfirmSigner(c, sent, vr), sent, waits);
      ConfirmedRule(c, sent, conf, resp, vr);
      WaitsStay(c, sent, waits, conf);
      EndsHere(c, body, s);
      GoesOn(c, body, s, sent, conf);
    } else {
      if cr.Some? {
        ConfirmationRule(c, ids, kind, resp, cr.value, vr, ConfirmSigner(c, sent, vr), sent, waits);
      }
      EndsHere(c, body, s);
    }
  }

  // ---------------------------------------------------------------------------
  // Polling
  // ---------------------------------------------------------------------------

  /** The client has decided to poll for `id` after the last answer. */
  ghost predicate AboutToPoll(c: Party, body: Body, sent: seq<Message>, id: int, known: Option<Certificate>, wait: int)
    requires body.CertReq?
  {
    && |sent| > 0 && !sent[|sent| - 1].body.CertConf? && Reads(c, sent) && VerifiedAs(c, sent, 1).Some?
    && !c.net(sent).msg.body.Error? && Asked(body).Some?
    && id == PolledId(c, body, sent) && known == KnownSigner(c, sent, |sent| + 1)
    && NextMessage(c, body, sent) == PollOf(c, |sent|, id, c.net(sent).msg)
    && (|sent| > 1 ==> wait == WaitAfter(c, c.net(sent)))
  }

  /** How an answer to a poll is judged. */
  lemma JudgeRule(c: Party, sent: seq<Message>, poll: Message, known: Option<Certificate>)
    requires |sent| > 0 && known == KnownSigner(c, sent, |sent| + 1)
    ensures var sent' := sent + [poll];
            var step, answer := Judge(c, sent[0], poll, c.net(sent'), known), c.net(sent');
            if !Reads(c, sent') then step == StepFailed
            else if answer.msg.body.Error? then step == (if SaysNothing(answer) then StepNil else StepFailed)
            else if answer.msg.body.PollRep? then
              if Decodes(answer.msg.body.items)
              then step == Again(answer.msg, KnownSigner(c, sent', |sent'| + 1), WaitAfter(c, answer))
              else step == StepFailed
            else step == Final(answer.msg, answer.http200, VerifiedAs(c, sent', |sent'|).value)
  {
    KnownFromPrefix(c, sent, poll, |sent| + 1);
    assert (sent + [poll])[..|sent| + 1] == sent + [poll];
  }

  lemma PollRule(c: Party, sent: seq<Message>, id: int, last: Message)
    requires |sent| > 0
    ensures PollOf(c, |sent|, id, last)
         == if |sent| > c.maxPolls || (|sent| > 1 && c.interrupted(|sent| - 1)) then None
            else ComposePoll(c, sent, id, last)
  {
    ComposeRule(c, sent, PollReq(Some([id])), last.header.senderNonce, 2);
  }

  lemma PolledIdStays(c: Party, body: Body, sent: seq<Message>, m: Message)
    requires body.CertReq? && |sent| > 0
    ensures PolledId(c, body, sent + [m]) == PolledId(c, body, sent)
  {
    assert (sent + [m])[..1] == sent[..1];
  }

  lemma WaitsGrow(c: Party, sent: seq<Message>, waits: seq<int>, wait: int)
    requires Waits(c, sent, waits) && |sent| > 1 && |waits| == |sent| - 2 && wait == WaitAfter(c, c.net(sent))
    ensures Waits(c, sent, waits + [wait])
  {
    assert sent[..|sent|] == sent;
  }

  /** The waits once the next poll is due. */
  function NextWaits(sent: seq<Message>, waits: seq<int>, wait: int): seq<int> {
    if |sent| > 1 then waits + [wait] else waits
  }

  /** From the last answer on, polling and what follows it keep to the rules. */
  lemma {:induction false} PollsByRule(c: Party, body: Body, id: int, sent: seq<Message>, waits: seq<int>,
                                       known: Option<Certificate>, wait: int)
    requires body.CertReq? && AboutToPoll(c, body, sent, id, known, wait)
    requires Waits(c, sent, waits) && |waits| == (if |sent| > 1 then |sent| - 2 else 0)
    ensures ByRule(c, body, AfterPolls(c, Asked(body).value, ExpectedKind(body.reqType),
                                       VerifiedAs(c, sent, 1).value.signer,
                                       PollFrom(c, sent[0], id, c.net(sent).msg, known, wait, |sent| - 1, sent, waits)),
                   sent)
    decreases c.maxPolls - |sent|
  {
    var i, last, waits' := |sent| - 1, c.net(sent).msg, NextWaits(sent, waits, wait);
    var run := PollFrom(c, sent[0], id, last, known, wait, i, sent, waits);
    var s := AfterPolls(c, Asked(body).value, ExpectedKind(body.reqType), VerifiedAs(c, sent, 1).value.signer, run);
    PollRule(c, sent, id, last);
    if |sent| > 1 {
      WaitsGrow(c, sent, waits, wait);
    }
    if PollOf(c, |sent|, id, last).None? {
      EndsHere(c, body, s);
    } else {
      var poll := ComposePoll(c, sent, id, last).value;
      PollFromStep(c, sent[0], id, last, known, wait, i, sent, waits, poll);
      WaitsStay(c, sent, waits', poll);
      AnsweredByRule(c, body, id, sent, waits', known, poll);
      GoesOn(c, body, s, sent, poll);
    }
  }

  /** One poll has been sent. */
  lemma {:induction false} AnsweredByRule(c: Party, body: Body, id: int, sent: seq<Message>, waits: seq<int>,
                                          known: Option<Certificate>, poll: Message)
    requires body.CertReq? && |sent| > 0 && VerifiedAs(c, sent, 1).Some? && Asked(body).Some?
    requires id == PolledId(c, body, sent) && known == KnownSigner(c, sent, |sent| + 1) && |sent| <= c.maxPolls
    requires poll.body.PollReq? && Waits(c, sent + [poll], waits) && |waits| == |sent| - 1
    ensures var sent' := sent + [poll];
            var step := Judge(c, sent[0], poll, c.net(sent'), known);
            var run := match step {
                         case Again(reply, known', wait') =>
                           PollFrom(c, sent[0], id, reply, known', wait', |sent|, sent', waits)
                         case Final(reply, http200, vr) => PollRun(sent', waits, Polled(reply, http200, vr))
                         case StepNil => PollRun(sent', waits, PollNil)
                         case StepFailed => PollRun(sent', waits, PollFailed)
                       };
            ByRule(c, body, AfterPolls(c, Asked(body).value, ExpectedKind(body.reqType),
                                       VerifiedAs(c, sent, 1).value.signer, run), sent')
    decreases c.maxPolls - |sent|, 0
  {
    var sent' := sent + [poll];
    JudgeRule(c, sent, poll, known);
    KnownFromPrefix(c, sent, poll, 1);
    PolledIdStays(c, body, sent, poll);
    assert sent'[0] == sent[0];
    var step := Judge(c, sent[0], poll, c.net(sent'), known);
    match step
    case Again(reply, known', wait') =>
      PollsByRule(c, body, id, sent', waits, known', wait');
    case Final(reply, http200, vr) =>
      ConcludesByRule(c, body, sent', waits, vr);
    case StepNil =>
      EndsHere(c, body, Session(sent', waits, Panicked));
    case StepFailed =>
      EndsHere(c, body, Session(sent', waits, EnrollFailed));
  }

  // ---------------------------------------------------------------------------
  // Whole enrollments
  // ---------------------------------------------------------------------------

  lemma FirstByRule(c: Party, body: Body, req: Message)
    requires body.CertReq? && Asked(body).Some? && !req.body.CertConf? && c.net([req]).Reply?
    ensures ByRule(c, body, AfterFirst(c, Asked(body).value, ExpectedKind(body.reqType), req, c.net([req]).msg,
                                       c.net([req]).http200), [req])
  {
    var resp, http200 := c.net([req]).msg, c.net([req]).http200;
    var s := AfterFirst(c, Asked(body).value, ExpectedKind(body.reqType), req, resp, http200);
    assert [req][..1] == [req];
    ResponseRule(body, resp);
    var cr := ResponseIn(body, resp);
    if !Reads(c, [req]) || resp.body.Error? || cr.None?
       || (cr.value.status.status == Waiting && cr.value.certReqID !in Asked(body).value) {
      EndsHere(c, body, s);
    } else if cr.value.status.status == Waiting {
      PollsByRule(c, body, cr.value.certReqID, [req], [], VerifiedAs(c, [req], 1).value.signer, 0);
    } else {
      ConcludesByRule(c, body, [req], [], VerifiedAs(c, [req], 1).value);
    }
  }

  /** Whatever the server answers, the client sends exactly the messages the rule gives
      for its transcript, waits as the answers ask, and ends as the rule says. */
  lemma EnrollmentByRule(c: Party, body: Body)
    requires body.CertReq?
    ensures ByRule(c, body, Enroll(c, body), [])
  {
    var s := Enroll(c, body);
    ComposeRule(c, [], body, [], 2);
    ResponseRule(body, Message(Header(2, [], [], [], false, None), PkiConf, []));
    if Asked(body).None? || MessageOf(c, 0, body, [], 2).None? {
      EndsHere(c, body, s);
    } else {
      var req := MessageOf(c, 0, body, [], 2).value;
      if c.net([req]).Reply? {
        FirstByRule(c, body, req);
      } else {
        EndsHere(c, body, s);
      }
      assert [] + [req] == [req];
      GoesOn(c, body, s, [], req);
    }
  }

  /** The one status of a confirmation accepts the certificate exactly when it is wanted. */
  ghost predicate Judges(c: Party, body: Body, sent: seq<Message>, conf: Message)
    requires body.CertReq?
  {
    && |sent| > 0 && Reads(c, sent) && Asked(body).Some?
    && conf.body.CertConf? && conf.body.statuses.Some? && |conf.body.statuses.value| == 1
    && var resp, status := c.net(sent).msg, conf.body.statuses.value[0];
       var cr := ResponseIn(body, resp);
       && cr.Some? && cr.value.cert.Some? && Succeeds(cr.value.status.status) && status.certReqID == cr.value.certReqID
       && (status.statusInfo.None? <==>
           IsWanted(c, Asked(body).value, resp, cr.value, cr.value.cert.value, VerifiedAs(c, sent, |sent|).value))
  }

  /** An enrollment that ends in a confirmation accepts the certificate it was given if and
      only if that certificate answers the request, leads to an anchor and certifies the
      requested key. */
  lemma AcceptsExactlyTheWanted(c: Party, body: Body)
    requires body.CertReq?
    ensures var sent := Enroll(c, body).sent;
            |sent| > 0 && sent[|sent| - 1].body.CertConf? ==> Judges(c, body, sent[..|sent| - 1], sent[|sent| - 1])
  {
    var sent := Enroll(c, body).sent;
    EnrollmentByRule(c, body);
    if |sent| > 0 && sent[|sent| - 1].body.CertConf? {
      var before := sent[..|sent| - 1];
      assert NextMessage(c, body, before) == Some(sent[|sent| - 1]);
    }
  }
}
