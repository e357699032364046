/**
  What the client guarantees whatever the server answers (client/transport.go).
 */
module ClientRuns {
  import opened Types
  import opened MacParams
  import opened Messages
  import opened Client

  // ---------------------------------------------------------------------------
  // Which answers are accepted
  // ---------------------------------------------------------------------------

  /** The nonces a response to a poll may quote: that of the poll, that of the
      delayed request unless it is a pollRep, and none at all if it is one. */
  predicate QuotesRequest(orig: Message, poll: Message, resp: Message) {
    || resp.header.recipNonce == poll.header.senderNonce
    || (!resp.body.PollRep? && resp.header.recipNonce == orig.header.senderNonce)
    || (resp.body.PollRep? && resp.header.recipNonce == [])
  }

  predicate Authentic(c: Party, req: Message, resp: Message, pool: Pool, known: Option<Certificate>) {
    && resp.header.transactionID == req.header.transactionID
    && resp.header.protectionAlg.Some?
    && c.verify(resp, pool, known).Some?
  }

  /** A polled response is acted on exactly when it is authentic, of a supported
      version, decodes, and quotes the outstanding poll, the delayed request if it
      is not a pollRep, or nothing if it is one. */
  lemma PolledAnswersAccepted(c: Party, orig: Message, poll: Message, resp: Message, http200: bool,
                              known: Option<Certificate>)
    ensures var step := Judge(c, orig, poll, Reply(resp, http200), known);
            (step.Again? || step.Final?) <==>
              && Authentic(c, poll, resp, c.trustedCAs, known) && QuotesRequest(orig, poll, resp)
                 && SupportedVersion(resp)
              && !resp.body.Error? && (resp.body.PollRep? ==> DecodesItems(resp.body.items))
  {
  }

  /** So a pollRep that quotes no nonce is accepted, although it names no request. */
  lemma PollRepWithoutNonceAccepted(c: Party, orig: Message, poll: Message, resp: Message, http200: bool,
                                    known: Option<Certificate>)
    requires Authentic(c, poll, resp, c.trustedCAs, known) && SupportedVersion(resp)
    requires resp.body.PollRep? && DecodesItems(resp.body.items) && poll.header.senderNonce != []
    ensures Judge(c, orig, poll, Reply(resp, http200), known).Again? <==>
            resp.header.recipNonce == poll.header.senderNonce || resp.header.recipNonce == []
  {
  }

  // ---------------------------------------------------------------------------
  // What is sent
  // ---------------------------------------------------------------------------

  /** Every message after the first answers the reply to the one before it. */
  ghost predicate Chained(c: Party, sent: seq<Message>) {
    forall j :: 1 <= j < |sent| ==> Answers(c, sent, j)
  }

  predicate Answers(c: Party, sent: seq<Message>, j: int)
    requires 1 <= j < |sent|
  {
    var reply := c.net(sent[..j]);
    && reply.Reply?
    && sent[j].header.recipNonce == reply.msg.header.senderNonce
    && sent[j].header.transactionID == reply.msg.header.transactionID == c.transactionID
    && reply.msg.header.protectionAlg.Some?
    && QuotesRequest(sent[0], sent[j - 1], reply.msg)
  }

  lemma ChainedSnoc(c: Party, sent: seq<Message>, m: Message)
    requires Chained(c, sent) && |sent| > 0 && Answers(c, sent + [m], |sent|)
    ensures Chained(c, sent + [m])
  {
    var sent' := sent + [m];
    forall j | 1 <= j < |sent'| ensures Answers(c, sent', j) {
      if j < |sent| {
        assert sent'[..j] == sent[..j];
        assert Answers(c, sent, j);
      }
    }
  }

  /** `after` continues `before` with polls. */
  ghost predicate Polling(before: seq<Message>, after: seq<Message>) {
    |before| <= |after| && after[..|before|] == before && forall j :: |before| <= j < |after| ==> after[j].body.PollReq?
  }

  function Sum(waits: seq<int>): int {
    if waits == [] then 0 else Sum(waits[..|waits| - 1]) + waits[|waits| - 1]
  }

  ghost predicate InRange(c: Party, waits: seq<int>) {
    forall i :: 0 <= i < |waits| ==> c.minCheckAfter <= waits[i] <= c.maxCheckAfter
  }

  predicate Configured(c: Party) {
    0 <= c.minCheckAfter <= c.maxCheckAfter
  }

  ghost predicate Bounded(c: Party, i: nat, sent: seq<Message>, run: PollRun) {
    && Polling(sent, run.sent)
    && |run.sent| - |sent| <= (if c.maxPolls > i then c.maxPolls - i else 0)
    && InRange(c, run.waits)
    && |run.waits| <= (if c.maxPolls > 0 then c.maxPolls - 1 else 0)
  }

  lemma BoundedStep(c: Party, i: nat, sent: seq<Message>, poll: Message, run: PollRun)
    requires i < c.maxPolls && poll.body.PollReq? && Bounded(c, i + 1, sent + [poll], run)
    ensures Bounded(c, i, sent, run)
  {
    assert run.sent[..|sent|] == (sent + [poll])[..|sent|] == sent;
    assert run.sent[|sent|] == run.sent[..|sent| + 1][|sent|] == poll;
  }

  /** Polling sends at most the remaining polls, and waits within the limits between them. */
  lemma {:induction false} PollingIsBounded(c: Party, orig: Message, certReqID: int, last: Message,
                                            known: Option<Certificate>, wait: int,
                                            i: nat, sent: seq<Message>, waits: seq<int>)
    requires Configured(c) && InRange(c, waits) && |waits| == (if i == 0 then 0 else i - 1)
    requires i > 0 ==> c.minCheckAfter <= wait <= c.maxCheckAfter
    requires i == 0 || i <= c.maxPolls
    ensures Bounded(c, i, sent, PollFrom(c, orig, certReqID, last, known, wait, i, sent, waits))
    decreases c.maxPolls - i
  {
    var poll := ComposePoll(c, sent, certReqID, last);
    if i < c.maxPolls && !(i > 0 && c.interrupted(i)) && poll.Some? {
      var waits' := if i > 0 then waits + [wait] else waits;
      var sent' := sent + [poll.value];
      var step := Judge(c, orig, poll.value, c.net(sent'), known);
      PollFromStep(c, orig, certReqID, last, known, wait, i, sent, waits, poll.value);
      if step.Again? {
        PollingIsBounded(c, orig, certReqID, step.reply, step.known, step.wait, i + 1, sent', waits');
        BoundedStep(c, i, sent, poll.value,
                    PollFrom(c, orig, certReqID, step.reply, step.known, step.wait, i + 1, sent', waits'));
      }
    }
  }

  /** `last` answers the last message of a chained transcript. */
  ghost predicate AnswersLast(c: Party, orig: Message, sent: seq<Message>, last: Message) {
    && |sent| > 0 && sent[0] == orig && Chained(c, sent) && c.net(sent).Reply? && c.net(sent).msg == last
    && last.header.transactionID == c.transactionID && last.header.protectionAlg.Some?
    && QuotesRequest(orig, sent[|sent| - 1], last)
  }

  /** One poll keeps the chain, and an answer that is acted on answers the poll. */
  lemma PollIsChained(c: Party, orig: Message, id: int, last: Message, known: Option<Certificate>, sent: seq<Message>,
                      poll: Message)
    requires AnswersLast(c, orig, sent, last) && ComposePoll(c, sent, id, last) == Some(poll)
    ensures var sent' := sent + [poll];
            var step := Judge(c, orig, poll, c.net(sent'), known);
            Chained(c, sent') && (step.Again? || step.Final? ==> AnswersLast(c, orig, sent', step.reply))
  {
    assert (sent + [poll])[..|sent|] == sent;
    ChainedSnoc(c, sent, poll);
  }

  ghost predicate RunChained(c: Party, orig: Message, sent: seq<Message>, run: PollRun) {
    && |run.sent| >= |sent| > 0 && run.sent[0] == orig && Chained(c, run.sent)
    && (run.result.Polled? ==> AnswersLast(c, orig, run.sent, run.result.reply))
  }

  lemma {:induction false} PollingIsChained(c: Party, orig: Message, id: int, last: Message,
                                            known: Option<Certificate>, wait: int,
                                            i: nat, sent: seq<Message>, waits: seq<int>)
    requires AnswersLast(c, orig, sent, last)
    ensures RunChained(c, orig, sent, PollFrom(c, orig, id, last, known, wait, i, sent, waits))
    decreases c.maxPolls - i
  {
    var poll := ComposePoll(c, sent, id, last);
    if i < c.maxPolls && !(i > 0 && c.interrupted(i)) && poll.Some? {
      var sent' := sent + [poll.value];
      PollIsChained(c, orig, id, last, known, sent, poll.value);
      PollFromStep(c, orig, id, last, known, wait, i, sent, waits, poll.value);
      var step := Judge(c, orig, poll.value, c.net(sent'), known);
      if step.Again? {
        PollingIsChained(c, orig, id, step.reply, step.known, step.wait, i + 1, sent',
                         if i > 0 then waits + [wait] else waits);
      }
    }
  }

  /** The first poll of a run. */
  lemma PollFromStep(c: Party, orig: Message, id: int, last: Message, known: Option<Certificate>, wait: int,
                     i: nat, sent: seq<Message>, waits: seq<int>, poll: Message)
    requires i < c.maxPolls && !(i > 0 && c.interrupted(i)) && ComposePoll(c, sent, id, last) == Some(poll)
    ensures var step := Judge(c, orig, poll, c.net(sent + [poll]), known);
            var waits' := if i > 0 then waits + [wait] else waits;
            var run := PollFrom(c, orig, id, last, known, wait, i, sent, waits);
            && (step.Again? ==> run == PollFrom(c, orig, id, step.reply, step.known, step.wait, i + 1, sent + [poll],
                                                waits'))
            && (step.Final? ==> run == PollRun(sent + [poll], waits', Polled(step.reply, step.http200, step.vr)))
            && (step.StepNil? ==> run == PollRun(sent + [poll], waits', PollNil))
            && (step.StepFailed? ==> run == PollRun(sent + [poll], waits', PollFailed))
  {
  }

  // ---------------------------------------------------------------------------
  // Whole enrollments
  // ---------------------------------------------------------------------------

  /** The request, then polls, then at most one confirmation. */
  ghost predicate WellShaped(c: Party, body: Body, s: Session) {
    && (forall j :: 1 <= j < |s.sent| - 1 ==> s.sent[j].body.PollReq?)
    && (|s.sent| > 0 ==> s.sent[0].body == body)
    && (|s.sent| > 1 ==> s.sent[|s.sent| - 1].body.PollReq? || s.sent[|s.sent| - 1].body.CertConf?)
    && |s.sent| - (if Concludes(s) then 2 else 1) <= Polls(c)
    && InRange(c, s.waits) && |s.waits| <= (if Polls(c) > 0 then Polls(c) - 1 else 0)
    && Chained(c, s.sent)
  }

  function Polls(c: Party): nat {
    if c.maxPolls > 0 then c.maxPolls else 0
  }

  predicate Concludes(s: Session) {
    |s.sent| > 1 && s.sent[|s.sent| - 1].body.CertConf?
  }

  lemma ConcludeIsShaped(c: Party, ids: seq<int>, kind: RepKind, body: Body, resp: Message, vr: VerifyResult,
                         known: Option<Certificate>,
                         sent: seq<Message>, waits: seq<int>)
    requires body.CertReq? && WellShaped(c, body, Session(sent, waits, EnrollFailed)) && |sent| > 0
             && !Concludes(Session(sent, waits, EnrollFailed))
    requires c.net(sent).Reply? && c.net(sent).msg == resp && resp.header.transactionID == c.transactionID
    requires resp.header.protectionAlg.Some? && QuotesRequest(sent[0], sent[|sent| - 1], resp)
    ensures WellShaped(c, body, Conclude(c, ids, kind, resp, vr, known, sent, waits))
  {
    var s := Conclude(c, ids, kind, resp, vr, known, sent, waits);
    if s.sent != sent {
      assert s.sent[..|sent|] == sent;
      ChainedSnoc(c, sent, s.sent[|sent|]);
    }
  }

  lemma AfterPollsIsShaped(c: Party, ids: seq<int>, kind: RepKind, body: Body, req: Message, resp: Message, id: int,
                           signer: Option<Certificate>)
    requires Configured(c) && body.CertReq? && req.body == body
    requires c.net([req]).Reply? && c.net([req]).msg == resp && resp.header.transactionID == c.transactionID
    requires resp.header.protectionAlg.Some? && QuotesRequest(req, req, resp)
    ensures WellShaped(c, body, AfterPolls(c, ids, kind, signer, PollFrom(c, req, id, resp, signer, 0, 0, [req], [])))
  {
    PollingIsBounded(c, req, id, resp, signer, 0, 0, [req], []);
    PollingIsChained(c, req, id, resp, signer, 0, 0, [req], []);
    var run := PollFrom(c, req, id, resp, signer, 0, 0, [req], []);
    assert WellShaped(c, body, Session(run.sent, run.waits, EnrollFailed));
    if run.result.Polled? {
      ConcludeIsShaped(c, ids, kind, body, run.result.reply, run.result.vr, Newest(run.result.vr, signer), run.sent,
                       run.waits);
    }
  }

  lemma AfterFirstIsShaped(c: Party, ids: seq<int>, kind: RepKind, body: Body, req: Message, resp: Message,
                           http200: bool)
    requires Configured(c) && body.CertReq? && req.body == body && req.header.transactionID == c.transactionID
    requires c.net([req]) == Reply(resp, http200)
    ensures WellShaped(c, body, AfterFirst(c, ids, kind, req, resp, http200))
  {
    var vr := Verify(c, req, resp, c.trustedCAs, None, None);
    if vr.Some? {
      var cr := SingleResponse(resp, kind);
      if cr.Some? && cr.value.status.status == Waiting {
        AfterPollsIsShaped(c, ids, kind, body, req, resp, cr.value.certReqID, vr.value.signer);
      } else if cr.Some? {
        ConcludeIsShaped(c, ids, kind, body, resp, vr.value, vr.value.signer, [req], []);
      }
    }
  }

  /** Whatever the server does, the client sends its request, at most maxPolls polls
      and at most one confirmation, each answering the last reply. */
  lemma EnrollmentIsBounded(c: Party, body: Body)
    requires Configured(c) && body.CertReq?
    ensures WellShaped(c, body, Enroll(c, body))
  {
    var ids, req := AnsweringIDs(body), Compose(c, [], body, []);
    if ids.Some? && req.Some? && c.net([req.value]).Reply? {
      var reply := c.net([req.value]);
      AfterFirstIsShaped(c, ids.value, ExpectedKind(body.reqType), body, req.value, reply.msg, reply.http200);
    }
  }

  lemma {:induction false} SumIsBounded(c: Party, waits: seq<int>)
    requires Configured(c) && InRange(c, waits)
    ensures 0 <= Sum(waits) <= |waits| * c.maxCheckAfter
  {
    if waits != [] {
      SumIsBounded(c, waits[..|waits| - 1]);
    }
  }

  lemma {:induction false} ProductGrows(k: nat, n: nat, m: int)
    requires k <= n && m >= 0
    ensures k * m <= n * m
    decreases n
  {
    if k < n {
      ProductGrows(k, n - 1, m);
    }
  }

  lemma SumIsWithin(c: Party, waits: seq<int>, n: nat)
    requires Configured(c) && InRange(c, waits) && |waits| <= n
    ensures 0 <= Sum(waits) <= n * c.maxCheckAfter
  {
    SumIsBounded(c, waits);
    ProductGrows(|waits|, n, c.maxCheckAfter);
  }

  /** The client never waits longer in all than maxPolls - 1 maximal waits. */
  lemma TotalWaitIsBounded(c: Party, body: Body)
    requires Configured(c) && body.CertReq?
    ensures 0 <= Sum(Enroll(c, body).waits) <= (if Polls(c) > 0 then Polls(c) - 1 else 0) * c.maxCheckAfter
  {
    EnrollmentIsBounded(c, body);
    SumIsWithin(c, Enroll(c, body).waits, if Polls(c) > 0 then Polls(c) - 1 else 0);
  }

  // ---------------------------------------------------------------------------
  // What the client knows, read off the transcript
  // ---------------------------------------------------------------------------

  /** How the answer to message number `j` verifies, messages counted from one. */
  function VerifiedAs(c: Party, sent: seq<Message>, j: nat): Option<VerifyResult>
    requires 1 <= j <= |sent|
    decreases j, 1
  {
    var answer := c.net(sent[..j]);
    if answer.NoReply? then None else c.verify(answer.msg, c.trustedCAs, KnownSigner(c, sent, j))
  }

  /** The signer known when the answer to message number `j` arrives: the latest one
      an earlier answer named. */
  function KnownSigner(c: Party, sent: seq<Message>, j: nat): Option<Certificate>
    requires 1 <= j <= |sent| + 1
    decreases j, 0
  {
    if j == 1 then None
    else
      var vr := VerifiedAs(c, sent, j - 1);
      if vr.None? then None
      else if vr.value.signer.Some? then vr.value.signer else KnownSigner(c, sent, j - 1)
  }

  /** The other nonce an answer to message number `j` may quote. */
  function Alternative(sent: seq<Message>, j: nat, resp: Message): Option<Bytes>
    requires |sent| > 0
  {
    if j == 1 then None else Some(if resp.body.PollRep? then [] else sent[0].header.senderNonce)
  }

  /** The last answer verifies and has a supported version. */
  predicate LastVerifies(c: Party, sent: seq<Message>)
    requires |sent| > 0
  {
    var answer := c.net(sent);
    && answer.Reply? && SupportedVersion(answer.msg)
    && Verify(c, sent[|sent| - 1], answer.msg, c.trustedCAs, KnownSigner(c, sent, |sent|),
              Alternative(sent, |sent|, answer.msg)).Some?
  }

  /** The last answer is a verified error message whose status is a success. */
  predicate LastPassesAsNil(c: Party, sent: seq<Message>) {
    |sent| > 0 && LastVerifies(c, sent) && PassesAsNil(c.net(sent).msg, c.net(sent).http200)
  }

  lemma {:induction false} KnownFromPrefix(c: Party, sent: seq<Message>, m: Message, j: nat)
    requires 1 <= j <= |sent| + 1
    ensures KnownSigner(c, sent + [m], j) == KnownSigner(c, sent, j)
    ensures j <= |sent| ==> VerifiedAs(c, sent + [m], j) == VerifiedAs(c, sent, j)
  {
    if j > 1 {
      KnownFromPrefix(c, sent, m, j - 1);
    }
    if j <= |sent| {
      assert (sent + [m])[..j] == sent[..j];
    }
  }

  /** One poll, in terms of the transcript it extends. */
  lemma JudgeIsExplained(c: Party, orig: Message, sent: seq<Message>, poll: Message, known: Option<Certificate>)
    requires |sent| > 0 && sent[0] == orig && known == KnownSigner(c, sent, |sent| + 1)
    ensures var sent' := sent + [poll];
            var step := Judge(c, orig, poll, c.net(sent'), known);
            && (step.StepNil? <==> LastPassesAsNil(c, sent'))
            && (step.Again? ==> c.net(sent').Reply? && c.net(sent').msg == step.reply && !step.reply.body.Error?
                                && step.known == KnownSigner(c, sent', |sent'| + 1))
            && (step.Final? ==> c.net(sent') == Reply(step.reply, step.http200) && !step.reply.body.Error?
                                && VerifiedAs(c, sent', |sent'|) == Some(step.vr))
            && (step.StepFailed? ==> !LastPassesAsNil(c, sent'))
  {
    KnownFromPrefix(c, sent, poll, |sent| + 1);
    assert (sent + [poll])[..|sent| + 1] == sent + [poll];
  }

  /** How a poll run ends, in terms of its transcript, which extends `sent`. */
  ghost predicate RunExplained(c: Party, orig: Message, sent: seq<Message>, run: PollRun) {
    && |run.sent| >= |sent| > 0 && run.sent[0] == orig && !run.sent[|run.sent| - 1].body.CertConf?
    && (run.result.PollNil? <==> LastPassesAsNil(c, run.sent))
    && (run.result.PollNil? ==> |run.sent| > |sent|)
    && (run.result.Polled? ==>
          && c.net(run.sent) == Reply(run.result.reply, run.result.http200)
          && VerifiedAs(c, run.sent, |run.sent|) == Some(run.result.vr))
  }

  lemma {:induction false} PollingIsExplained(c: Party, orig: Message, id: int, last: Message,
                                              known: Option<Certificate>, wait: int,
                                              i: nat, sent: seq<Message>, waits: seq<int>)
    requires |sent| > 0 && sent[0] == orig && known == KnownSigner(c, sent, |sent| + 1)
    requires c.net(sent).Reply? && !c.net(sent).msg.body.Error? && !sent[|sent| - 1].body.CertConf?
    ensures RunExplained(c, orig, sent, PollFrom(c, orig, id, last, known, wait, i, sent, waits))
    decreases c.maxPolls - i
  {
    var poll := ComposePoll(c, sent, id, last);
    if i < c.maxPolls && !(i > 0 && c.interrupted(i)) && poll.Some? {
      var sent' := sent + [poll.value];
      JudgeIsExplained(c, orig, sent, poll.value, known);
      PollFromStep(c, orig, id, last, known, wait, i, sent, waits, poll.value);
      var step := Judge(c, orig, poll.value, c.net(sent'), known);
      if step.Again? {
        PollingIsExplained(c, orig, id, step.reply, step.known, step.wait, i + 1, sent',
                           if i > 0 then waits + [wait] else waits);
      }
    }
  }

  // ---------------------------------------------------------------------------
  // What the confirmation says
  // ---------------------------------------------------------------------------

  /** The signer known when the confirmation is answered: that of the answer with the
      certificate, or else that of the first answer. */
  function ConfirmSigner(c: Party, sent: seq<Message>, vr: VerifyResult): Option<Certificate>
    requires |sent| > 0
  {
    var first := VerifiedAs(c, sent, 1);
    if first.None? then None else if vr.signer.Some? then vr.signer else first.value.signer
  }

  /** The answer to the confirmation verifies against the pool of the certificate response. */
  predicate ConfirmationVerifies(c: Party, sent: seq<Message>, resp: Message, vr: VerifyResult)
    requires |sent| > 0 && resp.body.CertRep?
  {
    c.net(sent).Reply?
    && Verify(c, sent[|sent| - 1], c.net(sent).msg, TrustPool(c, vr, resp.body.caPubs), ConfirmSigner(c, sent, vr),
              None).Some?
  }

  /** The confirmation answers a verified response with one certificate. It accepts
      exactly when the request, trust and key checks pass, and enroll returns the
      certificate exactly when an accepting one was confirmed. */
  ghost predicate Judged(c: Party, ids: seq<int>, kind: RepKind, s: Session)
    requires Concludes(s)
  {
    var n := |s.sent| - 1;
    var answer, vr := c.net(s.sent[..n]), VerifiedAs(c, s.sent, n);
    && answer.Reply? && vr.Some?
    && var resp, cr := answer.msg, SingleResponse(answer.msg, kind);
       && cr.Some? && NoError(cr.value.status.status) && cr.value.cert.Some?
       && var cert := cr.value.cert.value;
          var status := NewCertStatus(c.digest, cert, cr.value.certReqID);
          var ok := CertificateOk(c, ids, resp, cr.value, TrustPool(c, vr.value, resp.body.caPubs));
          && status.Some?
          && s.sent[n].body == CertConf(Some([if ok then status.value
                                              else status.value.(statusInfo := Some(StatusInfo(Rejection, {})))]))
          && s.ending == if ok && IsConfirmed(c, s.sent, resp, vr.value)
             then Enrolled(cert, resp.body.caPubs, resp.extraCerts) else EnrollFailed
  }

  predicate IsConfirmed(c: Party, sent: seq<Message>, resp: Message, vr: VerifyResult)
    requires |sent| > 0 && resp.body.CertRep?
  {
    && ConfirmationVerifies(c, sent, resp, vr)
    && (c.net(sent).msg.body.PkiConf? || PassesAsNil(c.net(sent).msg, c.net(sent).http200))
  }

  lemma ConcludeIsJudged(c: Party, ids: seq<int>, kind: RepKind, resp: Message, vr: VerifyResult,
                         known: Option<Certificate>,
                         sent: seq<Message>, waits: seq<int>)
    requires |sent| > 0 && !sent[|sent| - 1].body.CertConf? && c.net(sent).Reply? && c.net(sent).msg == resp
    requires VerifiedAs(c, sent, |sent|) == Some(vr) && known == ConfirmSigner(c, sent, vr)
    ensures var s := Conclude(c, ids, kind, resp, vr, known, sent, waits);
            && (Concludes(s) ==> Judged(c, ids, kind, s))
            && (!Concludes(s) ==> s.sent == sent && s.ending == EnrollFailed)
  {
    var s := Conclude(c, ids, kind, resp, vr, known, sent, waits);
    if s.sent != sent {
      var conf := s.sent[|sent|];
      assert s.sent == sent + [conf] && s.sent[..|sent|] == sent;
      KnownFromPrefix(c, sent, conf, |sent|);
      KnownFromPrefix(c, sent, conf, 1);
    }
  }

  /** A session that did not get to a confirmation. */
  ghost predicate Explained(c: Party, ids: seq<int>, kind: RepKind, s: Session) {
    if Concludes(s) then Judged(c, ids, kind, s)
    else
      && !s.ending.Enrolled?
      && (s.ending.NilResult? <==> |s.sent| == 1 && LastPassesAsNil(c, s.sent))
      && (s.ending.Panicked? <==> |s.sent| > 1 && LastPassesAsNil(c, s.sent))
  }

  lemma AfterPollsExplained(c: Party, ids: seq<int>, kind: RepKind, req: Message, resp: Message, id: int,
                            vr: VerifyResult)
    requires c.net([req]).Reply? && c.net([req]).msg == resp && !resp.body.Error? && req.body.CertReq?
    requires VerifiedAs(c, [req], 1) == Some(vr)
    ensures Explained(c, ids, kind, AfterPolls(c, ids, kind, vr.signer,
                                               PollFrom(c, req, id, resp, vr.signer, 0, 0, [req], [])))
  {
    PollingIsExplained(c, req, id, resp, vr.signer, 0, 0, [req], []);
    var run := PollFrom(c, req, id, resp, vr.signer, 0, 0, [req], []);
    assert run.sent[..1] == [req] == [req][..1];
    assert VerifiedAs(c, run.sent, 1) == VerifiedAs(c, [req], 1);
    if run.result.Polled? {
      ConcludeIsJudged(c, ids, kind, run.result.reply, run.result.vr, Newest(run.result.vr, vr.signer), run.sent,
                       run.waits);
    }
  }

  lemma AfterFirstExplained(c: Party, ids: seq<int>, kind: RepKind, req: Message, resp: Message, http200: bool)
    requires c.net([req]) == Reply(resp, http200) && req.body.CertReq?
    ensures Explained(c, ids, kind, AfterFirst(c, ids, kind, req, resp, http200))
  {
    assert [req][..1] == [req];
    var vr := Verify(c, req, resp, c.trustedCAs, None, None);
    if vr.Some? && SupportedVersion(resp) && !resp.body.Error? {
      var cr := SingleResponse(resp, kind);
      if cr.Some? && cr.value.status.status == Waiting {
        AfterPollsExplained(c, ids, kind, req, resp, cr.value.certReqID, vr.value);
      } else if cr.Some? {
        ConcludeIsJudged(c, ids, kind, resp, vr.value, vr.value.signer, [req], []);
      }
    }
  }

  /** Every enrollment is explained by what its transcript verifies. */
  lemma EnrollmentExplained(c: Party, body: Body)
    requires body.CertReq?
    ensures var s, ids := Enroll(c, body), AnsweringIDs(body);
            if ids.None? then s == Session([], [], EnrollFailed)
            else Explained(c, ids.value, ExpectedKind(body.reqType), s)
  {
    var ids, req := AnsweringIDs(body), Compose(c, [], body, []);
    if ids.Some? && req.Some? && c.net([req.value]).Reply? {
      var answer := c.net([req.value]);
      AfterFirstExplained(c, ids.value, ExpectedKind(body.reqType), req.value, answer.msg, answer.http200);
    }
  }

  // ---------------------------------------------------------------------------
  // A certificate only after pkiConf, and when not
  // ---------------------------------------------------------------------------

  /** The last message accepts the certificate in the answer before it, and its own
      answer verifies. */
  predicate AcceptanceVerifies(c: Party, s: Session) {
    && Concludes(s)
    && s.sent[|s.sent| - 1].body.statuses.Some? && |s.sent[|s.sent| - 1].body.statuses.value| == 1
    && s.sent[|s.sent| - 1].body.statuses.value[0].statusInfo.None?
    && var answer, vr := c.net(s.sent[..|s.sent| - 1]), VerifiedAs(c, s.sent, |s.sent| - 1);
       answer.Reply? && answer.msg.body.CertRep? && vr.Some? && ConfirmationVerifies(c, s.sent, answer.msg, vr.value)
  }

  predicate AnsweredWithPkiConf(c: Party, s: Session) {
    |s.sent| > 0 && c.net(s.sent).Reply? && c.net(s.sent).msg.body.PkiConf?
  }

  /** The last answer is an error message whose status is a success, it verifies, and
      it answers an accepting confirmation or no confirmation at all. */
  predicate Misled(c: Party, s: Session) {
    if Concludes(s)
    then AcceptanceVerifies(c, s) && PassesAsNil(c.net(s.sent).msg, c.net(s.sent).http200)
    else LastPassesAsNil(c, s.sent)
  }

  /** What enroll is expected to do: return a certificate after a verified pkiConf to
      its acceptance, or an error. */
  predicate AsExpected(c: Party, s: Session) {
    s.ending.EnrollFailed? || (s.ending.Enrolled? && AcceptanceVerifies(c, s) && AnsweredWithPkiConf(c, s))
  }

  lemma JudgedEnding(c: Party, ids: seq<int>, kind: RepKind, s: Session)
    requires Concludes(s) && Judged(c, ids, kind, s)
    ensures s.ending.Enrolled? || s.ending.EnrollFailed?
    ensures s.ending.Enrolled? <==>
            AcceptanceVerifies(c, s) && (AnsweredWithPkiConf(c, s)
                                         || PassesAsNil(c.net(s.sent).msg, c.net(s.sent).http200))
  {
  }

  /** Enroll returns a certificate exactly when its acceptance was answered by a
      verified pkiConf, or by a verified error message whose status is a success. It
      does as expected exactly when it was not misled by such a message. */
  lemma CertificateOnlyAfterPkiConf(c: Party, body: Body)
    requires body.CertReq?
    ensures var s := Enroll(c, body);
            && (s.ending.Enrolled? <==> AcceptanceVerifies(c, s) && (AnsweredWithPkiConf(c, s) || Misled(c, s)))
            && (s.ending.NilResult? <==> !Concludes(s) && |s.sent| == 1 && Misled(c, s))
            && (s.ending.Panicked? <==> !Concludes(s) && |s.sent| > 1 && Misled(c, s))
            && (AsExpected(c, s) <==> !Misled(c, s))
  {
    EnrollmentExplained(c, body);
    var s, ids := Enroll(c, body), AnsweringIDs(body);
    if ids.Some? && Concludes(s) {
      JudgedEnding(c, ids.value, ExpectedKind(body.reqType), s);
    }
  }

  const WITNESS := Certificate([0x30], [1], Classic(SHA256))

  /** A client that verifies everything, and a server that answers as `net` says. */
  function Trusting(maxPolls: int, net: seq<Message> -> NetReply): Party {
    Party(maxPolls, 0, 0, None, [7], None, n => [1], n => Some(Signature([])), n => false,
          (m, p, k) => Some(VerifyResult(false, None)), (x, p, q) => true, (h, x) => [], net)
  }

  function Answer(body: Body): NetReply {
    Reply(Message(Header(PVNO2, [7], [2], [1], false, Some(Signature([]))), body, []), true)
  }

  function CertAnswer(status: Status, cert: Option<Certificate>): NetReply {
    Answer(CertRep(IP, Some([CertResponse(0, StatusInfo(status, {}), cert)]), []))
  }

  const ACCEPTED_ERROR := Answer(Error(Some(StatusInfo(Accepted, {}))))

  /** A certificate that no pkiConf confirmed is returned. */
  lemma CertificateWithoutPkiConf() returns (c: Party, body: Body)
    ensures body.CertReq? && Enroll(c, body).ending.Enrolled?
    ensures forall h :: c.net(h).Reply? ==> !c.net(h).msg.body.PkiConf?
  {
    var issued := CertAnswer(Accepted, Some(WITNESS));
    c := Trusting(0, h => if |h| == 1 then issued else ACCEPTED_ERROR);
    body := CertReq(RequestIR, Some([0]));
    var req := Compose(c, [], body, []).value;
    assert c.net([req]) == issued;
    assert Enroll(c, body) == AfterFirst(c, [0], IP, req, issued.msg, true);
    assert AfterFirst(c, [0], IP, req, issued.msg, true)
           == Conclude(c, [0], IP, issued.msg, VerifyResult(false, None), None, [req], []);
  }

  /** Neither a certificate nor an error is returned. */
  lemma NeitherCertificateNorError() returns (c: Party, body: Body)
    ensures body.CertReq? && Enroll(c, body).ending.NilResult?
  {
    c := Trusting(0, h => ACCEPTED_ERROR);
    body := CertReq(RequestIR, Some([0]));
    var req := Compose(c, [], body, []).value;
    assert Enroll(c, body) == AfterFirst(c, [0], IP, req, ACCEPTED_ERROR.msg, true);
  }

  /** The response that a poll did not return is read. */
  lemma MissingResponseIsRead() returns (c: Party, body: Body)
    ensures body.CertReq? && Enroll(c, body).ending.Panicked?
  {
    var waiting := CertAnswer(Waiting, None);
    c := Trusting(1, h => if |h| == 1 then waiting else ACCEPTED_ERROR);
    body := CertReq(RequestIR, Some([0]));
    var req := Compose(c, [], body, []).value;
    assert c.net([req]) == waiting;
    assert Enroll(c, body) == AfterFirst(c, [0], IP, req, waiting.msg, true);
    var poll := ComposePoll(c, [req], 0, waiting.msg).value;
    assert Judge(c, req, poll, c.net([req] + [poll]), None) == StepNil;
    assert PollFrom(c, req, 0, waiting.msg, None, 0, 0, [req], []).result == PollNil;
  }
}
