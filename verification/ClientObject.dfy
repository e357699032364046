/**
  The client as an object: enroll and poll run an exchange message by message
  (client/transport.go). Each method is proved against the function of module
  Client that the theorems of module ClientRuns are about.
 */
module ClientObject {
  import opened Types
  import opened Messages
  import opened Client

  class CmpClient {
    const c: Party
    // What went out and how long was waited, oldest first.
    var sent: seq<Message>
    var waits: seq<int>

    ghost predicate Valid()
      reads this
    {
      0 <= c.minCheckAfter <= c.maxCheckAfter && FitsInt64(c.maxCheckAfter)
    }

    constructor (c: Party)
      ensures this.c == c && sent == [] && waits == []
    {
      this.c := c;
      sent, waits := [], [];
    }

    /** Protects and sends one message. Nothing is sent when Protect fails. */
    method Send(body: Body, recipNonce: Bytes) returns (msg: Option<Message>, answer: NetReply)
      modifies this`sent
      ensures msg == Compose(c, old(sent), body, recipNonce)
      ensures sent == old(sent) + (if msg.Some? then [msg.value] else [])
      ensures answer == if msg.Some? then c.net(sent) else NoReply
    {
      msg, answer := Compose(c, sent, body, recipNonce), NoReply;
      if msg.Some? {
        sent := sent + [msg.value];
        answer := c.net(sent);
      }
    }

    method NextWait(items: seq<PollItem>) returns (wait: int)
      requires Valid() && DecodesItems(Some(items))
      ensures wait == RequestedWait(c, items)
    {
      // An empty pollRep carries no checkAfter and still waits.
      var checkAfter: int64 := 0;
      if |items| > 0 {
        checkAfter := items[0].checkAfter as int64;
      }
      var w := ClampCheckAfter(checkAfter, c.minCheckAfter as int64, c.maxCheckAfter as int64);
      return w as int;
    }

    method JudgeAnswer(orig: Message, poll: Message, answer: NetReply,
                       known: Option<Certificate>)
      returns (step: PollStep)
      requires Valid()
      ensures step == Judge(c, orig, poll, answer, known)
    {
      if answer.NoReply? {
        return StepFailed;
      }
      var resp := answer.msg;
      var delayedRequestNonce := [];
      if !resp.body.PollRep? {
        // The final response may refer to the request that was delayed.
        delayedRequestNonce := orig.header.senderNonce;
      }
      var vr := Verify(c, poll, resp, c.trustedCAs, known, Some(delayedRequestNonce));
      if vr.None? || !SupportedVersion(resp) {
        return StepFailed;
      }
      if resp.body.Error? {
        return if PassesAsNil(resp, answer.http200) then StepNil else StepFailed;
      }
      if resp.body.PollRep? {
        if !DecodesItems(resp.body.items) {
          return StepFailed;
        }
        var wait := NextWait(resp.body.items.value);
        return Again(resp, Newest(vr.value, known), wait);
      }
      return Final(resp, answer.http200, vr.value);
    }

    method Poll(orig: Message, lastResp: Message, certReqID: int,
                knownSigner: Option<Certificate>)
      returns (result: PollResult)
      requires Valid()
      modifies this
      ensures PollRun(sent, waits, result)
              == PollFrom(c, orig, certReqID, lastResp, knownSigner, 0, 0, old(sent), old(waits))
    {
      var last, known, waitTime, i := lastResp, knownSigner, 0, 0;
      while i < c.maxPolls
        invariant i >= 0
        invariant PollFrom(c, orig, certReqID, last, known, waitTime, i, sent, waits)
               == PollFrom(c, orig, certReqID, lastResp, knownSigner, 0, 0, old(sent), old(waits))
      {
        if i > 0 {
          if c.interrupted(i) {
            return PollFailed;
          }
          waits := waits + [waitTime];
        }
        var poll, answer := Send(PollReq(Some([certReqID])), last.header.senderNonce);
        if poll.None? {
          return PollFailed;
        }
        var step := JudgeAnswer(orig, poll.value, answer, known);
        match step
        case StepFailed => return PollFailed;
        case StepNil => return PollNil;
        case Final(reply, http200, vr) => return Polled(reply, http200, vr);
        case Again(reply, known', wait') =>
          last, known, waitTime, i := reply, known', wait', i + 1;
      }
      return PollFailed;
    }

    /** Sends one confirmation. It succeeds on a pkiConf, and on an error message
        whose status is a success. */
    method SendCertConf(status: CertStatus, resp: Message, pool: Pool, known: Option<Certificate>) returns (ok: bool)
      modifies this`sent
      ensures var conf := Compose(c, old(sent), CertConf(Some([status])), resp.header.senderNonce);
              if conf.None? then !ok && sent == old(sent)
              else sent == old(sent) + [conf.value] && (ok <==> ConfirmedBy(c, conf.value, c.net(sent), pool, known))
    {
      var conf, answer := Send(CertConf(Some([status])), resp.header.senderNonce);
      if conf.None? || answer.NoReply? {
        return false;
      }
      var vr := Verify(c, conf.value, answer.msg, pool, known, None);
      if vr.None? {
        return false;
      }
      if answer.msg.body.Error? {
        return PassesAsNil(answer.msg, answer.http200);
      }
      return answer.msg.body.PkiConf?;
    }

    method Conclude(ids: seq<int>, kind: RepKind, resp: Message, vr: VerifyResult,
                    known: Option<Certificate>)
      returns (ending: Ending)
      modifies this`sent
      ensures Session(sent, waits, ending) == Client.Conclude(c, ids, kind, resp, vr, known, old(sent), waits)
    {
      var cr := SingleResponse(resp, kind);
      if cr.None? || !NoError(cr.value.status.status) || cr.value.cert.None? {
        return EnrollFailed;
      }
      var cert, caPubs, extraCerts := cr.value.cert.value, resp.body.caPubs, resp.extraCerts;
      var pool := TrustPool(c, vr, caPubs);
      var status := NewCertStatus(c.digest, cert, cr.value.certReqID);
      if status.None? {
        return EnrollFailed;
      }
      // Any failed check is reported to the CA in a rejecting confirmation.
      var ok := cr.value.certReqID in ids;
      if ok && pool.Some? {
        ok := c.chains(cert, pool.value, extraCerts + caPubs);
      }
      if ok && c.requestedKey.Some? {
        ok := cert.key == c.requestedKey.value;
      }
      if !ok {
        var _ := SendCertConf(status.value.(statusInfo := Some(StatusInfo(Rejection, {}))), resp, pool, known);
        return EnrollFailed;
      }
      var confirmed := SendCertConf(status.value, resp, pool, known);
      return if confirmed then Enrolled(cert, caPubs, extraCerts) else EnrollFailed;
    }

    method Enroll(body: Body) returns (ending: Ending)
      requires Valid() && body.CertReq? && sent == [] && waits == []
      modifies this
      ensures Session(sent, waits, ending) == Client.Enroll(c, body)
    {
      var ids := AnsweringIDs(body);
      if ids.None? {
        return EnrollFailed;
      }
      var req, answer := Send(body, []);
      if req.None? {
        return EnrollFailed;
      }
      assert sent == [req.value];
      if answer.NoReply? {
        return EnrollFailed;
      }
      var resp, kind := answer.msg, ExpectedKind(body.reqType);
      var vr := Verify(c, req.value, resp, c.trustedCAs, None, None);
      if vr.None? || !SupportedVersion(resp) {
        return EnrollFailed;
      }
      if resp.body.Error? {
        return if PassesAsNil(resp, answer.http200) then NilResult else EnrollFailed;
      }
      var cr := SingleResponse(resp, kind);
      if cr.None? {
        return EnrollFailed;
      }
      var knownSigner := vr.value.signer;
      if cr.value.status.status == Waiting {
        if cr.value.certReqID !in ids.value {
          return EnrollFailed;
        }
        var result := Poll(req.value, resp, cr.value.certReqID, knownSigner);
        match result
        case PollFailed => return EnrollFailed;
        case PollNil => return Panicked;
        case Polled(reply, _, vr') =>
          ending := Conclude(ids.value, kind, reply, vr', Newest(vr', knownSigner));
      } else {
        ending := Conclude(ids.value, kind, resp, vr.value, knownSigner);
      }
    }
  }
}
