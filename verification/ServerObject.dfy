/**
  The server as an object: its handlers drive the tracker step by step, cleanup
  notifies the CA, and restore builds a new tracker and swaps it in
  (server/server.go, server/response.go, server/confirm_poll.go,
  server/revocation.go, server/snapshot.go). Each method is proved against the
  function of module Server or Snapshot that the theorems are about.
 */
module ServerObject {
  import opened Types
  import opened Messages
  import opened Tracker
  import opened Server
  import opened ServerRuns
  import opened Conservation
  import opened Snapshot
  import opened Twins

  class CmpServer {
    const cfg: Config
    const signer: Bytes
    var tracker: TransactionTracker
    // The notices the CA took, oldest first.
    var told: seq<Notice>

    ghost function View(): Table
      reads this, tracker
    {
      tracker.View()
    }

    ghost predicate Valid()
      reads this, tracker
    {
      tracker.Valid() && tracker.caps == cfg.caps && IssuedHaveCerts(View())
    }

    constructor (cfg: Config, signer: Bytes)
      ensures this.cfg == cfg && this.signer == signer && fresh(tracker)
      ensures Valid() && View() == EMPTY && told == []
    {
      this.cfg := cfg;
      this.signer := signer;
      tracker := new TransactionTracker(cfg.caps);
      told := [];
    }

    // -------------------------------------------------------------------------
    // Certificate requests and polls
    // -------------------------------------------------------------------------

    method Deliver(msg: Message, sender: Sender, reqType: RequestType, certReqID: int, h: HandlerResult, env: Env)
      returns (reply: Message, ghost event: Event)
      requires Valid() && h.Handled? && h.waiting.None?
      modifies this`told, tracker
      ensures var o := old(Server.Deliver(cfg, View(), msg, sender, reqType, certReqID, h, env));
              View() == o.table && reply == o.reply && event == o.event && told == old(told) + o.notices
      ensures tracker.Valid()
    {
      reply := CertReply(cfg, msg, certReqID, StatusInfo(Accepted, {}), h.cert, h.caCerts, sender, reqType, env);
      event := NoEvent;
      var key := Key(CredOf(sender), msg.header.transactionID);
      if h.cert.Some? {
        if cfg.implicitConfirm && msg.header.implicitConfirm {
          tracker.SetCompleted(key, env.now);
          event := CertImplicit(h.cert.value, h.issueRef);
          if cfg.hasConfirmer {
            told := told + [Notice(h.cert.value, ConfirmImplicit, h.issueRef)];
          }
        } else {
          var u := ToIssued(reqType, certReqID, h.cert.value, h.issueRef, reply.header.senderNonce,
                            msg.header.senderNonce,
                            ParamsOf(sender), msg.header.protectionAlg);
          var ok := tracker.SetState(key, u, env.now);
          event := CertAwaits(key, h.cert.value, h.issueRef);
          if !ok {
            reply := Respond(cfg, msg, Error(Some(Refusal(TransactionIdInUse))), Some(sender), false, None, env.nonce2,
                             env.salt2);
            event := CertLost(h.cert.value);
          }
        }
      }
    }

    method Postpone(msg: Message, sender: Sender, response: Message, reqType: RequestType, w: WaitingResponse,
                    lastPollTime: Option<int>, env: Env)
      returns (reply: Message)
      requires Valid()
      modifies tracker
      ensures var o := old(Server.Postpone(cfg, View(), msg, sender, response, reqType, w, lastPollTime, env));
              View() == o.table && reply == o.reply && o.event == NoEvent && o.notices == []
      ensures tracker.Valid()
    {
      reply := response;
      var key := Key(CredOf(sender), msg.header.transactionID);
      var ok := tracker.SetState(key, ToPending(reqType, w.pollRef, response.header.senderNonce, w.checkAfter,
                                                lastPollTime), env.now);
      if !ok {
        reply := Respond(cfg, msg, Error(Some(Refusal(SystemFailure))), Some(sender), false, None, env.nonce2,
                         env.salt2);
      }
    }

    method HandleCertRequest(msg: Message, sender: Sender, env: Env) returns (reply: Message, ghost event: Event)
      requires Valid() && msg.body.CertReq?
      modifies this`told, tracker
      ensures var o := old(Server.HandleCertRequest(cfg, View(), msg, sender, env));
              View() == o.table && reply == o.reply && event == o.event && told == old(told) + o.notices
      ensures tracker.Valid()
    {
      event := NoEvent;
      var reqType, certReqID := msg.body.reqType, CertReqIDOf(msg.body);
      var pending := tracker.Get(Key(CredOf(sender), msg.header.transactionID), Pending);
      if pending.Some? {
        reply := ErrorReply(cfg, msg, Some(sender), Refusal(TransactionIdInUse), env);
        return;
      }
      match env.handler
      case Failed(info) =>
        if (BadAlg in info.failInfo && reqType == RequestP10CR) || BadMessageCheck in info.failInfo {
          reply := ErrorReply(cfg, msg, Some(sender), info, env);
        } else {
          reply := CertReply(cfg, msg, certReqID, info, None, [], sender, reqType, env);
        }
      case Handled(waiting, _, _, _) =>
        if waiting.Some? {
          var response := CertReply(cfg, msg, certReqID, StatusInfo(Waiting, {}), None, [], sender, reqType, env);
          reply := Postpone(msg, sender, response, reqType, waiting.value, None, env);
        } else {
          reply, event := Deliver(msg, sender, reqType, certReqID, env.handler, env);
        }
    }

    method AnswerPoll(msg: Message, sender: Sender, reqType: RequestType, certReqID: int, env: Env)
      returns (reply: Message, ghost event: Event)
      requires Valid()
      modifies this`told, tracker
      ensures var o := old(Server.AnswerPoll(cfg, View(), msg, sender, reqType, certReqID, env));
              View() == o.table && reply == o.reply && event == o.event && told == old(told) + o.notices
      ensures tracker.Valid()
    {
      event := NoEvent;
      match env.handler
      case Failed(info) =>
        reply := ErrorReply(cfg, msg, Some(sender), info, env);
      case Handled(waiting, _, _, _) =>
        if waiting.Some? {
          var item := PollItem(certReqID, CheckAfterSeconds(waiting.value.checkAfter));
          var response := Respond(cfg, msg, PollRep(Some([item])), Some(sender), false, None, env.nonce, env.salt);
          reply := Postpone(msg, sender, response, reqType, waiting.value, Some(env.now), env);
        } else {
          reply, event := Deliver(msg, sender, reqType, certReqID, env.handler, env);
        }
    }

    method HandlePollReq(msg: Message, sender: Sender, env: Env) returns (reply: Message, ghost event: Event)
      requires Valid() && msg.body.PollReq?
      modifies this`told, tracker
      ensures var o := old(Server.HandlePollReq(cfg, View(), msg, sender, env));
              View() == o.table && reply == o.reply && event == o.event && told == old(told) + o.notices
      ensures tracker.Valid()
    {
      event := NoEvent;
      if msg.body.pollIds.None? {
        reply := ErrorReply(cfg, msg, Some(sender), Refusal(BadDataFormat), env);
        return;
      }
      var pending := tracker.Get(Key(CredOf(sender), msg.header.transactionID), Pending);
      if pending.None? {
        reply := ErrorReply(cfg, msg, Some(sender), Refusal(BadRequest), env);
        return;
      }
      var objection := PollObjection(msg, pending.value, env.now);
      if objection.Some? {
        reply := ErrorReply(cfg, msg, Some(sender), Refusal(objection.value), env);
        return;
      }
      reply, event := AnswerPoll(msg, sender, pending.value.reqType, PolledID(msg.body.pollIds.value), env);
    }

    // -------------------------------------------------------------------------
    // Confirmations and revocations
    // -------------------------------------------------------------------------

    method FindContradiction(statuses: seq<CertStatus>) returns (found: bool)
      ensures found <==> SomeContradicts(statuses)
    {
      for i := 0 to |statuses|
        invariant forall j :: 0 <= j < i ==> !Contradicts(statuses[j])
      {
        if Contradicts(statuses[i]) {
          return true;
        }
      }
      return false;
    }

    /** Every status must name the issued certificate and agree with the first. */
    method CheckStatuses(statuses: seq<CertStatus>, entry: Entry) returns (objection: Option<Failure>)
      requires entry.cert.Some?
      ensures objection == CheckCertStatuses(cfg, statuses, entry)
    {
      if cfg.strictProfile && |statuses| > 1 {
        return Some(BadRequest);
      }
      for i := 0 to |statuses|
        invariant FirstObjection(cfg, statuses, entry, 0) == FirstObjection(cfg, statuses, entry, i)
      {
        var cs := statuses[i];
        var expected := CertificateHash(cfg.digest, cs, entry.cert.value);
        if expected.None? {
          return Some(BadAlg);
        }
        if cs.certHash != expected.value || !CertReqIDMatches(entry, cs.certReqID) {
          return Some(BadCertId);
        }
        if StatusRejects(cs) != StatusRejects(statuses[0]) {
          return Some(BadRequest);
        }
      }
      return None;
    }

    method ObjectToConf(msg: Message, statuses: seq<CertStatus>, sender: Sender,
                        entry: Entry)
      returns (objection: Option<Failure>)
      requires entry.cert.Some?
      ensures objection == ConfObjection(cfg, msg, statuses, sender, entry)
    {
      objection := CheckStatuses(statuses, entry);
      if objection.Some? {
        return;
      }
      if msg.header.recipNonce == [] || msg.header.recipNonce != entry.issuedSenderNonce {
        return Some(BadRecipientNonce);
      }
      if cfg.strictProfile && RepeatsNonce(msg, entry) {
        return Some(BadSenderNonce);
      }
      if SignedWithNewKey(sender, entry) {
        return Some(BadMessageCheck);
      }
    }

    method Confirm(key: Key, msg: Message, accepted: bool, sender: Sender, entry: Entry, env: Env)
      returns (reply: Message, ghost event: Event)
      requires Valid() && key in View().entries && View().entries[key] == entry && entry.cert.Some?
      modifies this`told, tracker
      ensures var o := old(Server.Confirm(cfg, View(), key, msg, accepted, sender, env));
              View() == o.table && reply == o.reply && event == o.event && told == old(told) + o.notices
      ensures tracker.Valid()
    {
      event := NoEvent;
      if env.handler.Failed? {
        reply := Respond(cfg, msg, Error(Some(env.handler.info)), Some(sender), false, entry.protectionParams,
                         env.nonce, env.salt);
        return;
      }
      if cfg.hasConfirmer {
        told := told + [Notice(entry.cert.value, if accepted then ConfirmAccepted else ConfirmRejected,
                               entry.issueRef)];
      }
      tracker.Remove(key);
      event := CertConfirmed(key, accepted);
      reply := Respond(cfg, msg, PkiConf, Some(sender), false, entry.protectionParams, env.nonce, env.salt);
    }

    method HandleCertConf(msg: Message, sender: Sender, env: Env) returns (reply: Message, ghost event: Event)
      requires Valid() && msg.body.CertConf?
      modifies this`told, tracker
      ensures var o := old(Server.HandleCertConf(cfg, View(), msg, sender, env));
              View() == o.table && reply == o.reply && event == o.event && told == old(told) + o.notices
      ensures tracker.Valid()
    {
      event := NoEvent;
      if msg.body.statuses.None? {
        reply := ErrorReply(cfg, msg, Some(sender), Refusal(BadDataFormat), env);
        return;
      }
      var statuses := msg.body.statuses.value;
      var contradiction := FindContradiction(statuses);
      if contradiction {
        reply := ErrorReply(cfg, msg, Some(sender), Refusal(BadRequest), env);
        return;
      }
      var key := Key(CredOf(sender), msg.header.transactionID);
      var issued := tracker.Get(key, Issued);
      if issued.None? {
        reply := ErrorReply(cfg, msg, Some(sender), Refusal(BadRequest), env);
        return;
      }
      var entry := issued.value;
      var objection := ObjectToConf(msg, statuses, sender, entry);
      if objection.Some? {
        reply := ErrorReply(cfg, msg, Some(sender), Refusal(objection.value), env);
        return;
      }
      reply, event := Confirm(key, msg, ConfAccepts(statuses), sender, entry, env);
    }

    method HandleRevocation(msg: Message, sender: Sender, env: Env) returns (reply: Message)
      requires Valid()
      modifies tracker
      ensures var o := old(Server.HandleRevocation(cfg, View(), msg, sender, env));
              View() == o.table && reply == o.reply && o.event == NoEvent && o.notices == []
      ensures tracker.Valid()
    {
      match env.handler {
        case Failed(info) =>
          reply := if BadMessageCheck in info.failInfo then ErrorReply(cfg, msg, Some(sender), info, env)
                   else Respond(cfg, msg, RevRep(info), Some(sender), false, None, env.nonce, env.salt);
        case Handled(waiting, _, _, _) =>
          reply := Respond(cfg, msg, RevRep(if waiting.Some? then Refusal(SystemFailure) else StatusInfo(Accepted, {})),
                           Some(sender), false, None, env.nonce, env.salt);
      }
      // The source defers this, so it happens on every path.
      tracker.SetCompleted(Key(CredOf(sender), msg.header.transactionID), env.now);
    }

    // -------------------------------------------------------------------------
    // One request
    // -------------------------------------------------------------------------

    method ValidateHeader(received: Message, sender: Sender, env: Env) returns (msg: Message, failure: Option<Failure>)
      requires Valid()
      modifies tracker
      ensures Valid()
      ensures old(Server.ValidateHeader(cfg, View(), received, sender, env))
           == if failure.None? then HeaderOk(msg, View()) else HeaderBad(msg, View(), failure.value)
    {
      msg, failure := received, None;
      var first := IsInitial(msg.body);
      if msg.header.transactionID == [] {
        if cfg.strictProfile || !first {
          return msg, Some(BadDataFormat);
        }
        msg := msg.(header := msg.header.(transactionID := env.newTransactionID));
      }
      if cfg.strictProfile && |msg.header.senderNonce| < NONCE_LENGTH {
        return msg, Some(BadSenderNonce);
      }
      if !cfg.timely(msg, env.now) {
        return msg, Some(BadTime);
      }
      if first && msg.header.recipNonce != [] {
        return msg, Some(BadRecipientNonce);
      }
      if first {
        var result := tracker.StartIfAbsent(Key(CredOf(sender), msg.header.transactionID), env.now);
        match result
        case LimitReached => return msg, Some(SystemUnavail);
        case AlreadyExists => return msg, Some(TransactionIdInUse);
        case Started =>
      }
    }

    method Dispatch(msg: Message, sender: Sender, env: Env) returns (reply: Message, ghost event: Event)
      requires Valid()
      modifies this`told, tracker
      ensures var o := old(Server.Dispatch(cfg, View(), msg, sender, env));
              View() == o.table && reply == o.reply && event == o.event && told == old(told) + o.notices
      ensures tracker.Valid()
    {
      event := NoEvent;
      match msg.body
      case CertReq(_, _) => reply, event := HandleCertRequest(msg, sender, env);
      case CertConf(_) => reply, event := HandleCertConf(msg, sender, env);
      case PollReq(_) => reply, event := HandlePollReq(msg, sender, env);
      case RevReq => reply := HandleRevocation(msg, sender, env);
      case Error(_) => reply := Respond(cfg, msg, PkiConf, Some(sender), false, None, env.nonce, env.salt);
      case _ => reply := ErrorReply(cfg, msg, Some(sender), Refusal(BadRequest), env);
    }

    method ProcessVerified(msg: Message, sender: Sender, env: Env) returns (reply: Message, ghost event: Event)
      requires Valid()
      modifies this`told, tracker
      ensures var o := old(Server.ProcessVerified(cfg, View(), msg, sender, env));
              View() == o.table && reply == o.reply && event == o.event && told == old(told) + o.notices
      ensures tracker.Valid()
    {
      event := NoEvent;
      if cfg.strictProfile && !cfg.profileAccepts(msg, sender) {
        reply := ErrorReply(cfg, msg, Some(sender), Refusal(BadMessageCheck), env);
        return;
      }
      var m, failure := ValidateHeader(msg, sender, env);
      if failure.Some? {
        reply := ErrorReply(cfg, m, Some(sender), Refusal(failure.value), env);
      } else {
        reply, event := Dispatch(m, sender, env);
      }
    }

    /** A request does what the theorems say of Process, and keeps the server valid. */
    method Process(msg: Message, env: Env) returns (reply: Message, ghost event: Event)
      requires Valid()
      modifies this`told, tracker
      ensures var o := old(Server.Process(cfg, View(), msg, env));
              View() == o.table && reply == o.reply && event == o.event && told == old(told) + o.notices
      ensures Valid()
    {
      ProcessKeepsCerts(cfg, View(), msg, env);
      event := NoEvent;
      if cfg.signerBroken {
        reply := ErrorReply(cfg, msg, None, Refusal(SystemFailure), env);
      } else if msg.header.pvno < PVNO2 || msg.header.pvno > PVNO3 {
        reply := ClampVersion(ErrorReply(cfg, msg, None, Refusal(UnsupportedVersion), env));
      } else if !cfg.recipientMatches(msg) {
        reply := ErrorReply(cfg, msg, None, Refusal(BadRequest), env);
      } else {
        match cfg.verify(msg)
        case Unverified(failure) => reply := ErrorReply(cfg, msg, None, Refusal(failure), env);
        case Verified(sender) => reply, event := ProcessVerified(msg, sender, env);
      }
    }

    // -------------------------------------------------------------------------
    // Cleanup, snapshot and restore
    // -------------------------------------------------------------------------

    method CleanupExpired(now: int) returns (ghost order: seq<Key>)
      requires Valid()
      modifies this`told, tracker
      ensures Valid()
      ensures if cfg.confirmWait <= 0 then order == [] else old(ListsExpired(View(), now - cfg.confirmWait, order))
      ensures View() == old(DeleteAll(View(), order))
      ensures told == old(told) + IfConfirmer(cfg, ExpiryNotices(old(View()), order))
    {
      ghost var t := View();
      var met, expired := tracker.CleanupExpired(cfg.confirmWait, now);
      order := met;
      DeleteAllKeepsCerts(t, order);
      NoticesOfUnconfirmed(t, order);
      if cfg.hasConfirmer {
        NotifyExpired(expired, ExpiryNotices(t, order));
      }
    }

    method NotifyExpired(expired: seq<Entry>, ghost notices: seq<Notice>)
      requires |notices| == |expired|
      requires forall i :: 0 <= i < |expired| ==> expired[i].cert.Some? && notices[i] == ExpiryNotice(expired[i])
      modifies this`told
      ensures told == old(told) + notices
    {
      for i := 0 to |expired|
        invariant told == old(told) + notices[..i]
      {
        var e := expired[i];
        told := told + [Notice(e.cert.value, ConfirmExpired, e.issueRef)];
      }
      assert notices[..|expired|] == notices;
    }

    /** All transactions, in some order, unless one has parameters that cannot be saved. */
    method SnapshotTransactions() returns (saved: Option<Saved>, ghost order: seq<Key>)
      requires Valid()
      ensures var entries := View().entries;
              saved.Some? <==>
              forall k :: k in entries && entries[k].protectionParams.Some? ==> entries[k].protectionAlg.Some?
      ensures saved.Some? ==>
              Enumerates(View().entries, order) && saved.value == Saved(1, signer, SaveAll(View().entries, order))
    {
      var entries: seq<SavedTransaction> := [];
      var unvisited := tracker.transactions.Keys;
      order := [];
      while unvisited != {}
        invariant unvisited <= View().entries.Keys && Distinct(order)
        invariant forall k :: k in order <==> k in View().entries && k !in unvisited
        invariant forall k :: k in order ==> Savable(View().entries[k])
        invariant entries == SaveAll(View().entries, order)
        decreases |unvisited|
      {
        var key :| key in unvisited;
        unvisited := unvisited - {key};
        var entry := tracker.transactions[key];
        if !Savable(entry) {
          return None, [];
        }
        entries := entries + [Save(key, entry)];
        assert (order + [key])[..|order|] == order;
        order := order + [key];
      }
      return Some(Saved(1, signer, entries)), order;
    }

    /** A restore that fails leaves the tracker as it was. */
    method RestoreTransactions(saved: Saved, now: int) returns (ok: bool)
      requires Valid()
      modifies this`tracker
      ensures var r := old(Restore(cfg.caps, signer, View(), saved, now));
              ok == r.Some? && View() == if ok then r.value else old(View())
      ensures if ok then fresh(tracker) else tracker == old(tracker)
      ensures ok ==> Exact(View(), cfg.caps, |saved.entries|) && (Valid() <==> Attributed(saved.entries))
    {
      if tracker.count != 0 || saved.version != 1 || saved.signer != signer || |saved.entries| > cfg.caps.total {
        return false;
      }
      var next := new TransactionTracker(cfg.caps);
      var entries := saved.entries;
      for i := 0 to |entries|
        invariant fresh(next) && next.caps == cfg.caps
        invariant Load(cfg.caps, entries[..i], now) == Some(next.View())
        invariant unchanged(this) && unchanged(tracker)
      {
        assert entries[..i + 1] == entries[..i] + [entries[i]];
        LoadSnoc(cfg.caps, entries[..i], entries[i], now);
        var loaded := LoadSaved(next, entries[i], now);
        if !loaded {
          LoadPrefix(cfg.caps, entries, i + 1, now);
          return false;
        }
      }
      assert entries[..|entries|] == entries;
      tracker := next;
      LoadConsistent(cfg.caps, entries, now);
      return true;
    }
  }

  method LoadSaved(next: TransactionTracker, s: SavedTransaction, now: int) returns (ok: bool)
    modifies next
    ensures var r := LoadOne(next.caps, old(next.View()), s, now);
            ok == r.Some? && (ok ==> next.View() == r.value)
  {
    ghost var t := next.View();
    if !Restorable(Revive(s), now) || s.key in next.transactions {
      return false;
    }
    next.transactions := next.transactions[s.key := Revive(s)];
    var n := next.GetOrCreateCredCount(s.credential);
    LastUpdateWins(t.credCounts, s.credential, n, n + 1);
    next.credentialCounts := next.credentialCounts[s.credential := n + 1];
    if n + 1 > next.caps.perCredential {
      return false;
    }
    next.count := next.count + 1;
    return true;
  }

  lemma {:induction false} SavedAreAttributed(entries: map<Key, Entry>, order: seq<Key>)
    requires Owned(entries) && forall k :: k in order ==> k in entries
    ensures Attributed(SaveAll(entries, order))
  {
    if order != [] {
      SavedAreAttributed(entries, order[..|order| - 1]);
    }
  }

  /** A snapshot of one server, restored into an empty one: it succeeds exactly when
      every transaction can be saved and is complete, and then the two servers are
      indistinguishable. */
  method Migrate(source: CmpServer, target: CmpServer, now: int) returns (ok: bool)
    requires source.Valid() && target.Valid() && source != target && source.tracker != target.tracker
    requires target.cfg.caps == source.cfg.caps && target.signer == source.signer
    requires target.View().count == 0 && source.cfg.caps.total >= 0 && AllEcho(source.View().entries)
    modifies target`tracker
    ensures ok <==> AllRestorable(source.View().entries, now)
    ensures if ok then target.Valid() && Twin(source.View(), target.View()) else target.tracker == old(target.tracker)
  {
    ghost var t := source.View();
    var saved, order := source.SnapshotTransactions();
    assert AllSavable(t.entries);
    RestoreGivesTwin(source.cfg.caps, source.signer, t, order, target.View(), now);
    SavedAreAttributed(t.entries, order);
    ok := target.RestoreTransactions(saved.value, now);
  }

  lemma DeleteAllKeepsCerts(t: Table, order: seq<Key>)
    requires IssuedHaveCerts(t)
    ensures IssuedHaveCerts(DeleteAll(t, order)) && DeleteAll(t, []) == t
  {
    DeleteAllEntries(t, order);
  }

  lemma {:induction false} NoticesOfUnconfirmed(t: Table, order: seq<Key>)
    ensures |ExpiryNotices(t, order)| == |UnconfirmedAmong(t, order)|
    ensures forall i :: 0 <= i < |UnconfirmedAmong(t, order)| ==>
              UnconfirmedAmong(t, order)[i].cert.Some?
                  && ExpiryNotices(t, order)[i] == ExpiryNotice(UnconfirmedAmong(t, order)[i])
  {
    if order != [] {
      NoticesOfUnconfirmed(t, order[..|order| - 1]);
    }
  }
}
