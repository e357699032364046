/**
  Two tables that differ only in how they hold MAC parameters answer alike: the
  table of a restored server and the one that was saved (server/snapshot.go).
 */
module Twins {
  import opened Types
  import opened MacParams
  import opened KeyInput
  import opened Messages
  import opened Tracker
  import opened Server
  import opened Conservation
  import opened Snapshot
  import opened Recovery

  /** Either option makes the same reply to any sender with this credential. */
  ghost predicate SameProtection(cred: Bytes, p: Option<MacOption>, q: Option<MacOption>) {
    || p == q
    || (p.Some? && q.Some? && q.value.EchoAlgorithm? && Captured(q.value.alg) == p)
    || (p.None? && CertKey(cred))
  }

  ghost predicate TwinEntry(cred: Bytes, e: Entry, f: Entry) {
    f == e.(protectionParams := f.protectionParams) && SameProtection(cred, e.protectionParams, f.protectionParams)
  }

  ghost predicate TwinEntries(a: map<Key, Entry>, b: map<Key, Entry>) {
    && (forall k :: k in a <==> k in b)
    && (forall k :: k in a && k in b ==> TwinEntry(k.cred, a[k], b[k]))
  }

  ghost predicate SameCounts(cc: map<Bytes, int>, dd: map<Bytes, int>) {
    forall c :: CountOf(cc, c) == CountOf(dd, c)
  }

  ghost predicate Twin(t: Table, u: Table) {
    t.count == u.count && SameCounts(t.credCounts, u.credCounts) && TwinEntries(t.entries, u.entries)
  }

  ghost predicate Alike(o: Outcome, p: Outcome) {
    o.reply == p.reply && o.event == p.event && o.notices == p.notices && Twin(o.table, p.table)
  }

  // ---------------------------------------------------------------------------
  // Table operations
  // ---------------------------------------------------------------------------

  lemma TwinEntriesAdd(a: map<Key, Entry>, b: map<Key, Entry>, key: Key, e: Entry, f: Entry)
    requires TwinEntries(a, b) && TwinEntry(key.cred, e, f)
    ensures TwinEntries(a[key := e], b[key := f])
  {
  }

  lemma TwinReplace(t: Table, u: Table, key: Key, e: Entry, f: Entry)
    requires Twin(t, u) && TwinEntry(key.cred, e, f)
    ensures Twin(t.(entries := t.entries[key := e]), u.(entries := u.entries[key := f]))
  {
    TwinEntriesAdd(t.entries, u.entries, key, e, f);
  }

  lemma SameCountsUpdate(cc: map<Bytes, int>, dd: map<Bytes, int>, cred: Bytes, n: int)
    requires SameCounts(cc, dd)
    ensures SameCounts(cc[cred := CountOf(cc, cred) + n], dd[cred := CountOf(dd, cred) + n])
  {
    var cc', dd' := cc[cred := CountOf(cc, cred) + n], dd[cred := CountOf(dd, cred) + n];
    forall c ensures CountOf(cc', c) == CountOf(dd', c) {
      assert CountOf(cc, c) == CountOf(dd, c);
    }
  }

  lemma SameStart(t: Table, u: Table, caps: Caps, key: Key, now: int)
    requires Twin(t, u)
    ensures Start(t, caps, key, now).1 == Start(u, caps, key, now).1
  {
    assert CountOf(t.credCounts, key.cred) == CountOf(u.credCounts, key.cred)
           && (key in t.entries <==> key in u.entries);
  }

  lemma TwinGrow(t: Table, u: Table, key: Key, e: Entry)
    requires Twin(t, u)
    ensures Twin(AddCred(t, key.cred, 1).(entries := t.entries[key := e], count := t.count + 1),
                 AddCred(u, key.cred, 1).(entries := u.entries[key := e], count := u.count + 1))
    ensures Twin(AddCred(t, key.cred, 0), AddCred(u, key.cred, 0))
  {
    SameCountsUpdate(t.credCounts, u.credCounts, key.cred, 1);
    SameCountsUpdate(t.credCounts, u.credCounts, key.cred, 0);
    TwinEntriesAdd(t.entries, u.entries, key, e, e);
  }

  lemma TwinStart(t: Table, u: Table, caps: Caps, key: Key, now: int)
    requires Twin(t, u)
    ensures Twin(Start(t, caps, key, now).0, Start(u, caps, key, now).0)
    ensures Start(t, caps, key, now).1 == Start(u, caps, key, now).1
  {
    SameStart(t, u, caps, key, now);
    TwinGrow(t, u, key, NewEntry(Active, key.cred, now));
  }

  lemma TwinSet(t: Table, u: Table, key: Key, up: Update, now: int)
    requires Twin(t, u)
    ensures Twin(Set(t, key, up, now).0, Set(u, key, up, now).0)
    ensures Set(t, key, up, now).1 == Set(u, key, up, now).1
  {
    TwinReplace(t, u, key, Updated(key, up, now), Updated(key, up, now));
  }

  lemma TwinComplete(t: Table, u: Table, key: Key, now: int)
    requires Twin(t, u)
    ensures Twin(Complete(t, key, now), Complete(u, key, now))
  {
    if key in t.entries {
      assert TwinEntry(key.cred, t.entries[key], u.entries[key]);
      TwinReplace(t, u, key, Done(t.entries[key], now), Done(u.entries[key], now));
    }
  }

  lemma TwinDelete(t: Table, u: Table, key: Key)
    requires Twin(t, u)
    ensures Twin(Delete(t, key), Delete(u, key))
  {
    if key in t.entries {
      assert TwinEntry(key.cred, t.entries[key], u.entries[key]);
      SameCountsUpdate(t.credCounts, u.credCounts, t.entries[key].cred, -1);
    }
  }

  lemma {:induction false} TwinDeleteAll(t: Table, u: Table, order: seq<Key>)
    requires Twin(t, u)
    ensures Twin(DeleteAll(t, order), DeleteAll(u, order))
  {
    if order != [] {
      TwinDeleteAll(t, u, order[..|order| - 1]);
      TwinDelete(DeleteAll(t, order[..|order| - 1]), DeleteAll(u, order[..|order| - 1]), order[|order| - 1]);
    }
  }

  lemma {:induction false} TwinExpiryNotices(t: Table, u: Table, order: seq<Key>)
    requires Twin(t, u)
    ensures ExpiryNotices(t, order) == ExpiryNotices(u, order)
  {
    if order != [] {
      TwinExpiryNotices(t, u, order[..|order| - 1]);
      var key := order[|order| - 1];
      if key in t.entries {
        assert TwinEntry(key.cred, t.entries[key], u.entries[key]);
      }
    }
  }

  lemma TwinExpired(t: Table, u: Table, cutoff: int, order: seq<Key>)
    requires Twin(t, u) && ListsExpired(t, cutoff, order)
    ensures ListsExpired(u, cutoff, order)
  {
    forall k ensures Expired(t, cutoff, k) <==> Expired(u, cutoff, k) {
      if k in t.entries {
        assert TwinEntry(k.cred, t.entries[k], u.entries[k]);
      }
    }
  }

  lemma TwinHaveCerts(t: Table, u: Table)
    requires Twin(t, u) && IssuedHaveCerts(t)
    ensures IssuedHaveCerts(u)
  {
    forall k | k in u.entries && u.entries[k].state == Issued ensures u.entries[k].cert.Some? {
      assert TwinEntry(k.cred, t.entries[k], u.entries[k]);
    }
  }

  // ---------------------------------------------------------------------------
  // Requests
  // ---------------------------------------------------------------------------

  lemma SameReply(cfg: Config, req: Message, body: Body, sender: Sender, p: Option<MacOption>, q: Option<MacOption>,
                  nonce: Bytes, salt: Bytes)
    requires WellFormed(CredentialOf(sender)) && SameProtection(CredOf(sender), p, q)
    ensures Respond(cfg, req, body, Some(sender), false, p, nonce, salt)
            == Respond(cfg, req, body, Some(sender), false, q, nonce, salt)
  {
    if p.None? && p != q && sender.MacSender? {
      var der :| OfCertificate(CredOf(sender), der);
      CredentialInputInjective(CredentialOf(sender), CertCredential(der));
    } else if p != q && p.Some? {
      VerifiedParametersEcho(q.value.alg, salt);
    }
  }

  lemma TwinDeliver(cfg: Config, t: Table, u: Table, msg: Message, sender: Sender, reqType: RequestType,
                    certReqID: int, h: HandlerResult, env: Env)
    requires Twin(t, u) && h.Handled? && h.waiting.None?
    ensures Alike(Deliver(cfg, t, msg, sender, reqType, certReqID, h, env),
                  Deliver(cfg, u, msg, sender, reqType, certReqID, h, env))
  {
    var key := Key(CredOf(sender), msg.header.transactionID);
    TwinComplete(t, u, key, env.now);
    if h.cert.Some? {
      var reply := CertReply(cfg, msg, certReqID, StatusInfo(Accepted, {}), h.cert, h.caCerts, sender, reqType, env);
      TwinSet(t, u, key, ToIssued(reqType, certReqID, h.cert.value, h.issueRef, reply.header.senderNonce,
                                  msg.header.senderNonce,
                                  ParamsOf(sender), msg.header.protectionAlg), env.now);
    }
  }

  lemma TwinPostpone(cfg: Config, t: Table, u: Table, msg: Message, sender: Sender, reply: Message,
                     reqType: RequestType,
                     w: WaitingResponse, lastPollTime: Option<int>, env: Env)
    requires Twin(t, u)
    ensures Alike(Postpone(cfg, t, msg, sender, reply, reqType, w, lastPollTime, env),
                  Postpone(cfg, u, msg, sender, reply, reqType, w, lastPollTime, env))
  {
    TwinSet(t, u, Key(CredOf(sender), msg.header.transactionID),
            ToPending(reqType, w.pollRef, reply.header.senderNonce, w.checkAfter, lastPollTime), env.now);
  }

  lemma TwinCertRequest(cfg: Config, t: Table, u: Table, msg: Message, sender: Sender, env: Env)
    requires Twin(t, u) && msg.body.CertReq?
    ensures Alike(HandleCertRequest(cfg, t, msg, sender, env), HandleCertRequest(cfg, u, msg, sender, env))
  {
    var key := Key(CredOf(sender), msg.header.transactionID);
    var reqType, certReqID := msg.body.reqType, CertReqIDOf(msg.body);
    assert key in t.entries ==> TwinEntry(key.cred, t.entries[key], u.entries[key]);
    if env.handler.Handled? {
      if env.handler.waiting.Some? {
        var reply := CertReply(cfg, msg, certReqID, StatusInfo(Waiting, {}), None, [], sender, reqType, env);
        TwinPostpone(cfg, t, u, msg, sender, reply, reqType, env.handler.waiting.value, None, env);
      } else {
        TwinDeliver(cfg, t, u, msg, sender, reqType, certReqID, env.handler, env);
      }
    }
  }

  lemma TwinAnswerPoll(cfg: Config, t: Table, u: Table, msg: Message, sender: Sender, reqType: RequestType,
                       certReqID: int, env: Env)
    requires Twin(t, u)
    ensures Alike(AnswerPoll(cfg, t, msg, sender, reqType, certReqID, env),
                  AnswerPoll(cfg, u, msg, sender, reqType, certReqID, env))
  {
    if env.handler.Handled? {
      if env.handler.waiting.Some? {
        var w := env.handler.waiting.value;
        var reply := Respond(cfg, msg, PollRep(Some([PollItem(certReqID, CheckAfterSeconds(w.checkAfter))])),
                             Some(sender), false, None, env.nonce, env.salt);
        TwinPostpone(cfg, t, u, msg, sender, reply, reqType, w, Some(env.now), env);
      } else {
        TwinDeliver(cfg, t, u, msg, sender, reqType, certReqID, env.handler, env);
      }
    }
  }

  lemma TwinPoll(cfg: Config, t: Table, u: Table, msg: Message, sender: Sender, env: Env)
    requires Twin(t, u) && msg.body.PollReq?
    ensures Alike(HandlePollReq(cfg, t, msg, sender, env), HandlePollReq(cfg, u, msg, sender, env))
  {
    var key := Key(CredOf(sender), msg.header.transactionID);
    if key in t.entries && msg.body.pollIds.Some? {
      assert TwinEntry(key.cred, t.entries[key], u.entries[key]);
      assert PollObjection(msg, t.entries[key], env.now) == PollObjection(msg, u.entries[key], env.now);
      TwinAnswerPoll(cfg, t, u, msg, sender, t.entries[key].reqType, PolledID(msg.body.pollIds.value), env);
    }
  }

  lemma {:induction false} SameObjection(cfg: Config, statuses: seq<CertStatus>, e: Entry, f: Entry, i: nat)
    requires e.cert.Some? && f == e.(protectionParams := f.protectionParams) && i <= |statuses|
    ensures FirstObjection(cfg, statuses, e, i) == FirstObjection(cfg, statuses, f, i)
    decreases |statuses| - i
  {
    if i < |statuses| {
      SameObjection(cfg, statuses, e, f, i + 1);
    }
  }

  lemma TwinConfirm(cfg: Config, t: Table, u: Table, key: Key, msg: Message, accepted: bool, sender: Sender, env: Env)
    requires Twin(t, u) && key in t.entries && key in u.entries && t.entries[key].cert.Some?
             && u.entries[key].cert.Some?
    requires key.cred == CredOf(sender) && WellFormed(CredentialOf(sender))
    ensures Alike(Confirm(cfg, t, key, msg, accepted, sender, env), Confirm(cfg, u, key, msg, accepted, sender, env))
  {
    var e, f := t.entries[key], u.entries[key];
    assert TwinEntry(key.cred, e, f);
    TwinDelete(t, u, key);
    SameReply(cfg, msg, PkiConf, sender, e.protectionParams, f.protectionParams, env.nonce, env.salt);
    if env.handler.Failed? {
      SameReply(cfg, msg, Error(Some(env.handler.info)), sender, e.protectionParams, f.protectionParams, env.nonce,
                env.salt);
    }
  }

  lemma SameConfObjection(cfg: Config, msg: Message, statuses: seq<CertStatus>, sender: Sender, e: Entry, f: Entry)
    requires e.cert.Some? && f == e.(protectionParams := f.protectionParams)
    ensures ConfObjection(cfg, msg, statuses, sender, e) == ConfObjection(cfg, msg, statuses, sender, f)
  {
    SameObjection(cfg, statuses, e, f, 0);
  }

  lemma TwinIssuedConf(cfg: Config, t: Table, u: Table, key: Key, msg: Message, statuses: seq<CertStatus>,
                       sender: Sender, env: Env)
    requires Twin(t, u) && key in t.entries && key in u.entries && t.entries[key].cert.Some?
    requires key.cred == CredOf(sender) && WellFormed(CredentialOf(sender))
    ensures u.entries[key].cert.Some? && u.entries[key].state == t.entries[key].state
    ensures ConfObjection(cfg, msg, statuses, sender, t.entries[key])
            == ConfObjection(cfg, msg, statuses, sender, u.entries[key])
    ensures Alike(Confirm(cfg, t, key, msg, ConfAccepts(statuses), sender, env),
                  Confirm(cfg, u, key, msg, ConfAccepts(statuses), sender, env))
  {
    assert TwinEntry(key.cred, t.entries[key], u.entries[key]);
    SameConfObjection(cfg, msg, statuses, sender, t.entries[key], u.entries[key]);
    TwinConfirm(cfg, t, u, key, msg, ConfAccepts(statuses), sender, env);
  }

  lemma TwinRefused(cfg: Config, t: Table, u: Table, msg: Message, sender: Sender, env: Env)
    requires Twin(t, u) && msg.body.CertConf? && IssuedHaveCerts(t) && IssuedHaveCerts(u)
    requires var key := Key(CredOf(sender), msg.header.transactionID);
             msg.body.statuses.None? || SomeContradicts(msg.body.statuses.value)
                 || !(key in t.entries && t.entries[key].state == Issued)
    ensures Alike(HandleCertConf(cfg, t, msg, sender, env), HandleCertConf(cfg, u, msg, sender, env))
  {
    var key := Key(CredOf(sender), msg.header.transactionID);
    assert key in t.entries ==> TwinEntry(key.cred, t.entries[key], u.entries[key]);
  }

  lemma TwinCertConf(cfg: Config, t: Table, u: Table, msg: Message, sender: Sender, env: Env)
    requires Twin(t, u) && msg.body.CertConf? && IssuedHaveCerts(t) && IssuedHaveCerts(u)
             && WellFormed(CredentialOf(sender))
    ensures Alike(HandleCertConf(cfg, t, msg, sender, env), HandleCertConf(cfg, u, msg, sender, env))
  {
    var key := Key(CredOf(sender), msg.header.transactionID);
    if msg.body.statuses.None? || SomeContradicts(msg.body.statuses.value)
        || !(key in t.entries && t.entries[key].state == Issued) {
      TwinRefused(cfg, t, u, msg, sender, env);
    } else {
      TwinIssuedConf(cfg, t, u, key, msg, msg.body.statuses.value, sender, env);
    }
  }

  lemma TwinDispatch(cfg: Config, t: Table, u: Table, msg: Message, sender: Sender, env: Env)
    requires Twin(t, u) && IssuedHaveCerts(t) && IssuedHaveCerts(u) && WellFormed(CredentialOf(sender))
    ensures Alike(Dispatch(cfg, t, msg, sender, env), Dispatch(cfg, u, msg, sender, env))
  {
    match msg.body
    case CertReq(_, _) => TwinCertRequest(cfg, t, u, msg, sender, env);
    case PollReq(_) => TwinPoll(cfg, t, u, msg, sender, env);
    case CertConf(_) => TwinCertConf(cfg, t, u, msg, sender, env);
    case RevReq => TwinComplete(t, u, Key(CredOf(sender), msg.header.transactionID), env.now);
    case _ =>
  }

  lemma StartHaveCerts(t: Table, caps: Caps, key: Key, now: int)
    requires IssuedHaveCerts(t)
    ensures IssuedHaveCerts(Start(t, caps, key, now).0)
  {
  }

  lemma TwinHeader(cfg: Config, t: Table, u: Table, msg: Message, sender: Sender, env: Env)
    requires Twin(t, u) && IssuedHaveCerts(t)
    ensures var a, b := ValidateHeader(cfg, t, msg, sender, env), ValidateHeader(cfg, u, msg, sender, env);
            Twin(a.table, b.table) && b == a.(table := b.table) && IssuedHaveCerts(a.table)
  {
    var key := KeyFor(msg, sender, env);
    TwinStart(t, u, cfg.caps, key, env.now);
    StartHaveCerts(t, cfg.caps, key, env.now);
    SameHeader(cfg, t, u, msg, sender, env);
  }

  /** The header checks look at the table only to start the transaction. */
  lemma SameHeader(cfg: Config, t: Table, u: Table, msg: Message, sender: Sender, env: Env)
    requires var key := KeyFor(msg, sender, env);
             Start(t, cfg.caps, key, env.now).1 == Start(u, cfg.caps, key, env.now).1
    ensures var key := KeyFor(msg, sender, env);
            var a, b := ValidateHeader(cfg, t, msg, sender, env), ValidateHeader(cfg, u, msg, sender, env);
            && b == a.(table := b.table)
            && ((a.table, b.table) == (t, u)
                || (a.table, b.table) == (Start(t, cfg.caps, key, env.now).0, Start(u, cfg.caps, key, env.now).0))
  {
  }

  lemma TwinVerified(cfg: Config, t: Table, u: Table, msg: Message, sender: Sender, env: Env)
    requires Twin(t, u) && IssuedHaveCerts(t) && IssuedHaveCerts(u) && WellFormed(CredentialOf(sender))
    ensures Alike(ProcessVerified(cfg, t, msg, sender, env), ProcessVerified(cfg, u, msg, sender, env))
  {
    TwinHeader(cfg, t, u, msg, sender, env);
    var a, b := ValidateHeader(cfg, t, msg, sender, env), ValidateHeader(cfg, u, msg, sender, env);
    if a.HeaderOk? {
      TwinHaveCerts(a.table, b.table);
      TwinDispatch(cfg, a.table, b.table, a.msg, sender, env);
    }
  }

  /** One request: same reply, same effects, and the tables stay twins. */
  lemma TwinProcess(cfg: Config, t: Table, u: Table, msg: Message, env: Env)
    requires Twin(t, u) && IssuedHaveCerts(t) && IssuedHaveCerts(u) && HonestVerify(cfg)
    ensures Alike(Process(cfg, t, msg, env), Process(cfg, u, msg, env))
  {
    if cfg.verify(msg).Verified? {
      TwinVerified(cfg, t, u, msg, cfg.verify(msg).sender, env);
    }
  }

  // ---------------------------------------------------------------------------
  // Restoring
  // ---------------------------------------------------------------------------

  lemma {:induction false} EnumerationSize(order: seq<Key>, keys: set<Key>)
    requires Distinct(order) && forall k :: k in order <==> k in keys
    ensures |order| == |keys|
  {
    if order == [] {
      assert keys == {};
    } else {
      var init, last := order[..|order| - 1], order[|order| - 1];
      assert order == init + [last];
      EnumerationSize(init, keys - {last});
    }
  }

  ghost predicate AllEcho(entries: map<Key, Entry>) {
    forall k :: k in entries ==> Echoes(k.cred, entries[k].protectionAlg, entries[k].protectionParams)
  }

  lemma RevivedIsTwin(t: Table, caps: Caps, order: seq<Key>, u: Table)
    requires Consistent(t, caps) && Enumerates(t.entries, order) && RevivedFrom(t.entries, order, u)
             && AllEcho(t.entries)
    ensures Twin(t, u)
  {
    EnumerationSize(order, t.entries.Keys);
    assert t.entries.Keys == u.entries.Keys;
    forall c ensures CountOf(t.credCounts, c) == CountOf(u.credCounts, c) {
      assert CredSize(t.entries.Keys, t.credCounts, caps, c);
    }
    forall k | k in t.entries ensures TwinEntry(k.cred, t.entries[k], u.entries[k]) {
      assert Echoes(k.cred, t.entries[k].protectionAlg, t.entries[k].protectionParams);
    }
  }

  /** A saved table is restored into an empty server with the same caps and signer
      exactly when each of its transactions is complete, and then the restored
      table is a twin of the saved one, counters included. */
  lemma RestoreGivesTwin(caps: Caps, signer: Bytes, t: Table, order: seq<Key>, target: Table, now: int)
    requires Consistent(t, caps) && Enumerates(t.entries, order) && AllEcho(t.entries)
    requires target.count == 0 && caps.total >= 0
    ensures var r := Restore(caps, signer, target, Saved(1, signer, SaveAll(t.entries, order)), now);
            (r.Some? <==> AllRestorable(t.entries, now)) && (r.Some? ==> Twin(t, r.value))
  {
    EnumerationSize(order, t.entries.Keys);
    SaveAllSize(t.entries, order);
    LoadRevives(t, caps, order, now);
    var r := Load(caps, SaveAll(t.entries, order), now);
    if r.Some? {
      RevivedIsTwin(t, caps, order, r.value);
    }
  }

  lemma {:induction false} SaveAllSize(entries: map<Key, Entry>, order: seq<Key>)
    requires forall k :: k in order ==> k in entries
    ensures |SaveAll(entries, order)| == |order|
  {
    if order != [] {
      SaveAllSize(entries, order[..|order| - 1]);
    }
  }

  // ---------------------------------------------------------------------------
  // Whole runs
  // ---------------------------------------------------------------------------

  /** What the outside sees of a step. */
  datatype Seen = Seen(reply: Option<Message>, event: Event, notices: seq<Notice>)

  function Observe(cfg: Config, t: Table, step: Step): (Table, Seen)
    requires IssuedHaveCerts(t)
  {
    match step
    case Request(msg, env) =>
      var o := Process(cfg, t, msg, env);
      (o.table, Seen(Some(o.reply), o.event, o.notices))
    case Cleanup(_, order) =>
      (DeleteAll(t, order), Seen(None, NoEvent, IfConfirmer(cfg, ExpiryNotices(t, order))))
  }

  ghost predicate Legal(cfg: Config, t: Table, step: Step) {
    step.Cleanup? ==>
      if cfg.confirmWait <= 0 then step.order == [] else ListsExpired(t, step.now - cfg.confirmWait, step.order)
  }

  ghost predicate ServesAt(cfg: Config, step: Step, t: Table, t': Table, seen: Seen) {
    IssuedHaveCerts(t) && Legal(cfg, t, step) && Observe(cfg, t, step) == (t', seen)
  }

  /** From `tables[0]` on, the steps show `seen` and go through `tables`. */
  ghost predicate Serves(cfg: Config, steps: seq<Step>, tables: seq<Table>, seen: seq<Seen>) {
    && |tables| == |steps| + 1 && |seen| == |steps|
    && forall i :: 0 <= i < |steps| ==> ServesAt(cfg, steps[i], tables[i], tables[i + 1], seen[i])
  }

  lemma TwinObserve(cfg: Config, t: Table, u: Table, step: Step)
    requires Twin(t, u) && IssuedHaveCerts(t) && Legal(cfg, t, step) && HonestVerify(cfg)
    ensures IssuedHaveCerts(u) && Legal(cfg, u, step)
    ensures Observe(cfg, t, step).1 == Observe(cfg, u, step).1 && Twin(Observe(cfg, t, step).0, Observe(cfg, u, step).0)
  {
    TwinHaveCerts(t, u);
    match step
    case Request(msg, env) =>
      TwinProcess(cfg, t, u, msg, env);
    case Cleanup(now, order) =>
      TwinDeleteAll(t, u, order);
      TwinExpiryNotices(t, u, order);
      if cfg.confirmWait > 0 {
        TwinExpired(t, u, now - cfg.confirmWait, order);
      }
  }

  /** Twin tables answer every sequence of requests and cleanups alike. */
  lemma {:induction false} TwinsServeAlike(cfg: Config, steps: seq<Step>, tables: seq<Table>, seen: seq<Seen>,
                                           u: Table)
    returns (twins: seq<Table>)
    requires Serves(cfg, steps, tables, seen) && Twin(tables[0], u) && HonestVerify(cfg)
    ensures Serves(cfg, steps, twins, seen) && twins[0] == u && Twin(tables[|steps|], twins[|steps|])
    decreases |steps|
  {
    if steps == [] {
      twins := [u];
    } else {
      var n := |steps| - 1;
      forall i | 0 <= i < n ensures ServesAt(cfg, steps[..n][i], tables[..n + 1][i], tables[..n + 1][i + 1],
                                             seen[..n][i]) {
        assert ServesAt(cfg, steps[i], tables[i], tables[i + 1], seen[i]);
      }
      var init := TwinsServeAlike(cfg, steps[..n], tables[..n + 1], seen[..n], u);
      assert ServesAt(cfg, steps[n], tables[n], tables[n + 1], seen[n]);
      TwinObserve(cfg, tables[n], init[n], steps[n]);
      twins := init + [Observe(cfg, init[n], steps[n]).0];
      forall i | 0 <= i < |steps| ensures ServesAt(cfg, steps[i], twins[i], twins[i + 1], seen[i]) {
        assert i < n ==> ServesAt(cfg, steps[..n][i], init[i], init[i + 1], seen[..n][i]);
      }
    }
  }

  /** Saving a server at any moment of any run, in any order, and restoring it
      within a minute of the clock into an empty server succeeds, and the restored
      server then shows exactly what the original would have shown. */
  lemma RestoredServerAnswersAlike(
      cfg: Config, past: seq<Step>, run: seq<World>, i: nat, horizon: int,
      signer: Bytes, order: seq<Key>, target: Table, now: int,
      steps: seq<Step>, tables: seq<Table>, seen: seq<Seen>) returns (twins: seq<Table>)
    requires HonestVerify(cfg) && cfg.caps.total >= 0
    requires Run(cfg, past, run) && i < |run|
    requires forall j :: 0 <= j < |past| ==> SoundStep(past[j], horizon)
    requires horizon <= now + MINUTE
    requires Enumerates(run[i].table.entries, order) && target.count == 0
    requires Serves(cfg, steps, tables, seen) && tables[0] == run[i].table
    ensures var r := Restore(cfg.caps, signer, target, Saved(1, signer, SaveAll(run[i].table.entries, order)), now);
            && AllSavable(run[i].table.entries)
            && r.Some? && Serves(cfg, steps, twins, seen) && twins[0] == r.value
               && Twin(tables[|steps|], twins[|steps|])
  {
    var t := run[i].table;
    CertificatesConserved(cfg, past, run, i);
    ReachableIsRecoverable(cfg, past, run, i, horizon);
    forall k | k in t.entries
      ensures Echoes(k.cred, t.entries[k].protectionAlg, t.entries[k].protectionParams) && Restorable(t.entries[k], now)
    {
      assert Recoverable(k, t.entries[k], horizon);
    }
    RestoreGivesTwin(cfg.caps, signer, t, order, target, now);
    var r := Restore(cfg.caps, signer, target, Saved(1, signer, SaveAll(t.entries, order)), now);
    twins := TwinsServeAlike(cfg, steps, tables, seen, r.value);
  }
}
