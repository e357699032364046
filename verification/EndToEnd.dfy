/**
  An honest client against an honest server (client/transport.go composed with
  server/response.go and server/confirm_poll.go): the CA makes the client wait some
  number of times, issues, and hears of one acceptance, while the server serves others.
 */
module EndToEnd {
  import opened Types
  import opened MacParams
  import opened Messages
  import opened Tracker
  import opened Server
  import opened ServerRuns
  import C = Client
  import CR = ClientRuns
  import Recovery

  // ---------------------------------------------------------------------------
  // When a client that waits as told is not too early
  // ---------------------------------------------------------------------------

  /** The server announces whole seconds but enforces the exact interval. The wait a
      client derives covers the interval exactly when the interval is below its own
      minimum, or no longer than its maximum and sub-second or whole. */
  lemma WaitSuffices(d: int, lo: int, hi: int)
    requires 0 <= lo <= hi
    ensures C.Clamp(CheckAfterSeconds(d), lo, hi) >= d <==>
            d <= lo || (d <= hi && (d <= SECOND || d % SECOND == 0))
  {
  }

  /** A client that is told to come back after one second, and does, is refused,
      because the CA asked for one and a half. */
  lemma EarlyPollIsRefused(cfg: Config, now: int)
    returns (t: Table, sender: Sender, poll: Message, first: Env, second: Env)
    requires !cfg.signerBroken
    ensures poll.body.PollReq?
    ensures var told := HandlePollReq(cfg, t, poll, sender, first);
            var again := poll.(header := poll.header.(recipNonce := told.reply.header.senderNonce));
            && told.reply.body == PollRep(Some([PollItem(0, 1)]))
            && second.now - first.now == C.Clamp(1, SECOND, 3600 * SECOND)
            && HandlePollReq(cfg, told.table, again, sender, second).reply.body == Error(Some(Refusal(BadRequest)))
  {
    sender := CertSender(Certificate([0x30], [1], UnknownAlgorithm));
    var key := Key(CredOf(sender), [7]);
    var wait := Handled(Some(WaitingResponse(SECOND + SECOND / 2, "ref")), None, None, []);
    t := Table(map[key := Updated(key, ToPending(RequestIR, "ref", [1], 0, None), now)], 1, map[key.cred := 1]);
    poll := Message(Header(PVNO2, [7], [9], [1], false, None), PollReq(Some([0])), []);
    first := Env(now, [2], [], [], [], [], wait);
    second := Env(now + SECOND, [3], [], [], [], [], wait);
    assert CheckAfterSeconds(SECOND + SECOND / 2) == 1;
  }

  // ---------------------------------------------------------------------------
  // The connection
  // ---------------------------------------------------------------------------

  /** A request of somebody else, or of the client for another transaction. */
  datatype Visit = Visit(msg: Message, env: Env)

  /** The server as the client finds it. It serves message `i` in `envs(i)`, and then
      `others(i)` before the next message. */
  datatype Host = Host(cfg: Config, envs: nat -> Env, start: Table, others: nat -> seq<Visit>)

  function Meanwhile(cfg: Config, t: Table, visits: seq<Visit>): (r: Table)
    requires IssuedHaveCerts(t)
    ensures IssuedHaveCerts(r)
  {
    if visits == [] then t
    else
      var before, last := Meanwhile(cfg, t, visits[..|visits| - 1]), visits[|visits| - 1];
      ProcessKeepsCerts(cfg, before, last.msg, last.env);
      Process(cfg, before, last.msg, last.env).table
  }

  /** The server's table after a sequence of messages and what came between them. */
  function After(h: Host, sent: seq<Message>): (r: Table)
    requires IssuedHaveCerts(h.start)
    ensures IssuedHaveCerts(r)
  {
    if sent == [] then h.start
    else
      var n := |sent| - 1;
      var before := After(h, sent[..n]);
      ProcessKeepsCerts(h.cfg, before, sent[n], h.envs(n));
      Meanwhile(h.cfg, Process(h.cfg, before, sent[n], h.envs(n)).table, h.others(n))
  }

  function LastOutcome(h: Host, sent: seq<Message>): Outcome
    requires IssuedHaveCerts(h.start) && |sent| > 0
  {
    var n := |sent| - 1;
    Process(h.cfg, After(h, sent[..n]), sent[n], h.envs(n))
  }

  /** All the CA was told on account of these messages. */
  function Told(h: Host, sent: seq<Message>): seq<Notice>
    requires IssuedHaveCerts(h.start)
  {
    if sent == [] then [] else Told(h, sent[..|sent| - 1]) + LastOutcome(h, sent).notices
  }

  lemma AfterSnoc(h: Host, sent: seq<Message>, m: Message)
    requires IssuedHaveCerts(h.start)
    ensures var o := Process(h.cfg, After(h, sent), m, h.envs(|sent|));
            && IssuedHaveCerts(o.table)
            && LastOutcome(h, sent + [m]) == o
            && After(h, sent + [m]) == Meanwhile(h.cfg, o.table, h.others(|sent|))
            && Told(h, sent + [m]) == Told(h, sent) + o.notices
  {
    assert (sent + [m])[..|sent|] == sent;
    ProcessKeepsCerts(h.cfg, After(h, sent), m, h.envs(|sent|));
  }

  /** The request is not about the transaction. */
  predicate StandsAside(cfg: Config, key: Key, v: Visit) {
    cfg.verify(v.msg).Verified? ==> KeyFor(v.msg, cfg.verify(v.msg).sender, v.env) != key
  }

  function Own(t: Table, key: Key): Option<Entry> {
    if key in t.entries then Some(t.entries[key]) else None
  }

  lemma {:induction false} MeanwhileKeeps(cfg: Config, t: Table, visits: seq<Visit>, key: Key)
    requires IssuedHaveCerts(t) && forall j :: 0 <= j < |visits| ==> StandsAside(cfg, key, visits[j])
    ensures Own(Meanwhile(cfg, t, visits), key) == Own(t, key)
  {
    if visits != [] {
      var init, last := visits[..|visits| - 1], visits[|visits| - 1];
      MeanwhileKeeps(cfg, t, init, key);
      assert StandsAside(cfg, key, last);
      ProcessShape(cfg, Meanwhile(cfg, t, init), last.msg, last.env);
    }
  }

  /** One enrollment: the CA says "waiting" `waits` times, then returns `cert`. */
  datatype Link = Link(
    c: C.Party,
    cfg: Config,
    // The client as the server identifies it. MAC parameters are those of each message.
    peer: Sender,
    start: Table,
    envs: nat -> Env,
    others: nat -> seq<Visit>,
    body: Body,
    waits: nat,
    cert: Certificate,
    issueRef: Option<Bytes>,
    caCerts: seq<Certificate>)

  function TxKey(l: Link): Key {
    Key(CredOf(l.peer), l.c.transactionID)
  }

  function HostOf(l: Link): Host {
    Host(l.cfg, l.envs, l.start, l.others)
  }

  ghost predicate Connected(l: Link)
    requires IssuedHaveCerts(l.start)
  {
    forall sent: seq<Message> :: |sent| > 0 ==>
      l.c.net(sent) == C.Reply(LastOutcome(HostOf(l), sent).reply, true)
  }

  // ---------------------------------------------------------------------------
  // The messages of the exchange
  // ---------------------------------------------------------------------------

  /** One certificate is asked for, and its confirmation can be computed. */
  predicate Asks(l: Link) {
    && l.body.CertReq?
    && (l.body.reqType != RequestP10CR ==> l.body.ids.Some? && |l.body.ids.value| == 1)
    && NewCertStatus(l.c.digest, l.cert, CertReqIDOf(l.body)).Some?
  }

  function Confirmation(l: Link): CertStatus
    requires Asks(l)
  {
    NewCertStatus(l.c.digest, l.cert, CertReqIDOf(l.body)).value
  }

  function Compose(l: Link, i: nat, body: Body, recipNonce: Bytes): Message {
    Message(Header(C.WireVersion(body), l.c.transactionID, l.c.nonces(i), recipNonce, false, l.c.algorithms(i)), body,
            [])
  }

  /** The message number `i` of the exchange: the request, the polls, the confirmation. */
  function Script(l: Link, i: nat): Message
    requires Asks(l)
  {
    if i == 0 then Compose(l, 0, l.body, [])
    else if i <= l.waits then Compose(l, i, PollReq(Some([CertReqIDOf(l.body)])), l.envs(i - 1).nonce)
    else Compose(l, i, CertConf(Some([Confirmation(l)])), l.envs(i - 1).nonce)
  }

  function Scripted(l: Link, n: nat): seq<Message>
    requires Asks(l)
  {
    seq(n, i requires 0 <= i < n => Script(l, i))
  }

  /** The sender of message number `i`, with the MAC parameters of that message. */
  function SenderAt(l: Link, i: nat): Sender {
    var alg := l.c.algorithms(i);
    if l.peer.MacSender? && alg.Some? && Captured(alg.value).Some? then l.peer.(params := Captured(alg.value).value)
    else l.peer
  }

  // ---------------------------------------------------------------------------
  // What makes the exchange honest
  // ---------------------------------------------------------------------------

  /** The server accepts message number `i` for what it is. */
  predicate AcceptsAt(l: Link, i: nat)
    requires Asks(l)
  {
    var m, sender := Script(l, i), SenderAt(l, i);
    && l.cfg.recipientMatches(m) && l.cfg.verify(m) == Verified(sender) && l.cfg.timely(m, l.envs(i).now)
    && (l.cfg.strictProfile ==> l.cfg.profileAccepts(m, sender) && |m.header.senderNonce| >= NONCE_LENGTH)
    && l.c.algorithms(i).Some? && (l.peer.MacSender? ==> Captured(l.c.algorithms(i).value).Some?)
  }

  ghost predicate ServerWilling(l: Link)
    requires Asks(l)
  {
    && !l.cfg.signerBroken && (l.cfg.hasSigner || (l.peer.MacSender? && |l.peer.secret| > 0))
    && (forall i :: 0 <= i <= l.waits + 1 ==> AcceptsAt(l, i))
  }

  /** The transaction is new and there is room for it. */
  predicate Room(l: Link) {
    && TxKey(l) !in l.start.entries && l.c.transactionID != []
    && l.start.count + 1 <= l.cfg.caps.total
    && CredCount(l.start, TxKey(l).cred) + 1 <= l.cfg.caps.perCredential
  }

  /** The client verifies the answer it gets to message number `i`, with what it knows by then. */
  ghost predicate VerifiesAt(l: Link, i: nat)
    requires Asks(l)
  {
    CR.VerifiedAs(l.c, Scripted(l, i + 1), i + 1).Some?
  }

  /** The client finds the certificate good, and verifies the answer to its confirmation. */
  ghost predicate ClientAccepts(l: Link)
    requires Asks(l) && VerifiesAt(l, l.waits)
  {
    var vr := CR.VerifiedAs(l.c, Scripted(l, l.waits + 1), l.waits + 1).value;
    var pool, answer := C.TrustPool(l.c, vr, l.caCerts), l.c.net(Scripted(l, l.waits + 2));
    && (pool.Some? ==> l.c.chains(l.cert, pool.value, l.caCerts))
    && (l.c.requestedKey.Some? ==> l.cert.key == l.c.requestedKey.value)
    && answer.Reply? && l.c.verify(answer.msg, pool, CR.ConfirmSigner(l.c, Scripted(l, l.waits + 1), vr)).Some?
  }

  ghost predicate ClientWilling(l: Link)
    requires Asks(l)
  {
    && (forall i :: 0 <= i <= l.waits ==> VerifiesAt(l, i))
    && ClientAccepts(l)
    && (forall n :: 0 <= n < l.waits ==> !l.c.interrupted(n))
    && 0 <= l.c.minCheckAfter <= l.c.maxCheckAfter
    && l.waits <= l.c.maxPolls
  }

  /** Both sides hash alike, and the new key does not sign the exchange. */
  ghost predicate CertificateFits(l: Link) {
    && ConfirmationIsUnderstood(l.cert)
    && (forall h :: l.c.digest(h, l.cert) == l.cfg.digest(h, l.cert))
    && !(l.peer.CertSender? && l.peer.cert.key == l.cert.key)
  }

  /** What the CA answers to request number `i`. */
  predicate CaWaits(l: Link, i: nat) {
    l.envs(i).handler.Handled? && l.envs(i).handler.waiting.Some?
  }

  function Interval(l: Link, i: nat): int
    requires CaWaits(l, i)
  {
    l.envs(i).handler.waiting.value.checkAfter
  }

  predicate CaIssues(l: Link, i: nat) {
    l.envs(i).handler == Handled(None, Some(l.cert), l.issueRef, l.caCerts)
  }

  /** The wait the client derives covers the interval, and the clock passes it. */
  predicate WaitsLongEnough(l: Link, i: nat)
    requires CaWaits(l, i)
  {
    var d := Interval(l, i);
    && (d <= l.c.minCheckAfter || (d <= l.c.maxCheckAfter && (d <= SECOND || d % SECOND == 0)))
    && FitsInt64(CheckAfterSeconds(d))
    && l.envs(i + 1).now - l.envs(i).now >= C.Clamp(CheckAfterSeconds(d), l.c.minCheckAfter, l.c.maxCheckAfter)
  }

  ghost predicate CaWilling(l: Link) {
    && (forall i :: 0 <= i < l.waits ==> CaWaits(l, i))
    && (forall i :: 1 <= i < l.waits ==> WaitsLongEnough(l, i))
    && CaIssues(l, l.waits)
    && l.envs(l.waits + 1).handler.Handled?
    && (forall i :: 0 <= i <= l.waits ==> l.envs(i).nonce != [])
    && (l.cfg.strictProfile ==>
          && l.c.nonces(l.waits + 1) != l.envs(l.waits).nonce
          && l.c.nonces(l.waits + 1) != l.c.nonces(l.waits))
  }

  /** What comes after message number `i` is not about the transaction. */
  ghost predicate AllAside(l: Link, i: nat) {
    forall j :: 0 <= j < |l.others(i)| ==> StandsAside(l.cfg, TxKey(l), l.others(i)[j])
  }

  ghost predicate OthersStandAside(l: Link) {
    forall i :: 0 <= i <= l.waits + 1 ==> AllAside(l, i)
  }

  /** Everything on the server's side. */
  ghost predicate Ready(l: Link) {
    IssuedHaveCerts(l.start) && Asks(l) && Room(l) && CertificateFits(l) && CaWilling(l) && ServerWilling(l)
        && OthersStandAside(l)
    && 0 <= l.c.minCheckAfter <= l.c.maxCheckAfter
  }

  ghost predicate Honest(l: Link) {
    Ready(l) && ClientWilling(l) && Connected(l)
  }

  // ---------------------------------------------------------------------------
  // The server's side of each exchange
  // ---------------------------------------------------------------------------

  /** The starting table with one more transaction. */
  function With(t: Table, key: Key, e: Entry): Table {
    AddCred(t, key.cred, 1).(entries := t.entries[key := e], count := t.count + 1)
  }

  lemma SenderHasKey(l: Link, i: nat)
    requires Asks(l)
    ensures Key(CredOf(SenderAt(l, i)), Script(l, i).header.transactionID) == TxKey(l)
  {
  }

  /** The reply to message number `i` can be protected, and a MAC is that of the
      request, or of the request for the certificate. */
  lemma RepliesProtected(l: Link, i: nat)
    requires Asks(l) && ServerWilling(l) && i <= l.waits + 1
    ensures ReplyAlg(l, i).Some?
    ensures if l.peer.MacSender? && |l.peer.secret| > 0
            then AcceptsAt(l, if i <= l.waits then i else l.waits)
              && Captured(ReplyAlg(l, i).value) == Captured(l.c.algorithms(if i <= l.waits then i else l.waits).value)
            else ReplyAlg(l, i) == Some(Signature([]))
  {
    var j := if i <= l.waits then i else l.waits;
    assert AcceptsAt(l, i) && AcceptsAt(l, j);
    if l.peer.MacSender? {
      VerifiedParametersEcho(l.c.algorithms(j).value, l.envs(i).salt);
    }
  }

  lemma FollowUpReachesHandler(l: Link, t: Table, i: nat)
    requires Asks(l) && ServerWilling(l) && l.c.transactionID != [] && IssuedHaveCerts(t) && 1 <= i <= l.waits + 1
    ensures Process(l.cfg, t, Script(l, i), l.envs(i)) == Dispatch(l.cfg, t, Script(l, i), SenderAt(l, i), l.envs(i))
  {
    assert AcceptsAt(l, i);
  }

  lemma RequestReachesHandler(l: Link)
    requires Asks(l) && ServerWilling(l) && Room(l) && IssuedHaveCerts(l.start)
    ensures var t := With(l.start, TxKey(l), NewEntry(Active, TxKey(l).cred, l.envs(0).now));
            && IssuedHaveCerts(t)
            && Process(l.cfg, l.start, Script(l, 0), l.envs(0))
               == HandleCertRequest(l.cfg, t, Script(l, 0), SenderAt(l, 0), l.envs(0))
  {
    assert AcceptsAt(l, 0);
    SenderHasKey(l, 0);
  }

  /** The entry of a transaction that waits, after the answer in `envs(i)`. */
  function PendingEntry(l: Link, i: nat): Entry
    requires l.body.CertReq? && CaWaits(l, i)
  {
    var w := l.envs(i).handler.waiting.value;
    Updated(TxKey(l), ToPending(l.body.reqType, w.pollRef, l.envs(i).nonce, w.checkAfter,
                                if i == 0 then None else Some(l.envs(i).now)), l.envs(i).now)
  }

  /** The entry once the certificate was sent in answer to message number `waits`. */
  function IssuedEntry(l: Link): Entry
    requires Asks(l)
  {
    var n := l.waits;
    Updated(TxKey(l), ToIssued(l.body.reqType, CertReqIDOf(l.body), l.cert, l.issueRef, l.envs(n).nonce, l.c.nonces(n),
                               ParamsOf(SenderAt(l, n)), l.c.algorithms(n)), l.envs(n).now)
  }

  /** The algorithm that protects reply number `i`: that of a MAC request is echoed. */
  function ReplyAlg(l: Link, i: nat): Option<ProtectionAlg> {
    var p := ProtectionFor(l.cfg, Some(SenderAt(l, i)), if i <= l.waits then None else ParamsOf(SenderAt(l, l.waits)),
                           l.envs(i).salt);
    if p.None? then None else p.value
  }

  /** The header every reply has. */
  predicate RepliesTo(l: Link, i: nat, reply: Message)
    requires Asks(l)
  {
    var m := Script(l, i);
    && reply.header.pvno == m.header.pvno
    && reply.header.transactionID == m.header.transactionID
    && reply.header.senderNonce == l.envs(i).nonce
    && reply.header.recipNonce == m.header.senderNonce
    && reply.header.protectionAlg.Some?
    && reply.extraCerts == []
  }

  function Rep(l: Link, status: Status, cert: Option<Certificate>, caPubs: seq<Certificate>): Body
    requires l.body.CertReq?
  {
    CertRep(RepKindOf(l.body.reqType), Some([CertResponse(CertReqIDOf(l.body), StatusInfo(status, {}), cert)]), caPubs)
  }

  function EntryAt(l: Link, i: nat): Entry
    requires Asks(l) && CaWilling(l) && i <= l.waits
  {
    if i < l.waits then PendingEntry(l, i) else IssuedEntry(l)
  }

  /** What the reply number `i` says. */
  function BodyAt(l: Link, i: nat): Body
    requires Asks(l) && CaWilling(l) && i <= l.waits + 1
  {
    if i > l.waits then PkiConf
    else if i == l.waits then Rep(l, Accepted, Some(l.cert), l.caCerts)
    else if i == 0 then Rep(l, Waiting, None, [])
    else PollRep(Some([PollItem(CertReqIDOf(l.body), CheckAfterSeconds(Interval(l, i)))]))
  }

  /** The counters and transactions of `t` are those of `start`. */
  ghost predicate BackAt(start: Table, t: Table) {
    t.entries == start.entries && t.count == start.count && forall c :: CredCount(t, c) == CredCount(start, c)
  }

  function AcceptNotices(l: Link): seq<Notice> {
    if l.cfg.hasConfirmer then [Notice(l.cert, ConfirmAccepted, l.issueRef)] else []
  }

  /** The table without the transaction. */
  function Rest(l: Link, t: Table): Table {
    Delete(t, TxKey(l))
  }

  /** The message leaves the transaction like this, and everything else as it was. */
  ghost predicate Leaves(l: Link, t: Table, t': Table, own: Option<Entry>) {
    Own(t', TxKey(l)) == own && BackAt(Rest(l, t), Rest(l, t'))
  }

  /** What the server does with message number `i` in a table. */
  ghost predicate Serves(l: Link, i: nat, t: Table, o: Outcome)
    requires Asks(l) && CaWilling(l) && i <= l.waits + 1
  {
    && RepliesTo(l, i, o.reply) && o.reply.body == BodyAt(l, i) && o.reply.header.protectionAlg == ReplyAlg(l, i)
    && o.notices == (if i > l.waits then AcceptNotices(l) else [])
    && Leaves(l, t, o.table, if i > l.waits then None else Some(EntryAt(l, i)))
  }

  /** The transaction is open. */
  predicate IsOpen(l: Link, t: Table) {
    TxKey(l) in t.entries && Open(t.entries[TxKey(l)]) && t.entries[TxKey(l)].cred == TxKey(l).cred
  }

  lemma ReplaceLeaves(l: Link, t: Table, f: Entry)
    requires TxKey(l) in t.entries && t.entries[TxKey(l)].cred == f.cred
    ensures Leaves(l, t, t.(entries := t.entries[TxKey(l) := f]), Some(f))
  {
    assert t.entries[TxKey(l) := f] - {TxKey(l)} == t.entries - {TxKey(l)};
  }

  lemma PostponeServes(l: Link, t: Table, i: nat, reply: Message)
    requires Ready(l) && IsOpen(l, t) && i < l.waits && CaWaits(l, i) && RepliesTo(l, i, reply)
             && reply.body == BodyAt(l, i)
    requires reply.header.protectionAlg == ReplyAlg(l, i)
    ensures Serves(l, i, t, Postpone(l.cfg, t, Script(l, i), SenderAt(l, i), reply, l.body.reqType,
                                     l.envs(i).handler.waiting.value,
                                     if i == 0 then None else Some(l.envs(i).now), l.envs(i)))
  {
    SenderHasKey(l, i);
    ReplaceLeaves(l, t, PendingEntry(l, i));
  }

  lemma DeliverServes(l: Link, t: Table)
    requires Ready(l) && IsOpen(l, t)
    ensures Serves(l, l.waits, t, Deliver(l.cfg, t, Script(l, l.waits), SenderAt(l, l.waits), l.body.reqType,
                                          CertReqIDOf(l.body), l.envs(l.waits).handler, l.envs(l.waits)))
  {
    SenderHasKey(l, l.waits);
    RepliesProtected(l, l.waits);
    ReplaceLeaves(l, t, IssuedEntry(l));
  }

  lemma DeleteUndoesWith(t: Table, key: Key, e: Entry)
    requires key !in t.entries && e.cred == key.cred
    ensures BackAt(t, Delete(With(t, key, e), key))
  {
    assert t.entries[key := e] - {key} == t.entries;
  }

  lemma StartedServes(l: Link, e: Entry, o: Outcome)
    requires Ready(l) && e.cred == TxKey(l).cred && Serves(l, 0, With(l.start, TxKey(l), e), o)
    ensures Serves(l, 0, l.start, o)
  {
    DeleteUndoesWith(l.start, TxKey(l), e);
  }

  lemma ServesRequest(l: Link)
    requires Ready(l)
    ensures Serves(l, 0, l.start, Process(l.cfg, l.start, Script(l, 0), l.envs(0)))
  {
    var e := NewEntry(Active, TxKey(l).cred, l.envs(0).now);
    var t := With(l.start, TxKey(l), e);
    RequestReachesHandler(l);
    SenderHasKey(l, 0);
    if l.waits > 0 {
      assert CaWaits(l, 0);
      RepliesProtected(l, 0);
      PostponeServes(l, t, 0, CertReply(l.cfg, Script(l, 0), CertReqIDOf(l.body), StatusInfo(Waiting, {}), None, [],
                                        SenderAt(l, 0), l.body.reqType, l.envs(0)));
    } else {
      DeliverServes(l, t);
    }
    StartedServes(l, e, Process(l.cfg, l.start, Script(l, 0), l.envs(0)));
  }

  lemma PollIsAdmitted(l: Link, i: nat)
    requires Ready(l) && 1 <= i <= l.waits
    ensures CaWaits(l, i - 1) && PollObjection(Script(l, i), PendingEntry(l, i - 1), l.envs(i).now).None?
  {
    assert CaWaits(l, i - 1) && l.envs(i - 1).nonce != [];
    if i > 1 {
      assert WaitsLongEnough(l, i - 1);
      WaitSuffices(Interval(l, i - 1), l.c.minCheckAfter, l.c.maxCheckAfter);
    }
  }

  lemma PollIsAnswered(l: Link, t: Table, i: nat)
    requires Ready(l) && 1 <= i <= l.waits && IssuedHaveCerts(t) && Own(t, TxKey(l)) == Some(EntryAt(l, i - 1))
    ensures Process(l.cfg, t, Script(l, i), l.envs(i))
         == AnswerPoll(l.cfg, t, Script(l, i), SenderAt(l, i), l.body.reqType, CertReqIDOf(l.body), l.envs(i))
  {
    FollowUpReachesHandler(l, t, i);
    SenderHasKey(l, i);
    PollIsAdmitted(l, i);
  }

  lemma AnswerServes(l: Link, t: Table, i: nat)
    requires Ready(l) && 1 <= i <= l.waits && Own(t, TxKey(l)) == Some(EntryAt(l, i - 1))
    ensures Serves(l, i, t, AnswerPoll(l.cfg, t, Script(l, i), SenderAt(l, i), l.body.reqType, CertReqIDOf(l.body),
                                       l.envs(i)))
  {
    assert CaWaits(l, i - 1);
    if i < l.waits {
      assert CaWaits(l, i);
      RepliesProtected(l, i);
      PostponeServes(l, t, i, Respond(l.cfg, Script(l, i), BodyAt(l, i), Some(SenderAt(l, i)), false, None,
                                      l.envs(i).nonce, l.envs(i).salt));
    } else {
      DeliverServes(l, t);
    }
  }

  lemma ServesPoll(l: Link, t: Table, i: nat)
    requires Ready(l) && 1 <= i <= l.waits && IssuedHaveCerts(t) && Own(t, TxKey(l)) == Some(EntryAt(l, i - 1))
    ensures Serves(l, i, t, Process(l.cfg, t, Script(l, i), l.envs(i)))
  {
    PollIsAnswered(l, t, i);
    AnswerServes(l, t, i);
  }

  // ---------------------------------------------------------------------------
  // The confirmation
  // ---------------------------------------------------------------------------

  lemma ConfirmationPasses(l: Link, e: Entry)
    requires Asks(l) && CertificateFits(l) && e.cert == Some(l.cert) && e.certReqID == Some(CertReqIDOf(l.body))
    ensures CheckCertStatuses(l.cfg, [Confirmation(l)], e).None?
    ensures !SomeContradicts([Confirmation(l)]) && ConfAccepts([Confirmation(l)])
  {
    var cs := Confirmation(l);
    assert NewCertStatus(l.cfg.digest, l.cert, CertReqIDOf(l.body)) == Some(cs);
    ConfirmationHashAgrees(l.cfg.digest, l.cert, CertReqIDOf(l.body));
    assert CheckCertStatus(l.cfg, cs, cs, e).None?;
    assert FirstObjection(l.cfg, [cs], e, 1).None?;
  }

  lemma NoObjection(l: Link, m: Message)
    requires Ready(l) && m == Script(l, l.waits + 1)
             && CheckCertStatuses(l.cfg, [Confirmation(l)], IssuedEntry(l)).None?
    ensures ConfObjection(l.cfg, m, [Confirmation(l)], SenderAt(l, l.waits + 1), IssuedEntry(l)).None?
  {
    assert l.envs(l.waits).nonce != [];
  }

  lemma ConfirmationIsAdmitted(l: Link)
    requires Ready(l)
    ensures var n := l.waits + 1;
            && Script(l, n).body == CertConf(Some([Confirmation(l)])) && !SomeContradicts([Confirmation(l)])
            && ConfAccepts([Confirmation(l)])
            && IssuedEntry(l).cert == Some(l.cert)
            && ConfObjection(l.cfg, Script(l, n), [Confirmation(l)], SenderAt(l, n), IssuedEntry(l)).None?
  {
    ConfirmationPasses(l, IssuedEntry(l));
    NoObjection(l, Script(l, l.waits + 1));
  }

  lemma ConfirmationReachesCa(l: Link, t: Table)
    requires Ready(l) && IssuedHaveCerts(t) && TxKey(l) in t.entries && t.entries[TxKey(l)] == IssuedEntry(l)
    ensures Dispatch(l.cfg, t, Script(l, l.waits + 1), SenderAt(l, l.waits + 1), l.envs(l.waits + 1))
         == Confirm(l.cfg, t, TxKey(l), Script(l, l.waits + 1), true, SenderAt(l, l.waits + 1), l.envs(l.waits + 1))
  {
    SenderHasKey(l, l.waits + 1);
    ConfirmationIsAdmitted(l);
    AdmittedIsConfirmed(l.cfg, t, Script(l, l.waits + 1), SenderAt(l, l.waits + 1), l.envs(l.waits + 1),
                        [Confirmation(l)]);
  }

  lemma AdmittedIsConfirmed(cfg: Config, t: Table, msg: Message, sender: Sender, env: Env, statuses: seq<CertStatus>)
    requires IssuedHaveCerts(t) && msg.body == CertConf(Some(statuses)) && !SomeContradicts(statuses)
    requires var key := Key(CredOf(sender), msg.header.transactionID);
             && key in t.entries && t.entries[key].state == Issued
             && ConfObjection(cfg, msg, statuses, sender, t.entries[key]).None?
    ensures Dispatch(cfg, t, msg, sender, env)
         == Confirm(cfg, t, Key(CredOf(sender), msg.header.transactionID), msg, ConfAccepts(statuses), sender, env)
  {
  }

  lemma ConfirmAnswers(l: Link, t: Table, i: nat)
    requires Asks(l) && Own(t, TxKey(l)) == Some(IssuedEntry(l)) && l.envs(i).handler.Handled?
    requires i == l.waits + 1 && ReplyAlg(l, i).Some?
    ensures var o := Confirm(l.cfg, t, TxKey(l), Script(l, i), true, SenderAt(l, i), l.envs(i));
            && RepliesTo(l, i, o.reply) && o.reply.body == PkiConf && o.notices == AcceptNotices(l)
            && o.reply.header.protectionAlg == ReplyAlg(l, i)
            && o.table == Delete(t, TxKey(l))
  {
  }

  lemma ConfirmServes(l: Link, t: Table, o: Outcome)
    requires Asks(l) && CaWilling(l) && ReplyAlg(l, l.waits + 1).Some? && Own(t, TxKey(l)) == Some(IssuedEntry(l))
    requires o == Confirm(l.cfg, t, TxKey(l), Script(l, l.waits + 1), true, SenderAt(l, l.waits + 1),
                          l.envs(l.waits + 1))
    ensures Serves(l, l.waits + 1, t, o)
  {
    ConfirmAnswers(l, t, l.waits + 1);
  }

  lemma ConfirmationIsProcessed(l: Link, t: Table) returns (o: Outcome)
    requires Ready(l) && IssuedHaveCerts(t) && TxKey(l) in t.entries && t.entries[TxKey(l)] == IssuedEntry(l)
    ensures o == Process(l.cfg, t, Script(l, l.waits + 1), l.envs(l.waits + 1))
    ensures o == Confirm(l.cfg, t, TxKey(l), Script(l, l.waits + 1), true, SenderAt(l, l.waits + 1),
                         l.envs(l.waits + 1))
  {
    FollowUpReachesHandler(l, t, l.waits + 1);
    o := Dispatch(l.cfg, t, Script(l, l.waits + 1), SenderAt(l, l.waits + 1), l.envs(l.waits + 1));
    ConfirmationReachesCa(l, t);
  }

  lemma ServesConfirmation(l: Link, t: Table) returns (o: Outcome)
    requires Ready(l) && IssuedHaveCerts(t) && Own(t, TxKey(l)) == Some(EntryAt(l, l.waits))
    ensures o == Process(l.cfg, t, Script(l, l.waits + 1), l.envs(l.waits + 1))
    ensures Serves(l, l.waits + 1, t, o)
  {
    o := ConfirmationIsProcessed(l, t);
    RepliesProtected(l, l.waits + 1);
    ConfirmServes(l, t, o);
  }

  // ---------------------------------------------------------------------------
  // The server through the whole exchange
  // ---------------------------------------------------------------------------

  lemma ScriptedSnoc(l: Link, n: nat)
    requires Asks(l)
    ensures Scripted(l, n + 1) == Scripted(l, n) + [Script(l, n)]
  {
  }

  /** The server has served the script up to number `i`, and told the CA nothing
      on its account before its end. */
  ghost predicate Served(l: Link, i: nat)
    requires Ready(l) && i <= l.waits + 1
  {
    && Serves(l, i, After(HostOf(l), Scripted(l, i)), LastOutcome(HostOf(l), Scripted(l, i + 1)))
    && Told(HostOf(l), Scripted(l, i + 1)) == if i > l.waits then AcceptNotices(l) else []
  }

  /** Nobody else touches the transaction before the next message. */
  lemma OwnAfter(l: Link, i: nat)
    requires Ready(l) && i <= l.waits + 1 && Served(l, i)
    ensures Own(After(HostOf(l), Scripted(l, i + 1)), TxKey(l)) == if i > l.waits then None else Some(EntryAt(l, i))
  {
    var t := After(HostOf(l), Scripted(l, i));
    ScriptedSnoc(l, i);
    AfterSnoc(HostOf(l), Scripted(l, i), Script(l, i));
    assert AllAside(l, i);
    MeanwhileKeeps(l.cfg, Process(l.cfg, t, Script(l, i), l.envs(i)).table, l.others(i), TxKey(l));
  }

  /** One more message of the script. */
  lemma ServedOneMore(l: Link, i: nat, o: Outcome)
    requires Ready(l) && i <= l.waits + 1 && Serves(l, i, After(HostOf(l), Scripted(l, i)), o)
    requires o == Process(l.cfg, After(HostOf(l), Scripted(l, i)), Script(l, i), l.envs(i))
    requires Told(HostOf(l), Scripted(l, i)) == []
    ensures Served(l, i)
  {
    ScriptedSnoc(l, i);
    AfterSnoc(HostOf(l), Scripted(l, i), Script(l, i));
  }

  lemma RequestServed(l: Link)
    requires Ready(l)
    ensures Served(l, 0)
  {
    ServesRequest(l);
    ServedOneMore(l, 0, Process(l.cfg, l.start, Script(l, 0), l.envs(0)));
  }

  lemma PollServed(l: Link, i: nat)
    requires Ready(l) && 1 <= i <= l.waits && Served(l, i - 1)
    ensures Served(l, i)
  {
    OwnAfter(l, i - 1);
    var t := After(HostOf(l), Scripted(l, i));
    ServesPoll(l, t, i);
    ServedOneMore(l, i, Process(l.cfg, t, Script(l, i), l.envs(i)));
  }

  /** The certificate was sent and nobody has confirmed it. */
  ghost predicate AwaitsConfirmation(l: Link, i: nat)
    requires Ready(l) && i == l.waits + 1
  {
    var t := After(HostOf(l), Scripted(l, i));
    IssuedHaveCerts(t) && Own(t, TxKey(l)) == Some(EntryAt(l, l.waits)) && Told(HostOf(l), Scripted(l, i)) == []
  }

  lemma ConfirmationIsDue(l: Link, k: nat, i: nat)
    requires Ready(l) && k == l.waits && i == k + 1 && Served(l, k)
    ensures AwaitsConfirmation(l, i)
  {
    OwnAfter(l, k);
  }

  lemma ConfirmationServed(l: Link, i: nat)
    requires Ready(l) && i == l.waits + 1 && AwaitsConfirmation(l, i)
    ensures Served(l, i)
  {
    var o := ServesConfirmation(l, After(HostOf(l), Scripted(l, i)));
    ServedOneMore(l, i, o);
  }

  lemma {:induction false} ServerFollowsScript(l: Link, i: nat)
    requires Ready(l) && i <= l.waits + 1
    ensures Served(l, i)
  {
    if i == 0 {
      RequestServed(l);
    } else {
      ServerFollowsScript(l, i - 1);
      if i <= l.waits {
        PollServed(l, i);
      } else {
        ConfirmationIsDue(l, i - 1, i);
        ConfirmationServed(l, i);
      }
    }
  }

  /** Without others, the table is the starting one but for the transaction. */
  lemma {:induction false} AloneBackAt(l: Link, i: nat)
    requires Ready(l) && i <= l.waits + 1 && forall n: nat :: l.others(n) == []
    ensures BackAt(l.start, Rest(l, After(HostOf(l), Scripted(l, i + 1))))
  {
    if i > 0 {
      AloneBackAt(l, i - 1);
    }
    ServerFollowsScript(l, i);
    ScriptedSnoc(l, i);
    AfterSnoc(HostOf(l), Scripted(l, i), Script(l, i));
  }

  // ---------------------------------------------------------------------------
  // The client through the whole exchange
  // ---------------------------------------------------------------------------

  /** The network answers message number `i` of the script as the server does. */
  ghost predicate Answered(l: Link, i: nat)
    requires Asks(l) && CaWilling(l) && i <= l.waits + 1
  {
    var answer := l.c.net(Scripted(l, i + 1));
    answer.Reply? && answer.http200 && RepliesTo(l, i, answer.msg) && answer.msg.body == BodyAt(l, i)
  }

  lemma NetworkAnswers(l: Link, i: nat)
    requires Ready(l) && Connected(l) && i <= l.waits + 1
    ensures Answered(l, i)
  {
    ServerFollowsScript(l, i);
    assert |Scripted(l, i + 1)| > 0;
  }

  /** All the client needs. */
  ghost predicate ClientSide(l: Link) {
    && Asks(l) && CaWilling(l) && ClientWilling(l)
    && (forall i :: 0 <= i <= l.waits + 1 ==> Answered(l, i))
    && (forall i :: 0 <= i <= l.waits + 1 ==> l.c.algorithms(i).Some?)
  }

  /** The client composes the script, given the replies so far. */
  lemma ComposesScript(l: Link, i: nat, body: Body, recipNonce: Bytes)
    requires Asks(l) && l.c.algorithms(i).Some? && Script(l, i) == Compose(l, i, body, recipNonce)
    ensures C.Compose(l.c, Scripted(l, i), body, recipNonce) == Some(Script(l, i))
    ensures Scripted(l, i) + [Script(l, i)] == Scripted(l, i + 1)
  {
  }

  /** The client verifies the answer to message number `i` with the signer it knows. */
  lemma AnswerVerifies(l: Link, i: nat, known: Option<Certificate>, alternative: Option<Bytes>)
    requires ClientSide(l) && i <= l.waits && known == CR.KnownSigner(l.c, Scripted(l, i), i + 1)
    ensures l.c.net(Scripted(l, i + 1)).Reply?
    ensures var reply, vr := l.c.net(Scripted(l, i + 1)).msg, CR.VerifiedAs(l.c, Scripted(l, i + 1), i + 1);
            && C.Verify(l.c, Script(l, i), reply, l.c.trustedCAs, known, alternative) == vr && vr.Some?
            && C.SupportedVersion(reply)
            && CR.KnownSigner(l.c, Scripted(l, i + 1), i + 2) == C.Newest(vr.value, known)
  {
    assert VerifiesAt(l, i) && Answered(l, i);
    ScriptedSnoc(l, i);
    CR.KnownFromPrefix(l.c, Scripted(l, i), Script(l, i), i + 1);
    assert Scripted(l, i + 1)[..i + 1] == Scripted(l, i + 1);
  }

  lemma PollStep(l: Link, i: nat, known: Option<Certificate>)
    requires ClientSide(l) && 1 <= i <= l.waits && known == CR.KnownSigner(l.c, Scripted(l, i), i + 1)
    ensures var step := C.Judge(l.c, Script(l, 0), Script(l, i), l.c.net(Scripted(l, i + 1)), known);
            if i < l.waits
            then step.Again? && l.c.net(Scripted(l, i + 1)) == C.Reply(step.reply, true)
                 && step.known == CR.KnownSigner(l.c, Scripted(l, i + 1), i + 2)
            else step.Final? && l.c.net(Scripted(l, i + 1)) == C.Reply(step.reply, true)
                 && CR.VerifiedAs(l.c, Scripted(l, i + 1), i + 1) == Some(step.vr)
  {
    assert Answered(l, i);
    if i < l.waits {
      assert CaWaits(l, i) && WaitsLongEnough(l, i);
      AnswerVerifies(l, i, known, Some([]));
    } else {
      AnswerVerifies(l, i, known, Some(Script(l, 0).header.senderNonce));
    }
  }

  /** What a poll run through the script comes to. */
  ghost predicate Polled(l: Link, run: C.PollRun)
    requires Asks(l)
  {
    && run.sent == Scripted(l, l.waits + 1) && run.result.Polled?
    && l.c.net(run.sent) == C.Reply(run.result.reply, true)
    && CR.VerifiedAs(l.c, run.sent, l.waits + 1) == Some(run.result.vr)
  }

  lemma {:induction false} ClientPollsScript(l: Link, i: nat, waits: seq<int>, last: Message,
                                             known: Option<Certificate>, wait: int)
    returns (run: C.PollRun)
    requires ClientSide(l) && i < l.waits && l.c.net(Scripted(l, i + 1)) == C.Reply(last, true)
    requires known == CR.KnownSigner(l.c, Scripted(l, i + 1), i + 2)
    ensures run == C.PollFrom(l.c, Script(l, 0), CertReqIDOf(l.body), last, known, wait, i, Scripted(l, i + 1), waits)
    ensures Polled(l, run)
    decreases l.waits - i
  {
    var id, waits' := CertReqIDOf(l.body), if i > 0 then waits + [wait] else waits;
    assert !l.c.interrupted(i) && Answered(l, i);
    ComposesScript(l, i + 1, PollReq(Some([id])), last.header.senderNonce);
    CR.PollFromStep(l.c, Script(l, 0), id, last, known, wait, i, Scripted(l, i + 1), waits, Script(l, i + 1));
    PollStep(l, i + 1, known);
    var step := C.Judge(l.c, Script(l, 0), Script(l, i + 1), l.c.net(Scripted(l, i + 2)), known);
    if i + 1 < l.waits {
      run := ClientPollsScript(l, i + 1, waits', step.reply, step.known, step.wait);
    } else {
      run := C.PollRun(Scripted(l, i + 2), waits', C.Polled(step.reply, step.http200, step.vr));
    }
  }

  lemma ConfirmationIsConfirmed(l: Link, vr: C.VerifyResult)
    requires ClientSide(l) && CR.VerifiedAs(l.c, Scripted(l, l.waits + 1), l.waits + 1) == Some(vr)
    ensures C.ConfirmedBy(l.c, Script(l, l.waits + 1), l.c.net(Scripted(l, l.waits + 2)),
                          C.TrustPool(l.c, vr, l.caCerts),
                          CR.ConfirmSigner(l.c, Scripted(l, l.waits + 1), vr))
  {
    assert Answered(l, l.waits + 1) && ClientAccepts(l);
  }

  lemma ClientConfirms(l: Link, ids: seq<int>, reply: Message, vr: C.VerifyResult, waits: seq<int>)
    requires ClientSide(l) && CertReqIDOf(l.body) in ids && l.c.net(Scripted(l, l.waits + 1)) == C.Reply(reply, true)
    requires CR.VerifiedAs(l.c, Scripted(l, l.waits + 1), l.waits + 1) == Some(vr)
    ensures var s := C.Conclude(l.c, ids, C.ExpectedKind(l.body.reqType), reply, vr,
                                CR.ConfirmSigner(l.c, Scripted(l, l.waits + 1), vr), Scripted(l, l.waits + 1), waits);
            s.sent == Scripted(l, l.waits + 2) && s.ending == C.Enrolled(l.cert, l.caCerts, [])
  {
    assert Answered(l, l.waits) && ClientAccepts(l) && [] + l.caCerts == l.caCerts;
    var pool := C.TrustPool(l.c, vr, l.caCerts);
    var cr := CertResponse(CertReqIDOf(l.body), StatusInfo(Accepted, {}), Some(l.cert));
    assert C.SingleResponse(reply, C.ExpectedKind(l.body.reqType)) == Some(cr);
    assert C.CertificateOk(l.c, ids, reply, cr, pool);
    ComposesScript(l, l.waits + 1, CertConf(Some([Confirmation(l)])), reply.header.senderNonce);
    ConfirmationIsConfirmed(l, vr);
  }

  lemma FirstAnswer(l: Link)
    requires ClientSide(l)
    ensures var req := Script(l, 0);
            && C.Compose(l.c, [], l.body, []) == Some(req) && l.c.net([req]).Reply? && l.c.net([req]).http200
            && var reply, vr := l.c.net([req]).msg, CR.VerifiedAs(l.c, [req], 1);
               && RepliesTo(l, 0, reply) && reply.body == BodyAt(l, 0)
               && vr.Some? && C.Verify(l.c, req, reply, l.c.trustedCAs, None, None) == vr && C.SupportedVersion(reply)
               && CR.KnownSigner(l.c, [req], 2) == vr.value.signer
  {
    assert Scripted(l, 0) == [] && Scripted(l, 1) == [Script(l, 0)] && Answered(l, 0);
    ComposesScript(l, 0, l.body, []);
    AnswerVerifies(l, 0, None, None);
  }

  lemma SameFirst(l: Link, vr: C.VerifyResult)
    requires Asks(l)
    ensures CR.ConfirmSigner(l.c, Scripted(l, l.waits + 1), vr)
         == (var first := CR.VerifiedAs(l.c, [Script(l, 0)], 1);
             if first.None? then None else C.Newest(vr, first.value.signer))
  {
    assert Scripted(l, l.waits + 1)[..1] == [Script(l, 0)] == [Script(l, 0)][..1];
  }

  ghost predicate EndsWell(l: Link, s: C.Session)
    requires Asks(l)
  {
    s.sent == Scripted(l, l.waits + 2) && s.ending == C.Enrolled(l.cert, l.caCerts, [])
  }

  lemma PollsEndWell(l: Link, ids: seq<int>, reply: Message, vr: C.VerifyResult)
    requires ClientSide(l) && CertReqIDOf(l.body) in ids && l.waits > 0
             && l.c.net([Script(l, 0)]) == C.Reply(reply, true)
    requires CR.VerifiedAs(l.c, [Script(l, 0)], 1) == Some(vr) && CR.KnownSigner(l.c, [Script(l, 0)], 2) == vr.signer
    ensures EndsWell(l, C.AfterPolls(l.c, ids, C.ExpectedKind(l.body.reqType), vr.signer,
                                     C.PollFrom(l.c, Script(l, 0), CertReqIDOf(l.body), reply, vr.signer, 0, 0,
                                                [Script(l, 0)], [])))
  {
    assert Scripted(l, 1) == [Script(l, 0)];
    var run := ClientPollsScript(l, 0, [], reply, vr.signer, 0);
    SameFirst(l, run.result.vr);
    ClientConfirms(l, ids, run.result.reply, run.result.vr, run.waits);
  }

  lemma ClientFollowsScript(l: Link)
    requires ClientSide(l)
    ensures EndsWell(l, C.Enroll(l.c, l.body))
  {
    FirstAnswer(l);
    var req, ids := Script(l, 0), C.AnsweringIDs(l.body).value;
    var reply, vr := l.c.net([req]).msg, CR.VerifiedAs(l.c, [req], 1).value;
    assert C.Enroll(l.c, l.body) == C.AfterFirst(l.c, ids, C.ExpectedKind(l.body.reqType), req, reply, true);
    if l.waits > 0 {
      PollsEndWell(l, ids, reply, vr);
    } else {
      assert Scripted(l, 1) == [req];
      SameFirst(l, vr);
      ClientConfirms(l, ids, reply, vr, []);
    }
  }

  /** Message number `i` changes nothing but the transaction. */
  ghost predicate TouchesNothingElse(l: Link, i: nat)
    requires Ready(l) && i <= l.waits + 1
  {
    BackAt(Rest(l, After(HostOf(l), Scripted(l, i))), Rest(l, LastOutcome(HostOf(l), Scripted(l, i + 1)).table))
  }

  /** An honest client against an honest server returns the certificate, whatever
      other requests the server serves in between. On account of the exchange the CA is
      told of exactly one acceptance and of nothing else, no message touches anything
      but the transaction, and the transaction is gone. Without others, the table and
      its counters are back where they started. */
  lemma HonestEnrollmentSucceeds(l: Link)
    requires Honest(l)
    ensures var s := C.Enroll(l.c, l.body);
            && s.ending == C.Enrolled(l.cert, l.caCerts, [])
            && s.sent == Scripted(l, l.waits + 2)
            && Told(HostOf(l), s.sent) == AcceptNotices(l)
            && TxKey(l) !in After(HostOf(l), s.sent).entries
            && ((forall n: nat :: l.others(n) == []) ==> BackAt(l.start, After(HostOf(l), s.sent)))
    ensures forall i :: 0 <= i <= l.waits + 1 ==> TouchesNothingElse(l, i)
  {
    forall i | 0 <= i <= l.waits + 1 ensures Answered(l, i) && l.c.algorithms(i).Some? && TouchesNothingElse(l, i) {
      NetworkAnswers(l, i);
      ServerFollowsScript(l, i);
      assert AcceptsAt(l, i);
    }
    ClientFollowsScript(l);
    ServerFollowsScript(l, l.waits + 1);
    OwnAfter(l, l.waits + 1);
    if forall n: nat :: l.others(n) == [] {
      AloneBackAt(l, l.waits + 1);
    }
  }

  // ---------------------------------------------------------------------------
  // Such exchanges exist, with a certificate and with a shared secret
  // ---------------------------------------------------------------------------

  const CLIENT_CERT := Certificate([0x30], [1], Classic(SHA256))
  const NEW_CERT := Certificate([0x30, 0], [2], Classic(SHA256))
  const MAC_ALG := Pbmac1(OID_PBKDF2, [1], 1000, 32, Some(OID_HMAC_SHA256), OID_HMAC_SHA256)
  const MAC_PARAMS := CapturedPbmac1(1000, 32, OID_HMAC_SHA256, OID_HMAC_SHA256)

  function WitnessAlg(mac: bool): ProtectionAlg {
    if mac then MAC_ALG else Signature([])
  }

  predicate WitnessVerifies(mac: bool, m: Message) {
    && m.header.protectionAlg.Some?
    && if mac then Captured(m.header.protectionAlg.value) == Some(MAC_PARAMS)
       else m.header.protectionAlg == Some(Signature([]))
  }

  function WitnessPeer(mac: bool): Sender {
    if mac then MacSender([1], [2], [3], MAC_PARAMS) else CertSender(CLIENT_CERT)
  }

  /** A server that verifies its one client by what protects the message, and refuses everyone else. */
  function WitnessServer(mac: bool): Config {
    Config(Caps(1, 1), false, false, 0, true, true, false,
           m => if WitnessVerifies(mac, m) then Verified(WitnessPeer(mac)) else Unverified(BadMessageCheck),
           m => true, (m, s) => true, (m, now) => true, (h, x) => [])
  }

  function WitnessEnvs(waits: nat): nat -> Env {
    i => Env(0, [9], [5], [], [], [],
             if i < waits then Handled(Some(WaitingResponse(0, "ref")), None, None, [])
             else Handled(None, Some(NEW_CERT), None, []))
  }

  /** A client that verifies its server in the same way. */
  function WitnessClient(mac: bool, waits: nat, net: seq<Message> -> C.NetReply): C.Party {
    C.Party(waits, 0, 0, None, [7], None, n => [1], n => Some(WitnessAlg(mac)), n => false,
            (m, p, k) => if WitnessVerifies(mac, m) then Some(C.VerifyResult(mac, None)) else None,
            (x, p, q) => true, (h, x) => [], net)
  }

  lemma WitnessIsReady(mac: bool, waits: nat, l: Link)
    requires l.cfg == WitnessServer(mac) && l.envs == WitnessEnvs(waits) && l.waits == waits
             && l.peer == WitnessPeer(mac)
    requires l.c == WitnessClient(mac, waits, l.c.net) && l.start == EMPTY && l.body == CertReq(RequestIR, Some([0]))
    requires l.cert == NEW_CERT && l.issueRef == None && l.caCerts == [] && OthersStandAside(l)
    ensures Ready(l)
  {
    assert Captured(MAC_ALG) == Some(MAC_PARAMS);
    assert CheckAfterSeconds(0) == 1;
    forall i | 0 <= i <= l.waits + 1 ensures AcceptsAt(l, i) {
    }
  }

  lemma AnswerIsProtected(l: Link, i: nat)
    requires Ready(l) && Connected(l) && i <= l.waits + 1
    ensures var answer := l.c.net(Scripted(l, i + 1));
            answer.Reply? && answer.msg.header.protectionAlg == ReplyAlg(l, i)
  {
    ServerFollowsScript(l, i);
    assert |Scripted(l, i + 1)| > 0;
  }

  /** The answer to message number `i` is one the client verifies. */
  predicate WitnessGets(mac: bool, l: Link, i: nat)
    requires Asks(l)
  {
    var answer := l.c.net(Scripted(l, i + 1));
    answer.Reply? && WitnessVerifies(mac, answer.msg)
  }

  lemma WitnessIsProtected(mac: bool, l: Link, i: nat)
    requires Asks(l) && ServerWilling(l) && i <= l.waits + 1 && l.peer == WitnessPeer(mac)
    requires forall n :: l.c.algorithms(n) == Some(WitnessAlg(mac))
    ensures ReplyAlg(l, i).Some?
    ensures if mac then Captured(ReplyAlg(l, i).value) == Some(MAC_PARAMS) else ReplyAlg(l, i) == Some(Signature([]))
  {
    RepliesProtected(l, i);
    assert Captured(MAC_ALG) == Some(MAC_PARAMS);
  }

  lemma WitnessVerifiesAnswer(mac: bool, l: Link, i: nat)
    requires Ready(l) && Connected(l) && i <= l.waits + 1 && l.peer == WitnessPeer(mac)
    requires l.c == WitnessClient(mac, l.waits, l.c.net)
    ensures WitnessGets(mac, l, i)
  {
    WitnessIsProtected(mac, l, i);
    AnswerIsProtected(l, i);
  }

  lemma WitnessIsWilling(mac: bool, l: Link)
    requires Asks(l) && l.c == WitnessClient(mac, l.waits, l.c.net) && l.caCerts == []
    requires forall i :: 0 <= i <= l.waits + 1 ==> WitnessGets(mac, l, i)
    ensures ClientWilling(l)
  {
    forall i | 0 <= i <= l.waits ensures VerifiesAt(l, i) {
      assert WitnessGets(mac, l, i);
      assert Scripted(l, i + 1)[..i + 1] == Scripted(l, i + 1);
    }
    assert WitnessGets(mac, l, l.waits + 1);
  }

  lemma WitnessIsHonest(mac: bool)
    ensures Recovery.HonestVerify(WitnessServer(mac))
  {
  }

  /** The hypotheses can be met, for any number of waits and whatever other requests
      the server gets, by a peer with a certificate and by one with a shared secret,
      and by a server that verifies honestly. */
  lemma HonestLinksExist(mac: bool, waits: nat, others: nat -> seq<Visit>) returns (l: Link)
    requires forall i: nat, j :: 0 <= j < |others(i)| ==>
             StandsAside(WitnessServer(mac), Key(CredOf(WitnessPeer(mac)), [7]), others(i)[j])
    ensures Honest(l) && l.waits == waits && l.others == others && l.peer.MacSender? == mac
            && Recovery.HonestVerify(l.cfg)
  {
    var host := Host(WitnessServer(mac), WitnessEnvs(waits), EMPTY, others);
    var net := (sent: seq<Message>) => if |sent| > 0 then C.Reply(LastOutcome(host, sent).reply, true) else C.NoReply;
    l := Link(WitnessClient(mac, waits, net), host.cfg, WitnessPeer(mac), EMPTY, host.envs, others,
              CertReq(RequestIR, Some([0])),
              waits, NEW_CERT, None, []);
    WitnessIsReady(mac, waits, l);
    forall i | 0 <= i <= waits + 1 ensures WitnessGets(mac, l, i) {
      WitnessVerifiesAnswer(mac, l, i);
    }
    WitnessIsWilling(mac, l);
    WitnessIsHonest(mac);
  }
}
