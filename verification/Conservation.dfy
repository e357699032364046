/**
  What becomes of every certificate the CA returned, over all runs of requests and
  cleanups: it waits for its confirmation in the table, or its fate is settled and
  the CA has been told once (server/response.go, server/confirm_poll.go,
  server/server.go).
 */
module Conservation {
  import opened Types
  import opened Messages
  import opened Tracker
  import opened Server
  import opened ServerRuns

  /** A certificate waits under its transaction, or its fate is known. */
  datatype Fate = Awaits(key: Key) | Settled(verdict: Verdict)

  datatype Issuance = Issuance(cert: Certificate, issueRef: Option<Bytes>, fate: Fate)

  /** The server with its history: all certificates it took over from the CA, and
      all notices the CA took without an error. */
  datatype World = World(table: Table, ledger: seq<Issuance>, notices: seq<Notice>)

  const INITIAL := World(EMPTY, [], [])

  // ---------------------------------------------------------------------------
  // Steps
  // ---------------------------------------------------------------------------

  datatype Step =
    | Request(msg: Message, env: Env)
    | Cleanup(now: int, order: seq<Key>)

  function Settle(ledger: seq<Issuance>, key: Key, verdict: Verdict): (r: seq<Issuance>)
    ensures |r| == |ledger|
    ensures forall i :: 0 <= i < |r| ==>
              r[i] == if ledger[i].fate == Awaits(key) then ledger[i].(fate := Settled(verdict)) else ledger[i]
  {
    seq(|ledger|, i requires 0 <= i < |ledger| =>
          if ledger[i].fate == Awaits(key) then ledger[i].(fate := Settled(verdict)) else ledger[i])
  }

  function Answer(accepted: bool): Verdict {
    if accepted then ConfirmAccepted else ConfirmRejected
  }

  function Book(ledger: seq<Issuance>, event: Event): seq<Issuance> {
    match event
    case NoEvent => ledger
    case CertAwaits(key, cert, issueRef) => ledger + [Issuance(cert, issueRef, Awaits(key))]
    case CertImplicit(cert, issueRef) => ledger + [Issuance(cert, issueRef, Settled(ConfirmImplicit))]
    case CertLost(cert) => ledger
    case CertConfirmed(key, accepted) => Settle(ledger, key, Answer(accepted))
  }

  function SettleExpired(t: Table, ledger: seq<Issuance>, order: seq<Key>): seq<Issuance> {
    if order == [] then ledger
    else
      var rest, key := SettleExpired(t, ledger, order[..|order| - 1]), order[|order| - 1];
      if HoldsUnconfirmed(t, key) then Settle(rest, key, ConfirmExpired) else rest
  }

  function ExpiryNotice(e: Entry): Notice
    requires e.cert.Some?
  {
    Notice(e.cert.value, ConfirmExpired, e.issueRef)
  }

  function ExpiryNotices(t: Table, order: seq<Key>): seq<Notice> {
    if order == [] then []
    else
      var rest, key := ExpiryNotices(t, order[..|order| - 1]), order[|order| - 1];
      if HoldsUnconfirmed(t, key) then rest + [ExpiryNotice(t.entries[key])] else rest
  }

  function AfterRequest(cfg: Config, w: World, msg: Message, env: Env): World
    requires IssuedHaveCerts(w.table)
  {
    var o := Process(cfg, w.table, msg, env);
    World(o.table, Book(w.ledger, o.event), w.notices + o.notices)
  }

  function AfterCleanup(cfg: Config, w: World, order: seq<Key>): World {
    World(DeleteAll(w.table, order), SettleExpired(w.table, w.ledger, order),
          w.notices + IfConfirmer(cfg, ExpiryNotices(w.table, order)))
  }

  /** Cleanup visits the expired transactions in any order. */
  ghost predicate Next(cfg: Config, w: World, step: Step, w': World) {
    && IssuedHaveCerts(w.table)
    && match step
       case Request(msg, env) => w' == AfterRequest(cfg, w, msg, env)
       case Cleanup(now, order) =>
         && (if cfg.confirmWait <= 0 then order == [] else ListsExpired(w.table, now - cfg.confirmWait, order))
         && w' == AfterCleanup(cfg, w, order)
  }

  /** A run from an empty table: `run[i + 1]` follows `run[i]` by `steps[i]`. */
  ghost predicate Run(cfg: Config, steps: seq<Step>, run: seq<World>) {
    && |run| == |steps| + 1 && run[0] == INITIAL
    && forall i :: 0 <= i < |steps| ==> StepAt(cfg, steps, run, i)
  }

  ghost predicate StepAt(cfg: Config, steps: seq<Step>, run: seq<World>, i: int)
    requires 0 <= i < |steps| && |run| == |steps| + 1
  {
    Next(cfg, run[i], steps[i], run[i + 1])
  }

  // ---------------------------------------------------------------------------
  // The ledger against the table
  // ---------------------------------------------------------------------------

  /** What a transaction that awaits confirmation holds. */
  datatype Holding = Holding(cert: Option<Certificate>, issueRef: Option<Bytes>)

  ghost function Held(entries: map<Key, Entry>): map<Key, Holding> {
    map k | k in entries && entries[k].state == Issued :: Holding(entries[k].cert, entries[k].issueRef)
  }

  ghost predicate Backed(held: map<Key, Holding>, item: Issuance) {
    item.fate.Awaits? ==> item.fate.key in held && held[item.fate.key] == Holding(Some(item.cert), item.issueRef)
  }

  predicate AwaitsAt(ledger: seq<Issuance>, i: int, key: Key) {
    0 <= i < |ledger| && ledger[i].fate == Awaits(key)
  }

  ghost predicate Listed(ledger: seq<Issuance>, key: Key) {
    exists i :: AwaitsAt(ledger, i, key)
  }

  /** The waiting items of the ledger and the held certificates are one to one. */
  ghost predicate Matches(held: map<Key, Holding>, ledger: seq<Issuance>) {
    && (forall i :: 0 <= i < |ledger| ==> Backed(held, ledger[i]))
    && (forall k :: k in held ==> Listed(ledger, k))
    && (forall i, j, k :: AwaitsAt(ledger, i, k) && AwaitsAt(ledger, j, k) ==> i == j)
  }

  /** The notices that the settled items of a ledger call for. */
  function Due(ledger: seq<Issuance>): multiset<Notice> {
    if ledger == [] then multiset{}
    else
      var rest, item := Due(ledger[..|ledger| - 1]), ledger[|ledger| - 1];
      if item.fate.Settled? then rest + multiset{Notice(item.cert, item.fate.verdict, item.issueRef)} else rest
  }

  ghost predicate Told(cfg: Config, ledger: seq<Issuance>, notices: seq<Notice>) {
    if cfg.hasConfirmer then multiset(notices) == Due(ledger) else notices == []
  }

  lemma AwardMatches(held: map<Key, Holding>, ledger: seq<Issuance>, key: Key, item: Issuance)
    requires Matches(held, ledger) && key !in held && item.fate == Awaits(key)
    ensures Matches(held[key := Holding(Some(item.cert), item.issueRef)], ledger + [item])
  {
    var held', ledger' := held[key := Holding(Some(item.cert), item.issueRef)], ledger + [item];
    forall k | k in held' ensures Listed(ledger', k) {
      if k == key {
        assert AwaitsAt(ledger', |ledger|, k);
      } else {
        var i :| AwaitsAt(ledger, i, k);
        assert AwaitsAt(ledger', i, k);
      }
    }
    forall i, k | AwaitsAt(ledger', i, k) ensures if k == key then i == |ledger| else AwaitsAt(ledger, i, k) {
      if i < |ledger| {
        assert Backed(held, ledger[i]);
      }
    }
  }

  lemma GrantMatches(held: map<Key, Holding>, ledger: seq<Issuance>, item: Issuance)
    requires Matches(held, ledger) && item.fate.Settled?
    ensures Matches(held, ledger + [item])
  {
    var ledger' := ledger + [item];
    forall k | k in held ensures Listed(ledger', k) {
      var i :| AwaitsAt(ledger, i, k);
      assert AwaitsAt(ledger', i, k);
    }
    forall i, k | AwaitsAt(ledger', i, k) ensures AwaitsAt(ledger, i, k) {
    }
  }

  lemma SettleMatches(held: map<Key, Holding>, ledger: seq<Issuance>, key: Key, verdict: Verdict)
    requires Matches(held, ledger)
    ensures Matches(held - {key}, Settle(ledger, key, verdict))
  {
    var ledger' := Settle(ledger, key, verdict);
    forall i | 0 <= i < |ledger'| ensures Backed(held - {key}, ledger'[i]) {
      assert Backed(held, ledger[i]);
    }
    forall k | k in held - {key} ensures Listed(ledger', k) {
      var i :| AwaitsAt(ledger, i, k);
      assert AwaitsAt(ledger', i, k);
    }
    forall i, k | AwaitsAt(ledger', i, k) ensures AwaitsAt(ledger, i, k) {
    }
  }

  lemma DueSnoc(ledger: seq<Issuance>, item: Issuance)
    ensures Due(ledger + [item])
         == Due(ledger) + if item.fate.Settled? then multiset{Notice(item.cert, item.fate.verdict, item.issueRef)}
            else multiset{}
  {
    assert (ledger + [item])[..|ledger|] == ledger;
  }

  lemma SettleNothing(ledger: seq<Issuance>, key: Key, verdict: Verdict)
    requires forall i :: !AwaitsAt(ledger, i, key)
    ensures Settle(ledger, key, verdict) == ledger
  {
    forall i | 0 <= i < |ledger| ensures ledger[i].fate != Awaits(key) {
      assert !AwaitsAt(ledger, i, key);
    }
  }

  lemma SettleSnoc(init: seq<Issuance>, last: Issuance, key: Key, verdict: Verdict)
    ensures Settle(init + [last], key, verdict)
         == Settle(init, key, verdict) + [if last.fate == Awaits(key) then last.(fate := Settled(verdict)) else last]
  {
  }

  /** Settling one waiting item makes exactly its notice due. */
  lemma {:induction false} SettleDue(ledger: seq<Issuance>, key: Key, verdict: Verdict, at: nat)
    requires AwaitsAt(ledger, at, key)
    requires forall i :: AwaitsAt(ledger, i, key) ==> i == at
    ensures Due(Settle(ledger, key, verdict))
            == Due(ledger) + multiset{Notice(ledger[at].cert, verdict, ledger[at].issueRef)}
  {
    var init, last := ledger[..|ledger| - 1], ledger[|ledger| - 1];
    assert ledger == init + [last];
    forall i | AwaitsAt(init, i, key) ensures AwaitsAt(ledger, i, key) {
    }
    DueSnoc(init, last);
    SettleSnoc(init, last, key, verdict);
    if at == |ledger| - 1 {
      SettleNothing(init, key, verdict);
      DueSnoc(init, last.(fate := Settled(verdict)));
    } else {
      assert !AwaitsAt(ledger, |ledger| - 1, key);
      SettleDue(init, key, verdict, at);
      DueSnoc(Settle(init, key, verdict), last);
    }
  }

  lemma SettleHeldDue(held: map<Key, Holding>, ledger: seq<Issuance>, key: Key, verdict: Verdict)
    requires Matches(held, ledger) && key in held && held[key].cert.Some?
    ensures Due(Settle(ledger, key, verdict))
            == Due(ledger) + multiset{Notice(held[key].cert.value, verdict, held[key].issueRef)}
  {
    assert Listed(ledger, key);
    var at :| AwaitsAt(ledger, at, key);
    assert Backed(held, ledger[at]);
    SettleDue(ledger, key, verdict, at);
  }

  // ---------------------------------------------------------------------------
  // Every step keeps the books
  // ---------------------------------------------------------------------------

  ghost predicate Balanced(cfg: Config, w: World) {
    && Consistent(w.table, cfg.caps)
    && IssuedHaveCerts(w.table)
    && Matches(Held(w.table.entries), w.ledger)
    && Told(cfg, w.ledger, w.notices)
  }

  /** The notices of one request are those its event calls for. */
  ghost predicate Announced(cfg: Config, t: Table, o: Outcome) {
    match o.event
    case CertImplicit(cert, issueRef) =>
      o.notices == if cfg.hasConfirmer then [Notice(cert, ConfirmImplicit, issueRef)] else []
    case CertConfirmed(key, accepted) =>
      && HoldsUnconfirmed(t, key)
      && var e := t.entries[key];
         o.notices == if cfg.hasConfirmer then [Notice(e.cert.value, Answer(accepted), e.issueRef)] else []
    case _ => o.notices == []
  }

  lemma DeliverAnnounced(cfg: Config, t: Table, msg: Message, sender: Sender, reqType: RequestType, certReqID: int,
                         h: HandlerResult, env: Env)
    requires h.Handled? && h.waiting.None?
    ensures Announced(cfg, t, Deliver(cfg, t, msg, sender, reqType, certReqID, h, env))
    ensures !Deliver(cfg, t, msg, sender, reqType, certReqID, h, env).event.CertConfirmed?
  {
  }

  lemma CertRequestAnnounced(cfg: Config, t: Table, msg: Message, sender: Sender, env: Env)
    requires msg.body.CertReq?
    ensures Announced(cfg, t, HandleCertRequest(cfg, t, msg, sender, env))
    ensures !HandleCertRequest(cfg, t, msg, sender, env).event.CertConfirmed?
  {
    if env.handler.Handled? && env.handler.waiting.None? {
      DeliverAnnounced(cfg, t, msg, sender, msg.body.reqType, CertReqIDOf(msg.body), env.handler, env);
    }
  }

  lemma PollAnnounced(cfg: Config, t: Table, msg: Message, sender: Sender, env: Env)
    requires msg.body.PollReq?
    ensures Announced(cfg, t, HandlePollReq(cfg, t, msg, sender, env))
  {
  }

  lemma CertConfAnnounced(cfg: Config, t: Table, msg: Message, sender: Sender, env: Env)
    requires msg.body.CertConf? && IssuedHaveCerts(t)
    ensures Announced(cfg, t, HandleCertConf(cfg, t, msg, sender, env))
  {
  }

  lemma DispatchAnnounced(cfg: Config, t: Table, msg: Message, sender: Sender, env: Env)
    requires IssuedHaveCerts(t)
    ensures Announced(cfg, t, Dispatch(cfg, t, msg, sender, env))
    ensures IsInitial(msg.body) ==> !Dispatch(cfg, t, msg, sender, env).event.CertConfirmed?
  {
    if msg.body.CertReq? {
      CertRequestAnnounced(cfg, t, msg, sender, env);
    } else if msg.body.PollReq? {
      PollAnnounced(cfg, t, msg, sender, env);
    } else if msg.body.CertConf? {
      CertConfAnnounced(cfg, t, msg, sender, env);
    }
  }

  lemma ProcessAnnounced(cfg: Config, t: Table, msg: Message, env: Env)
    requires IssuedHaveCerts(t)
    ensures Announced(cfg, t, Process(cfg, t, msg, env))
  {
    if cfg.verify(msg).Verified? {
      var sender := cfg.verify(msg).sender;
      var check := ValidateHeader(cfg, t, msg, sender, env);
      if check.HeaderOk? {
        DispatchAnnounced(cfg, check.table, check.msg, sender, env);
      }
    }
  }

  lemma HeldAfter(t: Table, key: Key, o: Outcome)
    requires Shape(t, key, o)
    ensures var after := Held(o.table.entries);
            match o.event
            case CertAwaits(k, cert, issueRef) =>
              k == key && key !in Held(t.entries) && after == Held(t.entries)[key := Holding(Some(cert), issueRef)]
            case CertConfirmed(k, _) => k == key && key in Held(t.entries) && after == Held(t.entries) - {key}
            case _ => after == Held(t.entries)
  {
  }

  lemma RequestBooks(cfg: Config, t: Table, key: Key, o: Outcome, ledger: seq<Issuance>, notices: seq<Notice>)
    requires Shape(t, key, o) && Announced(cfg, t, o)
    requires Matches(Held(t.entries), ledger) && Told(cfg, ledger, notices)
    ensures Matches(Held(o.table.entries), Book(ledger, o.event))
    ensures Told(cfg, Book(ledger, o.event), notices + o.notices)
  {
    var held := Held(t.entries);
    HeldAfter(t, key, o);
    match o.event
    case NoEvent =>
      assert notices + o.notices == notices;
    case CertAwaits(k, cert, issueRef) =>
      AwardMatches(held, ledger, key, Issuance(cert, issueRef, Awaits(k)));
      DueSnoc(ledger, Issuance(cert, issueRef, Awaits(k)));
      assert notices + o.notices == notices;
    case CertImplicit(cert, issueRef) =>
      GrantMatches(held, ledger, Issuance(cert, issueRef, Settled(ConfirmImplicit)));
      DueSnoc(ledger, Issuance(cert, issueRef, Settled(ConfirmImplicit)));
    case CertConfirmed(k, accepted) =>
      SettleMatches(held, ledger, key, Answer(accepted));
      SettleHeldDue(held, ledger, key, Answer(accepted));
  }

  lemma RequestBalanced(cfg: Config, w: World, msg: Message, env: Env)
    requires Balanced(cfg, w)
    ensures Balanced(cfg, AfterRequest(cfg, w, msg, env))
  {
    var o := Process(cfg, w.table, msg, env);
    ProcessShape(cfg, w.table, msg, env);
    ProcessAnnounced(cfg, w.table, msg, env);
    ProcessConsistent(cfg, w.table, msg, env);
    ProcessKeepsCerts(cfg, w.table, msg, env);
    if cfg.verify(msg).Verified? {
      RequestBooks(cfg, w.table, KeyFor(msg, cfg.verify(msg).sender, env), o, w.ledger, w.notices);
    } else {
      assert w.notices + o.notices == w.notices;
    }
  }

  ghost predicate Distinct(order: seq<Key>) {
    forall i, j :: 0 <= i < j < |order| ==> order[i] != order[j]
  }

  function IfConfirmer(cfg: Config, notices: seq<Notice>): seq<Notice> {
    if cfg.hasConfirmer then notices else []
  }

  /** The removal of one more expired transaction. */
  lemma ExpiryBooks(cfg: Config, held: map<Key, Holding>, ledger: seq<Issuance>, notices: seq<Notice>,
                    expiry: seq<Notice>, t: Table, key: Key)
    requires Matches(held, ledger) && Told(cfg, ledger, notices + IfConfirmer(cfg, expiry))
    requires key in held <==> HoldsUnconfirmed(t, key)
    requires key in held ==> held[key] == Holding(t.entries[key].cert, t.entries[key].issueRef)
    ensures var ledger' := if HoldsUnconfirmed(t, key) then Settle(ledger, key, ConfirmExpired) else ledger;
            var expiry' := if HoldsUnconfirmed(t, key) then expiry + [ExpiryNotice(t.entries[key])] else expiry;
            Matches(held - {key}, ledger') && Told(cfg, ledger', notices + IfConfirmer(cfg, expiry'))
  {
    if HoldsUnconfirmed(t, key) {
      SettleMatches(held, ledger, key, ConfirmExpired);
      SettleHeldDue(held, ledger, key, ConfirmExpired);
      assert notices + (expiry + [ExpiryNotice(t.entries[key])]) == (notices + expiry) + [ExpiryNotice(t.entries[key])];
    } else {
      assert held - {key} == held;
    }
  }

  lemma HeldMinus(entries: map<Key, Entry>, key: Key)
    ensures Held(entries - {key}) == Held(entries) - {key}
  {
  }

  lemma HeldWithout(t: Table, init: seq<Key>, key: Key)
    requires key !in init && IssuedHaveCerts(t)
    ensures Held(DeleteAll(t, init + [key]).entries) == Held(DeleteAll(t, init).entries) - {key}
    ensures key in Held(DeleteAll(t, init).entries) <==> HoldsUnconfirmed(t, key)
    ensures HoldsUnconfirmed(t, key) ==>
              Held(DeleteAll(t, init).entries)[key] == Holding(t.entries[key].cert, t.entries[key].issueRef)
  {
    var entries := DeleteAll(t, init).entries;
    Snoc(t, init, key);
    assert DeleteAll(t, init + [key]).entries == entries - {key};
    HeldMinus(entries, key);
    DeleteAllEntries(t, init);
    assert key in entries <==> key in t.entries;
  }

  lemma {:induction false} CleanupBooks(cfg: Config, t: Table, ledger: seq<Issuance>, notices: seq<Notice>,
                                        order: seq<Key>)
    requires Distinct(order) && IssuedHaveCerts(t)
    requires Matches(Held(t.entries), ledger) && Told(cfg, ledger, notices)
    ensures Matches(Held(DeleteAll(t, order).entries), SettleExpired(t, ledger, order))
    ensures Told(cfg, SettleExpired(t, ledger, order), notices + IfConfirmer(cfg, ExpiryNotices(t, order)))
  {
    if order == [] {
      assert notices + [] == notices;
    } else {
      var init, key := order[..|order| - 1], order[|order| - 1];
      assert order == init + [key];
      CleanupBooks(cfg, t, ledger, notices, init);
      HeldWithout(t, init, key);
      ExpiryBooks(cfg, Held(DeleteAll(t, init).entries), SettleExpired(t, ledger, init), notices,
                  ExpiryNotices(t, init), t, key);
    }
  }

  lemma StepBalanced(cfg: Config, w: World, step: Step, w': World)
    requires Balanced(cfg, w) && Next(cfg, w, step, w')
    ensures Balanced(cfg, w')
  {
    match step
    case Request(msg, env) =>
      RequestBalanced(cfg, w, msg, env);
    case Cleanup(now, order) =>
      CleanupBooks(cfg, w.table, w.ledger, w.notices, order);
      DeleteAllConsistent(w.table, cfg.caps, order);
      DeleteAllEntries(w.table, order);
  }

  lemma {:induction false} BooksBalance(cfg: Config, steps: seq<Step>, run: seq<World>, i: nat)
    requires Run(cfg, steps, run) && i < |run|
    ensures Balanced(cfg, run[i])
  {
    if i == 0 {
      assert forall c :: KeysOf(EMPTY.entries.Keys, c) == {};
      assert forall c :: CredSize(EMPTY.entries.Keys, EMPTY.credCounts, cfg.caps, c);
    } else {
      BooksBalance(cfg, steps, run, i - 1);
      assert StepAt(cfg, steps, run, i - 1);
      StepBalanced(cfg, run[i - 1], steps[i - 1], run[i]);
    }
  }

  function Waiting(ledger: seq<Issuance>): nat {
    if ledger == [] then 0
    else Waiting(ledger[..|ledger| - 1]) + if ledger[|ledger| - 1].fate.Awaits? then 1 else 0
  }

  lemma WaitingInit(held: map<Key, Holding>, ledger: seq<Issuance>, key: Key)
    requires Matches(held, ledger) && AwaitsAt(ledger, |ledger| - 1, key)
    ensures Matches(held - {key}, ledger[..|ledger| - 1])
  {
    var init := ledger[..|ledger| - 1];
    forall i, k | AwaitsAt(init, i, k) ensures AwaitsAt(ledger, i, k) && k != key {
      assert AwaitsAt(ledger, i, k);
    }
    forall i | 0 <= i < |init| ensures Backed(held - {key}, init[i]) {
      assert Backed(held, ledger[i]);
      if init[i].fate.Awaits? {
        assert AwaitsAt(init, i, init[i].fate.key);
      }
    }
    forall k | k in held - {key} ensures Listed(init, k) {
      var i :| AwaitsAt(ledger, i, k);
      assert AwaitsAt(init, i, k);
    }
  }

  /** As many certificates wait as there are transactions that hold one. */
  lemma {:induction false} WaitingAreHeld(held: map<Key, Holding>, ledger: seq<Issuance>)
    requires Matches(held, ledger)
    ensures Waiting(ledger) == |held|
  {
    if ledger == [] {
      assert forall k :: k in held ==> Listed(ledger, k);
      assert held.Keys == {};
    } else {
      var init, last := ledger[..|ledger| - 1], ledger[|ledger| - 1];
      forall i, k | AwaitsAt(init, i, k) ensures AwaitsAt(ledger, i, k) {
      }
      if last.fate.Awaits? {
        WaitingInit(held, ledger, last.fate.key);
        WaitingAreHeld(held - {last.fate.key}, init);
        assert Backed(held, last);
        assert |held| == |held - {last.fate.key}| + 1;
      } else {
        forall k | k in held ensures Listed(init, k) {
          var i :| AwaitsAt(ledger, i, k);
          assert AwaitsAt(init, i, k);
        }
        WaitingAreHeld(held, init);
      }
    }
  }

  // ---------------------------------------------------------------------------
  // Fates are final
  // ---------------------------------------------------------------------------

  /** A later ledger keeps every item, and every fate that was settled. */
  ghost predicate Extends(ledger: seq<Issuance>, ledger': seq<Issuance>) {
    && |ledger| <= |ledger'|
    && forall i :: 0 <= i < |ledger| ==> Follows(ledger[i], ledger'[i])
  }

  predicate Follows(item: Issuance, item': Issuance) {
    item' == item || (item.fate.Awaits? && item'.fate.Settled? && item' == item.(fate := item'.fate))
  }

  lemma {:induction false} ExpiredExtends(t: Table, ledger: seq<Issuance>, order: seq<Key>)
    ensures Extends(ledger, SettleExpired(t, ledger, order))
  {
    if order != [] {
      ExpiredExtends(t, ledger, order[..|order| - 1]);
    }
  }

  lemma StepExtends(cfg: Config, w: World, step: Step, w': World)
    requires Next(cfg, w, step, w')
    ensures Extends(w.ledger, w'.ledger) && w.notices <= w'.notices
  {
    if step.Cleanup? {
      ExpiredExtends(w.table, w.ledger, step.order);
    }
  }

  lemma {:induction false} FatesAreFinal(cfg: Config, steps: seq<Step>, run: seq<World>, i: nat, j: nat)
    requires Run(cfg, steps, run) && i <= j < |run|
    ensures Extends(run[i].ledger, run[j].ledger) && run[i].notices <= run[j].notices
    decreases j
  {
    if i < j {
      FatesAreFinal(cfg, steps, run, i, j - 1);
      assert StepAt(cfg, steps, run, j - 1);
      StepExtends(cfg, run[j - 1], steps[j - 1], run[j]);
      forall n | 0 <= n < |run[i].ledger| ensures Follows(run[i].ledger[n], run[j].ledger[n]) {
        assert Follows(run[i].ledger[n], run[j - 1].ledger[n]) && Follows(run[j - 1].ledger[n], run[j].ledger[n]);
      }
    }
  }

  // ---------------------------------------------------------------------------
  // What is booked is what the CA returned
  // ---------------------------------------------------------------------------

  /** A certificate as the CA returned it. */
  datatype Grant = Grant(cert: Certificate, issueRef: Option<Bytes>)

  function Booked(event: Event): Option<Grant> {
    match event
    case CertAwaits(_, cert, issueRef) => Some(Grant(cert, issueRef))
    case CertImplicit(cert, issueRef) => Some(Grant(cert, issueRef))
    case _ => None
  }

  /** The certificate in the CA's answer, unless the answer is also a promise. */
  function Granted(asked: bool, h: HandlerResult): Option<Grant> {
    if asked && h.Handled? && h.waiting.None? && h.cert.Some? then Some(Grant(h.cert.value, h.issueRef)) else None
  }

  function Carried(reply: Message): Option<Certificate> {
    if reply.body.CertRep? && reply.body.responses.Some? && |reply.body.responses.value| == 1
    then reply.body.responses.value[0].cert else None
  }

  /** Exactly the CA's certificate is booked, and it is sent unless the reply cannot
      be protected; no other certificate is sent. */
  predicate Accounted(asked: bool, env: Env, o: Outcome) {
    && Booked(o.event) == Granted(asked, env.handler)
    && (Booked(o.event).None? ==> Carried(o.reply).None?)
    && (Booked(o.event).Some? ==>
          || Carried(o.reply) == Some(Booked(o.event).value.cert)
          || o.reply.body == Error(Some(Refusal(SystemFailure))))
  }

  lemma DeliverAccounted(cfg: Config, t: Table, msg: Message, sender: Sender, reqType: RequestType, certReqID: int,
                         env: Env)
    requires env.handler.Handled? && env.handler.waiting.None?
    requires var key := Key(CredOf(sender), msg.header.transactionID); key in t.entries && Open(t.entries[key])
    ensures Accounted(true, env, Deliver(cfg, t, msg, sender, reqType, certReqID, env.handler, env))
  {
  }

  lemma CertRequestAccounted(cfg: Config, t: Table, msg: Message, sender: Sender, env: Env)
    requires msg.body.CertReq? && HasActive(t, Key(CredOf(sender), msg.header.transactionID))
    ensures Accounted(true, env, HandleCertRequest(cfg, t, msg, sender, env))
  {
    if env.handler.Handled? && env.handler.waiting.None? {
      DeliverAccounted(cfg, t, msg, sender, msg.body.reqType, CertReqIDOf(msg.body), env);
    }
  }

  lemma PollAccounted(cfg: Config, t: Table, msg: Message, sender: Sender, env: Env)
    requires msg.body.PollReq?
    ensures var key := Key(CredOf(sender), msg.header.transactionID);
            Accounted(Admits(t, key, msg, env.now), env, HandlePollReq(cfg, t, msg, sender, env))
  {
    var key := Key(CredOf(sender), msg.header.transactionID);
    if Admits(t, key, msg, env.now) && env.handler.Handled? && env.handler.waiting.None? {
      DeliverAccounted(cfg, t, msg, sender, t.entries[key].reqType, PolledID(msg.body.pollIds.value), env);
    }
  }

  lemma CertConfAccounted(cfg: Config, t: Table, msg: Message, sender: Sender, env: Env)
    requires msg.body.CertConf? && IssuedHaveCerts(t)
    ensures Accounted(false, env, HandleCertConf(cfg, t, msg, sender, env))
  {
  }

  lemma RestAccounted(cfg: Config, t: Table, msg: Message, sender: Sender, env: Env)
    requires IssuedHaveCerts(t) && !msg.body.CertReq? && !msg.body.PollReq? && !msg.body.CertConf?
    ensures Accounted(false, env, Dispatch(cfg, t, msg, sender, env))
  {
  }

  /** Whatever the request, a certificate is booked exactly when the CA was asked and
      returned it without a promise. None is lost, and none is sent that is not booked. */
  lemma EveryCertificateIsBooked(cfg: Config, t: Table, msg: Message, env: Env)
    requires IssuedHaveCerts(t)
    ensures Accounted(AsksCa(cfg, t, msg, env), env, Process(cfg, t, msg, env))
  {
    ReachesHandler(cfg, t, msg, env);
    if Passes(cfg, t, msg, env) {
      var sender := cfg.verify(msg).sender;
      var check := ValidateHeader(cfg, t, msg, sender, env);
      if msg.body.CertReq? {
        CertRequestAccounted(cfg, check.table, check.msg, sender, env);
      } else if msg.body.PollReq? {
        PollAccounted(cfg, t, msg, sender, env);
      } else if msg.body.CertConf? {
        CertConfAccounted(cfg, t, msg, sender, env);
      } else {
        RestAccounted(cfg, check.table, check.msg, sender, env);
      }
    }
  }

  /** A certificate that comes together with a promise is dropped: it is neither
      booked nor announced nor sent. */
  lemma PromiseHidesCertificate() returns (cfg: Config, msg: Message, env: Env)
    ensures AsksCa(cfg, EMPTY, msg, env) && env.handler.Handled? && env.handler.cert.Some?
    ensures var o := Process(cfg, EMPTY, msg, env);
            Booked(o.event).None? && o.notices == [] && Carried(o.reply).None?
  {
    var cert := Certificate([0x30], [1], UnknownAlgorithm);
    cfg := Config(Caps(1, 1), false, false, 0, true, true, false, m => Verified(CertSender(cert)), m => true,
                  (m, s) => true,
                  (m, now) => true, (h, x) => []);
    msg := Message(Header(PVNO2, [7], [9], [], false, None), CertReq(RequestIR, Some([0])), []);
    env := Env(0, [1], [], [2], [], [], Handled(Some(WaitingResponse(0, "ref")), Some(cert), None, []));
    EveryCertificateIsBooked(cfg, EMPTY, msg, env);
    ProcessAnnounced(cfg, EMPTY, msg, env);
  }

  // ---------------------------------------------------------------------------
  // The ledger is what the CA returned, over every run
  // ---------------------------------------------------------------------------

  function GrantedBy(cfg: Config, t: Table, step: Step): seq<Grant> {
    if step.Cleanup? then []
    else
      var g := Granted(AsksCa(cfg, t, step.msg, step.env), step.env.handler);
      if g.None? then [] else [g.value]
  }

  /** The certificates the CA returned in the first `n` steps, without a promise. */
  function Returned(cfg: Config, steps: seq<Step>, run: seq<World>, n: nat): seq<Grant>
    requires n <= |steps| < |run|
  {
    if n == 0 then [] else Returned(cfg, steps, run, n - 1) + GrantedBy(cfg, run[n - 1].table, steps[n - 1])
  }

  function Grants(ledger: seq<Issuance>): (r: seq<Grant>)
    ensures |r| == |ledger| && forall i :: 0 <= i < |r| ==> r[i] == Grant(ledger[i].cert, ledger[i].issueRef)
  {
    seq(|ledger|, i requires 0 <= i < |ledger| => Grant(ledger[i].cert, ledger[i].issueRef))
  }

  lemma {:induction false} ExpiryKeepsGrants(t: Table, ledger: seq<Issuance>, order: seq<Key>)
    ensures Grants(SettleExpired(t, ledger, order)) == Grants(ledger)
  {
    if order != [] {
      ExpiryKeepsGrants(t, ledger, order[..|order| - 1]);
    }
  }

  lemma BookGrants(ledger: seq<Issuance>, event: Event)
    ensures Grants(Book(ledger, event)) == Grants(ledger) + if Booked(event).Some? then [Booked(event).value] else []
  {
  }

  /** In every run the ledger lists exactly the certificates the CA returned without a
      promise, in their order. */
  lemma {:induction false} LedgerIsReturned(cfg: Config, steps: seq<Step>, run: seq<World>, i: nat)
    requires Run(cfg, steps, run) && i < |run|
    ensures Grants(run[i].ledger) == Returned(cfg, steps, run, i)
  {
    if i > 0 {
      LedgerIsReturned(cfg, steps, run, i - 1);
      assert StepAt(cfg, steps, run, i - 1);
      match steps[i - 1]
      case Request(msg, env) =>
        EveryCertificateIsBooked(cfg, run[i - 1].table, msg, env);
        BookGrants(run[i - 1].ledger, Process(cfg, run[i - 1].table, msg, env).event);
      case Cleanup(_, order) =>
        ExpiryKeepsGrants(run[i - 1].table, run[i - 1].ledger, order);
    }
  }

  /** In every run each certificate the CA returned without a promise awaits its
      confirmation in exactly one issued transaction or has one settled fate, the CA
      has been told exactly once about each of the latter and of nothing else, and
      the counters fit the table. */
  lemma CertificatesConserved(cfg: Config, steps: seq<Step>, run: seq<World>, i: nat)
    requires Run(cfg, steps, run) && i < |run|
    ensures Grants(run[i].ledger) == Returned(cfg, steps, run, i)
    ensures Balanced(cfg, run[i])
  {
    LedgerIsReturned(cfg, steps, run, i);
    BooksBalance(cfg, steps, run, i);
  }
}
