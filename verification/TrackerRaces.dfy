/**
  What the CA is told about issued certificates when requests and cleanups overlap
  (server/transaction.go, server/confirm_poll.go, server/server.go): a cleanup visit
  decides from the entry it was shown, and a confirmation from the entry it loaded.
 */
module TrackerRaces {
  import opened Types
  import opened Tracker
  import opened TrackerSteps

  // ---------------------------------------------------------------------------
  // What cleanup reports
  // ---------------------------------------------------------------------------

  /** What a visit reports if its removal succeeds: the entry it was shown. */
  function Report(pc: Pc): Option<Cell>
    requires pc.Seen?
  {
    if Unconfirmed(pc.cell.entry) then Some(pc.cell) else None
  }

  /** What a removal takes out of the table unconfirmed. */
  function Due(s: Sys, key: Key): Option<Cell> {
    if key in s.table && Unconfirmed(s.table[key].entry) then Some(s.table[key]) else None
  }

  /** The step stores this very cell. */
  predicate Stores(s: Sys, a: Action, key: Key, cell: Cell) {
    var change := EffectOf(s, a).change;
    change.Put? && change.key == key && Cell(s.nextPtr, change.life, change.entry) == cell
  }

  lemma {:induction false} CellWasStored(caps: Caps, states: seq<Sys>, run: seq<Action>, i: nat, j: nat, key: Key)
    requires Trace(caps, states, run) && i <= j < |states| && key in states[j].table
    ensures || (key in states[i].table && states[i].table[key] == states[j].table[key])
            || exists k :: i <= k < j && Stores(states[k], run[k], key, states[j].table[key])
  {
    if i < j {
      assert states[j - 1 + 1] == Next(states[j - 1], run[j - 1]);
      if !Stores(states[j - 1], run[j - 1], key, states[j].table[key]) {
        assert key in states[j - 1].table && states[j - 1].table[key] == states[j].table[key];
        CellWasStored(caps, states, run, i, j - 1, key);
      }
    }
  }

  lemma {:induction false} PointersGrow(caps: Caps, states: seq<Sys>, run: seq<Action>, i: nat, j: nat)
    requires Trace(caps, states, run) && i <= j < |states|
    ensures states[i].nextPtr <= states[j].nextPtr
  {
    if i < j {
      PointersGrow(caps, states, run, i, j - 1);
      assert states[j - 1 + 1] == Next(states[j - 1], run[j - 1]);
    }
  }

  /** Thread `t` was shown an entry in step `i`, and in step `j` removes the key. */
  ghost predicate Visits(caps: Caps, states: seq<Sys>, run: seq<Action>, i: nat, j: nat, t: nat, key: Key,
                         cutoff: int) {
    && Trace(caps, states, run) && i < j < |states|
    && run[i] == Begin(t, OpExpire(key, cutoff)) && PcOf(states[i], t).Idle?
    && PcOf(states[j], t).Seen? && PcOf(states[j], t) == PcOf(states[i + 1], t) && key in states[j].table
  }

  /** Whoever interferes, a thread is about to remove a key only because in the step that
      began its visit it was shown an entry of that key last active before the cutoff. */
  lemma {:induction false} SeenWasExpired(caps: Caps, states: seq<Sys>, run: seq<Action>, j: nat, t: nat)
    returns (i: nat, cutoff: int)
    requires Trace(caps, states, run) && j < |states| && PcOf(states[j], t).Seen?
    ensures var key, cell := PcOf(states[j], t).key, PcOf(states[j], t).cell;
            && i < j && run[i] == Begin(t, OpExpire(key, cutoff)) && PcOf(states[i], t).Idle?
            && PcOf(states[i + 1], t) == Seen(key, cell)
            && key in states[i].table && states[i].table[key] == cell && cell.entry.lastActivity < cutoff
  {
    assert j > 0;
    assert states[j - 1 + 1] == Next(states[j - 1], run[j - 1]);
    if PcOf(states[j - 1], t) == PcOf(states[j], t) {
      i, cutoff := SeenWasExpired(caps, states, run, j - 1, t);
    } else {
      i, cutoff := j - 1, run[j - 1].op.cutoff;
    }
  }

  /** The certificate that was shown is no longer the entry stored. */
  predicate Outdated(s: Sys, key: Key, cell: Cell) {
    Unconfirmed(cell.entry) && !Holds(s, key, cell)
  }

  /** The entry that is removed holds a certificate stored between look and removal. */
  ghost predicate Late(states: seq<Sys>, run: seq<Action>, i: nat, j: nat, key: Key)
    requires i < j < |states| == |run| + 1 && key in states[j].table
  {
    && Unconfirmed(states[j].table[key].entry)
    && exists k :: i < k < j && Stores(states[k], run[k], key, states[j].table[key])
  }

  /** What was shown is still stored exactly when nothing was stored since. */
  lemma SeenIsStored(caps: Caps, states: seq<Sys>, run: seq<Action>, i: nat, j: nat, t: nat, key: Key, cutoff: int)
    requires Visits(caps, states, run, i, j, t, key, cutoff)
    ensures PcOf(states[j], t).key == key
    ensures Holds(states[j], key, PcOf(states[j], t).cell) <==> states[j].table[key] == PcOf(states[j], t).cell
    ensures Holds(states[j], key, PcOf(states[j], t).cell) <==>
            !exists k :: i < k < j && Stores(states[k], run[k], key, states[j].table[key])
  {
    var cell := PcOf(states[j], t).cell;
    assert states[i + 1] == Next(states[i], run[i]);
    InvHolds(caps, states, run, i);
    InvHolds(caps, states, run, j);
    assert PcOk(states[j], states[j].threads[t]);
    CellWasStored(caps, states, run, i + 1, j, key);
    forall k | i < k < j && Stores(states[k], run[k], key, states[j].table[key]) ensures !Holds(states[j], key, cell) {
      PointersGrow(caps, states, run, i, k);
    }
  }

  /** Under every interleaving, what a visit reports is what it removes unconfirmed,
      exactly when the certificate it was shown is still the entry stored and the
      entry it removes is no certificate stored in between. The first failure reports
      what is not removed, the second removes what is not reported. */
  lemma ReportsWhatItRemoves(caps: Caps, states: seq<Sys>, run: seq<Action>, i: nat, j: nat, t: nat, key: Key,
                             cutoff: int)
    requires Visits(caps, states, run, i, j, t, key, cutoff)
    ensures PcOf(states[j], t).key == key && PcOf(states[j], t).cell.entry.lastActivity < cutoff
    ensures var report, due := Report(PcOf(states[j], t)), Due(states[j], key);
            && (report == due <==> !Outdated(states[j], key, PcOf(states[j], t).cell) && !Late(states, run, i, j, key))
            && (report.Some? && report != due <==> Outdated(states[j], key, PcOf(states[j], t).cell))
            && (due.Some? && report != due <==> Late(states, run, i, j, key))
  {
    SeenIsStored(caps, states, run, i, j, t, key, cutoff);
    assert states[i + 1] == Next(states[i], run[i]);
  }

  /** The second failure: cleanup has been shown an open entry and another thread is
      about to store the certificate issued for it. The certificate is then removed and
      nobody is told. */
  lemma IssuedDuringCleanup(s: Sys, t: nat, other: nat, key: Key, cell: Cell, u: Update, now: int)
    requires PcOf(s, t) == Seen(key, cell) && PcOf(s, other) == Loaded(key, cell, u)
    requires Open(cell.entry) && Holds(s, key, cell) && u.ToIssued?
    ensures var issued := Next(s, Run(other, now));
            && Due(issued, key).Some? && Due(issued, key).value.entry == Updated(key, u, now)
            && PcOf(issued, t).Seen? && Report(PcOf(issued, t)) == None
            && key !in Next(issued, Run(t, now)).table
  {
    var issued := Next(s, Run(other, now));
    assert issued.table[key].entry == Updated(key, u, now) && PcOf(issued, t) == Seen(key, cell);
  }

  // ---------------------------------------------------------------------------
  // At most one verdict
  // ---------------------------------------------------------------------------

  /** The step gives the CA a verdict on the certificate of this life: a confirmation
      that it takes, or the report of a cleanup visit whose removal succeeds. */
  predicate Tells(s: Sys, a: Action, key: Key, life: nat) {
    var pc := PcOf(s, a.thread);
    && a.Run? && Inside(pc, key, life)
    && ((pc.Judging? && pc.taken) || (pc.Seen? && Unconfirmed(pc.cell.entry) && key in s.table))
  }

  /** The thread is inside a confirmation or a cleanup visit that saw this life. */
  predicate Inside(pc: Pc, key: Key, life: nat) {
    (pc.Judging? || pc.Judged? || pc.Seen?) && pc.key == key && pc.cell.life == life
  }

  predicate IsJudged(pc: Pc, key: Key, life: nat) {
    pc.Judged? && pc.key == key && pc.cell.life == life
  }

  /** Nobody holds this life any more, and the thread has nothing to say about it. */
  predicate Over(s: Sys, t: nat, key: Key, life: nat) {
    !Lives(s, key, life) && !Inside(PcOf(s, t), key, life)
  }

  /** The thread is about to remove the key, or the life is over. */
  predicate Settled(s: Sys, t: nat, key: Key, life: nat) {
    IsJudged(PcOf(s, t), key, life) || Over(s, t, key, life)
  }

  lemma EnterStep(s: Sys, a: Action, t: nat, key: Key, life: nat)
    requires Inside(PcOf(Next(s, a), t), key, life) && !Inside(PcOf(s, t), key, life)
    ensures a.Begin? && a.thread == t && PcOf(s, t).Idle? && Lives(s, key, life)
  {
  }

  /** The step in which a thread saw the life it is concerned with. */
  lemma {:induction false} InsideSince(caps: Caps, states: seq<Sys>, run: seq<Action>, j: nat, t: nat, key: Key,
                                       life: nat)
    returns (b: nat)
    requires Trace(caps, states, run) && j < |states| && Inside(PcOf(states[j], t), key, life)
    ensures b < j && run[b].Begin? && run[b].thread == t && PcOf(states[b], t).Idle? && Lives(states[b], key, life)
    ensures forall m :: b < m <= j ==> Inside(PcOf(states[m], t), key, life)
  {
    assert j > 0;
    assert states[j - 1 + 1] == Next(states[j - 1], run[j - 1]);
    if Inside(PcOf(states[j - 1], t), key, life) {
      b := InsideSince(caps, states, run, j - 1, t, key, life);
    } else {
      EnterStep(states[j - 1], run[j - 1], t, key, life);
      b := j - 1;
    }
  }

  lemma AfterTelling(s: Sys, a: Action, key: Key, life: nat)
    requires Tells(s, a, key, life)
    ensures Settled(Next(s, a), a.thread, key, life)
  {
  }

  lemma AfterJudging(s: Sys, a: Action, t: nat, key: Key, life: nat)
    requires Cells(s) && life < s.nextLife
    requires Settled(s, t, key, life)
    ensures Settled(Next(s, a), t, key, life)
  {
    if Lives(Next(s, a), key, life) {
      StepTransition(s, a, key, life);
    }
  }

  /** The life a thread has told the CA about began before. */
  lemma ToldLifeBegan(caps: Caps, states: seq<Sys>, run: seq<Action>, i: nat, m: nat, key: Key, life: nat)
    requires Trace(caps, states, run) && i < |run| && i <= m < |states| && Tells(states[i], run[i], key, life)
    ensures life < states[m].nextLife
  {
    var b := InsideSince(caps, states, run, i, run[i].thread, key, life);
    LifeBelow(caps, states, run, b, key, life);
    LivesGrow(caps, states, run, b, m);
  }

  lemma SettledStep(caps: Caps, states: seq<Sys>, run: seq<Action>, m: nat, t: nat, key: Key, life: nat)
    requires Trace(caps, states, run) && m < |run| && life < states[m].nextLife && Settled(states[m], t, key, life)
    ensures Settled(states[m + 1], t, key, life)
  {
    InvHolds(caps, states, run, m);
    AfterJudging(states[m], run[m], t, key, life);
    assert states[m + 1] == Next(states[m], run[m]);
  }

  lemma SettledFirst(caps: Caps, states: seq<Sys>, run: seq<Action>, i: nat, key: Key, life: nat)
    requires Trace(caps, states, run) && i < |run| && Tells(states[i], run[i], key, life)
    ensures Settled(states[i + 1], run[i].thread, key, life)
  {
    AfterTelling(states[i], run[i], key, life);
    assert states[i + 1] == Next(states[i], run[i]);
  }

  /** Once a thread has told the CA, this stays so. */
  lemma {:induction false} ToldIsSettled(caps: Caps, states: seq<Sys>, run: seq<Action>, i: nat, m: nat, key: Key,
                                         life: nat)
    requires Trace(caps, states, run) && i < |run| && i < m < |states| && Tells(states[i], run[i], key, life)
    ensures Settled(states[m], run[i].thread, key, life)
  {
    if m == i + 1 {
      SettledFirst(caps, states, run, i, key, life);
    } else {
      ToldIsSettled(caps, states, run, i, m - 1, key, life);
      ToldLifeBegan(caps, states, run, i, m - 1, key, life);
      SettledStep(caps, states, run, m - 1, run[i].thread, key, life);
    }
  }

  /** Two threads are inside such operations on one life at the same time. */
  predicate Overlap(s: Sys, t: nat, other: nat, key: Key, life: nat) {
    t != other && Inside(PcOf(s, t), key, life) && Inside(PcOf(s, other), key, life)
  }

  /** The CA hears two verdicts on one issued certificate only from two confirmations
      or cleanup visits that overlap. */
  lemma SecondVerdictOverlaps(caps: Caps, states: seq<Sys>, run: seq<Action>, i: nat, j: nat, key: Key, life: nat)
    requires Trace(caps, states, run) && i < j < |run|
    requires Tells(states[i], run[i], key, life) && Tells(states[j], run[j], key, life)
    ensures exists m :: i <= m <= j && Overlap(states[m], run[i].thread, run[j].thread, key, life)
  {
    var t, other := run[i].thread, run[j].thread;
    var b := InsideSince(caps, states, run, j, other, key, life);
    ToldIsSettled(caps, states, run, i, j, key, life);
    assert t != other;
    if b < i {
      assert Overlap(states[i], t, other, key, life);
    } else {
      ToldIsSettled(caps, states, run, i, b, key, life);
      assert states[b + 1] == Next(states[b], run[b]);
      assert Overlap(states[b + 1], t, other, key, life);
    }
  }

  /** When no two of them overlap on it, the CA hears at most one verdict on each
      certificate in the table. */
  lemma OneVerdictWithoutOverlap(caps: Caps, states: seq<Sys>, run: seq<Action>, key: Key, life: nat)
    requires Trace(caps, states, run)
    requires forall m, t, other :: 0 <= m < |states| ==> !Overlap(states[m], t, other, key, life)
    ensures forall i, j :: 0 <= i < j < |run| && Tells(states[i], run[i], key, life) ==>
            !Tells(states[j], run[j], key, life)
  {
    forall i, j | 0 <= i < j < |run| && Tells(states[i], run[i], key, life)
      ensures !Tells(states[j], run[j], key, life)
    {
      if Tells(states[j], run[j], key, life) {
        SecondVerdictOverlaps(caps, states, run, i, j, key, life);
      }
    }
  }

  // ---------------------------------------------------------------------------
  // Runs in which it goes wrong
  // ---------------------------------------------------------------------------

  /** A run and one that continues it. */
  ghost predicate Continues(caps: Caps, states: seq<Sys>, run: seq<Action>, states': seq<Sys>, run': seq<Action>) {
    && Trace(caps, states, run) && Trace(caps, states', run')
    && |states| <= |states'| && (forall m :: 0 <= m < |states| ==> states'[m] == states[m])
    && |run| <= |run'| && (forall m :: 0 <= m < |run| ==> run'[m] == run[m])
  }

  lemma Longer(caps: Caps, states: seq<Sys>, run: seq<Action>, a: Action) returns (states': seq<Sys>, run': seq<Action>)
    requires Trace(caps, states, run)
    ensures Continues(caps, states, run, states', run')
    ensures run' == run + [a] && states'[|run'|] == Next(states[|run|], a)
  {
    states', run' := states + [Next(states[|run|], a)], run + [a];
    forall i | 0 <= i < |run'| ensures states'[i + 1] == Next(states'[i], run'[i]) {
      assert i < |run| ==> states[i + 1] == Next(states[i], run[i]);
    }
  }

  lemma ContinuesFurther(caps: Caps, s0: seq<Sys>, r0: seq<Action>, s1: seq<Sys>, r1: seq<Action>, s2: seq<Sys>,
                         r2: seq<Action>)
    requires Continues(caps, s0, r0, s1, r1) && Continues(caps, s1, r1, s2, r2)
    ensures Continues(caps, s0, r0, s2, r2)
  {
  }

  /** A thread goes on alone. */
  lemma {:induction false} LongerAlone(caps: Caps, states: seq<Sys>, run: seq<Action>, t: nat, now: int, n: nat)
    returns (states': seq<Sys>, run': seq<Action>)
    requires Trace(caps, states, run)
    ensures Continues(caps, states, run, states', run') && states'[|run'|] == Alone(states[|run|], t, now, n)
    ensures forall other :: other != t ==> PcOf(states'[|run'|], other) == PcOf(states[|run|], other)
    decreases n
  {
    if n == 0 {
      states', run' := states, run;
    } else {
      var s1, r1 := Longer(caps, states, run, Run(t, now));
      states', run' := LongerAlone(caps, s1, r1, t, now, n - 1);
      ContinuesFurther(caps, states, run, s1, r1, states', run');
    }
  }

  /** A thread ends its operation alone. */
  lemma LongerEnds(caps: Caps, states: seq<Sys>, run: seq<Action>, t: nat, now: int, result: Table)
    returns (states': seq<Sys>, run': seq<Action>)
    requires Trace(caps, states, run) && Ends(states[|run|], t, now, result)
    ensures Continues(caps, states, run, states', run')
    ensures PcOf(states'[|run'|], t).Idle? && Same(View(states'[|run'|]), result)
    ensures forall other :: other != t ==> PcOf(states'[|run'|], other) == PcOf(states[|run|], other)
  {
    var s := states[|run|];
    var n: nat :| PcOf(Alone(s, t, now, n), t).Idle? && Same(View(Alone(s, t, now, n)), result);
    states', run' := LongerAlone(caps, states, run, t, now, n);
  }

  /** A thread does a whole operation alone. */
  lemma Does(caps: Caps, states: seq<Sys>, run: seq<Action>, t: nat, op: Op, result: Table)
    returns (states': seq<Sys>, run': seq<Action>)
    requires Trace(caps, states, run) && Ends(Next(states[|run|], Begin(t, op)), t, 0, result)
    ensures Continues(caps, states, run, states', run')
    ensures PcOf(states'[|run'|], t).Idle? && Same(View(states'[|run'|]), result)
    ensures forall other :: other != t ==> PcOf(states'[|run'|], other) == PcOf(states[|run|], other)
  {
    var s1, r1 := Longer(caps, states, run, Begin(t, op));
    states', run' := LongerEnds(caps, s1, r1, t, 0, result);
    ContinuesFurther(caps, states, run, s1, r1, states', run');
  }

  const ROOM := Caps(1, 1)

  lemma CapsStay(caps: Caps, states: seq<Sys>, run: seq<Action>)
    requires Trace(caps, states, run)
    ensures states[|run|].caps == caps
  {
    InvHolds(caps, states, run, |run|);
  }

  /** The only transaction of a table, and the counters. */
  predicate Only(t: Table, key: Key, e: Entry) {
    t.entries == map[key := e] && t.count == 1 && CredCount(t, key.cred) == 1
  }

  /** Thread 0 starts a transaction in an empty table. */
  lemma Starts(key: Key, states: seq<Sys>, run: seq<Action>) returns (states': seq<Sys>, run': seq<Action>)
    requires Trace(ROOM, states, run) && PcOf(states[|run|], 0).Idle?
    requires var t := View(states[|run|]); t.entries == map[] && t.count == 0 && CredCount(t, key.cred) == 0
    ensures Continues(ROOM, states, run, states', run') && PcOf(states'[|run'|], 0).Idle?
    ensures Only(View(states'[|run'|]), key, NewEntry(Active, key.cred, 0))
    ensures forall other :: other != 0 ==> PcOf(states'[|run'|], other) == PcOf(states[|run|], other)
  {
    var s := states[|run|];
    CapsStay(ROOM, states, run);
    AloneStart(s, 0, key, 0);
    states', run' := Does(ROOM, states, run, 0, OpStart(key), Start(View(s), ROOM, key, 0).0);
  }

  /** An active transaction, and nobody at work. */
  lemma ActiveRun(key: Key) returns (states: seq<Sys>, run: seq<Action>)
    ensures Trace(ROOM, states, run) && Only(View(states[|run|]), key, NewEntry(Active, key.cred, 0))
    ensures forall t :: PcOf(states[|run|], t).Idle?
  {
    var s0 := [Init(ROOM)];
    states, run := Starts(key, s0, []);
  }

  /** An issued certificate, and nobody at work. */
  lemma IssuedRun(key: Key, u: Update) returns (states: seq<Sys>, run: seq<Action>)
    requires u.ToIssued?
    ensures Trace(ROOM, states, run) && Only(View(states[|run|]), key, Updated(key, u, 0))
    ensures forall t :: PcOf(states[|run|], t).Idle?
  {
    var s1, r1 := ActiveRun(key);
    AloneSet(s1[|r1|], 0, key, u, 0);
    states, run := Does(ROOM, s1, r1, 0, OpSet(key, u), Set(View(s1[|r1|]), key, u, 0).0);
    assert map[key := NewEntry(Active, key.cred, 0)][key := Updated(key, u, 0)] == map[key := Updated(key, u, 0)];
  }

  /** A step that only looks. */
  lemma Looks(caps: Caps, states: seq<Sys>, run: seq<Action>, a: Action, pc: Pc)
    returns (states': seq<Sys>, run': seq<Action>)
    requires Trace(caps, states, run) && EffectOf(states[|run|], a) == Stay(pc)
    ensures Continues(caps, states, run, states', run') && run' == run + [a]
    ensures var s, s' := states[|run|], states'[|run'|];
            && s'.table == s.table && Same(View(s'), View(s)) && PcOf(s', a.thread) == pc
            && forall other :: other != a.thread ==> PcOf(s', other) == PcOf(s, other)
  {
    states', run' := Longer(caps, states, run, a);
  }

  lemma HeldCell(s: Sys, key: Key, e: Entry)
    requires Only(View(s), key, e)
    ensures key in s.table && s.table[key].entry == e
  {
    assert key in View(s).entries;
  }

  /** A run that leads to the situation of IssuedDuringCleanup. */
  lemma IssuedDuringCleanupHappens(key: Key, u: Update) returns (states: seq<Sys>, run: seq<Action>, cell: Cell)
    requires u.ToIssued?
    ensures Trace(ROOM, states, run)
    ensures PcOf(states[|run|], 1) == Seen(key, cell) && PcOf(states[|run|], 0) == Loaded(key, cell, u)
    ensures Open(cell.entry) && Holds(states[|run|], key, cell)
  {
    var s1, r1 := ActiveRun(key);
    HeldCell(s1[|r1|], key, NewEntry(Active, key.cred, 0));
    cell := s1[|r1|].table[key];
    var s2, r2 := Looks(ROOM, s1, r1, Begin(1, OpExpire(key, 5)), Seen(key, cell));
    states, run := Looks(ROOM, s2, r2, Begin(0, OpSet(key, u)), Loaded(key, cell, u));
  }

  /** A certificate is confirmed while cleanup looks at it. */
  lemma ConfirmedRun(key: Key, u: Update) returns (states: seq<Sys>, run: seq<Action>, i: nat, cell: Cell)
    requires u.ToIssued?
    ensures Trace(ROOM, states, run) && i < |run| && Tells(states[i], run[i], key, cell.life)
    ensures PcOf(states[|run|], 0) == Judged(key, cell) && PcOf(states[|run|], 1) == Seen(key, cell)
    ensures cell.entry == Updated(key, u, 0) && Only(View(states[|run|]), key, cell.entry)
  {
    var s1, r1 := IssuedRun(key, u);
    HeldCell(s1[|r1|], key, Updated(key, u, 0));
    cell := s1[|r1|].table[key];
    var s2, r2 := Looks(ROOM, s1, r1, Begin(1, OpExpire(key, 5)), Seen(key, cell));
    var s3, r3 := Looks(ROOM, s2, r2, Begin(0, OpConfirm(key, true)), Judging(key, cell, true));
    states, run := Looks(ROOM, s3, r3, Run(0, 0), Judged(key, cell));
    i := |r3|;
    assert states[i] == s3[i];
  }

  /** The first failure: a certificate is confirmed while cleanup looks at it, and its
      key is used again. Cleanup removes the new transaction and reports the confirmed
      certificate as expired. */
  lemma ConfirmedDuringCleanup(key: Key, u: Update) returns (states: seq<Sys>, run: seq<Action>, i: nat, cell: Cell)
    requires u.ToIssued?
    ensures Trace(ROOM, states, run) && i < |run| && Tells(states[i], run[i], key, cell.life)
    ensures PcOf(states[|run|], 1) == Seen(key, cell) && cell.entry == Updated(key, u, 0)
    ensures Tells(states[|run|], Run(1, 0), key, cell.life)
    ensures Report(PcOf(states[|run|], 1)) == Some(cell) && Due(states[|run|], key) == None
            && key in states[|run|].table
  {
    var s, r;
    s, r, i, cell := ConfirmedRun(key, u);
    states, run := RemovedAndReused(key, cell, s, r);
    assert states[i] == s[i] && run[i] == r[i];
    HeldCell(states[|run|], key, NewEntry(Active, key.cred, 0));
  }

  /** The confirmation ends and the key is used again. */
  lemma RemovedAndReused(key: Key, cell: Cell, s: seq<Sys>, r: seq<Action>) returns (states: seq<Sys>, run: seq<Action>)
    requires Trace(ROOM, s, r) && PcOf(s[|r|], 0) == Judged(key, cell) && Only(View(s[|r|]), key, cell.entry)
    requires cell.entry.cred == key.cred
    ensures Continues(ROOM, s, r, states, run) && PcOf(states[|run|], 1) == PcOf(s[|r|], 1)
    ensures Only(View(states[|run|]), key, NewEntry(Active, key.cred, 0))
  {
    EndJudged(s[|r|], 0, key, 0);
    var s1, r1 := LongerEnds(ROOM, s, r, 0, 0, Delete(View(s[|r|]), key));
    assert map[key := cell.entry] - {key} == map[];
    assert CredCount(View(s1[|r1|]), key.cred) == 0;
    states, run := Starts(key, s1, r1);
    ContinuesFurther(ROOM, s, r, s1, r1, states, run);
  }

  /** Wherever two confirmations that the CA takes have loaded one life, it hears both. */
  lemma OverlapTellsTwice(s: Sys, t: nat, other: nat, key: Key, life: nat, now: int)
    requires Overlap(s, t, other, key, life)
    requires PcOf(s, t).Judging? && PcOf(s, t).taken && PcOf(s, other).Judging? && PcOf(s, other).taken
    ensures Tells(s, Run(t, now), key, life) && Tells(Next(s, Run(t, now)), Run(other, now), key, life)
  {
    assert PcOf(Next(s, Run(t, now)), other) == PcOf(s, other);
  }

  /** A run with two confirmations that overlap and both reach the CA. */
  lemma TwoVerdicts(key: Key, u: Update) returns (states: seq<Sys>, run: seq<Action>, i: nat, j: nat, life: nat)
    requires u.ToIssued?
    ensures Trace(ROOM, states, run) && i < j < |run|
    ensures Tells(states[i], run[i], key, life) && Tells(states[j], run[j], key, life)
  {
    var s1, r1 := IssuedRun(key, u);
    HeldCell(s1[|r1|], key, Updated(key, u, 0));
    var cell := s1[|r1|].table[key];
    life, i, j := cell.life, |r1| + 2, |r1| + 3;
    var s2, r2 := Looks(ROOM, s1, r1, Begin(0, OpConfirm(key, true)), Judging(key, cell, true));
    var s3, r3 := Looks(ROOM, s2, r2, Begin(1, OpConfirm(key, true)), Judging(key, cell, true));
    var s4, r4 := Looks(ROOM, s3, r3, Run(0, 0), Judged(key, cell));
    states, run := Looks(ROOM, s4, r4, Run(1, 0), Judged(key, cell));
    assert states[i] == s4[i] == s3[i] && states[j] == s4[j];
  }
}
