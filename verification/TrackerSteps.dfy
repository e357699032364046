/**
  The same table under every interleaving of concurrent requests
  (server/transaction.go).

  Each method of the tracker is cut into its atomic operations on the shared maps
  and counters. A stored value is a pointer: two cells are the same exactly when
  their pointers are, which is what CompareAndSwap compares. `life` numbers the
  insertions, so it tells one stay of a key in the table from the next.
 */
module TrackerSteps {
  import opened Counting
  import opened Types
  import opened Tracker

  datatype Cell = Cell(ptr: nat, life: nat, entry: Entry)

  datatype Op =
    | OpStart(key: Key)
    | OpSet(key: Key, u: Update)
    | OpComplete(key: Key)
    | OpDelete(key: Key)
    | OpExpire(key: Key, cutoff: int)    // one visit of Range in cleanupExpired
    | OpConfirm(key: Key, taken: bool)   // handleCertConf with good statuses; the CA takes the verdict or fails

  /** Where a thread stands inside an operation. */
  datatype Pc =
    | Idle
    | Counted(key: Key, n: int)         // count.Add(1) returned n
    | CredCounted(key: Key, n: int)     // credCount.Add(1) returned n
    | ReleaseCred(key: Key)             // credCount.Add(-1) and count.Add(-1) are due
    | ReleaseCount(key: Key)            // count.Add(-1) is due
    | Loaded(key: Key, cell: Cell, u: Update)
    | Completing(key: Key)              // about to Load in the retry loop
    | CompleteLoaded(key: Key, cell: Cell)
    | Seen(key: Key, cell: Cell)        // Range showed this expired entry
    | Judging(key: Key, cell: Cell, taken: bool) // getIssued found this entry, the CA is about to hear the verdict
    | Judged(key: Key, cell: Cell)      // the CA took the verdict, the removal is due
    | Removed(cred: Bytes)              // entry removed, both decrements are due
    | RemovedCounted(cred: Bytes)       // entry removed, credCount.Add(-1) is due

  datatype Sys = Sys(
    caps: Caps,
    table: map<Key, Cell>,
    count: int,
    credCounts: map<Bytes, int>,
    threads: map<nat, Pc>,
    nextPtr: nat,
    nextLife: nat)

  datatype Action = Begin(thread: nat, op: Op) | Run(thread: nat, now: int)

  function PcOf(s: Sys, thread: nat): Pc {
    if thread in s.threads then s.threads[thread] else Idle
  }

  predicate Holds(s: Sys, key: Key, cell: Cell) {
    key in s.table && s.table[key].ptr == cell.ptr
  }

  /** What one atomic operation does: where it leaves the thread, what it does to
      the table and what it adds to the counters. A Put stores a fresh pointer. */
  datatype Change = Keep | Put(key: Key, life: nat, entry: Entry) | Drop(key: Key)
  datatype Effect = Effect(pc: Pc, change: Change, dCount: int, cred: Bytes, dCred: int)

  function Stay(pc: Pc): Effect {
    Effect(pc, Keep, 0, [], 0)
  }

  /** The first atomic operation of each method. */
  function First(s: Sys, op: Op): Effect {
    match op
    case OpStart(key) => Effect(Counted(key, s.count + 1), Keep, 1, [], 0)
    case OpSet(key, u) =>
      if key in s.table && Open(s.table[key].entry) then Stay(Loaded(key, s.table[key], u)) else Stay(Idle)
    case OpComplete(key) => Stay(Completing(key))
    case OpDelete(key) =>
      if key in s.table then Effect(Removed(s.table[key].entry.cred), Drop(key), 0, [], 0) else Stay(Idle)
    case OpExpire(key, cutoff) =>
      if key in s.table && s.table[key].entry.lastActivity < cutoff
      then Stay(Seen(key, s.table[key])) else Stay(Idle)
    case OpConfirm(key, taken) =>
      if key in s.table && s.table[key].entry.state == Issued
      then Stay(Judging(key, s.table[key], taken)) else Stay(Idle)
  }

  /** The next atomic operation of a thread. */
  function Advance(s: Sys, pc: Pc, now: int): Effect {
    match pc
    case Idle => Stay(Idle)
    case Counted(key, n) =>
      if n > s.caps.total then Effect(Idle, Keep, -1, [], 0)
      else Effect(CredCounted(key, CountOf(s.credCounts, key.cred) + 1), Keep, 0, key.cred, 1)
    case CredCounted(key, n) =>
      if n > s.caps.perCredential then Effect(ReleaseCount(key), Keep, 0, key.cred, -1)
      else if key in s.table then Stay(ReleaseCred(key))
      else Effect(Idle, Put(key, s.nextLife, NewEntry(Active, key.cred, now)), 0, [], 0)
    case ReleaseCred(key) => Effect(ReleaseCount(key), Keep, 0, key.cred, -1)
    case ReleaseCount(key) => Effect(Idle, Keep, -1, [], 0)
    case Loaded(key, cell, u) =>
      Effect(Idle, if Holds(s, key, cell) then Put(key, cell.life, Updated(key, u, now)) else Keep, 0, [], 0)
    case Completing(key) =>
      Stay(if key in s.table then CompleteLoaded(key, s.table[key]) else Idle)
    case CompleteLoaded(key, cell) =>
      if Holds(s, key, cell) then Effect(Idle, Put(key, cell.life, Done(cell.entry, now)), 0, [], 0)
      else Stay(Completing(key))
    case Seen(key, cell) =>
      if key in s.table then Effect(Removed(cell.entry.cred), Drop(key), 0, [], 0) else Stay(Idle)
    case Judging(key, cell, taken) => Stay(if taken then Judged(key, cell) else Idle)
    case Judged(key, _) =>
      if key in s.table then Effect(Removed(s.table[key].entry.cred), Drop(key), 0, [], 0) else Stay(Idle)
    case Removed(cred) => Effect(RemovedCounted(cred), Keep, -1, [], 0)
    case RemovedCounted(cred) => Effect(Idle, Keep, 0, cred, -1)
  }

  function EffectOf(s: Sys, a: Action): Effect {
    var pc := PcOf(s, a.thread);
    match a
    case Begin(_, op) => if pc.Idle? then First(s, op) else Stay(pc)
    case Run(_, now) => Advance(s, pc, now)
  }

  function TableAfter(s: Sys, c: Change): map<Key, Cell> {
    match c
    case Keep => s.table
    case Put(key, life, entry) => s.table[key := Cell(s.nextPtr, life, entry)]
    case Drop(key) => s.table - {key}
  }

  function Apply(s: Sys, t: nat, e: Effect): Sys {
    Sys(s.caps, TableAfter(s, e.change), s.count + e.dCount,
        s.credCounts[e.cred := CountOf(s.credCounts, e.cred) + e.dCred],
        s.threads[t := e.pc],
        s.nextPtr + (if e.change.Put? then 1 else 0),
        if e.change.Put? && e.change.life == s.nextLife then s.nextLife + 1 else s.nextLife)
  }

  function Next(s: Sys, a: Action): Sys {
    Apply(s, a.thread, EffectOf(s, a))
  }

  function Init(caps: Caps): Sys {
    Sys(caps, map[], 0, map[], map[], 0, 0)
  }

  /** A run of any threads through any operations in any order, state by state. */
  ghost predicate Trace(caps: Caps, states: seq<Sys>, run: seq<Action>) {
    && |states| == |run| + 1
    && states[0] == Init(caps)
    && forall i :: 0 <= i < |run| ==> states[i + 1] == Next(states[i], run[i])
  }

  // ---------------------------------------------------------------------------
  // Counters and capacity
  // ---------------------------------------------------------------------------

  /** Threads whose next operations still owe the global counter a decrement. */
  predicate OwesCount(pc: Pc) {
    pc.Counted? || pc.CredCounted? || pc.ReleaseCred? || pc.ReleaseCount? || pc.Removed?
  }

  predicate OwesCred(pc: Pc, cred: Bytes) {
    || ((pc.CredCounted? || pc.ReleaseCred?) && pc.key.cred == cred)
    || ((pc.Removed? || pc.RemovedCounted?) && pc.cred == cred)
  }

  /** Threads that hold a reservation and may still store. */
  predicate Reserves(pc: Pc, caps: Caps) {
    pc.CredCounted? || (pc.Counted? && pc.n <= caps.total)
  }

  predicate ReservesCred(pc: Pc, caps: Caps, cred: Bytes) {
    pc.CredCounted? && pc.key.cred == cred && pc.n <= caps.perCredential
  }

  ghost function Owing(s: Sys): nat {
    Tally(s.threads, pc => OwesCount(pc))
  }

  ghost function OwingCred(s: Sys, cred: Bytes): nat {
    Tally(s.threads, pc => OwesCred(pc, cred))
  }

  ghost function Reserved(s: Sys): nat {
    Tally(s.threads, pc => Reserves(pc, s.caps))
  }

  ghost function ReservedCred(s: Sys, cred: Bytes): nat {
    Tally(s.threads, pc => ReservesCred(pc, s.caps, cred))
  }

  /** Every counter is its table size plus what threads in mid-operation owe it, and
      entries plus live reservations never exceed a cap. */
  ghost predicate Counters(s: Sys) {
    && s.count == |s.table| + Owing(s)
    && (|s.table| + Reserved(s) <= s.caps.total || |s.table| + Reserved(s) == 0)
    && (forall c :: CredCounter(s, c))
  }

  ghost predicate CredCounter(s: Sys, c: Bytes) {
    var size := |KeysOf(s.table.Keys, c)|;
    && CountOf(s.credCounts, c) == size + OwingCred(s, c)
    && (size + ReservedCred(s, c) <= s.caps.perCredential || size + ReservedCred(s, c) == 0)
  }

  /** A loaded cell is the stored one whenever the pointers agree, and every entry
      and every removal in progress belongs to the credential of its key. */
  ghost predicate CellOf(s: Sys, key: Key, cell: Cell) {
    && cell.ptr < s.nextPtr && cell.entry.cred == key.cred
    && (Holds(s, key, cell) ==> s.table[key] == cell)
  }

  ghost predicate PcOk(s: Sys, pc: Pc) {
    match pc
    case Loaded(key, cell, _) => CellOf(s, key, cell) && Open(cell.entry)
    case CompleteLoaded(key, cell) => CellOf(s, key, cell)
    case Seen(key, cell) => CellOf(s, key, cell)
    case _ => true
  }

  ghost predicate Cells(s: Sys) {
    && (forall k :: k in s.table ==> CellOf(s, k, s.table[k]) && s.table[k].life < s.nextLife)
    && (forall t :: t in s.threads ==> PcOk(s, s.threads[t]))
  }

  ghost predicate Inv(s: Sys) {
    Cells(s) && Counters(s)
  }

  lemma TallyStep(s: Sys, s': Sys, t: nat, pc: Pc)
    requires s'.threads == s.threads[t := pc] && s'.caps == s.caps
    ensures Owing(s') == Owing(s) - Unit(OwesCount(PcOf(s, t))) + Unit(OwesCount(pc))
    ensures Reserved(s') == Reserved(s) - Unit(Reserves(PcOf(s, t), s.caps)) + Unit(Reserves(pc, s.caps))
  {
    TallyUpdate(s.threads, t, pc, pc => OwesCount(pc));
    TallyUpdate(s.threads, t, pc, pc => Reserves(pc, s.caps));
  }

  lemma CredTallyStep(s: Sys, s': Sys, t: nat, pc: Pc, c: Bytes)
    requires s'.threads == s.threads[t := pc] && s'.caps == s.caps
    ensures OwingCred(s', c) == OwingCred(s, c) - Unit(OwesCred(PcOf(s, t), c)) + Unit(OwesCred(pc, c))
    ensures ReservedCred(s', c)
         == ReservedCred(s, c) - Unit(ReservesCred(PcOf(s, t), s.caps, c)) + Unit(ReservesCred(pc, s.caps, c))
  {
    TallyUpdate(s.threads, t, pc, pc => OwesCred(pc, c));
    TallyUpdate(s.threads, t, pc, pc => ReservesCred(pc, s.caps, c));
  }

  /** Reservations are among the operations in progress. */
  lemma ReservedOwe(s: Sys, c: Bytes)
    ensures Reserved(s) <= Owing(s) && ReservedCred(s, c) <= OwingCred(s, c)
  {
    SubsetSize(Where(s.threads, pc => Reserves(pc, s.caps)), Where(s.threads, pc => OwesCount(pc)));
    SubsetSize(Where(s.threads, pc => ReservesCred(pc, s.caps, c)), Where(s.threads, pc => OwesCred(pc, c)));
  }

  /** By how much a change grows the table. */
  function Growth(s: Sys, c: Change): int {
    match c
    case Keep => 0
    case Put(key, _, _) => if key in s.table then 0 else 1
    case Drop(key) => if key in s.table then -1 else 0
  }

  function CredGrowth(s: Sys, c: Change, cred: Bytes): int {
    if c.Keep? || c.key.cred != cred then 0 else Growth(s, c)
  }

  lemma GrowthIsSize(s: Sys, c: Change, cred: Bytes)
    ensures |TableAfter(s, c)| == |s.table| + Growth(s, c)
    ensures |KeysOf(TableAfter(s, c).Keys, cred)| == |KeysOf(s.table.Keys, cred)| + CredGrowth(s, c, cred)
  {
    if c.Put? {
      PutKeys(s.table, c.key, Cell(s.nextPtr, c.life, c.entry));
      KeysGrow(s.table.Keys, c.key, cred);
    } else if c.Drop? {
      DropKeys(s.table, c.key);
      KeysGrow(s.table.Keys, c.key, cred);
    }
  }

  lemma PutKeys<V>(m: map<Key, V>, key: Key, v: V)
    ensures m[key := v].Keys == m.Keys + {key} && |m[key := v]| == |m.Keys + {key}|
  {
  }

  lemma DropKeys<V>(m: map<Key, V>, key: Key)
    ensures (m - {key}).Keys == m.Keys - {key} && |m - {key}| == |m.Keys - {key}|
  {
  }

  lemma KeysGrow(keys: set<Key>, key: Key, cred: Bytes)
    ensures |keys + {key}| == |keys| + Unit(key !in keys) && |keys - {key}| == |keys| - Unit(key in keys)
    ensures |KeysOf(keys + {key}, cred)| == |KeysOf(keys, cred)| + Unit(key.cred == cred && key !in keys)
    ensures |KeysOf(keys - {key}, cred)| == |KeysOf(keys, cred)| - Unit(key.cred == cred && key in keys)
  {
    KeysAfter(keys, key, cred);
  }

  /** An atomic operation adds to each counter exactly what it does to the table and
      to the debts, and takes a reservation only below the cap. */
  ghost predicate Balanced(s: Sys, pc: Pc, e: Effect) {
    var reserve := Growth(s, e.change) + Unit(Reserves(e.pc, s.caps)) - Unit(Reserves(pc, s.caps));
    && e.dCount == Growth(s, e.change) + Unit(OwesCount(e.pc)) - Unit(OwesCount(pc))
    && (reserve <= 0 || (reserve == 1 && s.count + 1 <= s.caps.total))
  }

  ghost predicate CredBalanced(s: Sys, pc: Pc, e: Effect, c: Bytes) {
    var reserve := CredGrowth(s, e.change, c) + Unit(ReservesCred(e.pc, s.caps, c)) - Unit(ReservesCred(pc, s.caps, c));
    && (if e.cred == c then e.dCred else 0)
       == CredGrowth(s, e.change, c) + Unit(OwesCred(e.pc, c)) - Unit(OwesCred(pc, c))
    && (reserve <= 0 || (reserve == 1 && CountOf(s.credCounts, c) + 1 <= s.caps.perCredential))
  }

  lemma EffectsBalance(s: Sys, a: Action)
    requires Cells(s)
    ensures Balanced(s, PcOf(s, a.thread), EffectOf(s, a))
  {
  }

  lemma FirstCredBalances(s: Sys, op: Op, c: Bytes)
    requires Cells(s)
    ensures CredBalanced(s, Idle, First(s, op), c)
  {
  }

  lemma AdvanceCredBalances(s: Sys, pc: Pc, now: int, c: Bytes)
    requires Cells(s) && PcOk(s, pc)
    ensures CredBalanced(s, pc, Advance(s, pc, now), c)
  {
  }

  lemma CredEffectsBalance(s: Sys, a: Action, c: Bytes)
    requires Cells(s)
    ensures CredBalanced(s, PcOf(s, a.thread), EffectOf(s, a), c)
  {
    if a.Run? {
      AdvanceCredBalances(s, PcOf(s, a.thread), a.now, c);
    } else if PcOf(s, a.thread).Idle? {
      FirstCredBalances(s, a.op, c);
    }
  }

  lemma CountersStep(s: Sys, t: nat, e: Effect)
    requires Counters(s) && Balanced(s, PcOf(s, t), e) && forall c :: CredBalanced(s, PcOf(s, t), e, c)
    ensures Counters(Apply(s, t, e))
  {
    var s' := Apply(s, t, e);
    TallyStep(s, s', t, e.pc);
    ReservedOwe(s, []);
    GrowthIsSize(s, e.change, []);
    forall c ensures CredCounter(s', c) {
      CredCounterStep(s, t, e, c);
    }
  }

  lemma CredCounterStep(s: Sys, t: nat, e: Effect, c: Bytes)
    requires CredCounter(s, c) && CredBalanced(s, PcOf(s, t), e, c)
    ensures CredCounter(Apply(s, t, e), c)
  {
    var s' := Apply(s, t, e);
    CredTallyStep(s, s', t, e.pc, c);
    ReservedOwe(s, c);
    GrowthIsSize(s, e.change, c);
  }

  lemma TableCellsStep(s: Sys, a: Action)
    requires Cells(s)
    ensures var s' := Next(s, a);
            forall k :: k in s'.table ==> CellOf(s', k, s'.table[k]) && s'.table[k].life < s'.nextLife
  {
  }

  lemma OtherThreadsStep(s: Sys, a: Action, pc: Pc)
    requires Cells(s) && PcOk(s, pc)
    ensures PcOk(Next(s, a), pc)
  {
  }

  lemma CellsStep(s: Sys, a: Action)
    requires Cells(s)
    ensures Cells(Next(s, a))
  {
    var s' := Next(s, a);
    TableCellsStep(s, a);
    forall t | t in s'.threads ensures PcOk(s', s'.threads[t]) {
      if t != a.thread {
        OtherThreadsStep(s, a, s.threads[t]);
      } else {
        assert PcOk(s, EffectOf(s, a).pc);
        OtherThreadsStep(s, a, EffectOf(s, a).pc);
      }
    }
  }

  lemma InvStep(s: Sys, a: Action)
    requires Inv(s)
    ensures Inv(Next(s, a))
  {
    CellsStep(s, a);
    forall c ensures CredBalanced(s, PcOf(s, a.thread), EffectOf(s, a), c) {
      CredEffectsBalance(s, a, c);
    }
    EffectsBalance(s, a);
    CountersStep(s, a.thread, EffectOf(s, a));
  }

  lemma InitInv(caps: Caps)
    ensures Inv(Init(caps))
  {
    var s := Init(caps);
    forall c ensures CredCounter(s, c) {
      assert KeysOf(s.table.Keys, c) == {};
      assert Where(s.threads, pc => OwesCred(pc, c)) == {};
      assert Where(s.threads, pc => ReservesCred(pc, s.caps, c)) == {};
    }
    assert Where(s.threads, pc => OwesCount(pc)) == {};
    assert Where(s.threads, pc => Reserves(pc, s.caps)) == {};
  }

  lemma {:induction false} InvHolds(caps: Caps, states: seq<Sys>, run: seq<Action>, i: nat)
    requires Trace(caps, states, run) && i < |states|
    ensures Inv(states[i]) && states[i].caps == caps
  {
    if i == 0 {
      InitInv(caps);
    } else {
      InvHolds(caps, states, run, i - 1);
      InvStep(states[i - 1], run[i - 1]);
      assert states[i - 1 + 1] == Next(states[i - 1], run[i - 1]);
    }
  }

  /** No interleaving stores more entries than a cap allows. */
  lemma CapacityNeverExceeded(caps: Caps, states: seq<Sys>, run: seq<Action>, i: nat, cred: Bytes)
    requires Trace(caps, states, run) && i < |states|
    ensures var s := states[i];
            && (|s.table| <= caps.total || s.table == map[])
            && (|KeysOf(s.table.Keys, cred)| <= caps.perCredential || KeysOf(s.table.Keys, cred) == {})
  {
    InvHolds(caps, states, run, i);
    assert CredCounter(states[i], cred);
  }

  /** When no thread is inside an operation, the counters are the table sizes. */
  lemma QuietCountersAreSizes(caps: Caps, states: seq<Sys>, run: seq<Action>, i: nat, cred: Bytes)
    requires Trace(caps, states, run) && i < |states|
    requires forall t :: t in states[i].threads ==> states[i].threads[t].Idle?
    ensures var s := states[i];
            s.count == |s.table| && CountOf(s.credCounts, cred) == |KeysOf(s.table.Keys, cred)|
  {
    InvHolds(caps, states, run, i);
    var s := states[i];
    assert CredCounter(s, cred);
    assert Where(s.threads, pc => OwesCred(pc, cred)) == {};
    assert Where(s.threads, pc => OwesCount(pc)) == {};
  }

  // ---------------------------------------------------------------------------
  // The lifetime of one entry
  // ---------------------------------------------------------------------------

  function Rank(state: TxState): int {
    match state
    case Active => 0
    case Pending => 1
    case Issued => 2
    case Completed => 3
  }

  /** The key holds the entry inserted as number `life`, in this state. */
  predicate LivesIn(s: Sys, key: Key, life: nat, state: TxState) {
    key in s.table && s.table[key].life == life && s.table[key].entry.state == state
  }

  predicate Lives(s: Sys, key: Key, life: nat) {
    key in s.table && s.table[key].life == life
  }

  /** The transitions an entry may make in one step. */
  predicate Allowed(from: TxState, to: TxState) {
    from == to || (Rank(from) <= 1 && to == Pending) || (Rank(from) <= 1 && to == Issued) || to == Completed
  }

  lemma StepTransition(s: Sys, a: Action, key: Key, life: nat)
    requires Cells(s) && Lives(Next(s, a), key, life)
    ensures Lives(s, key, life) || (life == s.nextLife && Next(s, a).table[key].entry.state == Active)
    ensures Lives(s, key, life) ==> Allowed(s.table[key].entry.state, Next(s, a).table[key].entry.state)
    ensures s.nextLife <= Next(s, a).nextLife
  {
  }

  /** While an entry stays in the table it only moves forward, and it does not come
      back after it left: an entry present at two moments was there all along. */
  lemma {:induction false} LifetimeOrder(caps: Caps, states: seq<Sys>, run: seq<Action>, i: nat, j: nat, key: Key,
                                         life: nat)
    requires Trace(caps, states, run) && i <= j < |states|
    requires life < states[i].nextLife && Lives(states[j], key, life)
    ensures Lives(states[i], key, life)
    ensures Rank(states[i].table[key].entry.state) <= Rank(states[j].table[key].entry.state)
    decreases j - i
  {
    if i < j {
      InvHolds(caps, states, run, i);
      assert states[i + 1] == Next(states[i], run[i]);
      LifeNumbersGrow(states[i], run[i]);
      LifetimeOrder(caps, states, run, i + 1, j, key, life);
      StepTransition(states[i], run[i], key, life);
    }
  }

  lemma LifeNumbersGrow(s: Sys, a: Action)
    ensures s.nextLife <= Next(s, a).nextLife
  {
  }

  /** Step number `i` of the run marks the entry issued. */
  ghost predicate IssuesAt(states: seq<Sys>, i: nat, key: Key, life: nat)
    requires i + 1 < |states|
  {
    LivesIn(states[i + 1], key, life, Issued) && !LivesIn(states[i], key, life, Issued)
  }

  /** At most one transition to Issued succeeds in the lifetime of an entry. */
  lemma IssuedAtMostOnce(caps: Caps, states: seq<Sys>, run: seq<Action>, i: nat, j: nat, key: Key, life: nat)
    requires Trace(caps, states, run) && i < j < |run| && IssuesAt(states, i, key, life)
    ensures !IssuesAt(states, j, key, life)
  {
    if LivesIn(states[j + 1], key, life, Issued) {
      LifeBelow(caps, states, run, i + 1, key, life);
      LivesGrow(caps, states, run, i + 1, j);
      LifetimeOrder(caps, states, run, j, j + 1, key, life);
      LifetimeOrder(caps, states, run, i + 1, j, key, life);
    }
  }

  lemma {:induction false} LivesGrow(caps: Caps, states: seq<Sys>, run: seq<Action>, i: nat, j: nat)
    requires Trace(caps, states, run) && i <= j < |states|
    ensures states[i].nextLife <= states[j].nextLife
  {
    if i < j {
      LivesGrow(caps, states, run, i, j - 1);
      assert states[j - 1 + 1] == Next(states[j - 1], run[j - 1]);
      LifeNumbersGrow(states[j - 1], run[j - 1]);
    }
  }

  /** A completed entry stays completed until it is removed. */
  lemma CompletedIsFinal(caps: Caps, states: seq<Sys>, run: seq<Action>, i: nat, j: nat, key: Key, life: nat)
    requires Trace(caps, states, run) && i <= j < |states|
    requires LivesIn(states[i], key, life, Completed) && Lives(states[j], key, life)
    ensures LivesIn(states[j], key, life, Completed)
  {
    LifeBelow(caps, states, run, i, key, life);
    LifetimeOrder(caps, states, run, i, j, key, life);
  }

  lemma LifeBelow(caps: Caps, states: seq<Sys>, run: seq<Action>, i: nat, key: Key, life: nat)
    requires Trace(caps, states, run) && i < |states| && Lives(states[i], key, life)
    ensures life < states[i].nextLife
  {
    InvHolds(caps, states, run, i);
  }

  // ---------------------------------------------------------------------------
  // An operation nobody interrupts does what the operation on tables does
  // ---------------------------------------------------------------------------

  ghost function View(s: Sys): Table {
    Table(map k | k in s.table :: s.table[k].entry, s.count, s.credCounts)
  }

  /** Equal but for credentials counted zero. */
  ghost predicate Same(t: Table, u: Table) {
    t.entries == u.entries && t.count == u.count && forall c :: CredCount(t, c) == CredCount(u, c)
  }

  ghost function ViewAfter(v: Table, e: Effect): Table {
    Table(match e.change {
            case Keep => v.entries
            case Put(key, _, entry) => v.entries[key := entry]
            case Drop(key) => v.entries - {key}
          },
          v.count + e.dCount,
          v.credCounts[e.cred := CountOf(v.credCounts, e.cred) + e.dCred])
  }

  lemma ViewOfApply(s: Sys, t: nat, e: Effect)
    ensures View(Apply(s, t, e)) == ViewAfter(View(s), e) && PcOf(Apply(s, t, e), t) == e.pc
  {
  }

  /** The thread runs alone for a number of steps. */
  function Alone(s: Sys, t: nat, now: int, steps: nat): Sys
    decreases steps
  {
    if steps == 0 then s else Alone(Next(s, Run(t, now)), t, now, steps - 1)
  }

  /** The thread, left alone, ends its operation and leaves this table. */
  ghost predicate Ends(s: Sys, t: nat, now: int, result: Table) {
    exists n: nat :: PcOf(Alone(s, t, now, n), t).Idle? && Same(View(Alone(s, t, now, n)), result)
  }

  lemma EndsNow(s: Sys, t: nat, now: int, result: Table)
    requires PcOf(s, t).Idle? && Same(View(s), result)
    ensures Ends(s, t, now, result)
  {
    assert Alone(s, t, now, 0) == s;
  }

  lemma EndsLater(s: Sys, t: nat, now: int, result: Table, result': Table)
    requires Ends(Next(s, Run(t, now)), t, now, result) && Same(result, result')
    ensures Ends(s, t, now, result')
  {
    var s' := Next(s, Run(t, now));
    var n: nat :| PcOf(Alone(s', t, now, n), t).Idle? && Same(View(Alone(s', t, now, n)), result);
    assert Alone(s, t, now, n + 1) == Alone(s', t, now, n);
  }

  lemma EndsIdle(s: Sys, t: nat, now: int, result: Table)
    requires var e := Advance(s, PcOf(s, t), now); e.pc.Idle? && Same(ViewAfter(View(s), e), result)
    ensures Ends(s, t, now, result)
  {
    var e := Advance(s, PcOf(s, t), now);
    ViewOfApply(s, t, e);
    EndsNow(Apply(s, t, e), t, now, result);
    EndsLater(s, t, now, result, result);
  }

  lemma EndReleaseCount(s: Sys, t: nat, key: Key, now: int)
    requires PcOf(s, t) == ReleaseCount(key)
    ensures Ends(s, t, now, View(s).(count := s.count - 1))
  {
    EndsIdle(s, t, now, View(s).(count := s.count - 1));
  }

  lemma EndReleaseCred(s: Sys, t: nat, key: Key, now: int)
    requires PcOf(s, t) == ReleaseCred(key)
    ensures Ends(s, t, now, AddCred(View(s), key.cred, -1).(count := s.count - 1))
  {
    var e := Advance(s, PcOf(s, t), now);
    ViewOfApply(s, t, e);
    EndReleaseCount(Apply(s, t, e), t, key, now);
    EndsLater(s, t, now, View(Apply(s, t, e)).(count := s.count - 1),
              AddCred(View(s), key.cred, -1).(count := s.count - 1));
  }

  lemma EndCredCounted(s: Sys, t: nat, key: Key, now: int)
    requires PcOf(s, t) == CredCounted(key, CountOf(s.credCounts, key.cred))
    ensures Ends(s, t, now,
                 if CountOf(s.credCounts, key.cred) > s.caps.perCredential || key in s.table
                 then AddCred(View(s), key.cred, -1).(count := s.count - 1)
                 else View(s).(entries := View(s).entries[key := NewEntry(Active, key.cred, now)]))
  {
    var e := Advance(s, PcOf(s, t), now);
    var undone := AddCred(View(s), key.cred, -1).(count := s.count - 1);
    ViewOfApply(s, t, e);
    if CountOf(s.credCounts, key.cred) > s.caps.perCredential {
      EndReleaseCount(Apply(s, t, e), t, key, now);
      EndsLater(s, t, now, View(Apply(s, t, e)).(count := s.count - 1), undone);
    } else if key in s.table {
      EndReleaseCred(Apply(s, t, e), t, key, now);
      EndsLater(s, t, now, AddCred(View(Apply(s, t, e)), key.cred, -1).(count := s.count - 1), undone);
    } else {
      EndsIdle(s, t, now, View(s).(entries := View(s).entries[key := NewEntry(Active, key.cred, now)]));
    }
  }

  lemma StartAfterCount(v: Table, caps: Caps, key: Key, now: int)
    requires v.count <= caps.total
    ensures var w := AddCred(v, key.cred, 1);
            Same(if CredCount(w, key.cred) > caps.perCredential || key in v.entries
                 then AddCred(w, key.cred, -1).(count := v.count - 1)
                 else w.(entries := v.entries[key := NewEntry(Active, key.cred, now)]),
                 Start(v.(count := v.count - 1), caps, key, now).0)
  {
  }

  lemma EndUncapped(s: Sys, t: nat, key: Key, now: int)
    requires PcOf(s, t) == Counted(key, s.count) && s.count <= s.caps.total
    ensures Ends(s, t, now, Start(View(s).(count := s.count - 1), s.caps, key, now).0)
  {
    var s' := Apply(s, t, Advance(s, PcOf(s, t), now));
    ViewOfApply(s, t, Advance(s, PcOf(s, t), now));
    EndCredCounted(s', t, key, now);
    StartAfterCount(View(s), s.caps, key, now);
    EndsLater(s, t, now,
              if CountOf(s'.credCounts, key.cred) > s.caps.perCredential || key in s.table
              then AddCred(View(s'), key.cred, -1).(count := s.count - 1)
              else View(s').(entries := View(s').entries[key := NewEntry(Active, key.cred, now)]),
              Start(View(s).(count := s.count - 1), s.caps, key, now).0);
  }

  lemma EndCounted(s: Sys, t: nat, key: Key, now: int)
    requires PcOf(s, t) == Counted(key, s.count)
    ensures Ends(s, t, now, Start(View(s).(count := s.count - 1), s.caps, key, now).0)
  {
    if s.count > s.caps.total {
      EndsIdle(s, t, now, Start(View(s).(count := s.count - 1), s.caps, key, now).0);
    } else {
      EndUncapped(s, t, key, now);
    }
  }

  lemma SameStarts(t: Table, u: Table, caps: Caps, key: Key, now: int)
    requires Same(t, u)
    ensures Same(Start(t, caps, key, now).0, Start(u, caps, key, now).0)
  {
    var t', u' := Start(t, caps, key, now).0, Start(u, caps, key, now).0;
    assert CredCount(t, key.cred) == CredCount(u, key.cred);
    forall c ensures CredCount(t', c) == CredCount(u', c) {
      assert CredCount(t, c) == CredCount(u, c);
    }
  }

  /** startIfAbsent by a thread nobody interrupts is Start. */
  lemma AloneStart(s: Sys, t: nat, key: Key, now: int)
    requires PcOf(s, t).Idle?
    ensures Ends(Next(s, Begin(t, OpStart(key))), t, now, Start(View(s), s.caps, key, now).0)
  {
    var s' := Next(s, Begin(t, OpStart(key)));
    ViewOfApply(s, t, First(s, OpStart(key)));
    EndCounted(s', t, key, now);
    var before := View(s').(count := s.count);
    SameStarts(before, View(s), s.caps, key, now);
    SameEnds(s', t, now, Start(before, s.caps, key, now).0, Start(View(s), s.caps, key, now).0);
  }

  lemma SameEnds(s: Sys, t: nat, now: int, result: Table, result': Table)
    requires Ends(s, t, now, result) && Same(result, result')
    ensures Ends(s, t, now, result')
  {
    var n: nat :| PcOf(Alone(s, t, now, n), t).Idle? && Same(View(Alone(s, t, now, n)), result);
    assert Same(View(Alone(s, t, now, n)), result');
  }

  /** setPending and setIssued, alone, are Set. */
  lemma AloneSet(s: Sys, t: nat, key: Key, u: Update, now: int)
    requires PcOf(s, t).Idle?
    ensures Ends(Next(s, Begin(t, OpSet(key, u))), t, now, Set(View(s), key, u, now).0)
  {
    ViewOfApply(s, t, First(s, OpSet(key, u)));
    EndsIdle(Next(s, Begin(t, OpSet(key, u))), t, now, Set(View(s), key, u, now).0);
  }

  lemma AloneComplete(s: Sys, t: nat, key: Key, now: int)
    requires PcOf(s, t).Idle?
    ensures Ends(Next(s, Begin(t, OpComplete(key))), t, now, Complete(View(s), key, now))
  {
    var s1 := Next(s, Begin(t, OpComplete(key)));
    var result := Complete(View(s), key, now);
    ViewOfApply(s, t, First(s, OpComplete(key)));
    if key in s.table {
      var e := Advance(s1, PcOf(s1, t), now);
      ViewOfApply(s1, t, e);
      EndsIdle(Apply(s1, t, e), t, now, result);
      EndsLater(s1, t, now, result, result);
    } else {
      EndsIdle(s1, t, now, result);
    }
  }

  lemma EndRemoved(s: Sys, t: nat, cred: Bytes, now: int)
    requires PcOf(s, t) == Removed(cred)
    ensures Ends(s, t, now, AddCred(View(s), cred, -1).(count := s.count - 1))
  {
    var e, result := Advance(s, PcOf(s, t), now), AddCred(View(s), cred, -1).(count := s.count - 1);
    ViewOfApply(s, t, e);
    EndsIdle(Apply(s, t, e), t, now, result);
    EndsLater(s, t, now, result, result);
  }

  lemma AloneDelete(s: Sys, t: nat, key: Key, now: int)
    requires PcOf(s, t).Idle?
    ensures Ends(Next(s, Begin(t, OpDelete(key))), t, now, Delete(View(s), key))
  {
    var s1 := Next(s, Begin(t, OpDelete(key)));
    ViewOfApply(s, t, First(s, OpDelete(key)));
    if key in s.table {
      EndRemoved(s1, t, s.table[key].entry.cred, now);
      SameEnds(s1, t, now, AddCred(View(s1), s.table[key].entry.cred, -1).(count := s1.count - 1),
               Delete(View(s), key));
    } else {
      EndsNow(s1, t, now, Delete(View(s), key));
    }
  }

  lemma EndJudged(s: Sys, t: nat, key: Key, now: int)
    requires PcOf(s, t).Judged? && PcOf(s, t).key == key
    ensures Ends(s, t, now, Delete(View(s), key))
  {
    if key in s.table {
      var e, cred := Advance(s, PcOf(s, t), now), s.table[key].entry.cred;
      var s1 := Apply(s, t, e);
      ViewOfApply(s, t, e);
      EndRemoved(s1, t, cred, now);
      EndsLater(s, t, now, AddCred(View(s1), cred, -1).(count := s1.count - 1), Delete(View(s), key));
    } else {
      EndsIdle(s, t, now, Delete(View(s), key));
    }
  }

  /** A confirmation that the CA takes, alone, is Delete; any other leaves the table alone. */
  lemma AloneConfirm(s: Sys, t: nat, key: Key, taken: bool, now: int)
    requires PcOf(s, t).Idle?
    ensures Ends(Next(s, Begin(t, OpConfirm(key, taken))), t, now,
                 if taken && key in s.table && s.table[key].entry.state == Issued then Delete(View(s), key)
                 else View(s))
  {
    var op := OpConfirm(key, taken);
    var s1 := Next(s, Begin(t, op));
    ViewOfApply(s, t, First(s, op));
    if PcOf(s1, t).Idle? {
      EndsNow(s1, t, now, View(s));
    } else if taken {
      var e := Advance(s1, PcOf(s1, t), now);
      ViewOfApply(s1, t, e);
      EndJudged(Apply(s1, t, e), t, key, now);
      SameDeletes(View(Apply(s1, t, e)), View(s), key);
      EndsLater(s1, t, now, Delete(View(Apply(s1, t, e)), key), Delete(View(s), key));
    } else {
      EndsIdle(s1, t, now, View(s));
    }
  }

  /** A cleanup visit, alone, removes an entry exactly when it was last active before
      the cutoff. */
  lemma AloneExpire(s: Sys, t: nat, key: Key, cutoff: int, now: int)
    requires PcOf(s, t).Idle?
    ensures Ends(Next(s, Begin(t, OpExpire(key, cutoff))), t, now,
                 if key in s.table && s.table[key].entry.lastActivity < cutoff then Delete(View(s), key) else View(s))
  {
    var op := OpExpire(key, cutoff);
    var s1 := Next(s, Begin(t, op));
    ViewOfApply(s, t, First(s, op));
    if PcOf(s1, t).Idle? {
      EndsNow(s1, t, now, View(s));
    } else {
      EndSeen(s1, t, now);
      SameDeletes(View(s1), View(s), key);
      SameEnds(s1, t, now, Delete(View(s1), key), Delete(View(s), key));
    }
  }

  lemma EndSeen(s: Sys, t: nat, now: int)
    requires PcOf(s, t).Seen? && PcOf(s, t).key in s.table && s.table[PcOf(s, t).key] == PcOf(s, t).cell
    ensures Ends(s, t, now, Delete(View(s), PcOf(s, t).key))
  {
    var key, cred, e := PcOf(s, t).key, PcOf(s, t).cell.entry.cred, Advance(s, PcOf(s, t), now);
    var s1 := Apply(s, t, e);
    ViewOfApply(s, t, e);
    EndRemoved(s1, t, cred, now);
    EndsLater(s, t, now, AddCred(View(s1), cred, -1).(count := s1.count - 1), Delete(View(s), key));
  }

  lemma SameDeletes(t: Table, u: Table, key: Key)
    requires Same(t, u)
    ensures Same(Delete(t, key), Delete(u, key))
  {
    forall c ensures CredCount(Delete(t, key), c) == CredCount(Delete(u, key), c) {
      assert CredCount(t, c) == CredCount(u, c);
      if key in t.entries {
        assert CredCount(t, t.entries[key].cred) == CredCount(u, t.entries[key].cred);
      }
    }
  }
}
