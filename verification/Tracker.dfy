/**
  The transaction table of the server (server/transaction.go).

  A `Key` is the pair that makeKey hashes. Equality of keys stands for equality of
  the hashes, which is sound because the hashed input is injective in the pair
  (module KeyInput) and the hash is taken to be collision free. The same goes for
  credentials and makeCredentialKey.
 */
module Tracker {
  import opened Types
  import opened MacParams

  datatype Key = Key(cred: Bytes, txn: Bytes)

  datatype TxState = Active | Pending | Issued | Completed

  datatype Entry = Entry(
    state: TxState,
    lastActivity: int,
    cred: Bytes,
    reqType: RequestType,
    pollRef: string,
    senderNonce: Bytes,
    lastPollTime: Option<int>,
    checkAfter: int,
    certReqID: Option<int>,
    cert: Option<Certificate>,
    issueRef: Option<Bytes>,
    issuedSenderNonce: Bytes,
    clientSenderNonce: Bytes,
    protectionAlg: Option<ProtectionAlg>,
    protectionParams: Option<MacOption>)

  datatype Caps = Caps(total: int, perCredential: int)

  datatype Table = Table(entries: map<Key, Entry>, count: int, credCounts: map<Bytes, int>)

  const EMPTY := Table(map[], 0, map[])

  function CountOf(credCounts: map<Bytes, int>, cred: Bytes): int {
    if cred in credCounts then credCounts[cred] else 0
  }

  function CredCount(t: Table, cred: Bytes): int {
    CountOf(t.credCounts, cred)
  }

  function AddCred(t: Table, cred: Bytes, n: int): Table {
    t.(credCounts := t.credCounts[cred := CredCount(t, cred) + n])
  }

  function NewEntry(state: TxState, cred: Bytes, now: int): Entry {
    Entry(state, now, cred, RequestIR, "", [], None, 0, None, None, None, [], [], None, None)
  }

  /** The two transitions that replace an entry when it is still active or pending. */
  datatype Update =
    | ToPending(reqType: RequestType, pollRef: string, senderNonce: Bytes, checkAfter: int, lastPollTime: Option<int>)
    | ToIssued(reqType: RequestType, certReqID: int, cert: Certificate, issueRef: Option<Bytes>, senderNonce: Bytes,
               clientNonce: Bytes, params: Option<MacOption>, alg: Option<ProtectionAlg>)

  function Updated(key: Key, u: Update, now: int): Entry {
    match u
    case ToPending(reqType, pollRef, senderNonce, checkAfter, lastPollTime) =>
      NewEntry(Pending, key.cred, now).(reqType := reqType, pollRef := pollRef, senderNonce := senderNonce,
                                        lastPollTime := lastPollTime, checkAfter := checkAfter)
    case ToIssued(reqType, certReqID, cert, issueRef, senderNonce, clientNonce, params, alg) =>
      NewEntry(Issued, key.cred, now).(reqType := reqType, certReqID := Some(certReqID), cert := Some(cert),
                                       issueRef := issueRef, issuedSenderNonce := senderNonce,
                                       clientSenderNonce := clientNonce, protectionParams := params,
                                       protectionAlg := alg)
  }

  function Done(e: Entry, now: int): Entry {
    e.(state := Completed, lastActivity := now)
  }

  predicate Open(e: Entry) {
    e.state == Active || e.state == Pending
  }

  /** A certificate was issued and its confirmation has not come. */
  predicate Unconfirmed(e: Entry) {
    e.state == Issued && e.cert.Some?
  }

  // ---------------------------------------------------------------------------
  // The operations on values
  // ---------------------------------------------------------------------------

  datatype StartResult = Started | AlreadyExists | LimitReached

  function Start(t: Table, caps: Caps, key: Key, now: int): (Table, StartResult) {
    if t.count + 1 > caps.total then (t, LimitReached)
    else if CredCount(t, key.cred) + 1 > caps.perCredential then (AddCred(t, key.cred, 0), LimitReached)
    else if key in t.entries then (AddCred(t, key.cred, 0), AlreadyExists)
    else
      (AddCred(t, key.cred, 1).(entries := t.entries[key := NewEntry(Active, key.cred, now)], count := t.count + 1),
       Started)
  }

  function Set(t: Table, key: Key, u: Update, now: int): (Table, bool) {
    if key in t.entries && Open(t.entries[key])
    then (t.(entries := t.entries[key := Updated(key, u, now)]), true)
    else (t, false)
  }

  function Complete(t: Table, key: Key, now: int): Table {
    if key in t.entries then t.(entries := t.entries[key := Done(t.entries[key], now)]) else t
  }

  function Delete(t: Table, key: Key): Table {
    if key in t.entries
    then AddCred(t, t.entries[key].cred, -1).(entries := t.entries - {key}, count := t.count - 1)
    else t
  }

  /** Removal of the keys of `order`, one after the other. */
  function DeleteAll(t: Table, order: seq<Key>): Table {
    if order == [] then t else Delete(DeleteAll(t, order[..|order| - 1]), order[|order| - 1])
  }

  predicate Expired(t: Table, cutoff: int, key: Key) {
    key in t.entries && t.entries[key].lastActivity < cutoff
  }

  /** `order` lists the expired keys, each once. */
  ghost predicate ListsExpired(t: Table, cutoff: int, order: seq<Key>) {
    && (forall i, j :: 0 <= i < j < |order| ==> order[i] != order[j])
    && (forall k :: k in order <==> Expired(t, cutoff, k))
  }

  // ---------------------------------------------------------------------------
  // What every operation keeps
  // ---------------------------------------------------------------------------

  ghost function KeysOf(keys: set<Key>, cred: Bytes): set<Key> {
    set k | k in keys && k.cred == cred
  }

  /** The counters are exactly the sizes of the table and within the caps. */
  ghost predicate Sizes(keys: set<Key>, count: int, credCounts: map<Bytes, int>, caps: Caps) {
    && count == |keys|
    && (count <= caps.total || count == 0)
    && (forall c :: CredSize(keys, credCounts, caps, c))
  }

  ghost predicate CredSize(keys: set<Key>, credCounts: map<Bytes, int>, caps: Caps, cred: Bytes) {
    var n := CountOf(credCounts, cred);
    n == |KeysOf(keys, cred)| && (n <= caps.perCredential || n == 0)
  }

  ghost predicate Owned(entries: map<Key, Entry>) {
    forall k :: k in entries ==> entries[k].cred == k.cred
  }

  ghost predicate Consistent(t: Table, caps: Caps) {
    Owned(t.entries) && Sizes(t.entries.Keys, t.count, t.credCounts, caps)
  }

  lemma KeysAfter(keys: set<Key>, key: Key, c: Bytes)
    ensures KeysOf(keys + {key}, c) == KeysOf(keys, c) + (if key.cred == c then {key} else {})
    ensures KeysOf(keys - {key}, c) == KeysOf(keys, c) - {key}
    ensures key in KeysOf(keys, c) <==> key in keys && key.cred == c
  {
  }

  lemma SizesAfterInsert(keys: set<Key>, count: int, cc: map<Bytes, int>, caps: Caps, key: Key)
    requires Sizes(keys, count, cc, caps) && key !in keys
    requires count + 1 <= caps.total && CountOf(cc, key.cred) + 1 <= caps.perCredential
    ensures Sizes(keys + {key}, count + 1, cc[key.cred := CountOf(cc, key.cred) + 1], caps)
  {
    var cc' := cc[key.cred := CountOf(cc, key.cred) + 1];
    forall c ensures CredSize(keys + {key}, cc', caps, c) {
      assert CredSize(keys, cc, caps, c);
      KeysAfter(keys, key, c);
    }
  }

  lemma SizesAfterRemove(keys: set<Key>, count: int, cc: map<Bytes, int>, caps: Caps, key: Key)
    requires Sizes(keys, count, cc, caps) && key in keys
    ensures Sizes(keys - {key}, count - 1, cc[key.cred := CountOf(cc, key.cred) - 1], caps)
  {
    var cc' := cc[key.cred := CountOf(cc, key.cred) - 1];
    forall c ensures CredSize(keys - {key}, cc', caps, c) {
      assert CredSize(keys, cc, caps, c);
      KeysAfter(keys, key, c);
    }
  }

  lemma SizesAfterTouch(keys: set<Key>, count: int, cc: map<Bytes, int>, caps: Caps, cred: Bytes)
    requires Sizes(keys, count, cc, caps)
    ensures Sizes(keys, count, cc[cred := CountOf(cc, cred)], caps)
  {
    var cc' := cc[cred := CountOf(cc, cred)];
    forall c ensures CredSize(keys, cc', caps, c) {
      assert CredSize(keys, cc, caps, c);
    }
  }

  lemma LastUpdateWins(cc: map<Bytes, int>, cred: Bytes, m: int, n: int)
    ensures cc[cred := m][cred := n] == cc[cred := n]
  {
  }

  lemma InsertConsistent(t: Table, caps: Caps, key: Key, e: Entry)
    requires Consistent(t, caps) && key !in t.entries && e.cred == key.cred
    requires t.count + 1 <= caps.total && CredCount(t, key.cred) + 1 <= caps.perCredential
    ensures Consistent(AddCred(t, key.cred, 1).(entries := t.entries[key := e], count := t.count + 1), caps)
  {
    SizesAfterInsert(t.entries.Keys, t.count, t.credCounts, caps, key);
    assert t.entries[key := e].Keys == t.entries.Keys + {key};
  }

  lemma StartConsistent(t: Table, caps: Caps, key: Key, now: int)
    requires Consistent(t, caps)
    ensures Consistent(Start(t, caps, key, now).0, caps)
  {
    if Start(t, caps, key, now).1 == Started {
      InsertConsistent(t, caps, key, NewEntry(Active, key.cred, now));
    } else {
      SizesAfterTouch(t.entries.Keys, t.count, t.credCounts, caps, key.cred);
    }
  }

  lemma ReplaceConsistent(t: Table, caps: Caps, key: Key, e: Entry)
    requires Consistent(t, caps) && key in t.entries && e.cred == key.cred
    ensures Consistent(t.(entries := t.entries[key := e]), caps)
  {
    assert t.entries[key := e].Keys == t.entries.Keys;
  }

  lemma DeleteConsistent(t: Table, caps: Caps, key: Key)
    requires Consistent(t, caps)
    ensures Consistent(Delete(t, key), caps)
  {
    if key in t.entries {
      SizesAfterRemove(t.entries.Keys, t.count, t.credCounts, caps, key);
      assert (t.entries - {key}).Keys == t.entries.Keys - {key};
    }
  }

  lemma {:induction false} DeleteAllEntries(t: Table, order: seq<Key>)
    ensures DeleteAll(t, order).entries == t.entries - (set k | k in order)
  {
    if order != [] {
      var init, last := order[..|order| - 1], order[|order| - 1];
      assert order == init + [last];
      DeleteAllEntries(t, init);
      assert (set k | k in order) == (set k | k in init) + {last};
    }
  }

  lemma {:induction false} DeleteAllConsistent(t: Table, caps: Caps, order: seq<Key>)
    requires Consistent(t, caps)
    ensures Consistent(DeleteAll(t, order), caps)
  {
    if order != [] {
      DeleteAllConsistent(t, caps, order[..|order| - 1]);
      DeleteConsistent(DeleteAll(t, order[..|order| - 1]), caps, order[|order| - 1]);
    }
  }

  // ---------------------------------------------------------------------------
  // The tracker as the source keeps it, between concurrent operations
  // ---------------------------------------------------------------------------

  class TransactionTracker {
    const caps: Caps
    var transactions: map<Key, Entry>
    var count: int
    var credentialCounts: map<Bytes, int>

    ghost function View(): Table
      reads this
    {
      Table(transactions, count, credentialCounts)
    }

    ghost predicate Valid()
      reads this
    {
      Consistent(View(), caps)
    }

    constructor (caps: Caps)
      ensures this.caps == caps && View() == EMPTY && Valid()
    {
      this.caps := caps;
      transactions := map[];
      count := 0;
      credentialCounts := map[];
      new;
      assert forall c :: KeysOf(transactions.Keys, c) == {};
    }

    method GetOrCreateCredCount(cred: Bytes) returns (n: int)
      modifies this`credentialCounts
      ensures View() == old(AddCred(View(), cred, 0)) && n == CredCount(View(), cred)
    {
      if cred !in credentialCounts {
        credentialCounts := credentialCounts[cred := 0];
      }
      n := credentialCounts[cred];
    }

    method StartIfAbsent(key: Key, now: int) returns (result: StartResult)
      requires Valid()
      modifies this
      ensures (View(), result) == old(Start(View(), caps, key, now))
      ensures Valid()
    {
      ghost var t := View();
      StartConsistent(t, caps, key, now);
      // Reserve capacity before storing.
      count := count + 1;
      if count > caps.total {
        count := count - 1;
        return LimitReached;
      }
      var n := GetOrCreateCredCount(key.cred);
      LastUpdateWins(t.credCounts, key.cred, n, n + 1);
      credentialCounts := credentialCounts[key.cred := n + 1];
      LastUpdateWins(t.credCounts, key.cred, n + 1, n);
      if n + 1 > caps.perCredential {
        credentialCounts := credentialCounts[key.cred := n];
        count := count - 1;
        return LimitReached;
      }
      if key in transactions {
        credentialCounts := credentialCounts[key.cred := n];
        count := count - 1;
        return AlreadyExists;
      }
      transactions := transactions[key := NewEntry(Active, key.cred, now)];
      return Started;
    }

    /** setPending and setIssued. */
    method SetState(key: Key, u: Update, now: int) returns (ok: bool)
      requires Valid()
      modifies this`transactions
      ensures (View(), ok) == old(Set(View(), key, u, now))
      ensures Valid()
    {
      if key !in transactions {
        return false;
      }
      var oldEntry := transactions[key];
      if oldEntry.state != Active && oldEntry.state != Pending {
        return false;
      }
      ReplaceConsistent(View(), caps, key, Updated(key, u, now));
      transactions := transactions[key := Updated(key, u, now)];
      return true;
    }

    /** getPending and getIssued: an entry found belongs to the key's credential and is
        one of the transactions that credential is charged with. */
    method Get(key: Key, state: TxState) returns (found: Option<Entry>)
      ensures found == if key in transactions && transactions[key].state == state then Some(transactions[key]) else None
      ensures Valid() && found.Some? ==> found.value.cred == key.cred && CredCount(View(), key.cred) >= 1
    {
      if key !in transactions || transactions[key].state != state {
        return None;
      }
      if Valid() {
        assert CredSize(View().entries.Keys, credentialCounts, caps, key.cred);
        assert key in KeysOf(View().entries.Keys, key.cred);
      }
      return Some(transactions[key]);
    }

    method SetCompleted(key: Key, now: int)
      requires Valid()
      modifies this`transactions
      ensures View() == old(Complete(View(), key, now))
      ensures Valid()
    {
      if key in transactions {
        ReplaceConsistent(View(), caps, key, Done(transactions[key], now));
        transactions := transactions[key := Done(transactions[key], now)];
      }
    }

    method Remove(key: Key)
      requires Valid()
      modifies this
      ensures View() == old(Delete(View(), key))
      ensures Valid()
    {
      ghost var t := View();
      DeleteConsistent(t, caps, key);
      if key in transactions {
        var entry := transactions[key];
        transactions := transactions - {key};
        count := count - 1;
        var n := GetOrCreateCredCount(entry.cred);
        LastUpdateWins(t.credCounts, entry.cred, n, n - 1);
        credentialCounts := credentialCounts[entry.cred := n - 1];
      }
    }

    /** Removes the entries last active before `now - maxAge` and returns those that
        still held an unconfirmed certificate, in the order they were met. Lemma
        CleanupLeaves says what that leaves. */
    method CleanupExpired(maxAge: int, now: int) returns (order: seq<Key>, expired: seq<Entry>)
      requires Valid()
      modifies this
      ensures Valid()
      ensures maxAge <= 0 ==> View() == old(View()) && order == [] && expired == []
      ensures maxAge > 0 ==> old(ListsExpired(View(), now - maxAge, order)) && View() == old(DeleteAll(View(), order))
      ensures expired == UnconfirmedAmong(old(View()), order)
    {
      order, expired := [], [];
      if maxAge <= 0 {
        return;
      }
      var cutoff := now - maxAge;
      var unvisited := transactions.Keys;
      ghost var t := View();
      while unvisited != {}
        invariant Valid() && unvisited <= t.entries.Keys
        invariant View() == DeleteAll(t, order) && expired == UnconfirmedAmong(t, order)
        invariant ListsVisited(t, cutoff, order, unvisited)
        decreases |unvisited|
      {
        var key :| key in unvisited;
        Visit(t, cutoff, order, unvisited, key);
        unvisited := unvisited - {key};
        var entry := transactions[key];
        if entry.lastActivity < cutoff {
          Remove(key);
          Snoc(t, order, key);
          order := order + [key];
          if entry.state == Issued && entry.cert.Some? {
            expired := expired + [entry];
          }
        }
      }
    }
  }

  /** `order` lists the expired keys met so far, each once. */
  ghost predicate ListsVisited(t: Table, cutoff: int, order: seq<Key>, unvisited: set<Key>) {
    && (forall i, j :: 0 <= i < j < |order| ==> order[i] != order[j])
    && (forall k :: k in order <==> Expired(t, cutoff, k) && k !in unvisited)
  }

  lemma Visit(t: Table, cutoff: int, order: seq<Key>, unvisited: set<Key>, key: Key)
    requires ListsVisited(t, cutoff, order, unvisited) && key in unvisited && unvisited <= t.entries.Keys
    ensures key in DeleteAll(t, order).entries && DeleteAll(t, order).entries[key] == t.entries[key]
    ensures ListsVisited(t, cutoff, if Expired(t, cutoff, key) then order + [key] else order, unvisited - {key})
  {
    DeleteAllEntries(t, order);
  }

  lemma Snoc(t: Table, order: seq<Key>, key: Key)
    ensures DeleteAll(t, order + [key]) == Delete(DeleteAll(t, order), key)
    ensures UnconfirmedAmong(t, order + [key])
         == UnconfirmedAmong(t, order) + if HoldsUnconfirmed(t, key) then [t.entries[key]] else []
  {
    assert (order + [key])[..|order|] == order;
  }

  predicate HoldsUnconfirmed(t: Table, key: Key) {
    key in t.entries && Unconfirmed(t.entries[key])
  }

  /** The entries among `order` that held an issued certificate nobody confirmed. */
  function UnconfirmedAmong(t: Table, order: seq<Key>): seq<Entry> {
    if order == [] then []
    else
      var rest, key := UnconfirmedAmong(t, order[..|order| - 1]), order[|order| - 1];
      if HoldsUnconfirmed(t, key) then rest + [t.entries[key]] else rest
  }

  /** A table without the entries last active before `cutoff`, and among those exactly
      the ones that held an issued certificate. */
  ghost predicate Cleaned(t: Table, u: Table, cutoff: int, expired: seq<Entry>) {
    var before, after := t.entries, u.entries;
    && (forall k :: k in after <==> k in before && before[k].lastActivity >= cutoff)
    && (forall k :: k in after ==> after[k] == before[k])
    && (forall k | k in before && before[k].lastActivity < cutoff && before[k].state == Issued ::
          before[k].cert.Some? ==> before[k] in expired)
    && (forall i :: 0 <= i < |expired| ==>
          && expired[i].lastActivity < cutoff && expired[i].state == Issued && expired[i].cert.Some?
          && exists k :: k in before && before[k] == expired[i])
  }

  lemma {:induction false} AmongListed(t: Table, order: seq<Key>, e: Entry)
    ensures e in UnconfirmedAmong(t, order) <==>
            e.state == Issued && e.cert.Some? && exists k :: k in order && k in t.entries && t.entries[k] == e
  {
    if order != [] {
      var init, last := order[..|order| - 1], order[|order| - 1];
      AmongListed(t, init, e);
      assert order == init + [last];
    }
  }

  /** What is left of a table after its expired entries are removed, and what is reported. */
  lemma CleanupLeaves(t: Table, cutoff: int, order: seq<Key>)
    requires ListsExpired(t, cutoff, order)
    ensures Cleaned(t, DeleteAll(t, order), cutoff, UnconfirmedAmong(t, order))
  {
    DeleteAllEntries(t, order);
    var expired := UnconfirmedAmong(t, order);
    forall k | k in t.entries && t.entries[k].lastActivity < cutoff && t.entries[k].state == Issued
               && t.entries[k].cert.Some?
      ensures t.entries[k] in expired
    {
      AmongListed(t, order, t.entries[k]);
    }
    forall i | 0 <= i < |expired|
      ensures expired[i].lastActivity < cutoff && expired[i].state == Issued && expired[i].cert.Some?
      ensures exists k :: k in t.entries && t.entries[k] == expired[i]
    {
      AmongListed(t, order, expired[i]);
    }
  }
}
