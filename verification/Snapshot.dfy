/**
  Saving the transaction table and restoring it (server/snapshot.go).

  A saved record stands for its JSON, whose encoding and decoding, like that of the
  issue reference, are taken to be exact. Records may be saved in any order.
 */
module Snapshot {
  import opened Types
  import opened MacParams
  import opened Tracker
  import opened Server
  import opened Conservation

  datatype SavedTransaction = SavedTransaction(
    key: Key,
    credential: Bytes,
    state: TxState,
    lastActivity: int,
    reqType: RequestType,
    pollRef: string,
    senderNonce: Bytes,
    lastPollTime: Option<int>,
    checkAfter: int,
    cert: Option<Certificate>,
    issueRef: Option<Bytes>,
    issuedSenderNonce: Bytes,
    clientSenderNonce: Bytes,
    protectionAlg: Option<ProtectionAlg>,
    certReqID: Option<int>)

  datatype Saved = Saved(version: int, signer: Bytes, entries: seq<SavedTransaction>)

  const MINUTE := 60 * SECOND

  // The zero time.Time, in nanoseconds from 1970.
  const ZERO_TIME := -62135596800 * SECOND

  // ---------------------------------------------------------------------------
  // Saving
  // ---------------------------------------------------------------------------

  function Save(key: Key, e: Entry): SavedTransaction {
    SavedTransaction(key, e.cred, e.state, e.lastActivity, e.reqType, e.pollRef, e.senderNonce, e.lastPollTime,
                     e.checkAfter,
                     e.cert, e.issueRef, e.issuedSenderNonce, e.clientSenderNonce, e.protectionAlg, e.certReqID)
  }

  predicate Savable(e: Entry) {
    e.protectionParams.Some? ==> e.protectionAlg.Some?
  }

  predicate AllSavable(entries: map<Key, Entry>) {
    forall k :: k in entries ==> Savable(entries[k])
  }

  function SaveAll(entries: map<Key, Entry>, order: seq<Key>): seq<SavedTransaction>
    requires forall k :: k in order ==> k in entries
  {
    if order == [] then []
    else SaveAll(entries, order[..|order| - 1]) + [Save(order[|order| - 1], entries[order[|order| - 1]])]
  }

  /** `order` lists the keys of a table, each once. */
  ghost predicate Enumerates(entries: map<Key, Entry>, order: seq<Key>) {
    Distinct(order) && forall k :: k in order <==> k in entries
  }

  // ---------------------------------------------------------------------------
  // Restoring
  // ---------------------------------------------------------------------------

  function Revive(s: SavedTransaction): Entry {
    Entry(s.state, s.lastActivity, s.credential, s.reqType, s.pollRef, s.senderNonce, s.lastPollTime, s.checkAfter,
          s.certReqID, s.cert, s.issueRef, s.issuedSenderNonce, s.clientSenderNonce, s.protectionAlg,
          if s.protectionAlg.Some? then Some(EchoAlgorithm(s.protectionAlg.value)) else None)
  }

  predicate Restorable(e: Entry, now: int) {
    && e.lastActivity != ZERO_TIME && e.lastActivity <= now + MINUTE
    && (e.state == Issued ==> e.cert.Some? && |e.issuedSenderNonce| >= NONCE_LENGTH)
    && (e.state == Pending ==> e.pollRef != "" && |e.senderNonce| >= NONCE_LENGTH && e.checkAfter >= 0)
  }

  function LoadOne(caps: Caps, t: Table, s: SavedTransaction, now: int): Option<Table> {
    if !Restorable(Revive(s), now) || s.key in t.entries then None
    else
      var t' := AddCred(t, s.credential, 1).(entries := t.entries[s.key := Revive(s)], count := t.count + 1);
      if CredCount(t', s.credential) > caps.perCredential then None else Some(t')
  }

  function Load(caps: Caps, saved: seq<SavedTransaction>, now: int): Option<Table> {
    if saved == [] then Some(EMPTY)
    else
      var prior := Load(caps, saved[..|saved| - 1], now);
      if prior.None? then None else LoadOne(caps, prior.value, saved[|saved| - 1], now)
  }

  /** The table of a server after a restore, or None when it reports an error. */
  function Restore(caps: Caps, signer: Bytes, t: Table, saved: Saved, now: int): Option<Table> {
    if t.count != 0 || saved.version != 1 || saved.signer != signer || |saved.entries| > caps.total then None
    else Load(caps, saved.entries, now)
  }

  lemma {:induction false} LoadSnoc(caps: Caps, saved: seq<SavedTransaction>, s: SavedTransaction, now: int)
    ensures Load(caps, saved + [s], now)
         == if Load(caps, saved, now).None? then None else LoadOne(caps, Load(caps, saved, now).value, s, now)
  {
    assert (saved + [s])[..|saved|] == saved;
  }

  /** A failed load stays failed. */
  lemma {:induction false} LoadPrefix(caps: Caps, saved: seq<SavedTransaction>, i: nat, now: int)
    requires i <= |saved| && Load(caps, saved[..i], now).None?
    ensures Load(caps, saved, now).None?
    decreases |saved|
  {
    if i < |saved| {
      assert saved[..|saved| - 1][..i] == saved[..i];
      LoadPrefix(caps, saved[..|saved| - 1], i, now);
    } else {
      assert saved[..i] == saved;
    }
  }

  // ---------------------------------------------------------------------------
  // What a restore of a saved table gives
  // ---------------------------------------------------------------------------

  function Revived(e: Entry): Entry {
    e.(protectionParams := if e.protectionAlg.Some? then Some(EchoAlgorithm(e.protectionAlg.value)) else None)
  }

  ghost predicate AllRestorable(entries: map<Key, Entry>, now: int) {
    forall k :: k in entries ==> Restorable(entries[k], now)
  }

  ghost predicate RevivedFrom(entries: map<Key, Entry>, order: seq<Key>, t: Table) {
    && t.count == |order|
    && (forall k :: k in t.entries <==> k in order)
    && (forall k :: k in order ==> k in entries && t.entries[k] == Revived(entries[k]))
    && Tallies(t.entries.Keys, t.credCounts)
  }

  ghost predicate Tallies(keys: set<Key>, cc: map<Bytes, int>) {
    forall c :: CountOf(cc, c) == |KeysOf(keys, c)|
  }

  lemma CredWithin(entries: map<Key, Entry>, caps: Caps, count: int, cc: map<Bytes, int>, keys: set<Key>, cred: Bytes)
    requires Sizes(entries.Keys, count, cc, caps) && keys <= entries.Keys && KeysOf(keys, cred) != {}
    ensures |KeysOf(keys, cred)| <= caps.perCredential
  {
    assert CredSize(entries.Keys, cc, caps, cred);
    var part, whole := KeysOf(keys, cred), KeysOf(entries.Keys, cred);
    assert part <= whole && whole == part + (whole - part);
  }

  lemma TalliesGrow(keys: set<Key>, cc: map<Bytes, int>, key: Key)
    requires Tallies(keys, cc) && key !in keys
    ensures Tallies(keys + {key}, cc[key.cred := CountOf(cc, key.cred) + 1])
  {
    forall c ensures CountOf(cc[key.cred := CountOf(cc, key.cred) + 1], c) == |KeysOf(keys + {key}, c)| {
      KeysAfter(keys, key, c);
    }
  }

  lemma RevivesOneMore(entries: map<Key, Entry>, init: seq<Key>, key: Key, u: Table)
    requires RevivedFrom(entries, init, u) && key in entries && key !in init
    ensures RevivedFrom(entries, init + [key],
              AddCred(u, key.cred, 1).(entries := u.entries[key := Revived(entries[key])], count := u.count + 1))
  {
    TalliesGrow(u.entries.Keys, u.credCounts, key);
    assert u.entries[key := Revived(entries[key])].Keys == u.entries.Keys + {key};
  }

  lemma LoadOneRevives(t: Table, caps: Caps, init: seq<Key>, key: Key, u: Table, now: int)
    requires Consistent(t, caps) && key in t.entries && key !in init
    requires RevivedFrom(t.entries, init, u)
    ensures var r := LoadOne(caps, u, Save(key, t.entries[key]), now);
            && (r.Some? <==> Restorable(t.entries[key], now))
            && (r.Some? ==> RevivedFrom(t.entries, init + [key], r.value))
  {
    var e := t.entries[key];
    var u' := AddCred(u, key.cred, 1).(entries := u.entries[key := Revived(e)], count := u.count + 1);
    assert Revive(Save(key, e)) == Revived(e);
    RevivesOneMore(t.entries, init, key, u);
    assert CredCount(u', key.cred) <= caps.perCredential by {
      assert key in KeysOf(u'.entries.Keys, key.cred);
      CredWithin(t.entries, caps, t.count, t.credCounts, u'.entries.Keys, key.cred);
    }
  }

  /** Loading the records of a consistent table succeeds exactly when each of them
      is acceptable, in whatever order they come. */
  lemma {:induction false} LoadRevives(t: Table, caps: Caps, order: seq<Key>, now: int)
    requires Consistent(t, caps) && Distinct(order) && forall k :: k in order ==> k in t.entries
    ensures var r := Load(caps, SaveAll(t.entries, order), now);
            && (r.Some? <==> forall k :: k in order ==> Restorable(t.entries[k], now))
            && (r.Some? ==> RevivedFrom(t.entries, order, r.value))
  {
    if order == [] {
      assert forall c :: KeysOf(EMPTY.entries.Keys, c) == {};
    } else {
      var init, key := order[..|order| - 1], order[|order| - 1];
      assert order == init + [key];
      LoadRevives(t, caps, init, now);
      LoadSnoc(caps, SaveAll(t.entries, init), Save(key, t.entries[key]), now);
      var prior := Load(caps, SaveAll(t.entries, init), now);
      if prior.Some? {
        LoadOneRevives(t, caps, init, key, prior.value, now);
      }
    }
  }

  // ---------------------------------------------------------------------------
  // Any snapshot that loads gives exact counters
  // ---------------------------------------------------------------------------

  /** Each record names the credential of its key. */
  predicate Attributed(saved: seq<SavedTransaction>) {
    forall i :: 0 <= i < |saved| ==> saved[i].credential == saved[i].key.cred
  }

  /** The transactions a credential is charged with. */
  ghost function Charged(entries: map<Key, Entry>, cred: Bytes): set<Key> {
    set k | k in entries && entries[k].cred == cred
  }

  ghost predicate Charges(t: Table, caps: Caps, cred: Bytes) {
    CredCount(t, cred) == |Charged(t.entries, cred)|
        && (CredCount(t, cred) <= caps.perCredential || CredCount(t, cred) == 0)
  }

  /** Both counters are exact and within the caps. */
  ghost predicate Exact(t: Table, caps: Caps, n: nat) {
    t.count == |t.entries.Keys| == n && forall c :: Charges(t, caps, c)
  }

  lemma ChargedAfter(entries: map<Key, Entry>, key: Key, e: Entry, c: Bytes)
    requires key !in entries
    ensures Charged(entries[key := e], c) == Charged(entries, c) + (if e.cred == c then {key} else {})
    ensures key !in Charged(entries, c)
  {
  }

  lemma LoadOneCharges(caps: Caps, u: Table, s: SavedTransaction, now: int, c: Bytes)
    requires Charges(u, caps, c) && LoadOne(caps, u, s, now).Some?
    ensures Charges(LoadOne(caps, u, s, now).value, caps, c)
  {
    ChargedAfter(u.entries, s.key, Revive(s), c);
  }

  lemma LoadOneExact(caps: Caps, u: Table, n: nat, s: SavedTransaction, now: int)
    requires Exact(u, caps, n) && LoadOne(caps, u, s, now).Some?
    ensures Exact(LoadOne(caps, u, s, now).value, caps, n + 1)
  {
    var t := LoadOne(caps, u, s, now).value;
    assert t.entries.Keys == u.entries.Keys + {s.key};
    forall c ensures Charges(t, caps, c) {
      LoadOneCharges(caps, u, s, now, c);
    }
  }

  lemma OwnedAfter(entries: map<Key, Entry>, key: Key, e: Entry)
    requires key !in entries
    ensures Owned(entries[key := e]) <==> Owned(entries) && e.cred == key.cred
  {
    if Owned(entries[key := e]) {
      forall k | k in entries ensures entries[k].cred == k.cred {
        assert entries[key := e][k] == entries[k];
      }
      assert entries[key := e][key] == e;
    }
  }

  ghost predicate Tallied(t: Table, caps: Caps, saved: seq<SavedTransaction>) {
    Exact(t, caps, |saved|) && IssuedHaveCerts(t) && (Owned(t.entries) <==> Attributed(saved))
  }

  lemma LoadOneTallies(caps: Caps, u: Table, init: seq<SavedTransaction>, s: SavedTransaction, now: int)
    requires Tallied(u, caps, init) && LoadOne(caps, u, s, now).Some?
    ensures Tallied(LoadOne(caps, u, s, now).value, caps, init + [s])
  {
    LoadOneExact(caps, u, |init|, s, now);
    OwnedAfter(u.entries, s.key, Revive(s));
    AttributedAfter(init, s);
  }

  lemma AttributedAfter(init: seq<SavedTransaction>, s: SavedTransaction)
    ensures Attributed(init + [s]) <==> Attributed(init) && s.credential == s.key.cred
  {
    if Attributed(init + [s]) {
      assert forall i :: 0 <= i < |init| ==> init[i] == (init + [s])[i];
      assert (init + [s])[|init|] == s;
    }
  }

  lemma NothingTallied(caps: Caps)
    ensures Tallied(EMPTY, caps, [])
  {
    forall c ensures Charges(EMPTY, caps, c) {
      assert Charged(EMPTY.entries, c) == {};
    }
  }

  lemma {:induction false} LoadTallies(caps: Caps, saved: seq<SavedTransaction>, now: int)
    requires Load(caps, saved, now).Some?
    ensures Tallied(Load(caps, saved, now).value, caps, saved)
  {
    if saved == [] {
      NothingTallied(caps);
    } else {
      var init, s := saved[..|saved| - 1], saved[|saved| - 1];
      assert saved == init + [s];
      LoadTallies(caps, init, now);
      LoadOneTallies(caps, Load(caps, init, now).value, init, s, now);
    }
  }

  lemma OwnedSizes(t: Table, caps: Caps, n: nat)
    requires Exact(t, caps, n) && n <= caps.total && Owned(t.entries)
    ensures Consistent(t, caps)
  {
    forall c ensures CredSize(t.entries.Keys, t.credCounts, caps, c) {
      assert Charges(t, caps, c);
      assert Charged(t.entries, c) == KeysOf(t.entries.Keys, c);
    }
  }

  /** Any snapshot that loads gives exact counters within the caps. It gives a table
      whose keys belong to their credentials exactly when its records do. */
  lemma LoadConsistent(caps: Caps, saved: seq<SavedTransaction>, now: int)
    requires |saved| <= caps.total && Load(caps, saved, now).Some?
    ensures var t := Load(caps, saved, now).value;
            && Exact(t, caps, |saved|) && IssuedHaveCerts(t)
            && (Consistent(t, caps) <==> Attributed(saved))
  {
    LoadTallies(caps, saved, now);
    if Attributed(saved) {
      OwnedSizes(Load(caps, saved, now).value, caps, |saved|);
    }
  }

  /** A record of one credential under the key of another is restored. */
  lemma MisattributedLoads(signer: Bytes) returns (caps: Caps, saved: Saved)
    ensures var r := Restore(caps, signer, EMPTY, saved, 0);
            r.Some? && !Owned(r.value.entries) && !Consistent(r.value, caps) && Exact(r.value, caps, 1)
  {
    caps := Caps(1, 1);
    var e := NewEntry(Active, [3], 0);
    var s := Save(Key([1], [2]), e);
    saved := Saved(1, signer, [s]);
    assert [s][..0] == [];
    assert LoadOne(caps, EMPTY, s, 0).Some?;
    LoadConsistent(caps, [s], 0);
    assert [s][0].credential != [s][0].key.cred;
  }

  // ---------------------------------------------------------------------------
  // Exactly which snapshots are restored
  // ---------------------------------------------------------------------------

  /** A record of any server: its time is set and at most a minute ahead, an issued
      transaction has its certificate and the nonce of its response, a pending one its
      reference, the nonce of its response and an interval. */
  predicate CompleteRecord(s: SavedTransaction, now: int) {
    && s.lastActivity != -62135596800 * 1_000_000_000 && s.lastActivity <= now + 60 * 1_000_000_000
    && (s.state.Issued? ==> s.cert.Some? && |s.issuedSenderNonce| >= 16)
    && (s.state.Pending? ==> s.pollRef != "" && |s.senderNonce| >= 16 && s.checkAfter >= 0)
  }

  /** How many records name a credential. */
  function Naming(saved: seq<SavedTransaction>, cred: Bytes): nat {
    if saved == [] then 0
    else Naming(saved[..|saved| - 1], cred) + if saved[|saved| - 1].credential == cred then 1 else 0
  }

  predicate AllComplete(saved: seq<SavedTransaction>, now: int) {
    forall i :: 0 <= i < |saved| ==> CompleteRecord(saved[i], now)
  }

  predicate KeysDiffer(saved: seq<SavedTransaction>) {
    forall i, j :: 0 <= i < j < |saved| ==> saved[i].key != saved[j].key
  }

  ghost predicate WithinCap(saved: seq<SavedTransaction>, cap: int) {
    forall cred :: Naming(saved, cred) > 0 ==> Naming(saved, cred) <= cap
  }

  /** The entry of a record: its fields, and its algorithm as the one to answer with. */
  ghost predicate IsEntryOf(e: Entry, s: SavedTransaction) {
    && e.cred == s.credential && e.state == s.state && e.lastActivity == s.lastActivity && e.reqType == s.reqType
    && e.pollRef == s.pollRef && e.senderNonce == s.senderNonce && e.lastPollTime == s.lastPollTime
    && e.checkAfter == s.checkAfter && e.certReqID == s.certReqID && e.cert == s.cert && e.issueRef == s.issueRef
    && e.issuedSenderNonce == s.issuedSenderNonce && e.clientSenderNonce == s.clientSenderNonce
    && e.protectionAlg == s.protectionAlg
    && e.protectionParams == (if s.protectionAlg.None? then None else Some(EchoAlgorithm(s.protectionAlg.value)))
  }

  /** The keys are those of the records. */
  ghost predicate KeyedBy(keys: set<Key>, saved: seq<SavedTransaction>) {
    forall k :: k in keys <==> exists i :: 0 <= i < |saved| && saved[i].key == k
  }

  ghost predicate EntriesOf(entries: map<Key, Entry>, saved: seq<SavedTransaction>) {
    forall i :: 0 <= i < |saved| ==> saved[i].key in entries && IsEntryOf(entries[saved[i].key], saved[i])
  }

  ghost predicate CountsOf(cc: map<Bytes, int>, saved: seq<SavedTransaction>) {
    forall cred :: CountOf(cc, cred) == Naming(saved, cred)
  }

  /** The table holds the records and nothing else. */
  ghost predicate HoldsRecords(t: Table, saved: seq<SavedTransaction>) {
    && t.count == |saved| && KeyedBy(t.entries.Keys, saved) && EntriesOf(t.entries, saved)
    && CountsOf(t.credCounts, saved)
  }

  lemma NamingSnoc(init: seq<SavedTransaction>, s: SavedTransaction, cred: Bytes)
    ensures Naming(init + [s], cred) == Naming(init, cred) + if s.credential == cred then 1 else 0
  {
    assert (init + [s])[..|init|] == init;
  }

  lemma WithinCapSnoc(init: seq<SavedTransaction>, s: SavedTransaction, cap: int)
    ensures WithinCap(init + [s], cap) <==> WithinCap(init, cap) && Naming(init + [s], s.credential) <= cap
  {
    forall cred ensures Naming(init + [s], cred) == Naming(init, cred) + if s.credential == cred then 1 else 0 {
      NamingSnoc(init, s, cred);
    }
  }

  lemma CompleteSnoc(init: seq<SavedTransaction>, s: SavedTransaction, now: int)
    ensures AllComplete(init + [s], now) <==> AllComplete(init, now) && CompleteRecord(s, now)
    ensures KeysDiffer(init + [s]) <==> KeysDiffer(init) && forall i :: 0 <= i < |init| ==> init[i].key != s.key
  {
    var all := init + [s];
    assert all[|init|] == s && forall i :: 0 <= i < |init| ==> all[i] == init[i];
  }

  lemma KeyedByOneMore(keys: set<Key>, init: seq<SavedTransaction>, s: SavedTransaction)
    requires KeyedBy(keys, init)
    ensures KeyedBy(keys + {s.key}, init + [s])
  {
    var all := init + [s];
    assert all[|init|] == s && forall i :: 0 <= i < |init| ==> all[i] == init[i];
    forall k | k in keys ensures exists i :: 0 <= i < |all| && all[i].key == k {
      var i :| 0 <= i < |init| && init[i].key == k;
      assert all[i].key == k;
    }
  }

  lemma ReviveIsEntry(s: SavedTransaction)
    ensures IsEntryOf(Revive(s), s)
  {
  }

  lemma EntriesOneMore(entries: map<Key, Entry>, init: seq<SavedTransaction>, s: SavedTransaction, e: Entry)
    requires EntriesOf(entries, init) && s.key !in entries && IsEntryOf(e, s)
    ensures EntriesOf(entries[s.key := e], init + [s])
  {
    var all, grown := init + [s], entries[s.key := e];
    forall i | 0 <= i < |all| ensures all[i].key in grown && IsEntryOf(grown[all[i].key], all[i]) {
      if i < |init| {
        assert all[i] == init[i] && grown[init[i].key] == entries[init[i].key];
      }
    }
  }

  lemma CountsOneMore(cc: map<Bytes, int>, init: seq<SavedTransaction>, s: SavedTransaction)
    requires CountsOf(cc, init)
    ensures CountsOf(cc[s.credential := CountOf(cc, s.credential) + 1], init + [s])
  {
    forall cred ensures CountOf(cc[s.credential := CountOf(cc, s.credential) + 1], cred) == Naming(init + [s], cred) {
      NamingSnoc(init, s, cred);
    }
  }

  lemma HoldsOneMore(u: Table, init: seq<SavedTransaction>, s: SavedTransaction, e: Entry)
    requires HoldsRecords(u, init) && s.key !in u.entries && IsEntryOf(e, s)
    ensures HoldsRecords(AddCred(u, s.credential, 1).(entries := u.entries[s.key := e], count := u.count + 1),
                         init + [s])
  {
    KeyedByOneMore(u.entries.Keys, init, s);
    EntriesOneMore(u.entries, init, s, e);
    CountsOneMore(u.credCounts, init, s);
    assert u.entries[s.key := e].Keys == u.entries.Keys + {s.key};
  }

  /** The table with one record more. */
  function WithRecord(u: Table, s: SavedTransaction): Table {
    AddCred(u, s.credential, 1).(entries := u.entries[s.key := Revive(s)], count := u.count + 1)
  }

  lemma LoadOneRule(caps: Caps, u: Table, s: SavedTransaction, now: int)
    ensures LoadOne(caps, u, s, now)
         == if CompleteRecord(s, now) && s.key !in u.entries
               && CountOf(u.credCounts, s.credential) + 1 <= caps.perCredential
            then Some(WithRecord(u, s)) else None
  {
    RestorableIff(s, now);
  }

  lemma KeyIsNew(keys: set<Key>, init: seq<SavedTransaction>, s: SavedTransaction)
    requires KeyedBy(keys, init)
    ensures s.key !in keys <==> forall i :: 0 <= i < |init| ==> init[i].key != s.key
  {
  }

  lemma LoadOneIff(caps: Caps, u: Table, init: seq<SavedTransaction>, s: SavedTransaction, now: int)
    requires HoldsRecords(u, init)
    ensures var r := LoadOne(caps, u, s, now);
            && (r.Some? <==> && CompleteRecord(s, now) && (forall i :: 0 <= i < |init| ==> init[i].key != s.key)
                             && Naming(init + [s], s.credential) <= caps.perCredential)
            && (r.Some? ==> HoldsRecords(r.value, init + [s]))
  {
    LoadOneRule(caps, u, s, now);
    KeyIsNew(u.entries.Keys, init, s);
    NamingSnoc(init, s, s.credential);
    assert CountOf(u.credCounts, s.credential) == Naming(init, s.credential);
    if s.key !in u.entries {
      ReviveIsEntry(s);
      HoldsOneMore(u, init, s, Revive(s));
    }
  }

  lemma RestorableIff(s: SavedTransaction, now: int)
    ensures Restorable(Revive(s), now) <==> CompleteRecord(s, now)
  {
  }

  lemma {:induction false} LoadIff(caps: Caps, saved: seq<SavedTransaction>, now: int)
    ensures var r := Load(caps, saved, now);
            && (r.Some? <==> AllComplete(saved, now) && KeysDiffer(saved) && WithinCap(saved, caps.perCredential))
            && (r.Some? ==> HoldsRecords(r.value, saved))
  {
    if saved != [] {
      var init, s := saved[..|saved| - 1], saved[|saved| - 1];
      assert saved == init + [s];
      LoadIff(caps, init, now);
      LoadSnoc(caps, init, s, now);
      CompleteSnoc(init, s, now);
      WithinCapSnoc(init, s, caps.perCredential);
      var prior := Load(caps, init, now);
      if prior.Some? {
        LoadOneIff(caps, prior.value, init, s, now);
      }
    }
  }

  /** A snapshot is restored exactly when the tracker is empty, version and signer are
      right, and its records are complete, of different keys and within both caps. The
      restored table then holds its records and nothing else. */
  lemma RestoreSucceedsIff(caps: Caps, signer: Bytes, t: Table, saved: Saved, now: int)
    ensures var r := Restore(caps, signer, t, saved, now);
            && (r.Some? <==> && t.count == 0 && saved.version == 1 && saved.signer == signer
                             && |saved.entries| <= caps.total && AllComplete(saved.entries, now)
                             && KeysDiffer(saved.entries) && WithinCap(saved.entries, caps.perCredential))
            && (r.Some? ==> HoldsRecords(r.value, saved.entries))
  {
    LoadIff(caps, saved.entries, now);
  }
}
