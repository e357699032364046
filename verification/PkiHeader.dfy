/**
  The header codec (pkicmp/pkimessage.go). Sender and recipient are opaque elements,
  and the message time is the content of its GeneralizedTime.
 */
module PkiHeader {
  import opened Types
  import opened Der
  import opened Codecs

  // ---------------------------------------------------------------------------
  // Optional fields with the tags [0] to [8], in this order
  // ---------------------------------------------------------------------------

  const SLOTS := 9

  /** The content of field `n`, if it is there. */
  type Slots = s: seq<Option<Bytes>> | |s| == 9 witness seq(9, i => None)

  function WriteSlot(n: nat, content: Option<Bytes>): Bytes
    requires n < SLOTS
  {
    if content.None? then [] else Element(Context(n), content.value)
  }

  function WriteSlots(slots: Slots, n: nat): Bytes
    requires n <= SLOTS
    decreases SLOTS - n
  {
    if n == SLOTS then [] else WriteSlot(n, slots[n]) + WriteSlots(slots, n + 1)
  }

  /** The fields from number `n` on. What follows the last is ignored. */
  function ReadSlots(s: Bytes, n: nat): Option<seq<Option<Bytes>>>
    requires n <= SLOTS
    ensures ReadSlots(s, n).Some? ==> |ReadSlots(s, n).value| == SLOTS - n
    decreases SLOTS - n
  {
    if n == SLOTS then Some([])
    else if Peek(s, Context(n)) then
      var r := ReadTagged(s, Context(n));
      if r.None? then None
      else
        var rest := ReadSlots(r.value.1, n + 1);
        if rest.None? then None else Some([Some(r.value.0)] + rest.value)
    else
      var rest := ReadSlots(s, n + 1);
      if rest.None? then None else Some([None] + rest.value)
  }

  /** What is written from field `n` on does not start like an earlier field. */
  lemma {:induction false} StartsLater(slots: Slots, n: nat)
    requires n <= SLOTS
    ensures WriteSlots(slots, n) == [] || WriteSlots(slots, n)[0] >= Context(0) + n
    decreases SLOTS - n
  {
    if n < SLOTS {
      StartsLater(slots, n + 1);
    }
  }

  lemma SlotPresent(n: nat, content: Bytes, tail: Bytes, rest: seq<Option<Bytes>>)
    requires n < SLOTS && Fits(content) && ReadSlots(tail, n + 1) == Some(rest)
    ensures ReadSlots(Element(Context(n), content) + tail, n) == Some([Some(content)] + rest)
  {
    ReadTaggedOf(Context(n), content, tail);
  }

  lemma SlotAbsent(n: nat, tail: Bytes, rest: seq<Option<Bytes>>)
    requires n < SLOTS && !Peek(tail, Context(n)) && ReadSlots(tail, n + 1) == Some(rest)
    ensures ReadSlots(tail, n) == Some([None] + rest)
  {
  }

  lemma SlotSizes(slots: Slots, n: nat)
    requires n < SLOTS
    ensures |WriteSlots(slots, n)| == |WriteSlot(n, slots[n])| + |WriteSlots(slots, n + 1)|
    ensures slots[n].Some? ==> |WriteSlot(n, slots[n])| >= |slots[n].value|
  {
  }

  lemma SlotStep(slot: Option<Bytes>, n: nat, tail: Bytes, rest: seq<Option<Bytes>>)
    requires n < SLOTS && ReadSlots(tail, n + 1) == Some(rest)
    requires if slot.Some? then Fits(slot.value) else !Peek(tail, Context(n))
    ensures ReadSlots(WriteSlot(n, slot) + tail, n) == Some([slot] + rest)
  {
    if slot.Some? {
      SlotPresent(n, slot.value, tail, rest);
    } else {
      assert [] + tail == tail;
      SlotAbsent(n, tail, rest);
    }
  }

  lemma {:induction false} SlotsRoundTrip(slots: Slots, n: nat)
    requires n <= SLOTS && Fits(WriteSlots(slots, n))
    ensures ReadSlots(WriteSlots(slots, n), n) == Some(slots[n..])
    decreases SLOTS - n
  {
    if n == SLOTS {
      assert slots[n..] == [];
    } else {
      SlotSizes(slots, n);
      SlotsRoundTrip(slots, n + 1);
      StartsLater(slots, n + 1);
      SlotStep(slots[n], n, WriteSlots(slots, n + 1), slots[n + 1..]);
      assert slots[n..] == [slots[n]] + slots[n + 1..];
    }
  }

  // ---------------------------------------------------------------------------
  // Field contents
  // ---------------------------------------------------------------------------

  datatype Info = Info(kind: Bytes, value: Bytes)

  function WriteInfo(i: Info): Bytes {
    Element(SEQUENCE, Element(OBJECT_IDENTIFIER, i.kind) + i.value)
  }

  /** Everything after the identifier is the value. */
  function ReadInfoContent(s: Bytes): Option<Info> {
    var kind := ReadTagged(s, OBJECT_IDENTIFIER);
    if kind.None? then None else Some(Info(kind.value.0, kind.value.1))
  }

  function ReadInfo(s: Bytes): Option<(Info, Bytes)> {
    ReadWrapped(SEQUENCE, ReadInfoContent, s)
  }

  lemma InfoRoundTrips(i: Info)
    requires Fits(WriteInfo(i))
    ensures RoundTrips(WriteInfo, ReadInfo, i)
  {
    var content := Element(OBJECT_IDENTIFIER, i.kind) + i.value;
    ReadTaggedOf(OBJECT_IDENTIFIER, i.kind, i.value);
    forall tail ensures ReadInfo(WriteInfo(i) + tail) == Some((i, tail)) {
      WrappedRoundTrips(SEQUENCE, content, ReadInfoContent, i, tail);
    }
  }

  /** The value of the one element a field content starts with. */
  function Inside<T>(r: Option<(T, Bytes)>): Option<T> {
    if r.None? then None else Some(r.value.0)
  }

  function WriteOctets(b: Bytes): Option<Bytes> {
    if b == [] then None else Some(Element(OCTET_STRING, b))
  }

  function ReadOctets(content: Option<Bytes>): Option<Bytes> {
    if content.None? then Some([]) else Inside(ReadTagged(content.value, OCTET_STRING))
  }

  lemma OctetsRoundTrip(b: Bytes)
    requires Fits(b)
    ensures ReadOctets(WriteOctets(b)) == Some(b)
  {
    if b != [] {
      assert Element(OCTET_STRING, b) + [] == Element(OCTET_STRING, b);
      ReadTaggedOf(OCTET_STRING, b, []);
    }
  }

  function WriteTime(t: Option<Bytes>): Option<Bytes> {
    if t.None? then None else Some(Element(GENERALIZED_TIME, t.value))
  }

  function ReadTime(content: Option<Bytes>): Option<Option<Bytes>> {
    if content.None? then Some(None)
    else
      var t := ReadTagged(content.value, GENERALIZED_TIME);
      if t.None? then None else Some(Some(t.value.0))
  }

  lemma TimeRoundTrips(t: Option<Bytes>)
    requires t.Some? ==> Fits(t.value)
    ensures ReadTime(WriteTime(t)) == Some(t)
  {
    if t.Some? {
      assert Element(GENERALIZED_TIME, t.value) + [] == Element(GENERALIZED_TIME, t.value);
      ReadTaggedOf(GENERALIZED_TIME, t.value, []);
    }
  }

  function WriteAlg(a: Option<AlgorithmIdentifier>): Option<Bytes> {
    if a.None? then None else Some(WriteAlgorithm(a.value))
  }

  function ReadAlg(content: Option<Bytes>): Option<Option<AlgorithmIdentifier>> {
    if content.None? then Some(None)
    else
      var a := ReadAlgorithm(content.value);
      if a.None? then None else Some(Some(a.value.0))
  }

  lemma AlgRoundTrips(a: Option<AlgorithmIdentifier>)
    requires a.Some? ==> NormalAlgorithm(a.value) && Fits(WriteAlgorithm(a.value))
    ensures ReadAlg(WriteAlg(a)) == Some(a)
  {
    if a.Some? {
      assert WriteAlgorithm(a.value) + [] == WriteAlgorithm(a.value);
      AlgorithmRoundTrips(a.value, []);
    }
  }

  function WriteFreeText(t: seq<Bytes>): Option<Bytes> {
    if t == [] then None else Some(WriteText(t))
  }

  function ReadFreeText(content: Option<Bytes>): Option<seq<Bytes>> {
    if content.None? then Some([]) else Inside(ReadText(content.value))
  }

  lemma FreeTextRoundTrips(t: seq<Bytes>)
    requires Fits(WriteText(t))
    ensures ReadFreeText(WriteFreeText(t)) == Some(t)
  {
    if t != [] {
      assert WriteText(t) + [] == WriteText(t);
      TextRoundTrips(t, []);
    }
  }

  function WriteGeneral(infos: seq<Info>): Option<Bytes> {
    if infos == [] then None else Some(WriteSequenceOf(WriteInfo, infos))
  }

  function ReadGeneral(content: Option<Bytes>): Option<seq<Info>> {
    if content.None? then Some([]) else Inside(ReadSequenceOf(ReadInfo, content.value))
  }

  lemma GeneralRoundTrips(infos: seq<Info>)
    requires Fits(WriteSequenceOf(WriteInfo, infos))
    ensures ReadGeneral(WriteGeneral(infos)) == Some(infos)
  {
    if infos != [] {
      var content := WriteSequenceOf(WriteInfo, infos);
      forall i | 0 <= i < |infos| ensures RoundTrips(WriteInfo, ReadInfo, infos[i]) {
        WriteAllSize(WriteInfo, infos, i);
        InfoRoundTrips(infos[i]);
      }
      assert content + [] == content;
      SequenceOfRoundTrips(WriteInfo, ReadInfo, infos, []);
    }
  }

  // ---------------------------------------------------------------------------
  // The header
  // ---------------------------------------------------------------------------

  datatype Fields = Fields(
    time: Option<Bytes>,
    protectionAlg: Option<AlgorithmIdentifier>,
    senderKID: Bytes,
    recipKID: Bytes,
    transactionID: Bytes,
    senderNonce: Bytes,
    recipNonce: Bytes,
    freeText: seq<Bytes>,
    generalInfo: seq<Info>)

  datatype Header = Header(pvno: int, sender: Bytes, recipient: Bytes, fields: Fields)

  predicate NormalHeader(h: Header) {
    && FitsInt64(h.pvno) && IsElement(h.sender) && IsElement(h.recipient)
    && (h.fields.protectionAlg.Some? ==> NormalAlgorithm(h.fields.protectionAlg.value))
  }

  function SlotsOf(f: Fields): Slots {
    [WriteTime(f.time), WriteAlg(f.protectionAlg), WriteOctets(f.senderKID), WriteOctets(f.recipKID),
     WriteOctets(f.transactionID),
     WriteOctets(f.senderNonce), WriteOctets(f.recipNonce), WriteFreeText(f.freeText), WriteGeneral(f.generalInfo)]
  }

  function FieldsOf(slots: Slots): Option<Fields> {
    var time, alg := ReadTime(slots[0]), ReadAlg(slots[1]);
    var kid, rkid, txn := ReadOctets(slots[2]), ReadOctets(slots[3]), ReadOctets(slots[4]);
    var nonce, rnonce := ReadOctets(slots[5]), ReadOctets(slots[6]);
    var text, info := ReadFreeText(slots[7]), ReadGeneral(slots[8]);
    if time.None? || alg.None? || kid.None? || rkid.None? || txn.None? || nonce.None? || rnonce.None? || text.None?
        || info.None? then None
    else Some(Fields(time.value, alg.value, kid.value, rkid.value, txn.value, nonce.value, rnonce.value, text.value,
                     info.value))
  }

  lemma {:induction false} SlotFits(slots: Slots, n: nat, k: nat)
    requires n <= k < SLOTS && Fits(WriteSlots(slots, n))
    ensures slots[k].Some? ==> Fits(slots[k].value)
    decreases SLOTS - n
  {
    SlotSizes(slots, n);
    if n < k {
      SlotFits(slots, n + 1, k);
    }
  }

  lemma FieldsFrom(slots: Slots, f: Fields)
    requires ReadTime(slots[0]) == Some(f.time) && ReadAlg(slots[1]) == Some(f.protectionAlg)
    requires ReadOctets(slots[2]) == Some(f.senderKID) && ReadOctets(slots[3]) == Some(f.recipKID)
    requires ReadOctets(slots[4]) == Some(f.transactionID)
    requires ReadOctets(slots[5]) == Some(f.senderNonce) && ReadOctets(slots[6]) == Some(f.recipNonce)
    requires ReadFreeText(slots[7]) == Some(f.freeText) && ReadGeneral(slots[8]) == Some(f.generalInfo)
    ensures FieldsOf(slots) == Some(f)
  {
  }

  lemma OctetSlot(slots: Slots, k: nat, b: Bytes)
    requires k < SLOTS && slots[k] == WriteOctets(b) && (slots[k].Some? ==> Fits(slots[k].value))
    ensures ReadOctets(slots[k]) == Some(b)
  {
    OctetsRoundTrip(b);
  }

  lemma FieldsRoundTrip(f: Fields)
    requires f.protectionAlg.Some? ==> NormalAlgorithm(f.protectionAlg.value)
    requires forall k :: 0 <= k < SLOTS && SlotsOf(f)[k].Some? ==> Fits(SlotsOf(f)[k].value)
    ensures FieldsOf(SlotsOf(f)) == Some(f)
  {
    var slots := SlotsOf(f);
    assert slots[0] == WriteTime(f.time) && slots[1] == WriteAlg(f.protectionAlg);
    assert slots[7] == WriteFreeText(f.freeText) && slots[8] == WriteGeneral(f.generalInfo);
    TimeRoundTrips(f.time);
    AlgRoundTrips(f.protectionAlg);
    OctetSlot(slots, 2, f.senderKID);
    OctetSlot(slots, 3, f.recipKID);
    OctetSlot(slots, 4, f.transactionID);
    OctetSlot(slots, 5, f.senderNonce);
    OctetSlot(slots, 6, f.recipNonce);
    FreeTextRoundTrips(f.freeText);
    if f.generalInfo != [] {
      GeneralRoundTrips(f.generalInfo);
    }
    FieldsFrom(slots, f);
  }

  /** The header with its optional fields not yet looked into. */
  datatype Frame = Frame(pvno: int, sender: Bytes, recipient: Bytes, slots: Slots)

  function WriteFrameContent(f: Frame): Bytes {
    Int64(f.pvno) + (f.sender + (f.recipient + WriteSlots(f.slots, 0)))
  }

  function ReadFrameContent(s: Bytes): Option<Frame> {
    var pvno := ReadInt64(s);
    if pvno.None? then None
    else
      var sender := ReadAny(pvno.value.1);
      if sender.None? then None
      else
        var recipient := ReadAny(sender.value.1);
        if recipient.None? then None
        else
          var slots := ReadSlots(recipient.value.1, 0);
          if slots.None? then None
          else Some(Frame(pvno.value.0, sender.value.0, recipient.value.0, slots.value))
  }

  function FrameOf(h: Header): Frame {
    Frame(h.pvno, h.sender, h.recipient, SlotsOf(h.fields))
  }

  function WriteHeader(h: Header): Bytes {
    Element(SEQUENCE, WriteFrameContent(FrameOf(h)))
  }

  function ReadHeader(s: Bytes): Option<(Header, Bytes)> {
    var frame := ReadWrapped(SEQUENCE, ReadFrameContent, s);
    if frame.None? then None
    else
      var fields := FieldsOf(frame.value.0.slots);
      if fields.None? then None
      else Some((Header(frame.value.0.pvno, frame.value.0.sender, frame.value.0.recipient, fields.value),
                 frame.value.1))
  }

  lemma SlotsAreRead(f: Fields)
    requires f.protectionAlg.Some? ==> NormalAlgorithm(f.protectionAlg.value)
    requires Fits(WriteSlots(SlotsOf(f), 0))
    ensures ReadSlots(WriteSlots(SlotsOf(f), 0), 0) == Some(SlotsOf(f)) && FieldsOf(SlotsOf(f)) == Some(f)
  {
    var slots := SlotsOf(f);
    forall k | 0 <= k < SLOTS && slots[k].Some? ensures Fits(slots[k].value) {
      SlotFits(slots, 0, k);
    }
    SlotsRoundTrip(slots, 0);
    assert slots[0..] == slots;
    FieldsRoundTrip(f);
  }

  lemma FrameParts(pvno: int, sender: Bytes, recipient: Bytes, rest: Bytes, slots: Slots)
    requires FitsInt64(pvno) && IsElement(sender) && IsElement(recipient) && ReadSlots(rest, 0) == Some(slots)
    ensures ReadFrameContent(Int64(pvno) + (sender + (recipient + rest))) == Some(Frame(pvno, sender, recipient, slots))
  {
    ReadInt64Of(pvno, sender + (recipient + rest));
    ReadAnyOf(sender, recipient + rest);
    ReadAnyOf(recipient, rest);
  }

  lemma FrameWraps(content: Bytes, f: Frame, tail: Bytes)
    requires Fits(content) && ReadFrameContent(content) == Some(f)
    ensures ReadWrapped(SEQUENCE, ReadFrameContent, Element(SEQUENCE, content) + tail) == Some((f, tail))
  {
    ReadTaggedOf(SEQUENCE, content, tail);
  }

  lemma FrameRoundTrips(f: Frame, tail: Bytes)
    requires FitsInt64(f.pvno) && IsElement(f.sender) && IsElement(f.recipient) && Fits(WriteFrameContent(f))
    requires ReadSlots(WriteSlots(f.slots, 0), 0) == Some(f.slots)
    ensures ReadWrapped(SEQUENCE, ReadFrameContent, Element(SEQUENCE, WriteFrameContent(f)) + tail) == Some((f, tail))
  {
    FrameParts(f.pvno, f.sender, f.recipient, WriteSlots(f.slots, 0), f.slots);
    FrameWraps(WriteFrameContent(f), f, tail);
  }

  lemma HeaderRoundTrips(h: Header, tail: Bytes)
    requires NormalHeader(h) && Fits(WriteHeader(h))
    ensures ReadHeader(WriteHeader(h) + tail) == Some((h, tail))
  {
    SlotsAreRead(h.fields);
    FrameRoundTrips(FrameOf(h), tail);
  }
}
