/**
  The codecs of poll and certificate response bodies (pkicmp/enrollment.go).
 */
module Responses {
  import opened Types
  import opened Der
  import opened Codecs

  // ---------------------------------------------------------------------------
  // PollReqContent and PollRepContent
  // ---------------------------------------------------------------------------

  function WritePollId(id: int): Bytes {
    Element(SEQUENCE, Int64(id))
  }

  /** What follows the number inside the element is ignored. */
  function ReadPollIdContent(s: Bytes): Option<int> {
    var id := ReadInt64(s);
    if id.None? then None else Some(id.value.0)
  }

  function ReadPollId(s: Bytes): Option<(int, Bytes)> {
    ReadWrapped(SEQUENCE, ReadPollIdContent, s)
  }

  lemma PollIdRoundTrips(id: int)
    requires FitsInt64(id)
    ensures RoundTrips(WritePollId, ReadPollId, id)
  {
    Int64Size(id);
    assert Int64(id) + [] == Int64(id);
    ReadInt64Of(id, []);
    assert Fits(Int64(id));
    forall tail ensures ReadPollId(WritePollId(id) + tail) == Some((id, tail)) {
      WrappedRoundTrips(SEQUENCE, Int64(id), ReadPollIdContent, id, tail);
    }
  }

  lemma PollReqRoundTrips(ids: seq<int>, tail: Bytes)
    requires (forall i :: 0 <= i < |ids| ==> FitsInt64(ids[i])) && Fits(WriteSequenceOf(WritePollId, ids))
    ensures ReadSequenceOf(ReadPollId, WriteSequenceOf(WritePollId, ids) + tail) == Some((ids, tail))
  {
    forall i | 0 <= i < |ids| ensures RoundTrips(WritePollId, ReadPollId, ids[i]) {
      PollIdRoundTrips(ids[i]);
    }
    SequenceOfRoundTrips(WritePollId, ReadPollId, ids, tail);
  }

  datatype PollRepItem = PollRepItem(certReqID: int, checkAfter: int, reason: seq<Bytes>)

  predicate NormalItem(p: PollRepItem) {
    FitsInt64(p.certReqID) && FitsInt64(p.checkAfter)
  }

  function WriteItemContent(p: PollRepItem): Bytes {
    Int64(p.certReqID) + (Int64(p.checkAfter) + WriteText(p.reason))
  }

  function WriteItem(p: PollRepItem): Bytes {
    Element(SEQUENCE, WriteItemContent(p))
  }

  function ReadItemContent(s: Bytes): Option<PollRepItem> {
    var id := ReadInt64(s);
    if id.None? then None
    else
      var after := ReadInt64(id.value.1);
      if after.None? then None
      else if after.value.1 == [] then Some(PollRepItem(id.value.0, after.value.0, []))
      else
        var reason := ReadText(after.value.1);
        if reason.None? then None else Some(PollRepItem(id.value.0, after.value.0, reason.value.0))
  }

  function ReadItem(s: Bytes): Option<(PollRepItem, Bytes)> {
    ReadWrapped(SEQUENCE, ReadItemContent, s)
  }

  lemma ItemParts(id: int, after: int, text: Bytes, reason: seq<Bytes>)
    requires FitsInt64(id) && FitsInt64(after)
    requires if text == [] then reason == [] else ReadText(text) == Some((reason, []))
    ensures ReadItemContent(Int64(id) + (Int64(after) + text)) == Some(PollRepItem(id, after, reason))
  {
    ReadInt64Of(id, Int64(after) + text);
    ReadInt64Of(after, text);
  }

  lemma ItemWraps(content: Bytes, p: PollRepItem, tail: Bytes)
    requires Fits(content) && ReadItemContent(content) == Some(p)
    ensures ReadItem(Element(SEQUENCE, content) + tail) == Some((p, tail))
  {
    WrappedRoundTrips(SEQUENCE, content, ReadItemContent, p, tail);
  }

  lemma ItemRoundTrips(p: PollRepItem)
    requires NormalItem(p) && Fits(WriteItem(p))
    ensures RoundTrips(WriteItem, ReadItem, p)
  {
    if p.reason != [] {
      assert WriteText(p.reason) + [] == WriteText(p.reason);
      TextRoundTrips(p.reason, []);
    }
    ItemParts(p.certReqID, p.checkAfter, WriteText(p.reason), p.reason);
    forall tail ensures ReadItem(WriteItem(p) + tail) == Some((p, tail)) {
      ItemWraps(WriteItemContent(p), p, tail);
    }
  }

  lemma PollRepRoundTrips(items: seq<PollRepItem>, tail: Bytes)
    requires (forall i :: 0 <= i < |items| ==> NormalItem(items[i])) && Fits(WriteSequenceOf(WriteItem, items))
    ensures ReadSequenceOf(ReadItem, WriteSequenceOf(WriteItem, items) + tail) == Some((items, tail))
  {
    forall i | 0 <= i < |items| ensures RoundTrips(WriteItem, ReadItem, items[i]) {
      WriteAllSize(WriteItem, items, i);
      ItemRoundTrips(items[i]);
    }
    SequenceOfRoundTrips(WriteItem, ReadItem, items, tail);
  }

  // ---------------------------------------------------------------------------
  // Encrypted keys and certificates
  // ---------------------------------------------------------------------------

  /** An envelopedData or an encryptedValue, as DER. */
  datatype EncryptedKey = Enveloped(der: Bytes) | EncryptedValue(der: Bytes)

  /** stripSequence and wrapSequence. */
  function StripSequence(der: Bytes): Option<Bytes> {
    var r := ReadTagged(der, SEQUENCE);
    if r.None? then None else Some(r.value.0)
  }

  function WrapSequence(content: Bytes): Bytes {
    Element(SEQUENCE, content)
  }

  lemma StripInvertsWrap(content: Bytes)
    requires Fits(content)
    ensures StripSequence(WrapSequence(content)) == Some(content)
  {
    assert WrapSequence(content) + [] == WrapSequence(content);
    ReadTaggedOf(SEQUENCE, content, []);
  }

  /** What wrapping restores is the element, without anything that followed it. */
  lemma WrapInvertsStrip(der: Bytes)
    requires StripSequence(der).Some?
    ensures WrapSequence(StripSequence(der).value) <= der
    ensures IsElement(der) ==> WrapSequence(StripSequence(der).value) == der
  {
    ElementOfRead(der);
  }

  predicate NormalKey(k: EncryptedKey) {
    && IsElement(k.der)
    && (k.Enveloped? ==> k.der[0] == SEQUENCE)
    && (k.EncryptedValue? ==> k.der[0] != Context(0))
  }

  function WriteKey(k: EncryptedKey): Bytes {
    match k
    case Enveloped(der) => Element(Context(0), if StripSequence(der).Some? then StripSequence(der).value else der)
    case EncryptedValue(der) => der
  }

  function ReadKey(s: Bytes): Option<(EncryptedKey, Bytes)> {
    if Peek(s, Context(0)) then
      var r := ReadTagged(s, Context(0));
      if r.None? then None else Some((Enveloped(WrapSequence(r.value.0)), r.value.1))
    else
      var r := ReadAny(s);
      if r.None? then None else Some((EncryptedValue(r.value.0), r.value.1))
  }

  lemma KeyRoundTrips(k: EncryptedKey, tail: Bytes)
    requires NormalKey(k) && Fits(WriteKey(k))
    ensures ReadKey(WriteKey(k) + tail) == Some((k, tail)) && |WriteKey(k)| > 0
  {
    match k
    case Enveloped(der) =>
      ElementOfRead(der);
      WrapInvertsStrip(der);
      ReadTaggedOf(Context(0), StripSequence(der).value, tail);
    case EncryptedValue(der) =>
      ReadAnyOf(der, tail);
  }

  datatype CertChoice = PlainCert(der: Bytes) | EncryptedCert(key: EncryptedKey)

  predicate NormalChoice(c: CertChoice) {
    match c
    case PlainCert(der) => IsElement(der)
    case EncryptedCert(key) => NormalKey(key)
  }

  function WriteChoice(c: CertChoice): Bytes {
    match c
    case PlainCert(der) => Element(Context(0), der)
    case EncryptedCert(key) => Element(Context(1), WriteKey(key))
  }

  function ReadPlain(s: Bytes): Option<CertChoice> {
    var r := ReadAny(s);
    if r.None? then None else Some(PlainCert(r.value.0))
  }

  function ReadEncrypted(s: Bytes): Option<CertChoice> {
    var r := ReadKey(s);
    if r.None? then None else Some(EncryptedCert(r.value.0))
  }

  function ReadChoice(s: Bytes): Option<(CertChoice, Bytes)> {
    if Peek(s, Context(0)) then ReadWrapped(Context(0), ReadPlain, s)
    else if Peek(s, Context(1)) then ReadWrapped(Context(1), ReadEncrypted, s)
    else None
  }

  lemma ChoiceRoundTrips(c: CertChoice, tail: Bytes)
    requires NormalChoice(c) && Fits(WriteChoice(c))
    ensures ReadChoice(WriteChoice(c) + tail) == Some((c, tail))
  {
    match c
    case PlainCert(der) =>
      assert der + [] == der;
      ReadAnyOf(der, []);
      WrappedRoundTrips(Context(0), der, ReadPlain, c, tail);
    case EncryptedCert(key) =>
      assert WriteKey(key) + [] == WriteKey(key);
      KeyRoundTrips(key, []);
      WrappedRoundTrips(Context(1), WriteKey(key), ReadEncrypted, c, tail);
  }

  datatype KeyPair = KeyPair(cert: CertChoice, privateKey: Option<EncryptedKey>)

  predicate NormalPair(p: KeyPair) {
    NormalChoice(p.cert) && (p.privateKey.Some? ==> NormalKey(p.privateKey.value))
  }

  function WritePrivateKey(k: Option<EncryptedKey>): Bytes {
    if k.Some? then Element(Context(0), WriteKey(k.value)) else []
  }

  function ReadPrivateKeyContent(s: Bytes): Option<EncryptedKey> {
    var r := ReadKey(s);
    if r.None? then None else Some(r.value.0)
  }

  function ReadPrivateKey(s: Bytes): Option<Option<EncryptedKey>> {
    if !Peek(s, Context(0)) then Some(None)
    else
      var r := ReadWrapped(Context(0), ReadPrivateKeyContent, s);
      if r.None? then None else Some(Some(r.value.0))
  }

  lemma PrivateKeyRoundTrips(k: Option<EncryptedKey>)
    requires (k.Some? ==> NormalKey(k.value)) && Fits(WritePrivateKey(k))
    ensures ReadPrivateKey(WritePrivateKey(k)) == Some(k)
  {
    if k.Some? {
      assert WriteKey(k.value) + [] == WriteKey(k.value);
      KeyRoundTrips(k.value, []);
      assert WritePrivateKey(k) + [] == WritePrivateKey(k);
      WrappedRoundTrips(Context(0), WriteKey(k.value), ReadPrivateKeyContent, k.value, []);
    }
  }

  function WritePairContent(p: KeyPair): Bytes {
    WriteChoice(p.cert) + WritePrivateKey(p.privateKey)
  }

  function WritePair(p: KeyPair): Bytes {
    Element(SEQUENCE, WritePairContent(p))
  }

  function ReadPairContent(s: Bytes): Option<KeyPair> {
    var cert := ReadChoice(s);
    if cert.None? then None
    else
      var key := ReadPrivateKey(cert.value.1);
      if key.None? then None else Some(KeyPair(cert.value.0, key.value))
  }

  function ReadPair(s: Bytes): Option<(KeyPair, Bytes)> {
    ReadWrapped(SEQUENCE, ReadPairContent, s)
  }

  lemma PairRoundTrips(p: KeyPair, tail: Bytes)
    requires NormalPair(p) && Fits(WritePair(p))
    ensures ReadPair(WritePair(p) + tail) == Some((p, tail)) && Peek(WritePair(p) + tail, SEQUENCE)
  {
    ChoiceRoundTrips(p.cert, WritePrivateKey(p.privateKey));
    PrivateKeyRoundTrips(p.privateKey);
    WrappedRoundTrips(SEQUENCE, WritePairContent(p), ReadPairContent, p, tail);
  }

  // ---------------------------------------------------------------------------
  // CertResponse and CertRepMessage
  // ---------------------------------------------------------------------------

  datatype WireResponse = WireResponse(certReqID: int, status: PkiStatusInfo, pair: Option<KeyPair>, rspInfo: Bytes)

  predicate NormalResponse(r: WireResponse) {
    FitsInt64(r.certReqID) && NormalStatus(r.status) && (r.pair.Some? ==> NormalPair(r.pair.value))
  }

  function WriteOptionalPair(p: Option<KeyPair>): Bytes {
    if p.Some? then WritePair(p.value) else []
  }

  /** A certified key pair is expected at a SEQUENCE, and at any tag whose first bit is set. */
  function ReadOptionalPair(s: Bytes): Option<(Option<KeyPair>, Bytes)> {
    if s != [] && (s[0] == SEQUENCE || s[0] >= 128) then
      var r := ReadPair(s);
      if r.None? then None else Some((Some(r.value.0), r.value.1))
    else Some((None, s))
  }

  function WriteRspInfo(b: Bytes): Bytes {
    if b == [] then [] else Element(OCTET_STRING, b)
  }

  function ReadRspInfo(s: Bytes): Option<Bytes> {
    if !Peek(s, OCTET_STRING) then Some([])
    else
      var r := ReadTagged(s, OCTET_STRING);
      if r.None? then None else Some(r.value.0)
  }

  lemma RspInfoRoundTrips(b: Bytes)
    requires Fits(WriteRspInfo(b))
    ensures ReadRspInfo(WriteRspInfo(b)) == Some(b)
  {
    if b != [] {
      assert WriteRspInfo(b) + [] == WriteRspInfo(b);
      ReadTaggedOf(OCTET_STRING, b, []);
    }
  }

  function WritePairAndInfo(p: Option<KeyPair>, info: Bytes): Bytes {
    WriteOptionalPair(p) + WriteRspInfo(info)
  }

  function ReadPairAndInfo(s: Bytes): Option<(Option<KeyPair>, Bytes)> {
    var p := ReadOptionalPair(s);
    if p.None? then None
    else
      var info := ReadRspInfo(p.value.1);
      if info.None? then None else Some((p.value.0, info.value))
  }

  lemma PairAndInfoRoundTrip(p: Option<KeyPair>, info: Bytes)
    requires (p.Some? ==> NormalPair(p.value)) && Fits(WritePairAndInfo(p, info))
    ensures ReadPairAndInfo(WritePairAndInfo(p, info)) == Some((p, info))
  {
    RspInfoRoundTrips(info);
    if p.Some? {
      PairRoundTrips(p.value, WriteRspInfo(info));
    } else {
      assert [] + WriteRspInfo(info) == WriteRspInfo(info);
    }
  }

  function WriteResponseContent(r: WireResponse): Bytes {
    Int64(r.certReqID) + (WriteStatus(r.status) + WritePairAndInfo(r.pair, r.rspInfo))
  }

  function WriteResponse(r: WireResponse): Bytes {
    Element(SEQUENCE, WriteResponseContent(r))
  }

  function ReadResponseContent(s: Bytes): Option<WireResponse> {
    var id := ReadInt64(s);
    if id.None? then None
    else
      var status := ReadStatus(id.value.1);
      if status.None? then None
      else
        var optional := ReadPairAndInfo(status.value.1);
        if optional.None? then None
        else Some(WireResponse(id.value.0, status.value.0, optional.value.0, optional.value.1))
  }

  function ReadResponse(s: Bytes): Option<(WireResponse, Bytes)> {
    ReadWrapped(SEQUENCE, ReadResponseContent, s)
  }

  lemma ResponseParts(id: int, written: Bytes, status: PkiStatusInfo, optional: Bytes, pair: Option<KeyPair>,
                      info: Bytes)
    requires FitsInt64(id) && ReadStatus(written + optional) == Some((status, optional))
    requires ReadPairAndInfo(optional) == Some((pair, info))
    ensures ReadResponseContent(Int64(id) + (written + optional)) == Some(WireResponse(id, status, pair, info))
  {
    ReadInt64Of(id, written + optional);
  }

  lemma ResponseWraps(content: Bytes, r: WireResponse, tail: Bytes)
    requires Fits(content) && ReadResponseContent(content) == Some(r)
    ensures ReadResponse(Element(SEQUENCE, content) + tail) == Some((r, tail))
  {
    WrappedRoundTrips(SEQUENCE, content, ReadResponseContent, r, tail);
  }

  lemma ResponseRoundTrips(r: WireResponse, tail: Bytes)
    requires NormalResponse(r) && Fits(WriteResponse(r))
    ensures ReadResponse(WriteResponse(r) + tail) == Some((r, tail))
  {
    var optional := WritePairAndInfo(r.pair, r.rspInfo);
    PairAndInfoRoundTrip(r.pair, r.rspInfo);
    StatusRoundTrips(r.status, optional);
    ResponseParts(r.certReqID, WriteStatus(r.status), r.status, optional, r.pair, r.rspInfo);
    ResponseWraps(WriteResponseContent(r), r, tail);
  }

  lemma ResponseListed(r: WireResponse)
    requires NormalResponse(r) && Fits(WriteResponse(r))
    ensures RoundTrips(WriteResponse, ReadResponse, r)
  {
    forall tail ensures ReadResponse(WriteResponse(r) + tail) == Some((r, tail)) {
      ResponseRoundTrips(r, tail);
    }
  }

  lemma ResponsesRoundTrip(rs: seq<WireResponse>, tail: Bytes)
    requires (forall i :: 0 <= i < |rs| ==> NormalResponse(rs[i])) && Fits(WriteSequenceOf(WriteResponse, rs))
    ensures ReadSequenceOf(ReadResponse, WriteSequenceOf(WriteResponse, rs) + tail) == Some((rs, tail))
    ensures Peek(WriteSequenceOf(WriteResponse, rs) + tail, SEQUENCE)
  {
    forall i | 0 <= i < |rs| ensures RoundTrips(WriteResponse, ReadResponse, rs[i]) {
      WriteAllSize(WriteResponse, rs, i);
      ResponseListed(rs[i]);
    }
    SequenceOfRoundTrips(WriteResponse, ReadResponse, rs, tail);
  }

  /** CMPCertificate: any element, kept as it is. */
  function WriteRaw(der: Bytes): Bytes {
    der
  }

  lemma RawRoundTrips(der: Bytes)
    requires IsElement(der)
    ensures RoundTrips(WriteRaw, ReadAny, der)
  {
    forall tail ensures ReadAny(WriteRaw(der) + tail) == Some((der, tail)) {
      ReadAnyOf(der, tail);
    }
    ReadAnyOf(der, []);
  }

  datatype CertRepMessage = CertRepMessage(caPubs: seq<Bytes>, responses: seq<WireResponse>)

  predicate NormalRep(m: CertRepMessage) {
    && (forall i :: 0 <= i < |m.caPubs| ==> IsElement(m.caPubs[i]))
    && (forall i :: 0 <= i < |m.responses| ==> NormalResponse(m.responses[i]))
  }

  function WriteCaPubs(certs: seq<Bytes>): Bytes {
    if certs == [] then [] else Element(Context(1), WriteSequenceOf(WriteRaw, certs))
  }

  function ReadCaPubsContent(s: Bytes): Option<seq<Bytes>> {
    var r := ReadSequenceOf(ReadAny, s);
    if r.None? then None else Some(r.value.0)
  }

  function ReadCaPubs(s: Bytes): Option<(seq<Bytes>, Bytes)> {
    if Peek(s, Context(1)) then ReadWrapped(Context(1), ReadCaPubsContent, s) else Some(([], s))
  }

  lemma RawListRoundTrips(certs: seq<Bytes>, tail: Bytes)
    requires (forall i :: 0 <= i < |certs| ==> IsElement(certs[i])) && Fits(WriteSequenceOf(WriteRaw, certs))
    ensures ReadSequenceOf(ReadAny, WriteSequenceOf(WriteRaw, certs) + tail) == Some((certs, tail))
  {
    forall i | 0 <= i < |certs| ensures RoundTrips(WriteRaw, ReadAny, certs[i]) {
      RawRoundTrips(certs[i]);
    }
    SequenceOfRoundTrips(WriteRaw, ReadAny, certs, tail);
  }

  lemma CaPubsWraps(content: Bytes, certs: seq<Bytes>, tail: Bytes)
    requires Fits(content) && ReadSequenceOf(ReadAny, content) == Some((certs, []))
    ensures ReadCaPubs(Element(Context(1), content) + tail) == Some((certs, tail))
  {
    WrappedRoundTrips(Context(1), content, ReadCaPubsContent, certs, tail);
  }

  lemma CaPubsRoundTrip(certs: seq<Bytes>, tail: Bytes)
    requires (forall i :: 0 <= i < |certs| ==> IsElement(certs[i])) && Fits(WriteCaPubs(certs))
             && !Peek(tail, Context(1))
    ensures ReadCaPubs(WriteCaPubs(certs) + tail) == Some((certs, tail))
  {
    if certs != [] {
      var content := WriteSequenceOf(WriteRaw, certs);
      assert content + [] == content;
      RawListRoundTrips(certs, []);
      CaPubsWraps(content, certs, tail);
    } else {
      assert [] + tail == tail;
    }
  }

  function WriteRepContent(m: CertRepMessage): Bytes {
    WriteCaPubs(m.caPubs) + WriteSequenceOf(WriteResponse, m.responses)
  }

  function WriteRep(m: CertRepMessage): Bytes {
    Element(SEQUENCE, WriteRepContent(m))
  }

  function ReadRepContent(s: Bytes): Option<CertRepMessage> {
    var caPubs := ReadCaPubs(s);
    if caPubs.None? then None
    else
      var responses := ReadSequenceOf(ReadResponse, caPubs.value.1);
      if responses.None? then None else Some(CertRepMessage(caPubs.value.0, responses.value.0))
  }

  function ReadRep(s: Bytes): Option<(CertRepMessage, Bytes)> {
    ReadWrapped(SEQUENCE, ReadRepContent, s)
  }

  lemma RepParts(certs: seq<Bytes>, written: Bytes, rs: seq<WireResponse>)
    requires ReadCaPubs(WriteCaPubs(certs) + written) == Some((certs, written))
    requires ReadSequenceOf(ReadResponse, written) == Some((rs, []))
    ensures ReadRepContent(WriteCaPubs(certs) + written) == Some(CertRepMessage(certs, rs))
  {
  }

  lemma RepRoundTrips(m: CertRepMessage, tail: Bytes)
    requires NormalRep(m) && Fits(WriteRep(m))
    ensures ReadRep(WriteRep(m) + tail) == Some((m, tail))
  {
    var written := WriteSequenceOf(WriteResponse, m.responses);
    assert written + [] == written;
    ResponsesRoundTrip(m.responses, []);
    CaPubsRoundTrip(m.caPubs, written);
    RepParts(m.caPubs, written, m.responses);
    WrappedRoundTrips(SEQUENCE, WriteRepContent(m), ReadRepContent, m, tail);
  }
}
