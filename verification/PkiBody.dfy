/**
  How a body is marshalled (pkicmp/pkibody.go and the marshal methods it calls): a
  context carries the version the header must have, and contents that need version 3
  overwrite it. A message is marshalled twice, to protect it and to send it, and each
  time leaves the version it found in its header and in the headers of the messages
  nested in it.
 */
module PkiBody {
  import opened Types
  import opened Der
  import opened Codecs
  import opened Responses
  import opened Crmf
  import opened PkiHeader
  import opened PkiFrame

  /** The bytes written, and the version in the context afterwards. */
  datatype Written = Written(bytes: Bytes, version: int)

  /** Contents that need version 3 overwrite whatever version they find. */
  function VersionLeft(needs: bool, v: int): int {
    if needs then PVNO3 else v
  }

  // ---------------------------------------------------------------------------
  // Lists
  // ---------------------------------------------------------------------------

  function MarshalAll<T>(marshal: (int, T) -> Written, v: int, xs: seq<T>): Written
    decreases |xs|
  {
    if xs == [] then Written([], v)
    else
      var first := marshal(v, xs[0]);
      var rest := MarshalAll(marshal, first.version, xs[1..]);
      Written(first.bytes + rest.bytes, rest.version)
  }

  predicate Some3<T>(needs: T -> bool, xs: seq<T>) {
    xs != [] && (needs(xs[0]) || Some3(needs, xs[1..]))
  }

  /** The bytes do not depend on the context, and the version only on what the value needs. */
  ghost predicate Threads<T(!new)>(marshal: (int, T) -> Written, write: T -> Bytes, needs: T -> bool, x: T) {
    forall v :: marshal(v, x) == Written(write(x), VersionLeft(needs(x), v))
  }

  lemma {:induction false} ListThreads<T(!new)>(marshal: (int, T) -> Written, write: T -> Bytes, needs: T -> bool,
                                                v: int, xs: seq<T>)
    requires forall i :: 0 <= i < |xs| ==> Threads(marshal, write, needs, xs[i])
    ensures MarshalAll(marshal, v, xs) == Written(WriteAll(write, xs), VersionLeft(Some3(needs, xs), v))
    decreases |xs|
  {
    if xs != [] {
      assert Threads(marshal, write, needs, xs[0]);
      ListThreads(marshal, write, needs, marshal(v, xs[0]).version, xs[1..]);
    }
  }

  // ---------------------------------------------------------------------------
  // CertConfirmContent
  // ---------------------------------------------------------------------------

  function MarshalHashAlg(v: int, a: Option<AlgorithmIdentifier>): Written {
    if a.None? then Written([], v) else Written(Element(Context(0), WriteAlgorithm(a.value)), PVNO3)
  }

  function MarshalCertStatus(v: int, cs: WireCertStatus): Written {
    var alg := MarshalHashAlg(v, cs.hashAlg);
    Written(Element(SEQUENCE, Element(OCTET_STRING, cs.certHash)
                    + (Int64(cs.certReqID) + (WriteOptionalStatus(cs.info) + alg.bytes))), alg.version)
  }

  predicate StatusNeeds3(cs: WireCertStatus) {
    cs.hashAlg.Some?
  }

  lemma CertStatusThreads(cs: WireCertStatus)
    ensures Threads(MarshalCertStatus, WriteCertStatus, StatusNeeds3, cs)
  {
  }

  // ---------------------------------------------------------------------------
  // CertRepMessage
  // ---------------------------------------------------------------------------

  function MarshalKey(v: int, k: EncryptedKey): Written {
    match k
    case Enveloped(der) =>
      Written(Element(Context(0), if StripSequence(der).Some? then StripSequence(der).value else der), PVNO3)
    case EncryptedValue(der) => Written(der, v)
  }

  function MarshalChoice(v: int, c: CertChoice): Written {
    match c
    case PlainCert(der) => Written(Element(Context(0), der), v)
    case EncryptedCert(key) =>
      var k := MarshalKey(v, key);
      Written(Element(Context(1), k.bytes), k.version)
  }

  function MarshalPrivateKey(v: int, k: Option<EncryptedKey>): Written {
    if k.None? then Written([], v)
    else
      var w := MarshalKey(v, k.value);
      Written(Element(Context(0), w.bytes), w.version)
  }

  function MarshalPair(v: int, p: KeyPair): Written {
    var cert := MarshalChoice(v, p.cert);
    var key := MarshalPrivateKey(cert.version, p.privateKey);
    Written(Element(SEQUENCE, cert.bytes + key.bytes), key.version)
  }

  function MarshalOptionalPair(v: int, p: Option<KeyPair>): Written {
    if p.None? then Written([], v) else MarshalPair(v, p.value)
  }

  function MarshalResponse(v: int, r: WireResponse): Written {
    var pair := MarshalOptionalPair(v, r.pair);
    Written(Element(SEQUENCE, Int64(r.certReqID) + (WriteStatus(r.status) + (pair.bytes + WriteRspInfo(r.rspInfo)))),
            pair.version)
  }

  function MarshalRep(v: int, m: CertRepMessage): Written {
    var responses := MarshalAll(MarshalResponse, v, m.responses);
    Written(Element(SEQUENCE, WriteCaPubs(m.caPubs) + Element(SEQUENCE, responses.bytes)), responses.version)
  }

  predicate PairNeeds3(p: KeyPair) {
    (p.cert.EncryptedCert? && p.cert.key.Enveloped?) || (p.privateKey.Some? && p.privateKey.value.Enveloped?)
  }

  predicate ResponseNeeds3(r: WireResponse) {
    r.pair.Some? && PairNeeds3(r.pair.value)
  }

  lemma PairThreads(v: int, p: KeyPair)
    ensures MarshalPair(v, p) == Written(WritePair(p), VersionLeft(PairNeeds3(p), v))
  {
  }

  lemma ResponseThreads(r: WireResponse)
    ensures Threads(MarshalResponse, WriteResponse, ResponseNeeds3, r)
  {
    forall v ensures MarshalResponse(v, r) == Written(WriteResponse(r), VersionLeft(ResponseNeeds3(r), v)) {
      if r.pair.Some? {
        PairThreads(v, r.pair.value);
      }
    }
  }

  lemma RepThreads(v: int, m: CertRepMessage)
    ensures MarshalRep(v, m) == Written(WriteRep(m), VersionLeft(Some3(ResponseNeeds3, m.responses), v))
  {
    forall i | 0 <= i < |m.responses| ensures Threads(MarshalResponse, WriteResponse, ResponseNeeds3, m.responses[i]) {
      ResponseThreads(m.responses[i]);
    }
    ListThreads(MarshalResponse, WriteResponse, ResponseNeeds3, v, m.responses);
  }

  // ---------------------------------------------------------------------------
  // CertReqMessages
  // ---------------------------------------------------------------------------

  function MarshalKeyProof(v: int, k: KeyProof): Written {
    match k
    case Subsequent(n) => Written(Element(Primitive(1), IntegerBytes(n)), v)
    case EncryptedProof(der) =>
      Written(Element(Context(4), if StripSequence(der).Some? then StripSequence(der).value else der), PVNO3)
  }

  function MarshalProof(v: int, p: Option<Proof>): Written {
    match p
    case None => Written([], v)
    case Some(RaVerified) => Written(Element(Primitive(0), []), v)
    case Some(Signed(content)) => Written(Element(Context(1), content), v)
    case Some(ByKey(agreement, k)) =>
      var w := MarshalKeyProof(v, k);
      Written(Element(Context(if agreement then 3 else 2), w.bytes), w.version)
  }

  function MarshalRequest(v: int, m: CertReqMsg): Written {
    var proof := MarshalProof(v, m.proof);
    Written(Element(SEQUENCE, WriteRequest(m.request) + proof.bytes), proof.version)
  }

  predicate RequestNeeds3(m: CertReqMsg) {
    m.proof.Some? && m.proof.value.ByKey? && m.proof.value.proof.EncryptedProof?
  }

  lemma RequestThreads(m: CertReqMsg)
    ensures Threads(MarshalRequest, WriteMsg, RequestNeeds3, m)
  {
  }

  // ---------------------------------------------------------------------------
  // Bodies and messages
  // ---------------------------------------------------------------------------

  /** A body as its holder has it: contents to be encoded, or the bytes it came in. */
  datatype Body =
    | ReqBody(kind: RequestKind, requests: seq<CertReqMsg>)
    | P10Body(csr: Bytes)
    | RepBody(answer: RequestKind, rep: CertRepMessage)
    | CertConfBody(statuses: seq<WireCertStatus>)
    | PkiConfBody
    | PollReqBody(ids: seq<int>)
    | PollRepBody(items: seq<PollRepItem>)
    | ErrorBody(error: ErrorMsg)
    | NestedBody(messages: seq<Msg>)
    | RawBody(der: Bytes)

  datatype RequestKind = Initialization | Certification | KeyUpdate

  /** A message that may be nested in another. */
  datatype Msg = Msg(header: Header, body: Body, protection: Bytes, extraCerts: seq<Bytes>, rawHeader: Bytes,
                     rawBody: Bytes)

  function TagOf(b: Body): byte
    requires !b.RawBody?
  {
    match b
    case ReqBody(Initialization, _) => Context(0)
    case RepBody(Initialization, _) => Context(1)
    case ReqBody(Certification, _) => Context(2)
    case RepBody(Certification, _) => Context(3)
    case P10Body(_) => Context(4)
    case ReqBody(KeyUpdate, _) => Context(7)
    case RepBody(KeyUpdate, _) => Context(8)
    case PkiConfBody => Context(19)
    case NestedBody(_) => Context(20)
    case ErrorBody(_) => Context(23)
    case CertConfBody(_) => Context(24)
    case PollReqBody(_) => Context(25)
    case PollRepBody(_) => Context(26)
  }

  function Tagged(tag: byte, w: Written): Written {
    Written(Element(tag, w.bytes), w.version)
  }

  function Listed(w: Written): Written {
    Tagged(SEQUENCE, w)
  }

  /** The contents of a body that does not nest messages. */
  function MarshalContent(v: int, b: Body): Written
    requires !b.RawBody? && !b.NestedBody?
  {
    match b
    case ReqBody(_, requests) => Listed(MarshalAll(MarshalRequest, v, requests))
    case P10Body(csr) => Written(csr, v)
    case RepBody(_, rep) => MarshalRep(v, rep)
    case CertConfBody(statuses) => Listed(MarshalAll(MarshalCertStatus, v, statuses))
    case PkiConfBody => Written(Element(NULL, []), v)
    case PollReqBody(ids) => Written(WriteSequenceOf(WritePollId, ids), v)
    case PollRepBody(items) => Written(WriteSequenceOf(WriteItem, items), v)
    case ErrorBody(e) => Written(WriteError(e), v)
  }

  /** The body's bytes, the version it leaves in the context, and the body afterwards,
      whose nested messages may have a new version in their headers. */
  function MarshalBody(v: int, b: Body): (Written, Body)
    decreases b
  {
    match b
    case RawBody(der) => (Written(der, v), b)
    case NestedBody(messages) =>
      var r := MarshalNested(messages);
      (Tagged(TagOf(b), Listed(Written(r.0, v))), NestedBody(r.1))
    case _ => (Tagged(TagOf(b), MarshalContent(v, b)), b)
  }

  function MarshalNested(ms: seq<Msg>): (Bytes, seq<Msg>)
    decreases ms
  {
    if ms == [] then ([], [])
    else
      var first, rest := MarshalForNesting(ms[0]), MarshalNested(ms[1..]);
      (first.0 + rest.0, [first.1] + rest.1)
  }

  /** The version a pass starts from. */
  function StartVersion(pvno: int): int {
    if pvno > PVNO2 then pvno else PVNO2
  }

  /** MarshalBinary: the bytes, and the message with the version found in its header. */
  function MarshalMessage(m: Msg): (Bytes, Msg)
    decreases m, 0
  {
    var body := MarshalBody(StartVersion(m.header.pvno), m.body);
    var header := m.header.(pvno := body.0.version);
    (WriteMessage(WriteHeader(header), body.0.bytes, m.protection, m.extraCerts), m.(header := header, body := body.1))
  }

  predicate KeepsBytes(m: Msg) {
    m.protection != [] && m.rawHeader != [] && m.rawBody != []
  }

  /** A protected message keeps its raw bytes; another is encoded from its fields. */
  function MarshalForNesting(m: Msg): (Bytes, Msg)
    decreases m, 1
  {
    if KeepsBytes(m) then (WriteMessage(m.rawHeader, m.rawBody, m.protection, m.extraCerts), m) else MarshalMessage(m)
  }

  // ---------------------------------------------------------------------------
  // A second pass repeats the first
  // ---------------------------------------------------------------------------

  /** Some content of the body needs version 3. */
  predicate Needs3(b: Body) {
    match b
    case ReqBody(_, requests) => Some3(RequestNeeds3, requests)
    case RepBody(_, rep) => Some3(ResponseNeeds3, rep.responses)
    case CertConfBody(statuses) => Some3(StatusNeeds3, statuses)
    case _ => false
  }

  lemma ReqThreads(v: int, requests: seq<CertReqMsg>)
    ensures MarshalAll(MarshalRequest, v, requests)
            == Written(WriteAll(WriteMsg, requests), VersionLeft(Some3(RequestNeeds3, requests), v))
  {
    forall i | 0 <= i < |requests| ensures Threads(MarshalRequest, WriteMsg, RequestNeeds3, requests[i]) {
      RequestThreads(requests[i]);
    }
    ListThreads(MarshalRequest, WriteMsg, RequestNeeds3, v, requests);
  }

  lemma ConfThreads(v: int, statuses: seq<WireCertStatus>)
    ensures MarshalAll(MarshalCertStatus, v, statuses)
            == Written(WriteAll(WriteCertStatus, statuses), VersionLeft(Some3(StatusNeeds3, statuses), v))
  {
    forall i | 0 <= i < |statuses| ensures Threads(MarshalCertStatus, WriteCertStatus, StatusNeeds3, statuses[i]) {
      CertStatusThreads(statuses[i]);
    }
    ListThreads(MarshalCertStatus, WriteCertStatus, StatusNeeds3, v, statuses);
  }

  /** A second pass over the body, from whatever version, writes the same bytes, and
      the version it leaves depends only on what the contents need. */
  ghost predicate Repeats(v: int, w: int, b: Body) {
    var (first, after) := MarshalBody(v, b);
    && first.version == VersionLeft(Needs3(b), v)
    && MarshalBody(w, after) == (Written(first.bytes, VersionLeft(Needs3(b), w)), after)
  }

  lemma {:induction false} BodyRepeats(v: int, w: int, b: Body)
    ensures Repeats(v, w, b)
    decreases b
  {
    match b
    case ReqBody(_, requests) =>
      ReqThreads(v, requests);
      ReqThreads(w, requests);
    case RepBody(_, rep) =>
      RepThreads(v, rep);
      RepThreads(w, rep);
    case CertConfBody(statuses) =>
      ConfThreads(v, statuses);
      ConfThreads(w, statuses);
    case NestedBody(messages) =>
      NestedRepeats(messages);
    case _ =>
  }

  lemma {:induction false} NestedRepeats(ms: seq<Msg>)
    ensures MarshalNested(MarshalNested(ms).1) == MarshalNested(ms)
    decreases ms
  {
    if ms != [] {
      var after := MarshalNested(ms).1;
      ForNestingRepeats(ms[0]);
      NestedRepeats(ms[1..]);
      assert after[0] == MarshalForNesting(ms[0]).1 && after[1..] == MarshalNested(ms[1..]).1;
    }
  }

  lemma {:induction false} ForNestingRepeats(m: Msg)
    ensures MarshalForNesting(MarshalForNesting(m).1) == MarshalForNesting(m)
    decreases m, 1
  {
    if !KeepsBytes(m) {
      MessageRepeats(m);
    }
  }

  /** Marshalling a message again gives the same bytes and changes nothing more: the
      version found by the first pass is the one the second pass finds, at every
      depth of nesting. */
  lemma {:induction false} MessageRepeats(m: Msg)
    ensures MarshalMessage(MarshalMessage(m).1) == MarshalMessage(m)
    decreases m, 0
  {
    var start := StartVersion(m.header.pvno);
    var found := MarshalBody(start, m.body).0.version;
    BodyRepeats(start, StartVersion(found), m.body);
  }

  // ---------------------------------------------------------------------------
  // The version is overwritten, not raised
  // ---------------------------------------------------------------------------

  function Max(a: int, b: int): int {
    if a < b then b else a
  }

  /** A message is given the larger of the version it had and the version its contents
      need, exactly when it did not have a version above 3 or they do not need 3. */
  lemma VersionIsMaximum(m: Msg)
    ensures var had, left := m.header.pvno, MarshalMessage(m).1.header.pvno;
            && (left == Max(had, if Needs3(m.body) then PVNO3 else PVNO2) <==> had <= PVNO3 || !Needs3(m.body))
            && (left < had <==> !(had <= PVNO3 || !Needs3(m.body)))
  {
    var start := StartVersion(m.header.pvno);
    BodyRepeats(start, start, m.body);
  }

  /** A message of version 5 whose confirmation names its hash leaves with version 3. */
  lemma VersionFalls(m: Msg) returns (b: Body)
    requires m.header.pvno == 5
    ensures MarshalMessage(m.(body := b)).1.header.pvno == PVNO3
  {
    b := CertConfBody([WireCertStatus([], 0, None, Some(AlgorithmIdentifier([], [])))]);
    assert Some3(StatusNeeds3, b.statuses);
    VersionIsMaximum(m.(body := b));
    BodyRepeats(5, 5, b);
  }
}
