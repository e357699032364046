/**
  Bodies as their receiver reads them (pkicmp/pkibody.go): by the tag of section 5.1.2 of
  RFC 9810, written here as its octet. What MarshalBinary writes is read back as the same
  kind of body with the same contents.
 */
module PkiContent {
  import opened Types
  import opened Der
  import opened Codecs
  import opened Responses
  import opened Crmf
  import opened PkiHeader
  import opened PkiFrame
  import opened PkiBody
  import opened PkiMessage

  /** The octet a body starts with. */
  function Octet(b: Body): int
    requires !b.RawBody?
  {
    match b
    case ReqBody(Initialization, _) => 0xA0
    case RepBody(Initialization, _) => 0xA1
    case ReqBody(Certification, _) => 0xA2
    case RepBody(Certification, _) => 0xA3
    case P10Body(_) => 0xA4
    case ReqBody(KeyUpdate, _) => 0xA7
    case RepBody(KeyUpdate, _) => 0xA8
    case PkiConfBody => 0xB3
    case NestedBody(_) => 0xB4
    case ErrorBody(_) => 0xB7
    case CertConfBody(_) => 0xB8
    case PollReqBody(_) => 0xB9
    case PollRepBody(_) => 0xBA
  }

  lemma StartsWithOctet(v: int, b: Body)
    requires !b.RawBody?
    ensures |MarshalBody(v, b).0.bytes| > 0 && MarshalBody(v, b).0.bytes[0] == Octet(b)
  {
    TagIsOctet(b);
  }

  lemma TagIsOctet(b: Body)
    requires !b.RawBody?
    ensures TagOf(b) == Octet(b)
  {
  }

  /** What a body holds for its receiver. */
  datatype Content =
    | Requests(kind: RequestKind, requests: seq<ParsedMsg>)
    | Pkcs10(csr: Bytes)
    | Answers(answer: RequestKind, rep: CertRepMessage)
    | Confirmation(statuses: seq<WireCertStatus>)
    | Acknowledgement
    | PollFor(ids: seq<int>)
    | PollLater(items: seq<PollRepItem>)
    | Failure(error: ErrorMsg)
    | Nested(messages: seq<Parsed>)

  /** What follows the value is ignored. */
  function Value<T>(r: Option<(T, Bytes)>): Option<T> {
    if r.None? then None else Some(r.value.0)
  }

  function ReadRequests(kind: RequestKind, s: Bytes): Option<Content> {
    var r := Value(ReadSequenceOf(ReadMsg, s));
    if r.None? then None else Some(Requests(kind, r.value))
  }

  function ReadIr(s: Bytes): Option<Content> {
    ReadRequests(Initialization, s)
  }

  function ReadCr(s: Bytes): Option<Content> {
    ReadRequests(Certification, s)
  }

  function ReadKur(s: Bytes): Option<Content> {
    ReadRequests(KeyUpdate, s)
  }

  function ReadPkcs10(s: Bytes): Option<Content> {
    Some(Pkcs10(s))
  }

  function ReadAnswers(kind: RequestKind, s: Bytes): Option<Content> {
    var r := Value(ReadRep(s));
    if r.None? then None else Some(Answers(kind, r.value))
  }

  function ReadIp(s: Bytes): Option<Content> {
    ReadAnswers(Initialization, s)
  }

  function ReadCp(s: Bytes): Option<Content> {
    ReadAnswers(Certification, s)
  }

  function ReadKup(s: Bytes): Option<Content> {
    ReadAnswers(KeyUpdate, s)
  }

  function ReadConfirmation(s: Bytes): Option<Content> {
    var r := Value(ReadSequenceOf(ReadCertStatus, s));
    if r.None? then None else Some(Confirmation(r.value))
  }

  /** An empty content stands for NULL. */
  function ReadAcknowledgement(s: Bytes): Option<Content> {
    if s == [] || ReadTagged(s, NULL).Some? then Some(Acknowledgement) else None
  }

  function ReadPollFor(s: Bytes): Option<Content> {
    var r := Value(ReadSequenceOf(ReadPollId, s));
    if r.None? then None else Some(PollFor(r.value))
  }

  function ReadPollLater(s: Bytes): Option<Content> {
    var r := Value(ReadSequenceOf(ReadItem, s));
    if r.None? then None else Some(PollLater(r.value))
  }

  function ReadFailure(s: Bytes): Option<Content> {
    var r := Value(ReadError(s));
    if r.None? then None else Some(Failure(r.value))
  }

  function ReadNestedMessages(s: Bytes): Option<Content> {
    var r := ReadNestedContent(s);
    if r.None? then None else Some(Nested(r.value))
  }

  /** The getter of each body type, by its octet. */
  function GetterAt(octet: int): Option<Bytes -> Option<Content>> {
    if octet == 0xA0 then Some(ReadIr)
    else if octet == 0xA1 then Some(ReadIp)
    else if octet == 0xA2 then Some(ReadCr)
    else if octet == 0xA3 then Some(ReadCp)
    else if octet == 0xA4 then Some(ReadPkcs10)
    else if octet == 0xA7 then Some(ReadKur)
    else if octet == 0xA8 then Some(ReadKup)
    else if octet == 0xB3 then Some(ReadAcknowledgement)
    else if octet == 0xB4 then Some(ReadNestedMessages)
    else if octet == 0xB7 then Some(ReadFailure)
    else if octet == 0xB8 then Some(ReadConfirmation)
    else if octet == 0xB9 then Some(ReadPollFor)
    else if octet == 0xBA then Some(ReadPollLater)
    else None
  }

  function ReadContent(octet: int, s: Bytes): Option<Content> {
    var getter := GetterAt(octet);
    if getter.None? then None else getter.value(s)
  }

  function ReadBody(der: Bytes): Option<Content> {
    var r := ReadElement(der);
    if r.None? then None else ReadContent(r.value.tag, r.value.content)
  }

  // ---------------------------------------------------------------------------
  // What is written is read
  // ---------------------------------------------------------------------------

  /** Contents that survive their own encoding. */
  ghost predicate Normal(b: Body) {
    match b
    case ReqBody(_, requests) => forall i :: 0 <= i < |requests| ==> NormalMsg(requests[i])
    case RepBody(_, rep) => NormalRep(rep)
    case CertConfBody(statuses) => forall i :: 0 <= i < |statuses| ==> NormalCertStatus(statuses[i])
    case PollReqBody(ids) => forall i :: 0 <= i < |ids| ==> FitsInt64(ids[i])
    case PollRepBody(items) => forall i :: 0 <= i < |items| ==> NormalItem(items[i])
    case ErrorBody(e) => NormalError(e)
    case NestedBody(messages) => messages != [] && AllProtected(messages)
    case _ => true
  }

  /** The receiver holds the contents: requests with the bytes they came in, nested
      messages with theirs. */
  ghost predicate Holds(b: Body, c: Content) {
    match b
    case ReqBody(kind, requests) =>
      && c.Requests? && c.kind == kind && |c.requests| == |requests|
      && forall i :: 0 <= i < |requests| ==>
           c.requests[i] == ParsedMsg(ParsedRequest(requests[i].request, WriteRequest(requests[i].request)),
                                      requests[i].proof)
    case P10Body(csr) => c == Pkcs10(csr)
    case RepBody(kind, rep) => c == Answers(kind, rep)
    case CertConfBody(statuses) => c == Confirmation(statuses)
    case PkiConfBody => c == Acknowledgement
    case PollReqBody(ids) => c == PollFor(ids)
    case PollRepBody(items) => c == PollLater(items)
    case ErrorBody(e) => c == Failure(e)
    case NestedBody(messages) => c.Nested? && Preserved(messages, c.messages)
    case RawBody(_) => false
  }

  ghost predicate IsRead(b: Body, content: Bytes)
    requires !b.RawBody?
  {
    var r := ReadContent(Octet(b), content); r.Some? && Holds(b, r.value)
  }

  function GetterOf(b: Body): Bytes -> Option<Content>
    requires !b.RawBody?
  {
    match b
    case ReqBody(Initialization, _) => ReadIr
    case ReqBody(Certification, _) => ReadCr
    case ReqBody(KeyUpdate, _) => ReadKur
    case P10Body(_) => ReadPkcs10
    case RepBody(Initialization, _) => ReadIp
    case RepBody(Certification, _) => ReadCp
    case RepBody(KeyUpdate, _) => ReadKup
    case CertConfBody(_) => ReadConfirmation
    case PkiConfBody => ReadAcknowledgement
    case PollReqBody(_) => ReadPollFor
    case PollRepBody(_) => ReadPollLater
    case ErrorBody(_) => ReadFailure
    case NestedBody(_) => ReadNestedMessages
  }

  /** Each octet finds the getter of its body. */
  lemma ByOctet(b: Body)
    requires !b.RawBody?
    ensures GetterAt(Octet(b)) == Some(GetterOf(b))
  {
  }

  /** The getter of the body finds its contents. */
  ghost predicate Got(b: Body, s: Bytes)
    requires !b.RawBody?
  {
    var r := GetterOf(b)(s); r.Some? && Holds(b, r.value)
  }

  lemma GotIsRead(b: Body, s: Bytes)
    requires !b.RawBody? && Got(b, s)
    ensures IsRead(b, s)
  {
    ByOctet(b);
  }

  lemma RequestsAreRead(kind: RequestKind, requests: seq<CertReqMsg>, s: Bytes)
    requires s == WriteSequenceOf(WriteMsg, requests) && Fits(s) && Normal(ReqBody(kind, requests))
    ensures ReadRequests(kind, s).Some? && Holds(ReqBody(kind, requests), ReadRequests(kind, s).value)
  {
    assert s + [] == s;
    forall j | 0 <= j < |requests| ensures ReadsAs(WriteMsg, ReadMsg, Arrives, requests[j]) {
      WriteAllSize(WriteMsg, requests, j);
      MsgListed(requests[j]);
    }
    SequenceReadsAs(WriteMsg, ReadMsg, Arrives, requests, []);
  }

  lemma AnswersAreRead(kind: RequestKind, rep: CertRepMessage, s: Bytes)
    requires s == WriteRep(rep) && Fits(s) && NormalRep(rep)
    ensures ReadAnswers(kind, s) == Some(Answers(kind, rep))
  {
    assert s + [] == s;
    RepRoundTrips(rep, []);
  }

  lemma ConfirmationIsRead(statuses: seq<WireCertStatus>, s: Bytes)
    requires s == WriteSequenceOf(WriteCertStatus, statuses) && Fits(s) && Normal(CertConfBody(statuses))
    ensures ReadConfirmation(s) == Some(Confirmation(statuses))
  {
    assert s + [] == s;
    CertConfirmRoundTrips(statuses, []);
  }

  lemma PollForIsRead(ids: seq<int>, s: Bytes)
    requires s == WriteSequenceOf(WritePollId, ids) && Fits(s) && Normal(PollReqBody(ids))
    ensures ReadPollFor(s) == Some(PollFor(ids))
  {
    assert s + [] == s;
    PollReqRoundTrips(ids, []);
  }

  lemma PollLaterIsRead(items: seq<PollRepItem>, s: Bytes)
    requires s == WriteSequenceOf(WriteItem, items) && Fits(s) && Normal(PollRepBody(items))
    ensures ReadPollLater(s) == Some(PollLater(items))
  {
    assert s + [] == s;
    PollRepRoundTrips(items, []);
  }

  lemma FailureIsRead(e: ErrorMsg, s: Bytes)
    requires s == WriteError(e) && Fits(s) && NormalError(e)
    ensures ReadFailure(s) == Some(Failure(e))
  {
    assert s + [] == s;
    ErrorRoundTrips(e, []);
  }

  lemma AcknowledgementIsRead()
    ensures ReadAcknowledgement(Element(NULL, [])) == Some(Acknowledgement)
  {
    assert Element(NULL, []) + [] == Element(NULL, []);
    ReadTaggedOf(NULL, [], []);
  }

  /** The contents as they are written, whatever the version they find. */
  function Contents(b: Body): Bytes
    requires !b.RawBody? && !b.NestedBody?
  {
    match b
    case ReqBody(_, requests) => WriteSequenceOf(WriteMsg, requests)
    case P10Body(csr) => csr
    case RepBody(_, rep) => WriteRep(rep)
    case CertConfBody(statuses) => WriteSequenceOf(WriteCertStatus, statuses)
    case PkiConfBody => Element(NULL, [])
    case PollReqBody(ids) => WriteSequenceOf(WritePollId, ids)
    case PollRepBody(items) => WriteSequenceOf(WriteItem, items)
    case ErrorBody(e) => WriteError(e)
  }

  lemma ContentsAreWritten(v: int, b: Body)
    requires !b.RawBody? && !b.NestedBody?
    ensures MarshalContent(v, b).bytes == Contents(b)
  {
    match b
    case ReqBody(_, requests) => ReqThreads(v, requests);
    case RepBody(_, rep) => RepThreads(v, rep);
    case CertConfBody(statuses) => ConfThreads(v, statuses);
    case _ =>
  }

  // What each getter found is what the body held.

  lemma RequestsGot(kind: RequestKind, requests: seq<CertReqMsg>, s: Bytes)
    requires ReadRequests(kind, s).Some? && Holds(ReqBody(kind, requests), ReadRequests(kind, s).value)
    ensures Got(ReqBody(kind, requests), s)
  {
  }

  lemma AnswersGot(kind: RequestKind, rep: CertRepMessage, s: Bytes)
    requires ReadAnswers(kind, s) == Some(Answers(kind, rep))
    ensures Got(RepBody(kind, rep), s)
  {
  }

  lemma ConfirmationGot(statuses: seq<WireCertStatus>, s: Bytes)
    requires ReadConfirmation(s) == Some(Confirmation(statuses))
    ensures Got(CertConfBody(statuses), s)
  {
  }

  lemma PollForGot(ids: seq<int>, s: Bytes)
    requires ReadPollFor(s) == Some(PollFor(ids))
    ensures Got(PollReqBody(ids), s)
  {
  }

  lemma PollLaterGot(items: seq<PollRepItem>, s: Bytes)
    requires ReadPollLater(s) == Some(PollLater(items))
    ensures Got(PollRepBody(items), s)
  {
  }

  lemma FailureGot(e: ErrorMsg, s: Bytes)
    requires ReadFailure(s) == Some(Failure(e))
    ensures Got(ErrorBody(e), s)
  {
  }

  lemma AcknowledgementGot(s: Bytes)
    requires ReadAcknowledgement(s) == Some(Acknowledgement)
    ensures Got(PkiConfBody, s)
  {
  }

  lemma ContentIsRead(b: Body, s: Bytes)
    requires !b.RawBody? && !b.NestedBody? && s == Contents(b) && Normal(b) && Fits(s)
    ensures Got(b, s)
  {
    match b
    case ReqBody(kind, requests) =>
      RequestsAreRead(kind, requests, s);
      RequestsGot(kind, requests, s);
    case RepBody(kind, rep) =>
      AnswersAreRead(kind, rep, s);
      AnswersGot(kind, rep, s);
    case CertConfBody(statuses) =>
      ConfirmationIsRead(statuses, s);
      ConfirmationGot(statuses, s);
    case PollReqBody(ids) =>
      PollForIsRead(ids, s);
      PollForGot(ids, s);
    case PollRepBody(items) =>
      PollLaterIsRead(items, s);
      PollLaterGot(items, s);
    case ErrorBody(e) =>
      FailureIsRead(e, s);
      FailureGot(e, s);
    case PkiConfBody =>
      AcknowledgementIsRead();
      AcknowledgementGot(s);
    case P10Body(_) =>
  }

  lemma NestedIsRead(messages: seq<Msg>, written: Bytes)
    requires messages != [] && AllProtected(messages) && written == MarshalNested(messages).0
             && Fits(Element(SEQUENCE, written))
    ensures Got(NestedBody(messages), Element(SEQUENCE, written))
  {
    var ps := InnersAreRead(messages);
    NestedContent(written, ps);
    NestedGot(messages, Element(SEQUENCE, written), ps);
  }

  lemma NestedGot(messages: seq<Msg>, s: Bytes, ps: seq<Parsed>)
    requires ReadNestedContent(s) == Some(ps) && Preserved(messages, ps)
    ensures Got(NestedBody(messages), s)
  {
  }

  lemma ElementIsRead(b: Body, content: Bytes)
    requires !b.RawBody? && Fits(content) && IsRead(b, content)
    ensures var r := ReadBody(Element(TagOf(b), content)); r.Some? && Holds(b, r.value)
  {
    TagIsOctet(b);
    assert Element(TagOf(b), content) + [] == Element(TagOf(b), content);
    LowTags(b);
    ReadElementOf(TagOf(b), content, []);
  }

  /** Every body is read as what it is, with its contents. */
  lemma BodyIsRead(v: int, b: Body)
    requires !b.RawBody? && Normal(b) && Fits(MarshalBody(v, b).0.bytes)
    ensures var r := ReadBody(MarshalBody(v, b).0.bytes); r.Some? && Holds(b, r.value)
  {
    if b.NestedBody? {
      NestedIsRead(b.messages, MarshalNested(b.messages).0);
      GotIsRead(b, Element(SEQUENCE, MarshalNested(b.messages).0));
      ElementIsRead(b, Element(SEQUENCE, MarshalNested(b.messages).0));
    } else {
      ContentsAreWritten(v, b);
      ContentIsRead(b, Contents(b));
      GotIsRead(b, Contents(b));
      ElementIsRead(b, Contents(b));
    }
  }

  /** A message that is protected and sent is understood: its receiver parses it, and reads
      the body for what it is with the contents it had. */
  method ProtectAndDeliver(m: Message, alg: AlgorithmIdentifier,
                           sign: Bytes -> Bytes) returns (content: Option<Content>)
    requires Encodable(m.header, m.body, m.extraCerts, alg, sign) && !m.body.RawBody? && Normal(m.body)
    modifies m
    ensures content.Some? && Holds(old(m.body), content.value)
  {
    ghost var h, b := m.header, m.body;
    SentFits(h, b, m.extraCerts, alg, sign);
    BodyIsRead(StartVersion(h.pvno), b);
    var received, ok := ProtectAndTransmit(m, alg, sign);
    content := ReadBody(received.rawBody);
  }

  lemma SentFits(h: Header, b: Body, certs: seq<Bytes>, alg: AlgorithmIdentifier, sign: Bytes -> Bytes)
    requires Encodable(h, b, certs, alg, sign)
    ensures Fits(MarshalBody(StartVersion(h.pvno), b).0.bytes)
  {
  }
}
