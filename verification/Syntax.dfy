/**
  The messages as values of the ASN.1 module in appendix A of RFC 9810, with the CRMF of
  RFC 4211 and the MAC parameters of RFC 8018: trees whose nodes carry their tags as
  octets, written with the tags of those documents and without those of the codecs.
  What the codecs write is the DER of these trees.
 */
module Syntax {
  import opened Types
  import opened MacParams
  import opened Der
  import opened Codecs
  import opened Responses
  import opened Crmf
  import opened PkiHeader
  import opened PkiFrame
  import opened PkiBody
  import opened PkiContent
  import opened MacCodec

  // ---------------------------------------------------------------------------
  // Trees and their encoding
  // ---------------------------------------------------------------------------

  /** A primitive value, a constructed one, or one that is given by its encoding. */
  datatype Tree = Leaf(tag: byte, content: Bytes) | Node(tag: byte, parts: seq<Tree>) | Given(der: Bytes)

  function Encoding(t: Tree): Bytes {
    match t
    case Leaf(tag, content) => Element(tag, content)
    case Node(tag, parts) => Element(tag, Encodings(parts))
    case Given(der) => der
  }

  function Encodings(ts: seq<Tree>): Bytes {
    if ts == [] then [] else Encoding(ts[0]) + Encodings(ts[1..])
  }

  function LengthOctets(n: nat): Bytes
    requires n < 0x1_0000_0000
  {
    if n < 0x80 then [n]
    else if n < 0x100 then [0x81, n]
    else if n < 0x1_0000 then [0x82, n / 256, n % 256]
    else if n < 0x100_0000 then [0x83, n / 0x1_0000, n / 256 % 256, n % 256]
    else [0x84, n / 0x100_0000, n / 0x1_0000 % 256, n / 256 % 256, n % 256]
  }

  /** An element: its tag, its length in the fewest octets, its content (sections 8.1.3
      and 10.1 of X.690). */
  lemma ElementOctets(tag: byte, content: Bytes)
    requires |content| < 0x1_0000_0000
    ensures Element(tag, content) == [tag] + LengthOctets(|content|) + content
  {
    var n := |content|;
    var a := n / 256;
    var b := a / 256;
    assert b == n / 0x1_0000 && b / 256 == n / 0x100_0000;
    assert BigEndian(b) == if b < 256 then [b] else [b / 256, b % 256];
    assert BigEndian(a) == if a < 256 then [a] else BigEndian(b) + [a % 256];
    assert BigEndian(n) == if n < 256 then [n] else BigEndian(a) + [n % 256];
  }

  /** Integers are in two's complement, most significant octet first. */
  lemma IntegerOctets()
    ensures IntegerBytes(0) == [0x00] && IntegerBytes(127) == [0x7f] && IntegerBytes(128) == [0x00, 0x80]
    ensures IntegerBytes(-1) == [0xff] && IntegerBytes(-128) == [0x80] && IntegerBytes(-129) == [0xff, 0x7f]
    ensures IntegerBytes(0x1234) == [0x12, 0x34]
  {
  }

  lemma Regroup(x: Bytes, y: Bytes, z: Bytes)
    ensures x + (y + z) == (x + y) + z
  {
  }

  lemma FirstAndRest(t: Tree, ts: seq<Tree>)
    ensures Encodings([t] + ts) == Encoding(t) + Encodings(ts)
  {
    assert ([t] + ts)[1..] == ts;
  }

  lemma {:induction false} Appends(a: seq<Tree>, b: seq<Tree>)
    ensures Encodings(a + b) == Encodings(a) + Encodings(b)
  {
    if a == [] {
      assert a + b == b;
    } else {
      var t, rest := a[0], a[1..];
      assert a == [t] + rest && a + b == [t] + (rest + b);
      FirstAndRest(t, rest);
      FirstAndRest(t, rest + b);
      Appends(rest, b);
      Regroup(Encoding(t), Encodings(rest), Encodings(b));
    }
  }

  lemma One(t: Tree)
    ensures Encodings([t]) == Encoding(t)
  {
    assert [t][1..] == [];
  }

  lemma Two(t: Tree, u: Tree)
    ensures Encodings([t, u]) == Encoding(t) + Encoding(u)
  {
    One(u);
    assert [t, u][1..] == [u];
  }

  function Each<T>(tree: T -> Tree, xs: seq<T>): seq<Tree> {
    seq(|xs|, i requires 0 <= i < |xs| => tree(xs[i]))
  }

  lemma {:induction false} EachIsWritten<T>(tree: T -> Tree, write: T -> Bytes, xs: seq<T>)
    requires forall i :: 0 <= i < |xs| ==> Encoding(tree(xs[i])) == write(xs[i])
    ensures Encodings(Each(tree, xs)) == WriteAll(write, xs)
  {
    if xs != [] {
      assert Each(tree, xs)[1..] == Each(tree, xs[1..]);
      EachIsWritten(tree, write, xs[1..]);
    }
  }

  // ---------------------------------------------------------------------------
  // Texts, algorithms, status, errors
  // ---------------------------------------------------------------------------

  function Integer(n: int): Tree {
    Leaf(0x02, IntegerBytes(n))
  }

  function Utf8(s: Bytes): Tree {
    Leaf(0x0c, s)
  }

  function FreeText(text: seq<Bytes>): seq<Tree> {
    if text == [] then [] else [Node(0x30, Each(Utf8, text))]
  }

  function Algorithm(a: AlgorithmIdentifier): Tree {
    Node(0x30, [Leaf(0x06, a.algorithm), Given(a.parameters)])
  }

  function FailureInfo(v: nat): seq<Tree> {
    if 0 < v < 0x1_0000_0000 then [Leaf(0x03, WriteFailInfo(v))] else []
  }

  function StatusInfo(si: PkiStatusInfo): Tree {
    Node(0x30, [Integer(si.status)] + (FreeText(si.text) + FailureInfo(si.failInfo)))
  }

  function ErrorCode(code: int): seq<Tree> {
    if code == 0 then [] else [Integer(code)]
  }

  function ErrorContent(e: ErrorMsg): Tree {
    Node(0x30, [StatusInfo(e.info)] + (ErrorCode(e.code) + FreeText(e.details)))
  }

  lemma TextIsWritten(text: seq<Bytes>)
    ensures Encodings(FreeText(text)) == WriteText(text)
  {
    if text != [] {
      EachIsWritten(Utf8, WriteUtf8, text);
      One(Node(0x30, Each(Utf8, text)));
    }
  }

  lemma AlgorithmIsWritten(a: AlgorithmIdentifier)
    ensures Encoding(Algorithm(a)) == WriteAlgorithm(a)
  {
    Two(Leaf(0x06, a.algorithm), Given(a.parameters));
  }

  lemma FailureIsWritten(v: nat)
    ensures Encodings(FailureInfo(v)) == WriteFail(v)
  {
    if 0 < v < 0x1_0000_0000 {
      One(Leaf(0x03, WriteFailInfo(v)));
    }
  }

  lemma StatusIsWritten(si: PkiStatusInfo)
    ensures Encoding(StatusInfo(si)) == WriteStatus(si)
  {
    One(Integer(si.status));
    Appends([Integer(si.status)], FreeText(si.text) + FailureInfo(si.failInfo));
    Appends(FreeText(si.text), FailureInfo(si.failInfo));
    TextIsWritten(si.text);
    FailureIsWritten(si.failInfo);
  }

  lemma ErrorIsWritten(e: ErrorMsg)
    ensures Encoding(ErrorContent(e)) == WriteError(e)
  {
    One(StatusInfo(e.info));
    One(Integer(e.code));
    Appends([StatusInfo(e.info)], ErrorCode(e.code) + FreeText(e.details));
    Appends(ErrorCode(e.code), FreeText(e.details));
    StatusIsWritten(e.info);
    TextIsWritten(e.details);
  }

  /** Bit 0 of PKIFailureInfo is the highest bit of the first octet. Zeros at the end are
      left out, whole octets and the bits counted by the octet in front. */
  lemma FailureOctets(v: nat) returns (z: nat, q: nat)
    requires 0 < v < 0x1_0000_0000
    ensures v == q * PowerOfTwo(z) && q % 2 == 1 && z < 32
    ensures WriteFailInfo(v)
         == [z % 8] + [v / 0x100_0000, v / 0x1_0000 % 256, v / 0x100 % 256, v % 256][..4 - z / 8]
  {
    var octets := TrailingOctets(v);
    z := TrailingZeros(v);
    q := OddPart(v);
  }

  lemma {:induction false} OddPart(v: nat) returns (q: nat)
    requires v > 0
    ensures v == q * PowerOfTwo(TrailingZeros(v)) && q % 2 == 1
  {
    if v % 2 == 1 {
      q := v;
    } else {
      q := OddPart(v / 2);
      var p := PowerOfTwo(TrailingZeros(v / 2));
      assert q * (2 * p) == 2 * (q * p);
    }
  }

  // ---------------------------------------------------------------------------
  // Confirmations and polls
  // ---------------------------------------------------------------------------

  function OptionalStatus(info: Option<PkiStatusInfo>): seq<Tree> {
    if info.None? then [] else [StatusInfo(info.value)]
  }

  function HashAlgorithm(a: Option<AlgorithmIdentifier>): seq<Tree> {
    if a.None? then [] else [Node(0xa0, [Algorithm(a.value)])]
  }

  function CertificateStatus(cs: WireCertStatus): Tree {
    Node(0x30, [Leaf(0x04, cs.certHash)]
           + ([Integer(cs.certReqID)] + (OptionalStatus(cs.info) + HashAlgorithm(cs.hashAlg))))
  }

  function PollId(id: int): Tree {
    Node(0x30, [Integer(id)])
  }

  function PollAnswer(p: PollRepItem): Tree {
    Node(0x30, [Integer(p.certReqID)] + ([Integer(p.checkAfter)] + FreeText(p.reason)))
  }

  lemma OptionalStatusIsWritten(info: Option<PkiStatusInfo>)
    ensures Encodings(OptionalStatus(info)) == WriteOptionalStatus(info)
  {
    if info.Some? {
      One(StatusInfo(info.value));
      StatusIsWritten(info.value);
    }
  }

  lemma HashAlgorithmIsWritten(a: Option<AlgorithmIdentifier>)
    ensures Encodings(HashAlgorithm(a)) == WriteHashAlg(a)
  {
    if a.Some? {
      One(Node(0xa0, [Algorithm(a.value)]));
      One(Algorithm(a.value));
      AlgorithmIsWritten(a.value);
    }
  }

  lemma CertificateStatusIsWritten(cs: WireCertStatus)
    ensures Encoding(CertificateStatus(cs)) == WriteCertStatus(cs)
  {
    var rest := OptionalStatus(cs.info) + HashAlgorithm(cs.hashAlg);
    One(Leaf(0x04, cs.certHash));
    One(Integer(cs.certReqID));
    Appends([Leaf(0x04, cs.certHash)], [Integer(cs.certReqID)] + rest);
    Appends([Integer(cs.certReqID)], rest);
    Appends(OptionalStatus(cs.info), HashAlgorithm(cs.hashAlg));
    OptionalStatusIsWritten(cs.info);
    HashAlgorithmIsWritten(cs.hashAlg);
  }

  lemma PollIdIsWritten(id: int)
    ensures Encoding(PollId(id)) == WritePollId(id)
  {
    One(Integer(id));
  }

  lemma PollAnswerIsWritten(p: PollRepItem)
    ensures Encoding(PollAnswer(p)) == WriteItem(p)
  {
    One(Integer(p.certReqID));
    One(Integer(p.checkAfter));
    Appends([Integer(p.certReqID)], [Integer(p.checkAfter)] + FreeText(p.reason));
    Appends([Integer(p.checkAfter)], FreeText(p.reason));
    TextIsWritten(p.reason);
  }

  // ---------------------------------------------------------------------------
  // Responses
  // ---------------------------------------------------------------------------

  /** An implicit tag takes the place of the SEQUENCE's own. */
  function Implicit(tag: byte, der: Bytes): Tree {
    Leaf(tag, if StripSequence(der).Some? then StripSequence(der).value else der)
  }

  function Key(k: EncryptedKey): Tree {
    match k
    case EncryptedValue(der) => Given(der)
    case Enveloped(der) => Implicit(0xa0, der)
  }

  function CertOrEncCert(c: CertChoice): Tree {
    match c
    case PlainCert(der) => Node(0xa0, [Given(der)])
    case EncryptedCert(key) => Node(0xa1, [Key(key)])
  }

  function PrivateKey(k: Option<EncryptedKey>): seq<Tree> {
    if k.None? then [] else [Node(0xa0, [Key(k.value)])]
  }

  function CertifiedKeyPair(p: KeyPair): Tree {
    Node(0x30, [CertOrEncCert(p.cert)] + PrivateKey(p.privateKey))
  }

  function OptionalPair(p: Option<KeyPair>): seq<Tree> {
    if p.None? then [] else [CertifiedKeyPair(p.value)]
  }

  function OptionalOctets(b: Bytes): seq<Tree> {
    if b == [] then [] else [Leaf(0x04, b)]
  }

  function Response(r: WireResponse): Tree {
    Node(0x30, [Integer(r.certReqID)] + ([StatusInfo(r.status)] + (OptionalPair(r.pair) + OptionalOctets(r.rspInfo))))
  }

  function GivenTree(der: Bytes): Tree {
    Given(der)
  }

  /** Certificates under an explicit tag, if any. */
  function Certificates(tag: byte, certs: seq<Bytes>): seq<Tree> {
    if certs == [] then [] else [Node(tag, [Node(0x30, Each(GivenTree, certs))])]
  }

  function Rep(m: CertRepMessage): Tree {
    Node(0x30, Certificates(0xa1, m.caPubs) + [Node(0x30, Each(Response, m.responses))])
  }

  lemma ChoiceIsWritten(c: CertChoice)
    ensures Encoding(CertOrEncCert(c)) == WriteChoice(c)
  {
    match c
    case PlainCert(der) => One(Given(der));
    case EncryptedCert(key) => One(Key(key));
  }

  lemma PrivateKeyIsWritten(k: Option<EncryptedKey>)
    ensures Encodings(PrivateKey(k)) == WritePrivateKey(k)
  {
    if k.Some? {
      One(Node(0xa0, [Key(k.value)]));
      One(Key(k.value));
    }
  }

  lemma PairIsWritten(p: Option<KeyPair>)
    ensures Encodings(OptionalPair(p)) == WriteOptionalPair(p)
  {
    if p.Some? {
      One(CertifiedKeyPair(p.value));
      One(CertOrEncCert(p.value.cert));
      Appends([CertOrEncCert(p.value.cert)], PrivateKey(p.value.privateKey));
      ChoiceIsWritten(p.value.cert);
      PrivateKeyIsWritten(p.value.privateKey);
    }
  }

  lemma ResponseIsWritten(r: WireResponse)
    ensures Encoding(Response(r)) == WriteResponse(r)
  {
    var rest := OptionalPair(r.pair) + OptionalOctets(r.rspInfo);
    One(Integer(r.certReqID));
    One(StatusInfo(r.status));
    One(Leaf(0x04, r.rspInfo));
    Appends([Integer(r.certReqID)], [StatusInfo(r.status)] + rest);
    Appends([StatusInfo(r.status)], rest);
    Appends(OptionalPair(r.pair), OptionalOctets(r.rspInfo));
    StatusIsWritten(r.status);
    PairIsWritten(r.pair);
  }

  lemma CertificatesAreWritten(certs: seq<Bytes>)
    ensures Encodings(Certificates(0xa1, certs)) == WriteCaPubs(certs) == WriteExtraCerts(certs)
  {
    if certs != [] {
      EachIsWritten(GivenTree, WriteRaw, certs);
      One(Node(0x30, Each(GivenTree, certs)));
      One(Node(0xa1, [Node(0x30, Each(GivenTree, certs))]));
    }
  }

  lemma RepIsWritten(m: CertRepMessage)
    ensures Encoding(Rep(m)) == WriteRep(m)
  {
    var responses := Node(0x30, Each(Response, m.responses));
    forall i | 0 <= i < |m.responses| ensures Encoding(Response(m.responses[i])) == WriteResponse(m.responses[i]) {
      ResponseIsWritten(m.responses[i]);
    }
    EachIsWritten(Response, WriteResponse, m.responses);
    One(responses);
    Appends(Certificates(0xa1, m.caPubs), [responses]);
    CertificatesAreWritten(m.caPubs);
  }

  // ---------------------------------------------------------------------------
  // Requests
  // ---------------------------------------------------------------------------

  function Serial(n: Option<int>): seq<Tree> {
    if n.None? then [] else [Leaf(0x81, IntegerBytes(n.value))]
  }

  /** An explicitly tagged name, if any. */
  function Name(tag: byte, der: Bytes): seq<Tree> {
    if der == [] then [] else [Node(tag, [Given(der)])]
  }

  /** An implicitly tagged SEQUENCE, if any. */
  function OptionalImplicit(tag: byte, der: Bytes): seq<Tree> {
    if der == [] || StripSequence(der).None? then [] else [Implicit(tag, der)]
  }

  function Template(t: CertTemplate): Tree {
    Node(0x30, Serial(t.serial) + (Name(0xa3, t.issuer) + (Name(0xa5, t.subject)
           + (OptionalImplicit(0xa6, t.publicKey) + OptionalImplicit(0xa9, t.extensions)))))
  }

  function Control(a: Attribute): Tree {
    Node(0x30, [Leaf(0x06, a.kind), Given(a.value)])
  }

  function Controls(cs: seq<Attribute>): seq<Tree> {
    if cs == [] then [] else [Node(0x30, Each(Control, cs))]
  }

  function Request(r: CertRequest): Tree {
    Node(0x30, [Integer(r.certReqID)] + ([Template(r.template)] + Controls(r.controls)))
  }

  function PopoPrivKey(k: KeyProof): Tree {
    match k
    case Subsequent(n) => Leaf(0x81, IntegerBytes(n))
    case EncryptedProof(der) => Implicit(0xa4, der)
  }

  function ProofOfPossession(p: Option<Proof>): seq<Tree> {
    match p
    case None => []
    case Some(RaVerified) => [Leaf(0x80, [])]
    case Some(Signed(content)) => [Leaf(0xa1, content)]
    case Some(ByKey(agreement, k)) => [Node(if agreement then 0xa3 else 0xa2, [PopoPrivKey(k)])]
  }

  function RequestMessage(m: CertReqMsg): Tree {
    Node(0x30, [Request(m.request)] + ProofOfPossession(m.proof))
  }

  lemma TemplateIsWritten(t: CertTemplate)
    ensures Encoding(Template(t)) == WriteTemplate(t)
  {
    var implicit := OptionalImplicit(0xa6, t.publicKey) + OptionalImplicit(0xa9, t.extensions);
    Appends(Serial(t.serial), Name(0xa3, t.issuer) + (Name(0xa5, t.subject) + implicit));
    Appends(Name(0xa3, t.issuer), Name(0xa5, t.subject) + implicit);
    Appends(Name(0xa5, t.subject), implicit);
    Appends(OptionalImplicit(0xa6, t.publicKey), OptionalImplicit(0xa9, t.extensions));
    SerialIsWritten(t.serial);
    NameIsWritten(3, t.issuer);
    NameIsWritten(5, t.subject);
    ImplicitIsWritten(6, t.publicKey);
    ImplicitIsWritten(9, t.extensions);
  }

  lemma SerialIsWritten(n: Option<int>)
    ensures Encodings(Serial(n)) == WriteSerial(n)
  {
    if n.Some? {
      One(Leaf(0x81, IntegerBytes(n.value)));
    }
  }

  lemma NameIsWritten(n: int, der: Bytes)
    requires 0 <= n < 31
    ensures Encodings(Name(0xa0 + n, der)) == WriteName(n, der)
  {
    One(Given(der));
    One(Node(0xa0 + n, [Given(der)]));
  }

  lemma ImplicitIsWritten(n: int, der: Bytes)
    requires 0 <= n < 31
    ensures Encodings(OptionalImplicit(0xa0 + n, der)) == WriteImplicit(n, der)
  {
    One(Implicit(0xa0 + n, der));
  }

  lemma ControlsAreWritten(cs: seq<Attribute>)
    ensures Encodings(Controls(cs)) == WriteControls(cs)
  {
    if cs != [] {
      forall i | 0 <= i < |cs| ensures Encoding(Control(cs[i])) == WriteAttribute(cs[i]) {
        Two(Leaf(0x06, cs[i].kind), Given(cs[i].value));
      }
      EachIsWritten(Control, WriteAttribute, cs);
      One(Node(0x30, Each(Control, cs)));
    }
  }

  lemma RequestIsWritten(r: CertRequest)
    ensures Encoding(Request(r)) == WriteRequest(r)
  {
    One(Integer(r.certReqID));
    One(Template(r.template));
    Appends([Integer(r.certReqID)], [Template(r.template)] + Controls(r.controls));
    Appends([Template(r.template)], Controls(r.controls));
    TemplateIsWritten(r.template);
    ControlsAreWritten(r.controls);
  }

  lemma ProofIsWritten(p: Option<Proof>)
    ensures Encodings(ProofOfPossession(p)) == WriteOptionalProof(p)
  {
    if p.Some? {
      One(ProofOfPossession(p)[0]);
      if p.value.ByKey? {
        One(PopoPrivKey(p.value.proof));
      }
    }
  }

  lemma RequestMessageIsWritten(m: CertReqMsg)
    ensures Encoding(RequestMessage(m)) == WriteMsg(m)
  {
    One(Request(m.request));
    Appends([Request(m.request)], ProofOfPossession(m.proof));
    RequestIsWritten(m.request);
    ProofIsWritten(m.proof);
  }

  // ---------------------------------------------------------------------------
  // Headers
  // ---------------------------------------------------------------------------

  function TypeAndValue(i: Info): Tree {
    Node(0x30, [Leaf(0x06, i.kind), Given(i.value)])
  }

  /** An explicitly tagged OCTET STRING, if any. */
  function TaggedOctets(tag: byte, b: Bytes): seq<Tree> {
    if b == [] then [] else [Node(tag, [Leaf(0x04, b)])]
  }

  function Time(time: Option<Bytes>): seq<Tree> {
    if time.None? then [] else [Node(0xa0, [Leaf(0x18, time.value)])]
  }

  function ProtectionAlgorithm(alg: Option<AlgorithmIdentifier>): seq<Tree> {
    if alg.None? then [] else [Node(0xa1, [Algorithm(alg.value)])]
  }

  function HeaderText(text: seq<Bytes>): seq<Tree> {
    if text == [] then [] else [Node(0xa7, FreeText(text))]
  }

  function GeneralInfo(infos: seq<Info>): seq<Tree> {
    if infos == [] then [] else [Node(0xa8, [Node(0x30, Each(TypeAndValue, infos))])]
  }

  /** The optional fields of the header, in order. */
  function HeaderFields(f: Fields): (fields: seq<seq<Tree>>)
    ensures |fields| == 9
  {
    [Time(f.time), ProtectionAlgorithm(f.protectionAlg), TaggedOctets(0xa2, f.senderKID),
     TaggedOctets(0xa3, f.recipKID), TaggedOctets(0xa4, f.transactionID), TaggedOctets(0xa5, f.senderNonce),
     TaggedOctets(0xa6, f.recipNonce), HeaderText(f.freeText), GeneralInfo(f.generalInfo)]
  }

  function Joined(fields: seq<seq<Tree>>, n: nat): seq<Tree>
    requires n <= |fields|
    decreases |fields| - n
  {
    if n == |fields| then [] else fields[n] + Joined(fields, n + 1)
  }

  function MessageHeader(h: Header): Tree {
    Node(0x30, [Integer(h.pvno)] + ([Given(h.sender)] + ([Given(h.recipient)] + Joined(HeaderFields(h.fields), 0))))
  }

  ghost predicate FieldIsWritten(field: seq<Tree>, n: nat, content: Option<Bytes>)
    requires n < 9
  {
    Encodings(field) == WriteSlot(n, content)
  }

  lemma {:induction false} JoinedAreWritten(fields: seq<seq<Tree>>, slots: Slots, n: nat)
    requires n <= |fields| == 9 && forall k :: 0 <= k < 9 ==> FieldIsWritten(fields[k], k, slots[k])
    ensures Encodings(Joined(fields, n)) == WriteSlots(slots, n)
    decreases 9 - n
  {
    if n < 9 {
      JoinedAreWritten(fields, slots, n + 1);
      Appends(fields[n], Joined(fields, n + 1));
      assert FieldIsWritten(fields[n], n, slots[n]);
    }
  }

  lemma OctetsAreWritten(n: nat, b: Bytes)
    requires n < 9
    ensures FieldIsWritten(TaggedOctets(0xa0 + n, b), n, WriteOctets(b))
  {
    if b != [] {
      One(Leaf(0x04, b));
      One(Node(0xa0 + n, [Leaf(0x04, b)]));
    }
  }

  lemma TimeIsWritten(time: Option<Bytes>)
    ensures FieldIsWritten(Time(time), 0, WriteTime(time))
  {
    if time.Some? {
      One(Leaf(0x18, time.value));
      One(Node(0xa0, [Leaf(0x18, time.value)]));
    }
  }

  lemma ProtectionAlgorithmIsWritten(alg: Option<AlgorithmIdentifier>)
    ensures FieldIsWritten(ProtectionAlgorithm(alg), 1, WriteAlg(alg))
  {
    if alg.Some? {
      AlgorithmIsWritten(alg.value);
      One(Algorithm(alg.value));
      One(Node(0xa1, [Algorithm(alg.value)]));
    }
  }

  lemma HeaderTextIsWritten(text: seq<Bytes>)
    ensures FieldIsWritten(HeaderText(text), 7, WriteFreeText(text))
  {
    TextIsWritten(text);
    One(Node(0xa7, FreeText(text)));
  }

  lemma GeneralInfoIsWritten(infos: seq<Info>)
    ensures FieldIsWritten(GeneralInfo(infos), 8, WriteGeneral(infos))
  {
    forall i | 0 <= i < |infos| ensures Encoding(TypeAndValue(infos[i])) == WriteInfo(infos[i]) {
      Two(Leaf(0x06, infos[i].kind), Given(infos[i].value));
    }
    EachIsWritten(TypeAndValue, WriteInfo, infos);
    One(Node(0x30, Each(TypeAndValue, infos)));
    One(Node(0xa8, [Node(0x30, Each(TypeAndValue, infos))]));
  }

  /** The first five fields, and those from senderNonce on. */
  lemma EarlyFieldsAreWritten(f: Fields, fields: seq<seq<Tree>>, slots: Slots, k: nat)
    requires k < 5 && fields == HeaderFields(f) && slots == SlotsOf(f)
    ensures FieldIsWritten(fields[k], k, slots[k])
  {
    match k
    case 0 => TimeIsWritten(f.time);
    case 1 => ProtectionAlgorithmIsWritten(f.protectionAlg);
    case 2 => OctetsAreWritten(2, f.senderKID);
    case 3 => OctetsAreWritten(3, f.recipKID);
    case _ => OctetsAreWritten(4, f.transactionID);
  }

  lemma LateFieldsAreWritten(f: Fields, fields: seq<seq<Tree>>, slots: Slots, k: nat)
    requires 5 <= k < 9 && fields == HeaderFields(f) && slots == SlotsOf(f)
    ensures FieldIsWritten(fields[k], k, slots[k])
  {
    match k
    case 5 => OctetsAreWritten(5, f.senderNonce);
    case 6 => OctetsAreWritten(6, f.recipNonce);
    case 7 => HeaderTextIsWritten(f.freeText);
    case _ => GeneralInfoIsWritten(f.generalInfo);
  }

  lemma FieldsAreWritten(f: Fields)
    ensures Encodings(Joined(HeaderFields(f), 0)) == WriteSlots(SlotsOf(f), 0)
  {
    var fields, slots := HeaderFields(f), SlotsOf(f);
    forall k | 0 <= k < 9 ensures FieldIsWritten(fields[k], k, slots[k]) {
      if k < 5 {
        EarlyFieldsAreWritten(f, fields, slots, k);
      } else {
        LateFieldsAreWritten(f, fields, slots, k);
      }
    }
    JoinedAreWritten(fields, slots, 0);
  }

  lemma HeaderIsWritten(h: Header)
    ensures Encoding(MessageHeader(h)) == WriteHeader(h)
  {
    var fields := Joined(HeaderFields(h.fields), 0);
    One(Integer(h.pvno));
    One(Given(h.sender));
    One(Given(h.recipient));
    Appends([Integer(h.pvno)], [Given(h.sender)] + ([Given(h.recipient)] + fields));
    Appends([Given(h.sender)], [Given(h.recipient)] + fields);
    Appends([Given(h.recipient)], fields);
    FieldsAreWritten(h.fields);
  }

  // ---------------------------------------------------------------------------
  // Bodies and messages
  // ---------------------------------------------------------------------------

  function BodyContent(b: Body): Tree
    requires !b.RawBody? && !b.NestedBody?
  {
    match b
    case ReqBody(_, requests) => Node(0x30, Each(RequestMessage, requests))
    case P10Body(csr) => Given(csr)
    case RepBody(_, rep) => Rep(rep)
    case CertConfBody(statuses) => Node(0x30, Each(CertificateStatus, statuses))
    case PkiConfBody => Leaf(0x05, [])
    case PollReqBody(ids) => Node(0x30, Each(PollId, ids))
    case PollRepBody(items) => Node(0x30, Each(PollAnswer, items))
    case ErrorBody(e) => ErrorContent(e)
  }

  lemma ContentIsWritten(b: Body)
    requires !b.RawBody? && !b.NestedBody?
    ensures Encoding(BodyContent(b)) == Contents(b)
  {
    match b
    case ReqBody(_, requests) =>
      forall i | 0 <= i < |requests| ensures Encoding(RequestMessage(requests[i])) == WriteMsg(requests[i]) {
        RequestMessageIsWritten(requests[i]);
      }
      EachIsWritten(RequestMessage, WriteMsg, requests);
    case RepBody(_, rep) =>
      RepIsWritten(rep);
    case CertConfBody(statuses) =>
      forall i | 0 <= i < |statuses| ensures Encoding(CertificateStatus(statuses[i])) == WriteCertStatus(statuses[i]) {
        CertificateStatusIsWritten(statuses[i]);
      }
      EachIsWritten(CertificateStatus, WriteCertStatus, statuses);
    case PollReqBody(ids) =>
      forall i | 0 <= i < |ids| ensures Encoding(PollId(ids[i])) == WritePollId(ids[i]) {
        PollIdIsWritten(ids[i]);
      }
      EachIsWritten(PollId, WritePollId, ids);
    case PollRepBody(items) =>
      forall i | 0 <= i < |items| ensures Encoding(PollAnswer(items[i])) == WriteItem(items[i]) {
        PollAnswerIsWritten(items[i]);
      }
      EachIsWritten(PollAnswer, WriteItem, items);
    case ErrorBody(e) =>
      ErrorIsWritten(e);
    case _ =>
  }

  function Protection(protection: Bytes): seq<Tree> {
    if protection == [] then [] else [Node(0xa0, [Leaf(0x03, [0] + protection)])]
  }

  function Framed(header: Tree, body: Tree, protection: Bytes, certs: seq<Bytes>): Tree {
    Node(0x30, [header] + ([body] + (Protection(protection) + Certificates(0xa1, certs))))
  }

  lemma FrameIsWritten(header: Tree, body: Tree, protection: Bytes, certs: seq<Bytes>)
    ensures Encoding(Framed(header, body, protection, certs))
         == WriteMessage(Encoding(header), Encoding(body), protection, certs)
  {
    var trailer := Protection(protection) + Certificates(0xa1, certs);
    One(header);
    One(body);
    Appends([header], [body] + trailer);
    Appends([body], trailer);
    Appends(Protection(protection), Certificates(0xa1, certs));
    CertificatesAreWritten(certs);
    if protection != [] {
      One(Leaf(0x03, [0] + protection));
      One(Node(0xa0, [Leaf(0x03, [0] + protection)]));
    }
  }

  /** A body: its contents under the tag of its kind. Nested messages are a SEQUENCE OF. */
  function MessageBody(b: Body): Tree
    decreases b
  {
    match b
    case RawBody(der) => Given(der)
    case NestedBody(messages) => Node(0xb4, [Node(0x30, NestedMessages(messages))])
    case _ => Node(Octet(b), [BodyContent(b)])
  }

  function NestedMessages(ms: seq<Msg>): seq<Tree>
    decreases ms
  {
    if ms == [] then [] else [NestedMessage(ms[0])] + NestedMessages(ms[1..])
  }

  /** A protected message whose bytes are known is nested as it was protected. */
  function NestedMessage(m: Msg): Tree
    decreases m, 1
  {
    if m.protection != [] && m.rawHeader != [] && m.rawBody != []
    then Framed(Given(m.rawHeader), Given(m.rawBody), m.protection, m.extraCerts)
    else WholeMessage(m)
  }

  /** A message: version 3 when the contents need it, otherwise the one asked for and at
      least 2. */
  function WholeMessage(m: Msg): Tree
    decreases m, 0
  {
    var pvno := if Needs3(m.body) then 3 else if m.header.pvno < 2 then 2 else m.header.pvno;
    Framed(MessageHeader(m.header.(pvno := pvno)), MessageBody(m.body), m.protection, m.extraCerts)
  }

  lemma {:induction false} BodyIsWritten(v: int, b: Body)
    ensures MarshalBody(v, b).0.bytes == Encoding(MessageBody(b))
    decreases b
  {
    match b
    case RawBody(_) =>
    case NestedBody(messages) =>
      NestedAreWritten(messages);
      One(Node(0x30, NestedMessages(messages)));
    case _ =>
      ContentsAreWritten(v, b);
      ContentIsWritten(b);
      TagIsOctet(b);
      One(BodyContent(b));
  }

  lemma {:induction false} NestedAreWritten(ms: seq<Msg>)
    ensures MarshalNested(ms).0 == Encodings(NestedMessages(ms))
    decreases ms
  {
    if ms != [] {
      NestedIsWritten(ms[0]);
      NestedAreWritten(ms[1..]);
    }
  }

  lemma {:induction false} NestedIsWritten(m: Msg)
    ensures MarshalForNesting(m).0 == Encoding(NestedMessage(m))
    decreases m, 1
  {
    if KeepsBytes(m) {
      FrameIsWritten(Given(m.rawHeader), Given(m.rawBody), m.protection, m.extraCerts);
    } else {
      MessageIsWritten(m);
    }
  }

  /** Every message is written as the DER of its ASN.1 value, whatever it holds and
      however deep messages are nested in it. */
  lemma {:induction false} MessageIsWritten(m: Msg)
    ensures MarshalMessage(m).0 == Encoding(WholeMessage(m))
    decreases m, 0
  {
    var start := StartVersion(m.header.pvno);
    BodyIsWritten(start, m.body);
    BodyRepeats(start, start, m.body);
    var header := m.header.(pvno := MarshalBody(start, m.body).0.version);
    HeaderIsWritten(header);
    FrameIsWritten(MessageHeader(header), MessageBody(m.body), m.protection, m.extraCerts);
  }

  // ---------------------------------------------------------------------------
  // MAC parameters
  // ---------------------------------------------------------------------------

  function Length(n: int): seq<Tree> {
    if n == 0 then [] else [Integer(n)]
  }

  function Prf(prf: Option<Bytes>): seq<Tree> {
    if prf.None? then [] else [Algorithm(AlgorithmIdentifier(prf.value, []))]
  }

  function KdfParameters(alg: ProtectionAlg): Tree
    requires alg.Pbmac1?
  {
    Node(0x30, [Leaf(0x04, alg.salt)] + ([Integer(alg.iterations)] + (Length(alg.keyLength) + Prf(alg.prf))))
  }

  /** PBMParameter of RFC 4210, and PBMAC1-params with the PBKDF2-params of RFC 8018. */
  function MacParameters(alg: ProtectionAlg): Tree
    requires alg.PasswordBasedMac? || alg.Pbmac1?
  {
    match alg
    case PasswordBasedMac(salt, owf, owfParams, iterations, mac, macParams) =>
      Node(0x30, [Leaf(0x04, salt)] + ([Algorithm(AlgorithmIdentifier(owf, owfParams))]
             + ([Integer(iterations)] + [Algorithm(AlgorithmIdentifier(mac, macParams))])))
    case Pbmac1(_, _, _, _, _, mac) =>
      Node(0x30, [Node(0x30, [Leaf(0x06, [42, 134, 72, 134, 247, 13, 1, 5, 12]), KdfParameters(alg)]),
                  Algorithm(AlgorithmIdentifier(mac, []))])
  }

  lemma KdfIsWritten(alg: ProtectionAlg)
    requires alg.Pbmac1?
    ensures Encoding(KdfParameters(alg))
         == Element(0x30, WriteKdfContent(Kdf(alg.salt, alg.iterations, alg.keyLength, alg.prf)))
  {
    var rest := Length(alg.keyLength) + Prf(alg.prf);
    One(Leaf(0x04, alg.salt));
    One(Integer(alg.iterations));
    One(Integer(alg.keyLength));
    Appends([Leaf(0x04, alg.salt)], [Integer(alg.iterations)] + rest);
    Appends([Integer(alg.iterations)], rest);
    Appends(Length(alg.keyLength), Prf(alg.prf));
    if alg.prf.Some? {
      AlgorithmIsWritten(AlgorithmIdentifier(alg.prf.value, []));
      One(Algorithm(AlgorithmIdentifier(alg.prf.value, [])));
    }
  }

  /** The protectionAlg of a MAC: its identifier, and its parameters as those documents
      define them. */
  lemma MacIsWritten(alg: ProtectionAlg)
    requires alg.PasswordBasedMac? || alg.Pbmac1?
    ensures Encode(alg)
         == AlgorithmIdentifier(if alg.Pbmac1? then [42, 134, 72, 134, 247, 13, 1, 5, 14]
                                else [42, 134, 72, 134, 246, 125, 7, 66, 13],
                                Encoding(MacParameters(alg)))
  {
    match alg
    case PasswordBasedMac(salt, owf, owfParams, iterations, mac, macParams) =>
      var o, m := AlgorithmIdentifier(owf, owfParams), AlgorithmIdentifier(mac, macParams);
      One(Leaf(0x04, salt));
      One(Algorithm(o));
      One(Integer(iterations));
      One(Algorithm(m));
      Appends([Leaf(0x04, salt)], [Algorithm(o)] + ([Integer(iterations)] + [Algorithm(m)]));
      Appends([Algorithm(o)], [Integer(iterations)] + [Algorithm(m)]);
      Appends([Integer(iterations)], [Algorithm(m)]);
      AlgorithmIsWritten(o);
      AlgorithmIsWritten(m);
    case Pbmac1(_, salt, iterations, keyLength, prf, mac) =>
      var kdf, m := Leaf(0x06, [42, 134, 72, 134, 247, 13, 1, 5, 12]), AlgorithmIdentifier(mac, []);
      KdfIsWritten(alg);
      Two(kdf, KdfParameters(alg));
      Two(Node(0x30, [kdf, KdfParameters(alg)]), Algorithm(m));
      AlgorithmIsWritten(m);
  }
}
