/**
  Certificate requests (pkicmp/crmf.go): the template, the request with its
  controls, and the bytes that proof of possession signs and checks (pkicmp/pop.go).

  Names, public keys and extensions are opaque SEQUENCE elements, absent when empty.
  A signing proof is the opaque content of its element.
 */
module Crmf {
  import opened Types
  import opened Der
  import opened Codecs
  import opened Responses

  // ---------------------------------------------------------------------------
  // CertTemplate
  // ---------------------------------------------------------------------------

  datatype CertTemplate = CertTemplate(serial: Option<int>, issuer: Bytes, subject: Bytes, publicKey: Bytes,
                                       extensions: Bytes)

  const NO_TEMPLATE := CertTemplate(None, [], [], [], [])

  predicate SequenceOrAbsent(der: Bytes) {
    der == [] || (IsElement(der) && der[0] == SEQUENCE)
  }

  predicate NormalTemplate(t: CertTemplate) {
    SequenceOrAbsent(t.issuer) && SequenceOrAbsent(t.subject) && SequenceOrAbsent(t.publicKey)
        && SequenceOrAbsent(t.extensions)
  }

  function WriteSerial(n: Option<int>): Bytes {
    if n.None? then [] else Element(Primitive(1), IntegerBytes(n.value))
  }

  /** The explicitly tagged names. */
  function WriteName(n: int, der: Bytes): Bytes
    requires 0 <= n < 31
  {
    if der == [] then [] else Element(Context(n), der)
  }

  /** The implicitly tagged sequences lose their own header. */
  function WriteImplicit(n: int, der: Bytes): Bytes
    requires 0 <= n < 31
  {
    if der == [] || StripSequence(der).None? then [] else Element(Context(n), StripSequence(der).value)
  }

  function WriteTemplateContent(t: CertTemplate): Bytes {
    WriteSerial(t.serial) + (WriteName(3, t.issuer) + (WriteName(5, t.subject)
      + (WriteImplicit(6, t.publicKey) + WriteImplicit(9, t.extensions))))
  }

  /** One field of the template, by its tag. Other tags are skipped. */
  function ReadField(t: CertTemplate, tag: byte, content: Bytes): Option<CertTemplate> {
    if tag == Primitive(1) then
      if Minimal(content) then Some(t.(serial := Some(IntegerValue(content)))) else None
    else if tag == Context(3) then
      var name := ReadTagged(content, SEQUENCE);
      if name.None? || name.value.1 != [] then None else Some(t.(issuer := content))
    else if tag == Context(5) then
      var name := ReadAny(content);
      if name.None? then None else Some(t.(subject := name.value.0))
    else if tag == Context(6) then Some(t.(publicKey := WrapSequence(content)))
    else if tag == Context(9) then Some(t.(extensions := WrapSequence(content)))
    else Some(t)
  }

  /** Fields may come in any order, and the last of a kind wins. */
  function ReadFields(t: CertTemplate, s: Bytes): Option<CertTemplate>
    decreases |s|
  {
    if s == [] then Some(t)
    else
      var r := ReadElement(s);
      if r.None? || |r.value.rest| >= |s| then None
      else
        var t' := ReadField(t, r.value.tag, r.value.content);
        if t'.None? then None else ReadFields(t'.value, r.value.rest)
  }

  /** The loop over the fields, as the source runs it. */
  method UnmarshalTemplate(content: Bytes) returns (t: Option<CertTemplate>)
    ensures t == ReadFields(NO_TEMPLATE, content)
  {
    var template, s := NO_TEMPLATE, content;
    while s != []
      invariant ReadFields(template, s) == ReadFields(NO_TEMPLATE, content)
      decreases |s|
    {
      var r := ReadElement(s);
      if r.None? || |r.value.rest| >= |s| {
        return None;
      }
      var field := ReadField(template, r.value.tag, r.value.content);
      if field.None? {
        return None;
      }
      template, s := field.value, r.value.rest;
    }
    return Some(template);
  }

  lemma FieldStep(t: CertTemplate, tag: byte, content: Bytes, tail: Bytes)
    requires LowTag(tag) && Fits(content) && ReadField(t, tag, content).Some?
    ensures ReadFields(t, Element(tag, content) + tail) == ReadFields(ReadField(t, tag, content).value, tail)
  {
    ReadElementOf(tag, content, tail);
  }

  lemma SerialStep(t: CertTemplate, n: Option<int>, tail: Bytes)
    requires t.serial.None? && Fits(WriteSerial(n))
    ensures ReadFields(t, WriteSerial(n) + tail) == ReadFields(t.(serial := n), tail)
  {
    if n.None? {
      assert [] + tail == tail;
    } else {
      IntegerRoundTrip(n.value);
      FieldStep(t, Primitive(1), IntegerBytes(n.value), tail);
    }
  }

  lemma IssuerStep(t: CertTemplate, der: Bytes, tail: Bytes)
    requires t.issuer == [] && SequenceOrAbsent(der) && Fits(WriteName(3, der))
    ensures ReadFields(t, WriteName(3, der) + tail) == ReadFields(t.(issuer := der), tail)
  {
    if der == [] {
      assert [] + tail == tail;
    } else {
      FieldStep(t, Context(3), der, tail);
    }
  }

  lemma SubjectStep(t: CertTemplate, der: Bytes, tail: Bytes)
    requires t.subject == [] && SequenceOrAbsent(der) && Fits(WriteName(5, der))
    ensures ReadFields(t, WriteName(5, der) + tail) == ReadFields(t.(subject := der), tail)
  {
    if der == [] {
      assert [] + tail == tail;
    } else {
      assert der + [] == der;
      ReadAnyOf(der, []);
      FieldStep(t, Context(5), der, tail);
    }
  }

  lemma Stripped(der: Bytes)
    requires der != [] && SequenceOrAbsent(der)
    ensures StripSequence(der).Some? && WrapSequence(StripSequence(der).value) == der
  {
    WrapInvertsStrip(der);
  }

  lemma PublicKeyContent(t: CertTemplate, content: Bytes, tail: Bytes)
    requires Fits(content)
    ensures ReadFields(t, Element(Context(6), content) + tail)
            == ReadFields(t.(publicKey := WrapSequence(content)), tail)
  {
    FieldStep(t, Context(6), content, tail);
  }

  lemma PublicKeyStep(t: CertTemplate, der: Bytes, tail: Bytes)
    requires t.publicKey == [] && SequenceOrAbsent(der) && Fits(WriteImplicit(6, der))
    ensures ReadFields(t, WriteImplicit(6, der) + tail) == ReadFields(t.(publicKey := der), tail)
  {
    if der == [] {
      assert [] + tail == tail;
    } else {
      Stripped(der);
      PublicKeyContent(t, StripSequence(der).value, tail);
    }
  }

  lemma ExtensionsStep(t: CertTemplate, der: Bytes)
    requires t.extensions == [] && SequenceOrAbsent(der) && Fits(WriteImplicit(9, der))
    ensures ReadFields(t, WriteImplicit(9, der)) == Some(t.(extensions := der))
  {
    if der != [] {
      Stripped(der);
      assert WriteImplicit(9, der) + [] == WriteImplicit(9, der);
      FieldStep(t, Context(9), StripSequence(der).value, []);
    }
  }

  lemma TemplateContentRoundTrips(t: CertTemplate)
    requires NormalTemplate(t) && Fits(WriteTemplateContent(t))
    ensures ReadFields(NO_TEMPLATE, WriteTemplateContent(t)) == Some(t)
  {
    var e := WriteImplicit(9, t.extensions);
    var d := WriteImplicit(6, t.publicKey) + e;
    var c := WriteName(5, t.subject) + d;
    var b := WriteName(3, t.issuer) + c;
    SerialStep(NO_TEMPLATE, t.serial, b);
    IssuerStep(CertTemplate(t.serial, [], [], [], []), t.issuer, c);
    SubjectStep(CertTemplate(t.serial, t.issuer, [], [], []), t.subject, d);
    PublicKeyStep(CertTemplate(t.serial, t.issuer, t.subject, [], []), t.publicKey, e);
    ExtensionsStep(CertTemplate(t.serial, t.issuer, t.subject, t.publicKey, []), t.extensions);
  }

  function WriteTemplate(t: CertTemplate): Bytes {
    Element(SEQUENCE, WriteTemplateContent(t))
  }

  function ReadTemplateContent(s: Bytes): Option<CertTemplate> {
    ReadFields(NO_TEMPLATE, s)
  }

  function ReadTemplate(s: Bytes): Option<(CertTemplate, Bytes)> {
    ReadWrapped(SEQUENCE, ReadTemplateContent, s)
  }

  lemma TemplateRoundTrips(t: CertTemplate, tail: Bytes)
    requires NormalTemplate(t) && Fits(WriteTemplate(t))
    ensures ReadTemplate(WriteTemplate(t) + tail) == Some((t, tail))
  {
    TemplateContentRoundTrips(t);
    WrappedRoundTrips(SEQUENCE, WriteTemplateContent(t), ReadTemplateContent, t, tail);
  }

  // ---------------------------------------------------------------------------
  // Controls
  // ---------------------------------------------------------------------------

  datatype Attribute = Attribute(kind: Bytes, value: Bytes)

  function WriteAttributeContent(a: Attribute): Bytes {
    Element(OBJECT_IDENTIFIER, a.kind) + a.value
  }

  function WriteAttribute(a: Attribute): Bytes {
    Element(SEQUENCE, WriteAttributeContent(a))
  }

  function ReadAttributeContent(s: Bytes): Option<Attribute> {
    var kind := ReadTagged(s, OBJECT_IDENTIFIER);
    if kind.None? || !IsElement(kind.value.1) then None else Some(Attribute(kind.value.0, kind.value.1))
  }

  function ReadAttribute(s: Bytes): Option<(Attribute, Bytes)> {
    ReadWrapped(SEQUENCE, ReadAttributeContent, s)
  }

  lemma AttributeRoundTrips(a: Attribute)
    requires IsElement(a.value) && Fits(WriteAttribute(a))
    ensures RoundTrips(WriteAttribute, ReadAttribute, a)
  {
    ReadTaggedOf(OBJECT_IDENTIFIER, a.kind, a.value);
    forall tail ensures ReadAttribute(WriteAttribute(a) + tail) == Some((a, tail)) {
      WrappedRoundTrips(SEQUENCE, WriteAttributeContent(a), ReadAttributeContent, a, tail);
    }
  }

  function WriteControls(cs: seq<Attribute>): Bytes {
    if cs == [] then [] else WriteSequenceOf(WriteAttribute, cs)
  }

  /** Controls, when present, are not empty and end the request. */
  function ReadControls(s: Bytes): Option<seq<Attribute>> {
    if s == [] then Some([])
    else
      var r := ReadSequenceOf(ReadAttribute, s);
      if r.None? || r.value.0 == [] || r.value.1 != [] then None else Some(r.value.0)
  }

  lemma ControlsRoundTrip(cs: seq<Attribute>)
    requires (forall i :: 0 <= i < |cs| ==> IsElement(cs[i].value)) && Fits(WriteControls(cs))
    ensures ReadControls(WriteControls(cs)) == Some(cs)
  {
    if cs != [] {
      forall i | 0 <= i < |cs| ensures RoundTrips(WriteAttribute, ReadAttribute, cs[i]) {
        WriteAllSize(WriteAttribute, cs, i);
        AttributeRoundTrips(cs[i]);
      }
      assert WriteControls(cs) + [] == WriteControls(cs);
      SequenceOfRoundTrips(WriteAttribute, ReadAttribute, cs, []);
    }
  }

  // ---------------------------------------------------------------------------
  // CertRequest and CertReqMsg
  // ---------------------------------------------------------------------------

  datatype CertRequest = CertRequest(certReqID: int, template: CertTemplate, controls: seq<Attribute>)

  predicate NormalRequest(r: CertRequest) {
    FitsInt64(r.certReqID) && NormalTemplate(r.template) && forall i :: 0 <= i < |r.controls| ==>
        IsElement(r.controls[i].value)
  }

  function WriteRequestContent(r: CertRequest): Bytes {
    Int64(r.certReqID) + (WriteTemplate(r.template) + WriteControls(r.controls))
  }

  function WriteRequest(r: CertRequest): Bytes {
    Element(SEQUENCE, WriteRequestContent(r))
  }

  function ReadRequestContent(s: Bytes): Option<CertRequest> {
    var id := ReadInt64(s);
    if id.None? then None
    else
      var template := ReadTemplate(id.value.1);
      if template.None? then None
      else
        var controls := ReadControls(template.value.1);
        if controls.None? then None else Some(CertRequest(id.value.0, template.value.0, controls.value))
  }

  /** A parsed request keeps the bytes it came in. */
  datatype ParsedRequest = ParsedRequest(request: CertRequest, raw: Bytes)

  function ReadRequest(s: Bytes): Option<(ParsedRequest, Bytes)> {
    var raw := ReadAny(s);
    if raw.None? then None
    else
      var r := ReadWrapped(SEQUENCE, ReadRequestContent, raw.value.0);
      if r.None? then None else Some((ParsedRequest(r.value.0, raw.value.0), raw.value.1))
  }

  lemma RequestParts(id: int, written: Bytes, template: CertTemplate, rest: Bytes, controls: seq<Attribute>)
    requires FitsInt64(id) && ReadTemplate(written + rest) == Some((template, rest))
             && ReadControls(rest) == Some(controls)
    ensures ReadRequestContent(Int64(id) + (written + rest)) == Some(CertRequest(id, template, controls))
  {
    ReadInt64Of(id, written + rest);
  }

  lemma RequestWraps(content: Bytes, r: CertRequest, tail: Bytes)
    requires Fits(content) && ReadRequestContent(content) == Some(r)
    ensures ReadRequest(Element(SEQUENCE, content) + tail) == Some((ParsedRequest(r, Element(SEQUENCE, content)), tail))
  {
    var e := Element(SEQUENCE, content);
    ElementIsElement(SEQUENCE, content);
    ReadAnyOf(e, tail);
    assert e + [] == e;
    WrappedRoundTrips(SEQUENCE, content, ReadRequestContent, r, []);
  }

  lemma RequestRoundTrips(r: CertRequest, tail: Bytes)
    requires NormalRequest(r) && Fits(WriteRequest(r))
    ensures ReadRequest(WriteRequest(r) + tail) == Some((ParsedRequest(r, WriteRequest(r)), tail))
  {
    var controls := WriteControls(r.controls);
    TemplateRoundTrips(r.template, controls);
    ControlsRoundTrip(r.controls);
    RequestParts(r.certReqID, WriteTemplate(r.template), r.template, controls, r.controls);
    RequestWraps(WriteRequestContent(r), r, tail);
  }

  /** Whoever encoded it, the bytes kept for the check are the bytes received. */
  lemma RawIsWhatArrived(s: Bytes)
    requires ReadRequest(s).Some?
    ensures var (parsed, rest) := ReadRequest(s).value; s == parsed.raw + rest && IsElement(parsed.raw)
  {
    ElementOfRead(s);
    var r := ReadElement(s).value;
    var e := Element(r.tag, r.content);
    assert s == e + r.rest && s[..|e|] == e;
    ElementIsElement(r.tag, r.content);
  }

  // ---------------------------------------------------------------------------
  // Proof of possession
  // ---------------------------------------------------------------------------

  datatype KeyProof = Subsequent(message: int) | EncryptedProof(der: Bytes)

  datatype Proof = RaVerified | Signed(content: Bytes) | ByKey(agreement: bool, proof: KeyProof)

  predicate NormalKeyProof(k: KeyProof) {
    match k
    case Subsequent(n) => FitsInt64(n)
    case EncryptedProof(der) => der != [] && SequenceOrAbsent(der)
  }

  predicate NormalProof(p: Proof) {
    p.ByKey? ==> NormalKeyProof(p.proof)
  }

  function WriteKeyProof(k: KeyProof): Bytes {
    match k
    case Subsequent(n) => Element(Primitive(1), IntegerBytes(n))
    case EncryptedProof(der) => Element(Context(4), if StripSequence(der).Some? then StripSequence(der).value else der)
  }

  function WriteProof(p: Proof): Bytes {
    match p
    case RaVerified => Element(Primitive(0), [])
    case Signed(content) => Element(Context(1), content)
    case ByKey(agreement, k) => Element(Context(if agreement then 3 else 2), WriteKeyProof(k))
  }

  /** What follows the one element inside is ignored. */
  function ReadKeyProof(s: Bytes): Option<KeyProof> {
    var r := ReadElement(s);
    if r.None? then None
    else if r.value.tag == Primitive(1) then
      if Minimal(r.value.content) && |r.value.content| <= 8 then Some(Subsequent(IntegerValue(r.value.content)))
      else None
    else if r.value.tag == Context(4) then Some(EncryptedProof(WrapSequence(r.value.content)))
    else None
  }

  function ReadProof(s: Bytes): Option<Proof> {
    var r := ReadElement(s);
    if r.None? then None
    else if r.value.tag == Primitive(0) then Some(RaVerified)
    else if r.value.tag == Context(1) then Some(Signed(r.value.content))
    else if r.value.tag == Context(2) || r.value.tag == Context(3) then
      var k := ReadKeyProof(r.value.content);
      if k.None? then None else Some(ByKey(r.value.tag == Context(3), k.value))
    else None
  }

  lemma KeyProofRoundTrips(k: KeyProof)
    requires NormalKeyProof(k) && Fits(WriteKeyProof(k))
    ensures ReadKeyProof(WriteKeyProof(k)) == Some(k)
  {
    assert WriteKeyProof(k) + [] == WriteKeyProof(k);
    match k
    case Subsequent(n) =>
      Int64Size(n);
      IntegerRoundTrip(n);
      ReadElementOf(Primitive(1), IntegerBytes(n), []);
    case EncryptedProof(der) =>
      Stripped(der);
      ReadElementOf(Context(4), StripSequence(der).value, []);
  }

  lemma ProofRoundTrips(p: Proof)
    requires NormalProof(p) && Fits(WriteProof(p))
    ensures ReadProof(WriteProof(p)) == Some(p) && |WriteProof(p)| > 0 && !Peek(WriteProof(p), SEQUENCE)
  {
    assert WriteProof(p) + [] == WriteProof(p);
    match p
    case RaVerified =>
      ReadElementOf(Primitive(0), [], []);
    case Signed(content) =>
      ReadElementOf(Context(1), content, []);
    case ByKey(agreement, k) =>
      KeyProofRoundTrips(k);
      ReadElementOf(Context(if agreement then 3 else 2), WriteKeyProof(k), []);
  }

  // ---------------------------------------------------------------------------
  // CertReqMessages
  // ---------------------------------------------------------------------------

  datatype CertReqMsg = CertReqMsg(request: CertRequest, proof: Option<Proof>)

  datatype ParsedMsg = ParsedMsg(request: ParsedRequest, proof: Option<Proof>)

  predicate NormalMsg(m: CertReqMsg) {
    NormalRequest(m.request) && (m.proof.Some? ==> NormalProof(m.proof.value))
  }

  function WriteOptionalProof(p: Option<Proof>): Bytes {
    if p.None? then [] else WriteProof(p.value)
  }

  function WriteMsgContent(m: CertReqMsg): Bytes {
    WriteRequest(m.request) + WriteOptionalProof(m.proof)
  }

  function WriteMsg(m: CertReqMsg): Bytes {
    Element(SEQUENCE, WriteMsgContent(m))
  }

  /** Anything but a SEQUENCE after the request is its proof. */
  function ReadOptionalProof(s: Bytes): Option<Option<Proof>> {
    if s == [] || Peek(s, SEQUENCE) then Some(None)
    else
      var r := ReadProof(s);
      if r.None? then None else Some(Some(r.value))
  }

  function ReadMsgContent(s: Bytes): Option<ParsedMsg> {
    var request := ReadRequest(s);
    if request.None? then None
    else
      var proof := ReadOptionalProof(request.value.1);
      if proof.None? then None else Some(ParsedMsg(request.value.0, proof.value))
  }

  function ReadMsg(s: Bytes): Option<(ParsedMsg, Bytes)> {
    ReadWrapped(SEQUENCE, ReadMsgContent, s)
  }

  /** GeneratePOP signs the encoding of the request. */
  function SignedBytes(r: CertRequest): Bytes {
    WriteRequest(r)
  }

  /** VerifyPOP checks the bytes that were kept. */
  function CheckedBytes(m: ParsedMsg): Bytes {
    m.request.raw
  }

  function Arrives(m: CertReqMsg): ParsedMsg {
    ParsedMsg(ParsedRequest(m.request, SignedBytes(m.request)), m.proof)
  }

  lemma MsgParts(written: Bytes, r: ParsedRequest, rest: Bytes, proof: Option<Proof>)
    requires ReadRequest(written + rest) == Some((r, rest)) && ReadOptionalProof(rest) == Some(proof)
    ensures ReadMsgContent(written + rest) == Some(ParsedMsg(r, proof))
  {
  }

  lemma MsgWraps(content: Bytes, m: ParsedMsg, tail: Bytes)
    requires Fits(content) && ReadMsgContent(content) == Some(m)
    ensures ReadMsg(Element(SEQUENCE, content) + tail) == Some((m, tail))
  {
    WrappedRoundTrips(SEQUENCE, content, ReadMsgContent, m, tail);
  }

  lemma MsgRoundTrips(m: CertReqMsg, tail: Bytes)
    requires NormalMsg(m) && Fits(WriteMsg(m))
    ensures ReadMsg(WriteMsg(m) + tail) == Some((Arrives(m), tail))
  {
    var proof := WriteOptionalProof(m.proof);
    RequestRoundTrips(m.request, proof);
    if m.proof.Some? {
      ProofRoundTrips(m.proof.value);
    }
    MsgParts(WriteRequest(m.request), ParsedRequest(m.request, WriteRequest(m.request)), proof, m.proof);
    MsgWraps(WriteMsgContent(m), Arrives(m), tail);
  }

  function WriteMsgs(ms: seq<CertReqMsg>): Bytes {
    WriteSequenceOf(WriteMsg, ms)
  }

  lemma MsgListed(m: CertReqMsg)
    requires NormalMsg(m) && Fits(WriteMsg(m))
    ensures ReadsAs(WriteMsg, ReadMsg, Arrives, m)
  {
    forall tail ensures ReadMsg(WriteMsg(m) + tail) == Some((Arrives(m), tail)) {
      MsgRoundTrips(m, tail);
    }
  }

  /** For every template, every list of controls and every batch of requests, the
      bytes checked at the receiver are the bytes that were signed. */
  lemma CheckedBytesAreSigned(ms: seq<CertReqMsg>, tail: Bytes, i: nat)
    requires (forall j :: 0 <= j < |ms| ==> NormalMsg(ms[j])) && Fits(WriteMsgs(ms)) && i < |ms|
    ensures var r := ReadSequenceOf(ReadMsg, WriteMsgs(ms) + tail);
            && r.Some? && r.value.1 == tail && |r.value.0| == |ms|
            && r.value.0[i].request.request == ms[i].request
            && CheckedBytes(r.value.0[i]) == SignedBytes(ms[i].request)
  {
    forall j | 0 <= j < |ms| ensures ReadsAs(WriteMsg, ReadMsg, Arrives, ms[j]) {
      WriteAllSize(WriteMsg, ms, j);
      MsgListed(ms[j]);
    }
    SequenceReadsAs(WriteMsg, ReadMsg, Arrives, ms, tail);
  }
}
