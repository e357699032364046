/**
  Exactly which bytes the parsers accept, whoever wrote them: messages (pkicmp/pkimessage.go),
  certificate requests (pkicmp/crmf.go) and MAC parameters (pkicmp/protect.go,
  pkicmp/verify.go). The shapes are written with the tag octets of RFC 9810, RFC 4211
  and RFC 8018, and say where bytes are ignored.
 */
module Acceptance {
  import opened Types
  import opened MacParams
  import opened Der
  import opened Codecs
  import opened Responses
  import opened Crmf
  import opened PkiHeader
  import opened PkiFrame
  import opened MacCodec

  // ---------------------------------------------------------------------------
  // Elements, integers and lists
  // ---------------------------------------------------------------------------

  /** An element of this tag is read exactly when the bytes start with its encoding. */
  lemma TaggedIff(s: Bytes, tag: byte, content: Bytes, rest: Bytes)
    ensures ReadTagged(s, tag) == Some((content, rest)) <==>
            LowTag(tag) && Fits(content) && s == Element(tag, content) + rest
  {
    if ReadTagged(s, tag) == Some((content, rest)) {
      ElementOfRead(s);
    }
    if LowTag(tag) && Fits(content) && s == Element(tag, content) + rest {
      ReadTaggedOf(tag, content, rest);
    }
  }

  lemma NothingBehind(tag: byte, content: Bytes)
    ensures Element(tag, content) + [] == Element(tag, content)
  {
  }

  /** An element with its header, likewise. */
  lemma AnyIff(s: Bytes, e: Bytes, rest: Bytes)
    ensures ReadAny(s) == Some((e, rest)) <==> IsElement(e) && s == e + rest
  {
    if ReadAny(s) == Some((e, rest)) {
      AnyIsPrefix(s);
    }
    if IsElement(e) && s == e + rest {
      ReadAnyOf(e, rest);
    }
  }

  lemma OneOctetMore(v: int, last: byte)
    requires !(v == 0 && last < 128) && !(v == -1 && last >= 128)
    ensures IntegerBytes(v * 256 + last) == IntegerBytes(v) + [last]
  {
    var n := v * 256 + last;
    assert n / 256 == v && n % 256 == last as int;
    assert !(-128 <= n < 128);
  }

  /** Minimal octets are those of their value. */
  lemma {:induction false} OctetsOfValue(bs: Bytes)
    requires Minimal(bs)
    ensures IntegerBytes(IntegerValue(bs)) == bs
  {
    if |bs| > 1 {
      var init, last := bs[..|bs| - 1], bs[|bs| - 1];
      assert bs == init + [last] && init[0] == bs[0] && (|init| > 1 ==> init[1] == bs[1]);
      OctetsOfValue(init);
      OneOctetMore(IntegerValue(init), last);
    }
  }

  lemma Int64Iff(s: Bytes, n: int, rest: Bytes)
    ensures ReadInt64(s) == Some((n, rest)) <==> FitsInt64(n) && s == Element(0x02, IntegerBytes(n)) + rest
  {
    if ReadInt64(s) == Some((n, rest)) {
      var content := ReadTagged(s, INTEGER).value.0;
      TaggedIff(s, INTEGER, content, rest);
      OctetsOfValue(content);
      Int64Size(n);
    }
    if FitsInt64(n) && s == Element(0x02, IntegerBytes(n)) + rest {
      ReadInt64Of(n, rest);
    }
  }

  ghost predicate ReadsExactly<T(!new)>(read: Bytes -> Option<(T, Bytes)>, write: T -> Bytes, good: T -> bool, s: Bytes,
                                        x: T, rest: Bytes) {
    read(s) == Some((x, rest)) <==> good(x) && s == write(x) + rest
  }

  /** A reader that accepts exactly what the writer writes, of the values that are `good`. */
  ghost predicate Exactly<T(!new)>(read: Bytes -> Option<(T, Bytes)>, write: T -> Bytes, good: T -> bool) {
    forall s, x, rest :: ReadsExactly(read, write, good, s, x, rest)
  }

  ghost predicate AllGood<T>(good: T -> bool, xs: seq<T>) {
    forall i :: 0 <= i < |xs| ==> good(xs[i])
  }

  lemma {:induction false} ListShape<T(!new)>(read: Bytes -> Option<(T, Bytes)>, write: T -> Bytes, good: T -> bool,
                                              s: Bytes, xs: seq<T>)
    requires Exactly(read, write, good) && ReadAll(read, s) == Some(xs)
    ensures s == WriteAll(write, xs) && AllGood(good, xs)
    decreases |s|
  {
    if s != [] {
      var (x, rest) := read(s).value;
      assert ReadsExactly(read, write, good, s, x, rest);
      ListShape(read, write, good, rest, ReadAll(read, rest).value);
      assert xs[1..] == ReadAll(read, rest).value;
    }
  }

  lemma {:induction false} ListAccepted<T(!new)>(read: Bytes -> Option<(T, Bytes)>, write: T -> Bytes, good: T -> bool,
                                                 xs: seq<T>)
    requires Exactly(read, write, good) && AllGood(good, xs) && forall x :: good(x) ==> |write(x)| > 0
    ensures ReadAll(read, WriteAll(write, xs)) == Some(xs)
  {
    if xs != [] {
      var rest := WriteAll(write, xs[1..]);
      assert good(xs[0]);
      assert ReadsExactly(read, write, good, write(xs[0]) + rest, xs[0], rest);
      ListAccepted(read, write, good, xs[1..]);
      assert [xs[0]] + xs[1..] == xs && |write(xs[0])| > 0;
    }
  }

  /** A list inside a SEQUENCE is read exactly when it is written element by element. */
  lemma SequenceIff<T(!new)>(read: Bytes -> Option<(T, Bytes)>, write: T -> Bytes, good: T -> bool, s: Bytes,
                             xs: seq<T>, rest: Bytes)
    requires Exactly(read, write, good) && forall x :: good(x) ==> |write(x)| > 0
    ensures ReadSequenceOf(read, s) == Some((xs, rest)) <==>
            Fits(WriteAll(write, xs)) && AllGood(good, xs) && s == Element(0x30, WriteAll(write, xs)) + rest
  {
    if ReadSequenceOf(read, s) == Some((xs, rest)) {
      var content := ReadTagged(s, SEQUENCE).value.0;
      TaggedIff(s, SEQUENCE, content, rest);
      ListShape(read, write, good, content, xs);
    }
    if Fits(WriteAll(write, xs)) && AllGood(good, xs) && s == Element(0x30, WriteAll(write, xs)) + rest {
      ListAccepted(read, write, good, xs);
      TaggedIff(s, SEQUENCE, WriteAll(write, xs), rest);
    }
  }

  lemma AnyExactly()
    ensures Exactly(ReadAny, WriteRaw, IsElement) && forall x :: IsElement(x) ==> |WriteRaw(x)| > 0
  {
    forall s, x, rest ensures ReadsExactly(ReadAny, WriteRaw, IsElement, s, x, rest) {
      AnyIff(s, x, rest);
    }
  }

  // ---------------------------------------------------------------------------
  // Messages
  // ---------------------------------------------------------------------------

  /** The protection field: absent, or the bits after a count that is not looked at. What
      follows the BIT STRING in the field is ignored. */
  ghost predicate IsProtection(s: Bytes, protection: Bytes, unused: byte, junk: Bytes) {
    var content := Element(0x03, [unused] + protection) + junk;
    Fits(content) && s == Element(0xa0, content)
  }

  ghost predicate ProtectionField(s: Bytes, protection: Bytes) {
    (s == [] && protection == []) || exists unused: byte, junk: Bytes :: IsProtection(s, protection, unused, junk)
  }

  /** The certificates, likewise. */
  ghost predicate IsCertificates(s: Bytes, certs: seq<Bytes>, junk: Bytes) {
    var content := Element(0x30, WriteAll(WriteRaw, certs)) + junk;
    Fits(content) && AllGood(IsElement, certs) && s == Element(0xa1, content)
  }

  ghost predicate CertificatesField(s: Bytes, certs: seq<Bytes>) {
    (s == [] && certs == []) || exists junk: Bytes :: IsCertificates(s, certs, junk)
  }

  ghost predicate IsMessage(der: Bytes, p: Parsed, protection: Bytes, certs: Bytes) {
    var content := p.rawHeader + (p.rawBody + (protection + certs));
    && Fits(content) && der == Element(0x30, content)
    && IsElement(p.rawHeader) && ReadHeader(p.rawHeader).Some? && ReadHeader(p.rawHeader).value.0 == p.header
    && IsElement(p.rawBody) && p.rawBody[0] >= 0x80
    && ProtectionField(protection, p.protection) && CertificatesField(certs, p.extraCerts)
  }

  lemma ProtectionShape(s: Bytes)
    requires ReadProtection(s).Some?
    ensures var (protection, rest) := ReadProtection(s).value;
            |rest| <= |s| && s == s[..|s| - |rest|] + rest && ProtectionField(s[..|s| - |rest|], protection)
            && (!Peek(s, 0xa0) ==> rest == s)
  {
    var (protection, rest) := ReadProtection(s).value;
    if Peek(s, Context(0)) {
      var content := ReadTagged(s, Context(0)).value.0;
      TaggedIff(s, Context(0), content, rest);
      var (bits, junk) := ReadTagged(content, BIT_STRING).value;
      TaggedIff(content, BIT_STRING, bits, junk);
      assert bits == [bits[0]] + protection;
      assert s[..|s| - |rest|] == Element(0xa0, content);
      assert IsProtection(s[..|s| - |rest|], protection, bits[0], junk);
    } else {
      assert s[..0] == [];
    }
  }

  lemma ProtectionAccepted(field: Bytes, protection: Bytes, rest: Bytes)
    requires ProtectionField(field, protection) && !Peek(rest, 0xa0)
    ensures ReadProtection(field + rest) == Some((protection, rest))
  {
    if field == [] {
      assert field + rest == rest;
    } else {
      var unused: byte, junk: Bytes :| IsProtection(field, protection, unused, junk);
      var content := Element(0x03, [unused] + protection) + junk;
      TaggedIff(field + rest, 0xa0, content, rest);
      TaggedIff(content, 0x03, [unused] + protection, junk);
      assert ([unused] + protection)[1..] == protection;
    }
  }

  lemma CertificatesShape(s: Bytes, certs: seq<Bytes>)
    requires ReadExtraCerts(s) == Some((certs, []))
    ensures CertificatesField(s, certs)
  {
    if s != [] {
      var content := ReadTagged(s, 0xa1).value.0;
      TaggedIff(s, 0xa1, content, []);
      NothingBehind(0xa1, content);
      var junk := ReadSequenceOf(ReadAny, content).value.1;
      AnyExactly();
      SequenceIff(ReadAny, WriteRaw, IsElement, content, certs, junk);
      assert IsCertificates(s, certs, junk);
    }
  }

  lemma CertificatesAccepted(s: Bytes, certs: seq<Bytes>, junk: Bytes)
    requires IsCertificates(s, certs, junk)
    ensures ReadExtraCerts(s) == Some((certs, []))
  {
    var list := Element(0x30, WriteAll(WriteRaw, certs)) + junk;
    AnyExactly();
    SequenceIff(ReadAny, WriteRaw, IsElement, list, certs, junk);
    NothingBehind(0xa1, list);
    WrappedRoundTrips(0xa1, list, ReadCaPubsContent, certs, []);
  }

  /** The certificates field is the rest of the message. */
  lemma CertificatesIff(s: Bytes, certs: seq<Bytes>)
    ensures ReadExtraCerts(s) == Some((certs, [])) <==> CertificatesField(s, certs)
  {
    if ReadExtraCerts(s) == Some((certs, [])) {
      CertificatesShape(s, certs);
    }
    if s != [] && CertificatesField(s, certs) {
      var junk: Bytes :| IsCertificates(s, certs, junk);
      CertificatesAccepted(s, certs, junk);
    }
  }

  lemma TrailerAccepted(protectionField: Bytes, certsField: Bytes, protection: Bytes, certs: seq<Bytes>)
    requires ProtectionField(protectionField, protection) && CertificatesField(certsField, certs)
    ensures ReadTrailer(protectionField + certsField) == Some((protection, certs))
  {
    CertificatesIff(certsField, certs);
    ProtectionAccepted(protectionField, protection, certsField);
  }

  lemma TrailerShape(s: Bytes, p: Parsed) returns (protection: Bytes, certs: Bytes)
    requires ReadTrailer(s) == Some((p.protection, p.extraCerts))
    ensures s == protection + certs
    ensures ProtectionField(protection, p.protection) && CertificatesField(certs, p.extraCerts)
  {
    ProtectionShape(s);
    certs := ReadProtection(s).value.1;
    protection := s[..|s| - |certs|];
    CertificatesIff(certs, p.extraCerts);
  }

  lemma MessageContentShape(content: Bytes, p: Parsed) returns (protection: Bytes, certs: Bytes)
    requires ReadMessageContent(content) == Some(p)
    ensures content == p.rawHeader + (p.rawBody + (protection + certs))
    ensures IsElement(p.rawHeader) && ReadHeader(p.rawHeader).Some? && ReadHeader(p.rawHeader).value.0 == p.header
    ensures IsElement(p.rawBody) && p.rawBody[0] >= 0x80
    ensures ProtectionField(protection, p.protection) && CertificatesField(certs, p.extraCerts)
  {
    var afterHeader := ReadAny(content).value.1;
    AnyIff(content, p.rawHeader, afterHeader);
    var trailer := ReadAny(afterHeader).value.1;
    AnyIff(afterHeader, p.rawBody, trailer);
    protection, certs := TrailerShape(trailer, p);
  }

  lemma MessageUnwraps(der: Bytes, p: Parsed) returns (content: Bytes)
    requires ReadMessage(der) == Some(p)
    ensures Fits(content) && der == Element(0x30, content) && ReadMessageContent(content) == Some(p)
  {
    content := ReadTagged(der, SEQUENCE).value.0;
    TaggedIff(der, SEQUENCE, content, []);
    NothingBehind(0x30, content);
  }

  lemma MessageContentAccepted(p: Parsed, protection: Bytes, certs: Bytes)
    requires IsElement(p.rawHeader) && ReadHeader(p.rawHeader).Some? && ReadHeader(p.rawHeader).value.0 == p.header
    requires IsElement(p.rawBody) && p.rawBody[0] >= 0x80
    requires ProtectionField(protection, p.protection) && CertificatesField(certs, p.extraCerts)
    ensures ReadMessageContent(p.rawHeader + (p.rawBody + (protection + certs))) == Some(p)
  {
    var trailer := protection + certs;
    AnyIff(p.rawHeader + (p.rawBody + trailer), p.rawHeader, p.rawBody + trailer);
    AnyIff(p.rawBody + trailer, p.rawBody, trailer);
    TrailerAccepted(protection, certs, p.protection, p.extraCerts);
  }

  lemma MessageShape(der: Bytes, p: Parsed) returns (protection: Bytes, certs: Bytes)
    requires ReadMessage(der) == Some(p)
    ensures IsMessage(der, p, protection, certs)
  {
    var content := MessageUnwraps(der, p);
    protection, certs := MessageContentShape(content, p);
  }

  lemma MessageAccepted(der: Bytes, p: Parsed, protection: Bytes, certs: Bytes)
    requires IsMessage(der, p, protection, certs)
    ensures ReadMessage(der) == Some(p)
  {
    var content := p.rawHeader + (p.rawBody + (protection + certs));
    MessageContentAccepted(p, protection, certs);
    MessageWraps(content, p);
  }

  /** UnmarshalBinary accepts bytes as this message exactly when they are one SEQUENCE of
      header, body, protection and certificates, with nothing behind them. */
  lemma MessageIff(der: Bytes, p: Parsed)
    ensures ReadMessage(der) == Some(p) <==> exists protection, certs :: IsMessage(der, p, protection, certs)
  {
    if ReadMessage(der) == Some(p) {
      var protection, certs := MessageShape(der, p);
    }
    if exists protection, certs :: IsMessage(der, p, protection, certs) {
      var protection, certs :| IsMessage(der, p, protection, certs);
      MessageAccepted(der, p, protection, certs);
    }
  }

  // ---------------------------------------------------------------------------
  // Certificate templates
  // ---------------------------------------------------------------------------

  /** A field of a template, of whatever kind. */
  datatype Field = Field(tag: byte, content: Bytes)

  function WriteField(f: Field): Bytes {
    Element(f.tag, f.content)
  }

  /** serialNumber is a minimal integer, issuer one SEQUENCE, and subject starts with an
      element. Other fields are not looked into. */
  predicate GoodField(f: Field) {
    && LowTag(f.tag) && Fits(f.content)
    && (f.tag == 0x81 ==> Minimal(f.content))
    && (f.tag == 0xa3 ==> IsElement(f.content) && f.content[0] == 0x30)
    && (f.tag == 0xa5 ==> ReadElement(f.content).Some?)
  }

  /** The content of the last field of this tag. */
  function Last(fs: seq<Field>, tag: byte): Option<Bytes> {
    if fs == [] then None
    else if Last(fs[1..], tag).Some? then Last(fs[1..], tag)
    else if fs[0].tag == tag then Some(fs[0].content) else None
  }

  /** A template changed by these fields, the last of a kind deciding. */
  ghost predicate ChangedBy(t: CertTemplate, fs: seq<Field>, u: CertTemplate) {
    && (if Last(fs, 0x81).None? then u.serial == t.serial
        else |Last(fs, 0x81).value| > 0 && u.serial == Some(IntegerValue(Last(fs, 0x81).value)))
    && u.issuer == (if Last(fs, 0xa3).None? then t.issuer else Last(fs, 0xa3).value)
    && (if Last(fs, 0xa5).None? then u.subject == t.subject
        else ReadAny(Last(fs, 0xa5).value).Some? && u.subject == ReadAny(Last(fs, 0xa5).value).value.0)
    && u.publicKey == (if Last(fs, 0xa6).None? then t.publicKey else Element(0x30, Last(fs, 0xa6).value))
    && u.extensions == (if Last(fs, 0xa9).None? then t.extensions else Element(0x30, Last(fs, 0xa9).value))
  }

  lemma SequenceContent(s: Bytes)
    ensures (ReadTagged(s, 0x30).Some? && ReadTagged(s, 0x30).value.1 == []) <==> IsElement(s) && s[0] == 0x30
    ensures ReadElement(s).Some? <==> ReadAny(s).Some?
  {
    if ReadElement(s).Some? {
      ElementOfRead(s);
    }
  }

  /** One field is accepted exactly when it is good, and then changes what it names. */
  lemma FieldRule(t: CertTemplate, f: Field)
    requires LowTag(f.tag) && Fits(f.content)
    ensures ReadField(t, f.tag, f.content).Some? <==> GoodField(f)
    ensures GoodField(f) ==> ChangedBy(t, [f], ReadField(t, f.tag, f.content).value)
  {
    SequenceContent(f.content);
    assert [f][1..] == [];
  }

  lemma LastOf(f: Field, fs: seq<Field>, tag: byte)
    ensures Last([f] + fs, tag) == if Last(fs, tag).Some? then Last(fs, tag) else Last([f], tag)
  {
    assert [f][1..] == [] && ([f] + fs)[1..] == fs;
  }

  lemma ChangesCompose(t: CertTemplate, f: Field, fs: seq<Field>, t': CertTemplate, u: CertTemplate)
    requires ChangedBy(t, [f], t') && ChangedBy(t', fs, u)
    ensures ChangedBy(t, [f] + fs, u)
  {
    LastOf(f, fs, 0x81);
    LastOf(f, fs, 0xa3);
    LastOf(f, fs, 0xa5);
    LastOf(f, fs, 0xa6);
    LastOf(f, fs, 0xa9);
  }

  ghost predicate AllGoodFields(fs: seq<Field>) {
    forall i :: 0 <= i < |fs| ==> GoodField(fs[i])
  }

  lemma {:induction false} FieldsShape(t: CertTemplate, s: Bytes, u: CertTemplate) returns (fs: seq<Field>)
    requires ReadFields(t, s) == Some(u)
    ensures s == WriteAll(WriteField, fs) && AllGoodFields(fs) && ChangedBy(t, fs, u)
    decreases |s|
  {
    if s == [] {
      fs := [];
    } else {
      ElementOfRead(s);
      var r := ReadElement(s).value;
      var f := Field(r.tag, r.content);
      FieldRule(t, f);
      var t' := ReadField(t, r.tag, r.content).value;
      var later := FieldsShape(t', r.rest, u);
      ChangesCompose(t, f, later, t', u);
      fs := [f] + later;
      assert fs[1..] == later;
    }
  }

  lemma ReadFieldsStep(t: CertTemplate, f: Field, rest: Bytes)
    requires GoodField(f)
    ensures ReadField(t, f.tag, f.content).Some?
    ensures ReadFields(t, WriteField(f) + rest) == ReadFields(ReadField(t, f.tag, f.content).value, rest)
  {
    ReadElementOf(f.tag, f.content, rest);
    FieldRule(t, f);
  }

  lemma {:induction false} FieldsAccepted(t: CertTemplate, fs: seq<Field>) returns (u: CertTemplate)
    requires AllGoodFields(fs)
    ensures ReadFields(t, WriteAll(WriteField, fs)) == Some(u) && ChangedBy(t, fs, u)
    decreases |fs|
  {
    if fs == [] {
      u := t;
    } else {
      var f, later := fs[0], fs[1..];
      FieldRule(t, f);
      ReadFieldsStep(t, f, WriteAll(WriteField, later));
      var t' := ReadField(t, f.tag, f.content).value;
      u := FieldsAccepted(t', later);
      ChangesCompose(t, f, later, t', u);
      assert [f] + later == fs;
    }
  }

  lemma ChangesDetermine(t: CertTemplate, fs: seq<Field>, u: CertTemplate, v: CertTemplate)
    requires ChangedBy(t, fs, u) && ChangedBy(t, fs, v)
    ensures u == v
  {
  }

  ghost predicate IsTemplate(s: Bytes, fs: seq<Field>, t: CertTemplate) {
    s == WriteAll(WriteField, fs) && AllGoodFields(fs) && ChangedBy(CertTemplate(None, [], [], [], []), fs, t)
  }

  /** The content of a template is accepted exactly when it is a list of good fields, in
      any order and with any others among them, and the last of each kind counts. */
  lemma TemplateIff(s: Bytes, t: CertTemplate)
    ensures ReadFields(NO_TEMPLATE, s) == Some(t) <==> exists fs :: IsTemplate(s, fs, t)
  {
    if ReadFields(NO_TEMPLATE, s) == Some(t) {
      var fs := FieldsShape(NO_TEMPLATE, s, t);
      assert IsTemplate(s, fs, t);
    }
    if exists fs :: IsTemplate(s, fs, t) {
      var fs :| IsTemplate(s, fs, t);
      var u := FieldsAccepted(NO_TEMPLATE, fs);
      ChangesDetermine(NO_TEMPLATE, fs, t, u);
    }
  }

  // ---------------------------------------------------------------------------
  // Certificate requests
  // ---------------------------------------------------------------------------

  predicate GoodControl(a: Attribute) {
    IsElement(a.value) && Fits(WriteAttributeContent(a))
  }

  lemma ControlIff(s: Bytes, a: Attribute, rest: Bytes)
    ensures ReadAttribute(s) == Some((a, rest)) <==>
            GoodControl(a) && s == Element(0x30, Element(0x06, a.kind) + a.value) + rest
  {
    var content := Element(0x06, a.kind) + a.value;
    if ReadAttribute(s) == Some((a, rest)) {
      var inner := ReadTagged(s, SEQUENCE).value.0;
      TaggedIff(s, SEQUENCE, inner, rest);
      TaggedIff(inner, OBJECT_IDENTIFIER, a.kind, a.value);
    }
    if GoodControl(a) && s == Element(0x30, content) + rest {
      TaggedIff(s, SEQUENCE, content, rest);
      TaggedIff(content, OBJECT_IDENTIFIER, a.kind, a.value);
    }
  }

  /** Controls end the request. They are absent, or a list that is not empty. */
  ghost predicate IsControls(s: Bytes, cs: seq<Attribute>) {
    && AllGood(GoodControl, cs) && Fits(WriteAll(WriteAttribute, cs))
    && s == if cs == [] then [] else Element(0x30, WriteAll(WriteAttribute, cs))
  }

  lemma ControlReads(s: Bytes, a: Attribute, rest: Bytes)
    ensures ReadsExactly(ReadAttribute, WriteAttribute, GoodControl, s, a, rest)
  {
    ControlIff(s, a, rest);
  }

  lemma ControlExactly()
    ensures Exactly(ReadAttribute, WriteAttribute, GoodControl)
    ensures forall a :: GoodControl(a) ==> |WriteAttribute(a)| > 0
  {
    forall s, a, rest ensures ReadsExactly(ReadAttribute, WriteAttribute, GoodControl, s, a, rest) {
      ControlReads(s, a, rest);
    }
  }

  lemma ControlsIff(s: Bytes, cs: seq<Attribute>)
    ensures ReadControls(s) == Some(cs) <==> IsControls(s, cs)
  {
    if s == [] {
      assert cs == [] ==> IsControls(s, cs);
    } else {
      ControlExactly();
      SequenceIff(ReadAttribute, WriteAttribute, GoodControl, s, cs, []);
      NothingBehind(0x30, WriteAll(WriteAttribute, cs));
    }
  }

  /** The bytes of a request: number, template and controls in one SEQUENCE. */
  ghost predicate IsRequest(raw: Bytes, r: CertRequest, fields: Bytes, controls: Bytes) {
    var content := Element(0x02, IntegerBytes(r.certReqID)) + (Element(0x30, fields) + controls);
    && Fits(content) && raw == Element(0x30, content)
    && FitsInt64(r.certReqID) && (exists fs :: IsTemplate(fields, fs, r.template)) && IsControls(controls, r.controls)
  }

  ghost predicate RequestBytes(raw: Bytes, r: CertRequest) {
    exists fields, controls :: IsRequest(raw, r, fields, controls)
  }

  lemma RequestContentShape(s: Bytes, r: CertRequest)
    requires Fits(s) && ReadRequestContent(s) == Some(r)
    ensures RequestBytes(Element(0x30, s), r)
  {
    var afterId := ReadInt64(s).value.1;
    Int64Iff(s, r.certReqID, afterId);
    var (fields, controls) := ReadTagged(afterId, SEQUENCE).value;
    TaggedIff(afterId, SEQUENCE, fields, controls);
    TemplateIff(fields, r.template);
    ControlsIff(controls, r.controls);
    assert IsRequest(Element(0x30, s), r, fields, controls);
  }

  lemma TemplateWrapped(t: CertTemplate, fields: Bytes, rest: Bytes)
    requires Fits(fields) && ReadTemplateContent(fields) == Some(t)
    ensures ReadTemplate(Element(0x30, fields) + rest) == Some((t, rest))
  {
    WrappedRoundTrips(SEQUENCE, fields, ReadTemplateContent, t, rest);
  }

  lemma RequestContentAccepted(r: CertRequest, fields: Bytes, controls: Bytes)
    requires FitsInt64(r.certReqID) && Fits(fields) && IsControls(controls, r.controls)
    requires exists fs :: IsTemplate(fields, fs, r.template)
    ensures ReadRequestContent(Element(0x02, IntegerBytes(r.certReqID)) + (Element(0x30, fields) + controls)) == Some(r)
  {
    TemplateIff(fields, r.template);
    TemplateWrapped(r.template, fields, controls);
    ControlsIff(controls, r.controls);
    RequestParts(r.certReqID, Element(0x30, fields), r.template, controls, r.controls);
  }

  lemma RequestShape(s: Bytes, r: CertRequest, raw: Bytes, rest: Bytes)
    requires ReadRequest(s) == Some((ParsedRequest(r, raw), rest))
    ensures s == raw + rest && RequestBytes(raw, r)
  {
    AnyIff(s, raw, rest);
    var (content, none) := ReadTagged(raw, SEQUENCE).value;
    TaggedIff(raw, SEQUENCE, content, none);
    OneElement(raw, content, none);
    RequestContentShape(content, r);
  }

  lemma RequestWrapped(content: Bytes, r: CertRequest, rest: Bytes)
    requires Fits(content) && ReadRequestContent(content) == Some(r)
    ensures ReadRequest(Element(0x30, content) + rest) == Some((ParsedRequest(r, Element(0x30, content)), rest))
  {
    var raw := Element(0x30, content);
    ElementIsElement(0x30, content);
    AnyIff(raw + rest, raw, rest);
    NothingBehind(0x30, content);
    TaggedIff(raw, SEQUENCE, content, []);
  }

  lemma RequestAccepted(r: CertRequest, raw: Bytes, rest: Bytes)
    requires RequestBytes(raw, r)
    ensures ReadRequest(raw + rest) == Some((ParsedRequest(r, raw), rest))
  {
    var fields, controls :| IsRequest(raw, r, fields, controls);
    RequestContentAccepted(r, fields, controls);
    RequestWrapped(Element(0x02, IntegerBytes(r.certReqID)) + (Element(0x30, fields) + controls), r, rest);
  }

  /** A request is accepted exactly in this form, and the bytes kept of it are all of its
      bytes. */
  lemma RequestIff(s: Bytes, r: CertRequest, raw: Bytes, rest: Bytes)
    ensures ReadRequest(s) == Some((ParsedRequest(r, raw), rest)) <==> s == raw + rest && RequestBytes(raw, r)
  {
    if ReadRequest(s) == Some((ParsedRequest(r, raw), rest)) {
      RequestShape(s, r, raw, rest);
    }
    if s == raw + rest && RequestBytes(raw, r) {
      RequestAccepted(r, raw, rest);
    }
  }

  lemma OneElement(e: Bytes, content: Bytes, rest: Bytes)
    requires IsElement(e) && ReadTagged(e, 0x30) == Some((content, rest))
    ensures rest == [] && e == Element(0x30, content)
  {
    TaggedIff(e, 0x30, content, rest);
    assert Element(0x30, content) + [] == Element(0x30, content);
  }

  // ---------------------------------------------------------------------------
  // Proof of possession
  // ---------------------------------------------------------------------------

  /** What proves possession of a key that cannot sign: a number, or the enveloped proof. */
  ghost predicate IsKeyProof(s: Bytes, k: KeyProof, content: Bytes, junk: Bytes) {
    && Fits(content)
    && match k
       case Subsequent(n) =>
         s == Element(0x81, content) + junk && FitsInt64(n) && content == IntegerBytes(n)
       case EncryptedProof(der) => s == Element(0xa4, content) + junk && der == Element(0x30, content)
  }

  ghost predicate KeyProofBytes(s: Bytes, k: KeyProof) {
    exists content, junk :: IsKeyProof(s, k, content, junk)
  }

  /** Behind the proof and behind the element inside it bytes are ignored. */
  ghost predicate IsProof(s: Bytes, p: Proof, content: Bytes, junk: Bytes) {
    && Fits(content)
    && match p
       case RaVerified => s == Element(0x80, content) + junk
       case Signed(c) => s == Element(0xa1, content) + junk && c == content
       case ByKey(agreement, k) =>
         s == Element(if agreement then 0xa3 else 0xa2, content) + junk && KeyProofBytes(content, k)
  }

  ghost predicate ProofBytes(s: Bytes, p: Proof) {
    exists content, junk :: IsProof(s, p, content, junk)
  }

  lemma ElementIff(s: Bytes, tag: byte, content: Bytes, rest: Bytes)
    ensures ReadElement(s) == Some(Read(tag, content, rest)) <==>
            LowTag(tag) && Fits(content) && s == Element(tag, content) + rest
  {
    TaggedIff(s, tag, content, rest);
  }

  lemma KeyProofIff(s: Bytes, k: KeyProof)
    ensures ReadKeyProof(s) == Some(k) <==> KeyProofBytes(s, k)
  {
    if ReadKeyProof(s) == Some(k) {
      var r := ReadElement(s).value;
      ElementIff(s, r.tag, r.content, r.rest);
      if k.Subsequent? {
        OctetsOfValue(r.content);
        Int64Size(k.message);
      }
      assert IsKeyProof(s, k, r.content, r.rest);
    }
    if KeyProofBytes(s, k) {
      var content, junk :| IsKeyProof(s, k, content, junk);
      if k.Subsequent? {
        ElementIff(s, 0x81, content, junk);
        IntegerRoundTrip(k.message);
        Int64Size(k.message);
      } else {
        ElementIff(s, 0xa4, content, junk);
      }
    }
  }

  lemma ProofShape(s: Bytes, p: Proof)
    requires ReadProof(s) == Some(p)
    ensures ProofBytes(s, p)
  {
    var r := ReadElement(s).value;
    ElementIff(s, r.tag, r.content, r.rest);
    if p.ByKey? {
      KeyProofIff(r.content, p.proof);
    }
    assert IsProof(s, p, r.content, r.rest);
  }

  lemma ProofAccepted(s: Bytes, p: Proof, content: Bytes, junk: Bytes)
    requires IsProof(s, p, content, junk)
    ensures ReadProof(s) == Some(p)
  {
    match p
    case RaVerified => ElementIff(s, 0x80, content, junk);
    case Signed(_) => ElementIff(s, 0xa1, content, junk);
    case ByKey(agreement, k) =>
      ElementIff(s, if agreement then 0xa3 else 0xa2, content, junk);
      KeyProofIff(content, k);
  }

  /** Which bytes are accepted as which proof. */
  lemma ProofIff(s: Bytes, p: Proof)
    ensures ReadProof(s) == Some(p) <==> ProofBytes(s, p)
  {
    if ReadProof(s) == Some(p) {
      ProofShape(s, p);
    }
    if ProofBytes(s, p) {
      var content, junk :| IsProof(s, p, content, junk);
      ProofAccepted(s, p, content, junk);
    }
  }

  /** A request message: the request, then nothing, regInfo that is not looked at, or a
      proof. */
  ghost predicate IsRequestMessage(s: Bytes, m: ParsedMsg, after: Bytes, rest: Bytes) {
    var content := m.request.raw + after;
    && Fits(content) && s == Element(0x30, content) + rest
    && RequestBytes(m.request.raw, m.request.request)
    && (if after == [] || after[0] == 0x30 then m.proof.None?
        else m.proof.Some? && ProofBytes(after, m.proof.value))
  }

  lemma OptionalProofIff(s: Bytes, p: Option<Proof>)
    ensures ReadOptionalProof(s) == Some(p) <==>
            if s == [] || s[0] == 0x30 then p.None?
            else p.Some? && ProofBytes(s, p.value)
  {
    if p.Some? {
      ProofIff(s, p.value);
    }
  }

  lemma MsgContentIff(content: Bytes, m: ParsedMsg, after: Bytes)
    ensures ReadRequest(content) == Some((m.request, after)) && ReadOptionalProof(after) == Some(m.proof) <==>
            && content == m.request.raw + after
            && RequestBytes(m.request.raw, m.request.request)
            && (if after == [] || after[0] == 0x30 then m.proof.None?
                else m.proof.Some? && ProofBytes(after, m.proof.value))
  {
    RequestIff(content, m.request.request, m.request.raw, after);
    OptionalProofIff(after, m.proof);
  }

  /** A request message is accepted exactly in this form. What its proof is checked
      against are the bytes that arrived, whoever encoded them. */
  lemma RequestMessageIff(s: Bytes, m: ParsedMsg, rest: Bytes)
    ensures ReadMsg(s) == Some((m, rest)) <==> exists after :: IsRequestMessage(s, m, after, rest)
    ensures CheckedBytes(m) == m.request.raw
  {
    if ReadMsg(s) == Some((m, rest)) {
      var content := ReadTagged(s, SEQUENCE).value.0;
      TaggedIff(s, SEQUENCE, content, rest);
      var after := ReadRequest(content).value.1;
      MsgContentIff(content, m, after);
      assert IsRequestMessage(s, m, after, rest);
    }
    if exists after :: IsRequestMessage(s, m, after, rest) {
      var after :| IsRequestMessage(s, m, after, rest);
      var content := m.request.raw + after;
      TaggedIff(s, SEQUENCE, content, rest);
      MsgContentIff(content, m, after);
    }
  }

  // ---------------------------------------------------------------------------
  // MAC parameters
  // ---------------------------------------------------------------------------

  /** The bytes of an AlgorithmIdentifier as cryptobyte reads it: parameters are one
      element, behind which bytes are ignored, or else all that is left. */
  ghost predicate IsAlgorithm(s: Bytes, a: AlgorithmIdentifier, junk: Bytes) {
    var content := Element(0x06, a.algorithm) + (a.parameters + junk);
    && Fits(content) && s == Element(0x30, content)
    && (IsElement(a.parameters) || (junk == [] && ReadElement(a.parameters).None?))
  }

  ghost predicate AlgorithmBytes(s: Bytes, a: AlgorithmIdentifier) {
    exists junk :: IsAlgorithm(s, a, junk)
  }

  lemma AlgorithmShape(s: Bytes, a: AlgorithmIdentifier, rest: Bytes) returns (bytes: Bytes)
    requires ReadAlgorithm(s) == Some((a, rest))
    ensures s == bytes + rest && AlgorithmBytes(bytes, a)
  {
    var content := ReadTagged(s, SEQUENCE).value.0;
    TaggedIff(s, SEQUENCE, content, rest);
    bytes := Element(0x30, content);
    var tail := ReadTagged(content, OBJECT_IDENTIFIER).value.1;
    TaggedIff(content, OBJECT_IDENTIFIER, a.algorithm, tail);
    if ReadAny(tail).Some? {
      var junk := ReadAny(tail).value.1;
      AnyIff(tail, a.parameters, junk);
      assert IsAlgorithm(bytes, a, junk);
    } else {
      SequenceContent(tail);
      assert a.parameters + [] == tail;
      assert IsAlgorithm(bytes, a, []);
    }
  }

  lemma InnerAccepted(a: AlgorithmIdentifier, junk: Bytes)
    requires Fits(Element(0x06, a.algorithm) + (a.parameters + junk))
    requires IsElement(a.parameters) || (junk == [] && ReadElement(a.parameters).None?)
    ensures ReadAlgorithmInner(Element(0x06, a.algorithm) + (a.parameters + junk)).Some?
    ensures ReadAlgorithmInner(Element(0x06, a.algorithm) + (a.parameters + junk)).value.0 == a
  {
    var tail := a.parameters + junk;
    TaggedIff(Element(0x06, a.algorithm) + tail, OBJECT_IDENTIFIER, a.algorithm, tail);
    if IsElement(a.parameters) {
      AnyIff(tail, a.parameters, junk);
    } else {
      assert tail == a.parameters;
      SequenceContent(tail);
    }
  }

  lemma AlgorithmWrapped(content: Bytes, a: AlgorithmIdentifier, rest: Bytes)
    requires Fits(content) && ReadAlgorithmInner(content).Some? && ReadAlgorithmInner(content).value.0 == a
    ensures ReadAlgorithm(Element(0x30, content) + rest) == Some((a, rest))
  {
    TaggedIff(Element(0x30, content) + rest, SEQUENCE, content, rest);
  }

  lemma AlgorithmAccepted(bytes: Bytes, a: AlgorithmIdentifier, rest: Bytes)
    requires AlgorithmBytes(bytes, a)
    ensures ReadAlgorithm(bytes + rest) == Some((a, rest))
  {
    var junk :| IsAlgorithm(bytes, a, junk);
    InnerAccepted(a, junk);
    AlgorithmWrapped(Element(0x06, a.algorithm) + (a.parameters + junk), a, rest);
  }

  /** PBMParameter: salt, one-way function, 1 to 500000 iterations and MAC, behind which
      bytes are ignored. */
  ghost predicate IsPbm(s: Bytes, p: ProtectionAlg, owf: Bytes, mac: Bytes, junk: Bytes) {
    && p.PasswordBasedMac? && Fits(p.salt) && 1 <= p.iterations <= 500000
    && AlgorithmBytes(owf, AlgorithmIdentifier(p.owf, p.owfParams))
    && AlgorithmBytes(mac, AlgorithmIdentifier(p.mac, p.macParams))
    && s == Element(0x04, p.salt) + (owf + (Element(0x02, IntegerBytes(p.iterations)) + (mac + junk)))
  }

  lemma PbmShape(s: Bytes, p: ProtectionAlg) returns (owf: Bytes, mac: Bytes, junk: Bytes)
    requires ReadPbmContent(s) == Some(p)
    ensures IsPbm(s, p, owf, mac, junk)
  {
    var s1 := ReadTagged(s, OCTET_STRING).value.1;
    TaggedIff(s, OCTET_STRING, p.salt, s1);
    var s2 := ReadAlgorithm(s1).value.1;
    owf := AlgorithmShape(s1, AlgorithmIdentifier(p.owf, p.owfParams), s2);
    var s3 := ReadInt64(s2).value.1;
    Int64Iff(s2, p.iterations, s3);
    junk := ReadAlgorithm(s3).value.1;
    mac := AlgorithmShape(s3, AlgorithmIdentifier(p.mac, p.macParams), junk);
  }

  lemma PbmFollows(p: ProtectionAlg, s: Bytes, s1: Bytes, s2: Bytes, s3: Bytes, junk: Bytes)
    requires p.PasswordBasedMac? && 1 <= p.iterations <= 500000 && ReadTagged(s, OCTET_STRING) == Some((p.salt, s1))
    requires ReadAlgorithm(s1) == Some((AlgorithmIdentifier(p.owf, p.owfParams), s2))
    requires ReadInt64(s2) == Some((p.iterations, s3))
    requires ReadAlgorithm(s3) == Some((AlgorithmIdentifier(p.mac, p.macParams), junk))
    ensures ReadPbmContent(s) == Some(p)
  {
  }

  lemma PbmStarts(p: ProtectionAlg, s1: Bytes, s2: Bytes, s3: Bytes, junk: Bytes)
    requires p.PasswordBasedMac? && Fits(p.salt) && 1 <= p.iterations <= 500000
    requires ReadAlgorithm(s1) == Some((AlgorithmIdentifier(p.owf, p.owfParams), s2))
    requires ReadInt64(s2) == Some((p.iterations, s3))
    requires ReadAlgorithm(s3) == Some((AlgorithmIdentifier(p.mac, p.macParams), junk))
    ensures ReadPbmContent(Element(0x04, p.salt) + s1) == Some(p)
  {
    ReadTaggedOf(OCTET_STRING, p.salt, s1);
    PbmFollows(p, Element(0x04, p.salt) + s1, s1, s2, s3, junk);
  }

  lemma PbmAccepted(s: Bytes, p: ProtectionAlg, owf: Bytes, mac: Bytes, junk: Bytes)
    requires IsPbm(s, p, owf, mac, junk)
    ensures ReadPbmContent(s) == Some(p)
  {
    var s3 := mac + junk;
    var s2 := Element(0x02, IntegerBytes(p.iterations)) + s3;
    AlgorithmAccepted(owf, AlgorithmIdentifier(p.owf, p.owfParams), s2);
    Int64Iff(s2, p.iterations, s3);
    AlgorithmAccepted(mac, AlgorithmIdentifier(p.mac, p.macParams), junk);
    PbmStarts(p, owf + s2, s2, s3, junk);
  }

  /** Which bytes are accepted as the content of which PBMParameter. */
  lemma PbmIff(s: Bytes, p: ProtectionAlg)
    ensures ReadPbmContent(s) == Some(p) <==> exists owf, mac, junk :: IsPbm(s, p, owf, mac, junk)
  {
    if ReadPbmContent(s) == Some(p) {
      var owf, mac, junk := PbmShape(s, p);
    }
    if exists owf, mac, junk :: IsPbm(s, p, owf, mac, junk) {
      var owf, mac, junk :| IsPbm(s, p, owf, mac, junk);
      PbmAccepted(s, p, owf, mac, junk);
    }
  }

  /** The bytes of an AlgorithmIdentifier as encoding/asn1 reads it: parameters are one
      element or absent. */
  ghost predicate IsStrict(s: Bytes, a: AlgorithmIdentifier, junk: Bytes) {
    var content := Element(0x06, a.algorithm) + (a.parameters + junk);
    && Fits(content) && s == Element(0x30, content)
    && (IsElement(a.parameters) || (junk == [] && a.parameters == []))
  }

  ghost predicate StrictBytes(s: Bytes, a: AlgorithmIdentifier) {
    exists junk :: IsStrict(s, a, junk)
  }

  lemma StrictShape(s: Bytes, a: AlgorithmIdentifier, rest: Bytes) returns (bytes: Bytes)
    requires ReadStrict(s) == Some((a, rest))
    ensures s == bytes + rest && StrictBytes(bytes, a)
  {
    var content := ReadTagged(s, SEQUENCE).value.0;
    TaggedIff(s, SEQUENCE, content, rest);
    bytes := Element(0x30, content);
    var tail := ReadTagged(content, OBJECT_IDENTIFIER).value.1;
    TaggedIff(content, OBJECT_IDENTIFIER, a.algorithm, tail);
    if tail == [] {
      assert a.parameters + [] == tail;
      assert IsStrict(bytes, a, []);
    } else {
      var junk := ReadAny(tail).value.1;
      AnyIff(tail, a.parameters, junk);
      assert IsStrict(bytes, a, junk);
    }
  }

  lemma StrictInner(a: AlgorithmIdentifier, junk: Bytes)
    requires Fits(Element(0x06, a.algorithm) + (a.parameters + junk))
    requires IsElement(a.parameters) || (junk == [] && a.parameters == [])
    ensures ReadStrictContent(Element(0x06, a.algorithm) + (a.parameters + junk)) == Some(a)
  {
    var tail := a.parameters + junk;
    TaggedIff(Element(0x06, a.algorithm) + tail, OBJECT_IDENTIFIER, a.algorithm, tail);
    if IsElement(a.parameters) {
      AnyIff(tail, a.parameters, junk);
    }
  }

  lemma StrictAccepted(bytes: Bytes, a: AlgorithmIdentifier, rest: Bytes)
    requires StrictBytes(bytes, a)
    ensures ReadStrict(bytes + rest) == Some((a, rest))
  {
    var junk :| IsStrict(bytes, a, junk);
    StrictInner(a, junk);
    WrappedRoundTrips(SEQUENCE, Element(0x06, a.algorithm) + (a.parameters + junk), ReadStrictContent, a, rest);
  }

  ghost predicate LengthBytes(s: Bytes, n: int, rest: Bytes) {
    if Peek(s + rest, 0x02) then FitsInt64(n) && s == Element(0x02, IntegerBytes(n)) else s == [] && n == 0
  }

  ghost predicate PrfBytes(s: Bytes, prf: Option<Oid>, rest: Bytes) {
    if Peek(s + rest, 0x30) then prf.Some? && exists params :: StrictBytes(s, AlgorithmIdentifier(prf.value, params))
    else s == [] && prf.None?
  }

  /** PBKDF2-params: salt, iterations, keyLength if an INTEGER follows, prf if a SEQUENCE
      follows, and ignored bytes. */
  ghost predicate IsKdf(s: Bytes, k: Kdf, length: Bytes, prf: Bytes, junk: Bytes) {
    && Fits(k.salt) && FitsInt64(k.iterations)
    && LengthBytes(length, k.keyLength, prf + junk) && PrfBytes(prf, k.prf, junk)
    && s == Element(0x04, k.salt) + (Element(0x02, IntegerBytes(k.iterations)) + (length + (prf + junk)))
  }

  lemma LengthShape(s: Bytes, n: int, rest: Bytes) returns (bytes: Bytes)
    requires ReadKeyLength(s) == Some((n, rest))
    ensures s == bytes + rest && LengthBytes(bytes, n, rest)
  {
    if Peek(s, 0x02) {
      Int64Iff(s, n, rest);
      bytes := Element(0x02, IntegerBytes(n));
    } else {
      bytes := [];
    }
  }

  lemma LengthAccepted(bytes: Bytes, n: int, rest: Bytes)
    requires LengthBytes(bytes, n, rest)
    ensures ReadKeyLength(bytes + rest) == Some((n, rest))
  {
    if Peek(bytes + rest, 0x02) {
      Int64Iff(bytes + rest, n, rest);
    } else {
      assert bytes + rest == rest;
    }
  }

  lemma PrfShape(s: Bytes, prf: Option<Oid>) returns (bytes: Bytes, junk: Bytes)
    requires ReadPrf(s) == Some(prf)
    ensures s == bytes + junk && PrfBytes(bytes, prf, junk)
  {
    if Peek(s, 0x30) {
      var (a, rest) := ReadStrict(s).value;
      bytes := StrictShape(s, a, rest);
      junk := rest;
      assert a == AlgorithmIdentifier(prf.value, a.parameters);
    } else {
      bytes, junk := [], s;
    }
  }

  lemma PrfAccepted(bytes: Bytes, prf: Option<Oid>, junk: Bytes)
    requires PrfBytes(bytes, prf, junk)
    ensures ReadPrf(bytes + junk) == Some(prf)
  {
    if Peek(bytes + junk, 0x30) {
      var params :| StrictBytes(bytes, AlgorithmIdentifier(prf.value, params));
      StrictAccepted(bytes, AlgorithmIdentifier(prf.value, params), junk);
    }
  }

  lemma KdfShape(s: Bytes, k: Kdf) returns (length: Bytes, prf: Bytes, junk: Bytes)
    requires ReadKdfContent(s) == Some(k)
    ensures IsKdf(s, k, length, prf, junk)
  {
    var s1 := ReadTagged(s, OCTET_STRING).value.1;
    TaggedIff(s, OCTET_STRING, k.salt, s1);
    var s2 := ReadInt64(s1).value.1;
    Int64Iff(s1, k.iterations, s2);
    var s3 := ReadKeyLength(s2).value.1;
    length := LengthShape(s2, k.keyLength, s3);
    prf, junk := PrfShape(s3, k.prf);
  }

  lemma KdfAccepted(s: Bytes, k: Kdf, length: Bytes, prf: Bytes, junk: Bytes)
    requires IsKdf(s, k, length, prf, junk)
    ensures ReadKdfContent(s) == Some(k)
  {
    var s3 := prf + junk;
    var s1 := Element(0x02, IntegerBytes(k.iterations)) + (length + s3);
    TaggedIff(s, OCTET_STRING, k.salt, s1);
    Int64Iff(s1, k.iterations, length + s3);
    LengthAccepted(length, k.keyLength, s3);
    PrfAccepted(prf, k.prf, junk);
  }

  /** PBMAC1-params: PBKDF2 with its parameters, and the MAC, whose own parameters and
      all that follows are ignored. */
  ghost predicate IsPbmac1(s: Bytes, k: Kdf, mac: Oid, kdf: Bytes, scheme: Bytes, junk: Bytes) {
    && s == kdf + (scheme + junk)
    && (exists content :: KdfWrapped(kdf, content, k))
    && exists params :: StrictBytes(scheme, AlgorithmIdentifier(mac, params))
  }

  ghost predicate KdfWrapped(kdf: Bytes, content: Bytes, k: Kdf) {
    && Fits(content) && (exists length, prf, more :: IsKdf(content, k, length, prf, more))
    && StrictBytes(kdf, AlgorithmIdentifier([42, 134, 72, 134, 247, 13, 1, 5, 12], Element(0x30, content)))
  }

  lemma KdfWraps(kdf: Bytes, params: Bytes, k: Kdf)
    requires StrictBytes(kdf, AlgorithmIdentifier(OID_PBKDF2, params)) && ReadKdf(params) == Some(k)
    ensures exists content :: KdfWrapped(kdf, content, k)
  {
    var (content, rest) := ReadTagged(params, SEQUENCE).value;
    assert params != [];
    OneElement(params, content, rest);
    TaggedIff(params, SEQUENCE, content, rest);
    var length, prf, more := KdfShape(content, k);
    assert KdfWrapped(kdf, content, k);
  }

  lemma KdfUnwraps(kdf: Bytes, content: Bytes, k: Kdf, rest: Bytes)
    requires KdfWrapped(kdf, content, k)
    ensures ReadStrict(kdf + rest) == Some((AlgorithmIdentifier(OID_PBKDF2, Element(0x30, content)), rest))
    ensures ReadKdf(Element(0x30, content)) == Some(k)
  {
    StrictAccepted(kdf, AlgorithmIdentifier(OID_PBKDF2, Element(0x30, content)), rest);
    var length, prf, more :| IsKdf(content, k, length, prf, more);
    KdfAccepted(content, k, length, prf, more);
    KdfIsElement(content, k);
  }

  lemma Pbmac1Shape(s: Bytes, k: Kdf, mac: Oid) returns (kdf: Bytes, scheme: Bytes, junk: Bytes)
    requires ReadPbmac1Content(s) == Some(Pbmac1(OID_PBKDF2, k.salt, k.iterations, k.keyLength, k.prf, mac))
    ensures IsPbmac1(s, k, mac, kdf, scheme, junk)
  {
    var (a, s1) := ReadStrict(s).value;
    kdf := StrictShape(s, a, s1);
    assert a == AlgorithmIdentifier(OID_PBKDF2, a.parameters);
    KdfWraps(kdf, a.parameters, k);
    var m := ReadStrict(s1).value.0;
    junk := ReadStrict(s1).value.1;
    scheme := StrictShape(s1, m, junk);
    assert m == AlgorithmIdentifier(mac, m.parameters);
  }

  lemma Pbmac1Accepted(s: Bytes, k: Kdf, mac: Oid, kdf: Bytes, scheme: Bytes, junk: Bytes)
    requires IsPbmac1(s, k, mac, kdf, scheme, junk)
    ensures ReadPbmac1Content(s) == Some(Pbmac1(OID_PBKDF2, k.salt, k.iterations, k.keyLength, k.prf, mac))
  {
    var content :| KdfWrapped(kdf, content, k);
    KdfUnwraps(kdf, content, k, scheme + junk);
    var params :| StrictBytes(scheme, AlgorithmIdentifier(mac, params));
    StrictAccepted(scheme, AlgorithmIdentifier(mac, params), junk);
  }

  /** Which bytes are accepted as the content of which PBMAC1-params. */
  lemma Pbmac1Iff(s: Bytes, k: Kdf, mac: Oid)
    ensures ReadPbmac1Content(s) == Some(Pbmac1([42, 134, 72, 134, 247, 13, 1, 5, 12], k.salt, k.iterations,
                                                k.keyLength, k.prf, mac)) <==>
            exists kdf, scheme, junk :: IsPbmac1(s, k, mac, kdf, scheme, junk)
  {
    if ReadPbmac1Content(s) == Some(Pbmac1(OID_PBKDF2, k.salt, k.iterations, k.keyLength, k.prf, mac)) {
      var kdf, scheme, junk := Pbmac1Shape(s, k, mac);
    }
    if exists kdf, scheme, junk :: IsPbmac1(s, k, mac, kdf, scheme, junk) {
      var kdf, scheme, junk :| IsPbmac1(s, k, mac, kdf, scheme, junk);
      Pbmac1Accepted(s, k, mac, kdf, scheme, junk);
    }
  }

  /** Which identifiers are taken for which MAC. Bytes behind the parameters are ignored. */
  lemma DecodeIff(a: AlgorithmIdentifier, p: ProtectionAlg)
    ensures Decode(a) == Some(p) <==>
            exists content, rest ::
              && Fits(content) && a.parameters == Element(0x30, content) + rest
              && if a.algorithm == [42, 134, 72, 134, 246, 125, 7, 66, 13] then ReadPbmContent(content) == Some(p)
                 else a.algorithm == [42, 134, 72, 134, 247, 13, 1, 5, 14] && ReadPbmac1Content(content) == Some(p)
  {
    if Decode(a) == Some(p) {
      var (content, rest) := ReadTagged(a.parameters, SEQUENCE).value;
      TaggedIff(a.parameters, SEQUENCE, content, rest);
    }
    forall content, rest | Fits(content) && a.parameters == Element(0x30, content) + rest
      ensures ReadTagged(a.parameters, SEQUENCE) == Some((content, rest))
    {
      TaggedIff(a.parameters, SEQUENCE, content, rest);
    }
  }
}
