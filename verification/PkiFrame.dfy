/**
  Messages as byte strings (pkicmp/pkimessage.go): header, body, protection and
  certificates in one sequence.
 */
module PkiFrame {
  import opened Types
  import opened Der
  import opened Codecs
  import opened Responses
  import opened PkiHeader

  function WriteProtection(protection: Bytes): Bytes {
    if protection == [] then [] else Element(Context(0), Element(BIT_STRING, [0] + protection))
  }

  function WriteExtraCerts(certs: seq<Bytes>): Bytes {
    if certs == [] then [] else Element(Context(1), WriteSequenceOf(WriteRaw, certs))
  }

  function WriteTrailer(protection: Bytes, certs: seq<Bytes>): Bytes {
    WriteProtection(protection) + WriteExtraCerts(certs)
  }

  function WriteMessage(rawHeader: Bytes, rawBody: Bytes, protection: Bytes, certs: seq<Bytes>): Bytes {
    Element(SEQUENCE, rawHeader + (rawBody + WriteTrailer(protection, certs)))
  }

  /** What protection covers. */
  function ProtectedPart(rawHeader: Bytes, rawBody: Bytes): Bytes {
    Element(SEQUENCE, rawHeader + rawBody)
  }

  datatype Parsed = Parsed(header: Header, rawHeader: Bytes, rawBody: Bytes, protection: Bytes, extraCerts: seq<Bytes>)

  /** The octet that counts unused bits is dropped. */
  function ReadProtectionContent(s: Bytes): Option<Bytes> {
    var bits := ReadTagged(s, BIT_STRING);
    if bits.None? || bits.value.0 == [] then None else Some(bits.value.0[1..])
  }

  function ReadProtection(s: Bytes): Option<(Bytes, Bytes)> {
    if Peek(s, Context(0)) then ReadWrapped(Context(0), ReadProtectionContent, s) else Some(([], s))
  }

  function ReadExtraCerts(s: Bytes): Option<(seq<Bytes>, Bytes)> {
    ReadCaPubs(s)
  }

  /** The trailer must use up the sequence. */
  function ReadTrailer(s: Bytes): Option<(Bytes, seq<Bytes>)> {
    var protection := ReadProtection(s);
    if protection.None? then None
    else
      var certs := ReadExtraCerts(protection.value.1);
      if certs.None? || certs.value.1 != [] then None else Some((protection.value.0, certs.value.0))
  }

  predicate BodyTag(tag: byte) {
    tag >= 128
  }

  function ReadMessageContent(s: Bytes): Option<Parsed> {
    var rawHeader := ReadAny(s);
    if rawHeader.None? then None
    else
      var header := ReadHeader(rawHeader.value.0);
      var rawBody := ReadAny(rawHeader.value.1);
      if header.None? || rawBody.None? || rawBody.value.0 == [] || !BodyTag(rawBody.value.0[0]) then None
      else
        var trailer := ReadTrailer(rawBody.value.1);
        if trailer.None? then None
        else Some(Parsed(header.value.0, rawHeader.value.0, rawBody.value.0, trailer.value.0, trailer.value.1))
  }

  /** UnmarshalBinary: nothing may follow the message. */
  function ReadMessage(der: Bytes): Option<Parsed> {
    var r := ReadWrapped(SEQUENCE, ReadMessageContent, der);
    if r.None? || r.value.1 != [] then None else Some(r.value.0)
  }

  ghost predicate HeaderBytes(raw: Bytes) {
    IsElement(raw) && ReadHeader(raw).Some?
  }

  predicate BodyBytes(raw: Bytes) {
    IsElement(raw) && BodyTag(raw[0])
  }

  predicate AllElements(certs: seq<Bytes>) {
    forall i :: 0 <= i < |certs| ==> IsElement(certs[i])
  }

  lemma ProtectionRoundTrips(protection: Bytes, tail: Bytes)
    requires Fits(WriteProtection(protection)) && !Peek(tail, Context(0))
    ensures ReadProtection(WriteProtection(protection) + tail) == Some((protection, tail))
  {
    if protection != [] {
      var bits := Element(BIT_STRING, [0] + protection);
      assert bits + [] == bits && ([0] + protection)[1..] == protection;
      ReadTaggedOf(BIT_STRING, [0] + protection, []);
      WrappedRoundTrips(Context(0), bits, ReadProtectionContent, protection, tail);
    } else {
      assert [] + tail == tail;
    }
  }

  lemma TrailerRoundTrips(protection: Bytes, certs: seq<Bytes>)
    requires Fits(WriteTrailer(protection, certs)) && AllElements(certs)
    ensures ReadTrailer(WriteTrailer(protection, certs)) == Some((protection, certs))
  {
    var written := WriteExtraCerts(certs);
    ProtectionRoundTrips(protection, written);
    assert written + [] == written && written == WriteCaPubs(certs);
    CaPubsRoundTrip(certs, []);
  }

  lemma MessageParts(rawHeader: Bytes, rawBody: Bytes, trailer: Bytes, protection: Bytes, certs: seq<Bytes>)
    requires HeaderBytes(rawHeader) && BodyBytes(rawBody) && ReadTrailer(trailer) == Some((protection, certs))
    ensures ReadMessageContent(rawHeader + (rawBody + trailer))
         == Some(Parsed(ReadHeader(rawHeader).value.0, rawHeader, rawBody, protection, certs))
  {
    ReadAnyOf(rawHeader, rawBody + trailer);
    ReadAnyOf(rawBody, trailer);
  }

  lemma MessageWraps(content: Bytes, p: Parsed)
    requires Fits(content) && ReadMessageContent(content) == Some(p)
    ensures ReadMessage(Element(SEQUENCE, content)) == Some(p) && IsElement(Element(SEQUENCE, content))
  {
    assert Element(SEQUENCE, content) + [] == Element(SEQUENCE, content);
    WrappedRoundTrips(SEQUENCE, content, ReadMessageContent, p, []);
    ElementIsElement(SEQUENCE, content);
  }

  /** Writing raw header and body bytes and parsing them back gives the same bytes. */
  lemma MessageRoundTrips(rawHeader: Bytes, rawBody: Bytes, protection: Bytes, certs: seq<Bytes>)
    requires HeaderBytes(rawHeader) && BodyBytes(rawBody) && AllElements(certs)
    requires Fits(WriteMessage(rawHeader, rawBody, protection, certs))
    ensures ReadMessage(WriteMessage(rawHeader, rawBody, protection, certs))
         == Some(Parsed(ReadHeader(rawHeader).value.0, rawHeader, rawBody, protection, certs))
    ensures IsElement(WriteMessage(rawHeader, rawBody, protection, certs))
  {
    var trailer := WriteTrailer(protection, certs);
    TrailerRoundTrips(protection, certs);
    MessageParts(rawHeader, rawBody, trailer, protection, certs);
    MessageWraps(rawHeader + (rawBody + trailer),
                 Parsed(ReadHeader(rawHeader).value.0, rawHeader, rawBody, protection, certs));
  }

  /** Whoever sent it, a parsed message keeps its header and body bytes as received. */
  lemma RawBytesAreReceived(der: Bytes) returns (trailer: Bytes)
    requires ReadMessage(der).Some?
    ensures var p := ReadMessage(der).value;
            && der == Element(SEQUENCE, p.rawHeader + (p.rawBody + trailer))
            && HeaderBytes(p.rawHeader) && BodyBytes(p.rawBody)
  {
    ElementOfRead(der);
    var content := ReadElement(der).value.content;
    assert Element(SEQUENCE, content) + [] == Element(SEQUENCE, content);
    AnyIsPrefix(content);
    var rest := ReadAny(content).value.1;
    AnyIsPrefix(rest);
    trailer := ReadAny(rest).value.1;
  }
}
