/**
  The message object (pkicmp/pkimessage.go, pkicmp/protect.go): it is marshalled once
  to be protected and once to be sent, and the bytes that are protected are the bytes
  that are recovered; nesting keeps them.
 */
module PkiMessage {
  import opened Types
  import opened Der
  import opened Codecs
  import opened PkiHeader
  import opened PkiFrame
  import opened PkiBody

  class Message {
    var header: Header
    var body: Body
    var protection: Bytes
    var extraCerts: seq<Bytes>
    var rawHeader: Bytes
    var rawBody: Bytes

    function View(): Msg
      reads this
    {
      Msg(header, body, protection, extraCerts, rawHeader, rawBody)
    }

    /** The raw bytes are what another pass over the fields would write. */
    ghost predicate Settled()
      reads this
    {
      rawHeader == WriteHeader(header) && MarshalBody(StartVersion(header.pvno), body)
          == (Written(rawBody, header.pvno), body)
    }

    /** The bytes a parse would find are there. */
    ghost predicate Readable()
      reads this
    {
      && HeaderBytes(rawHeader) && BodyBytes(rawBody) && protection != [] && AllElements(extraCerts)
      && Fits(WriteMessage(rawHeader, rawBody, protection, extraCerts))
    }

    constructor (header: Header, body: Body, extraCerts: seq<Bytes>)
      ensures View() == Msg(header, body, [], extraCerts, [], [])
    {
      this.header := header;
      this.body := body;
      this.extraCerts := extraCerts;
      protection, rawHeader, rawBody := [], [], [];
    }

    /** The body goes first, so that it can raise the version the header carries. One
        pass is enough: another would write the same. */
    method MarshalForProtection()
      modifies this`header, this`body, this`rawHeader, this`rawBody
      ensures Settled()
      ensures header == old(header).(pvno := header.pvno)
      ensures (Written(rawBody, header.pvno), body) == MarshalBody(StartVersion(old(header.pvno)), old(body))
    {
      BodySettles(StartVersion(header.pvno), body);
      var w := MarshalBody(StartVersion(header.pvno), body);
      rawBody, body := w.0.bytes, w.1;
      header := header.(pvno := w.0.version);
      rawHeader := WriteHeader(header);
    }

    /** Protection with any MAC or signature covers what a later pass will send. */
    method Protect(alg: AlgorithmIdentifier, sign: Bytes -> Bytes)
      modifies this`header, this`body, this`rawHeader, this`rawBody, this`protection
      ensures Settled() && protection == sign(ProtectedPart(rawHeader, rawBody))
      ensures header == ProtectedHeader(old(header), old(body), alg)
      ensures rawBody == MarshalBody(StartVersion(old(header.pvno)), old(body)).0.bytes
    {
      header := header.(fields := header.fields.(protectionAlg := Some(alg)));
      MarshalForProtection();
      protection := sign(ProtectedPart(rawHeader, rawBody));
    }

    /** The encoding of the fields. When they are settled, it is that of the raw bytes
        and nothing changes. */
    method MarshalBinary() returns (der: Bytes)
      modifies this`header, this`body
      ensures (der, View()) == MarshalMessage(old(View()))
      ensures old(Settled()) ==>
              View() == old(View()) && der == WriteMessage(rawHeader, rawBody, protection, extraCerts)
    {
      var w := MarshalBody(StartVersion(header.pvno), body);
      body := w.1;
      header := header.(pvno := w.0.version);
      der := WriteMessage(WriteHeader(header), w.0.bytes, protection, extraCerts);
    }

    /** A parsed message keeps its header and body as they were received, and a second
        pass over it would not change its body. */
    method UnmarshalBinary(der: Bytes) returns (ok: bool)
      modifies this
      ensures ok <==> ReadMessage(der).Some?
      ensures ok ==> ReadMessage(der) == Some(Parsed(header, rawHeader, rawBody, protection, extraCerts))
      ensures ok ==> body == RawBody(rawBody)
      ensures ok ==> IsReceived(der, rawHeader, rawBody)
    {
      var p := ReadMessage(der);
      if p.None? {
        return false;
      }
      header, rawHeader, rawBody := p.value.header, p.value.rawHeader, p.value.rawBody;
      protection, extraCerts := p.value.protection, p.value.extraCerts;
      body := RawBody(rawBody);
      ReceivedBytes(der);
      return true;
    }

    /** Nested, a readable protected message is read back with the same bytes, whatever
        its decoded header says. */
    method MarshalForNesting() returns (der: Bytes)
      modifies this`header, this`body
      ensures (der, View()) == PkiBody.MarshalForNesting(old(View()))
      ensures old(Readable()) ==> View() == old(View()) && KeptBy(ReadMessage(der), View())
    {
      if protection == [] || rawHeader == [] || rawBody == [] {
        der := MarshalBinary();
      } else {
        der := WriteMessage(rawHeader, rawBody, protection, extraCerts);
      }
      if old(Readable()) {
        MessageRoundTrips(rawHeader, rawBody, protection, extraCerts);
      }
    }
  }

  ghost predicate IsReceived(der: Bytes, rawHeader: Bytes, rawBody: Bytes) {
    exists trailer :: der == Element(SEQUENCE, rawHeader + (rawBody + trailer))
  }

  lemma ReceivedBytes(der: Bytes)
    requires ReadMessage(der).Some?
    ensures IsReceived(der, ReadMessage(der).value.rawHeader, ReadMessage(der).value.rawBody)
  {
    var trailer := RawBytesAreReceived(der);
  }

  /** The receiver has the header and body bytes, the protection and the certificates. */
  predicate KeptBy(p: Option<Parsed>, m: Msg) {
    && p.Some? && p.value.rawHeader == m.rawHeader && p.value.rawBody == m.rawBody
    && p.value.protection == m.protection && p.value.extraCerts == m.extraCerts
  }

  /** One pass settles the version and the body. */
  lemma BodySettles(v: int, b: Body)
    requires v == StartVersion(v)
    ensures var (w, after) := MarshalBody(v, b); MarshalBody(StartVersion(w.version), after) == (w, after)
  {
    BodyRepeats(v, StartVersion(VersionLeft(Needs3(b), v)), b);
  }

  /** The header that protection puts on a message. */
  function ProtectedHeader(h: Header, b: Body, alg: AlgorithmIdentifier): Header {
    Header(MarshalBody(StartVersion(h.pvno), b).0.version, h.sender, h.recipient, h.fields.(protectionAlg := Some(alg)))
  }

  // ---------------------------------------------------------------------------
  // Protected, sent and parsed
  // ---------------------------------------------------------------------------

  lemma HeaderIsElement(h: Header)
    requires Fits(WriteHeader(h))
    ensures IsElement(WriteHeader(h))
  {
    ElementIsElement(SEQUENCE, WriteFrameContent(FrameOf(h)));
  }

  lemma WrittenHeaderIsRead(h: Header)
    requires NormalHeader(h) && Fits(WriteHeader(h))
    ensures HeaderBytes(WriteHeader(h)) && ReadHeader(WriteHeader(h)).value.0 == h
  {
    HeaderIsElement(h);
    HeaderRoundTrips(h, []);
    assert WriteHeader(h) + [] == WriteHeader(h);
  }

  lemma EncodingIsRead(h: Header, body: Bytes, protection: Bytes, certs: seq<Bytes>)
    requires NormalHeader(h) && BodyBytes(body) && AllElements(certs)
             && Fits(WriteMessage(WriteHeader(h), body, protection, certs))
    ensures ReadMessage(WriteMessage(WriteHeader(h), body, protection, certs))
            == Some(Parsed(h, WriteHeader(h), body, protection, certs))
  {
    WrittenHeaderIsRead(h);
    MessageRoundTrips(WriteHeader(h), body, protection, certs);
  }

  /** Every body that is encoded from its contents is one element with a body's tag. */
  lemma BodyIsElement(v: int, b: Body)
    requires Fits(MarshalBody(v, b).0.bytes) && (b.RawBody? ==> BodyBytes(b.der))
    ensures BodyBytes(MarshalBody(v, b).0.bytes)
  {
    if !b.RawBody? {
      LowTags(b);
      var content := if b.NestedBody? then Element(SEQUENCE, MarshalNested(b.messages).0)
                     else MarshalContent(v, b).bytes;
      ElementIsElement(TagOf(b), content);
    }
  }

  lemma LowTags(b: Body)
    requires !b.RawBody?
    ensures LowTag(TagOf(b)) && BodyTag(TagOf(b))
  {
  }

  /** A message whose encoding, once it is protected, fits the format. */
  ghost predicate Encodable(h: Header, b: Body, certs: seq<Bytes>, alg: AlgorithmIdentifier, sign: Bytes -> Bytes) {
    var raw, body := WriteHeader(ProtectedHeader(h, b, alg)), MarshalBody(StartVersion(h.pvno), b).0.bytes;
    && NormalHeader(h) && NormalAlgorithm(alg) && (b.RawBody? ==> BodyBytes(b.der)) && AllElements(certs)
    && Fits(WriteMessage(raw, body, sign(ProtectedPart(raw, body)), certs))
  }

  lemma SentIsRead(h: Header, b: Body, certs: seq<Bytes>, alg: AlgorithmIdentifier, sign: Bytes -> Bytes, sent: Header,
                   body: Bytes, protection: Bytes)
    requires Encodable(h, b, certs, alg, sign) && sent == ProtectedHeader(h, b, alg)
    requires body == MarshalBody(StartVersion(h.pvno), b).0.bytes
             && protection == sign(ProtectedPart(WriteHeader(sent), body))
    ensures ReadMessage(WriteMessage(WriteHeader(sent), body, protection, certs))
            == Some(Parsed(sent, WriteHeader(sent), body, protection, certs))
  {
    BodyRepeats(StartVersion(h.pvno), PVNO2, b);
    BodyIsElement(StartVersion(h.pvno), b);
    EncodingIsRead(sent, body, protection, certs);
  }

  /** What was protected is what the encoding gives back, although the body is
      marshalled a second time. */
  method ProtectAndMarshal(m: Message, alg: AlgorithmIdentifier, sign: Bytes -> Bytes) returns (der: Bytes)
    requires Encodable(m.header, m.body, m.extraCerts, alg, sign)
    modifies m
    ensures m.protection == sign(ProtectedPart(m.rawHeader, m.rawBody))
    ensures m.rawBody == MarshalBody(StartVersion(old(m.header.pvno)), old(m.body)).0.bytes
    ensures ReadMessage(der) == Some(Parsed(m.header, m.rawHeader, m.rawBody, m.protection, m.extraCerts))
  {
    ghost var h, b := m.header, m.body;
    m.Protect(alg, sign);
    SentIsRead(h, b, m.extraCerts, alg, sign, m.header, m.rawBody, m.protection);
    der := m.MarshalBinary();
  }

  /** ParsePKIMessage. */
  method Receive(der: Bytes) returns (received: Message, ok: bool)
    ensures fresh(received) && (ok <==> ReadMessage(der).Some?)
    ensures ok ==> ReadMessage(der) == Some(Parsed(received.header, received.rawHeader, received.rawBody,
                                                   received.protection, received.extraCerts))
                   && IsReceived(der, received.rawHeader, received.rawBody)
  {
    received := new Message(Header(PVNO2, [], [], Fields(None, None, [], [], [], [], [], [], [])), RawBody([]), []);
    ok := received.UnmarshalBinary(der);
  }

  /** Protecting a message, sending it and parsing it at the other end recovers the
      header and body bytes that were protected, and the header, protection and
      certificates with them. */
  method ProtectAndTransmit(m: Message, alg: AlgorithmIdentifier, sign: Bytes -> Bytes)
    returns (received: Message, ok: bool)
    requires Encodable(m.header, m.body, m.extraCerts, alg, sign)
    modifies m
    ensures ok && fresh(received)
    ensures Parsed(received.header, received.rawHeader, received.rawBody, received.protection, received.extraCerts)
         == Parsed(m.header, m.rawHeader, m.rawBody, m.protection, m.extraCerts)
    ensures received.protection == sign(ProtectedPart(received.rawHeader, received.rawBody))
    ensures received.rawBody == MarshalBody(StartVersion(old(m.header.pvno)), old(m.body)).0.bytes
  {
    var der := ProtectAndMarshal(m, alg, sign);
    received, ok := Receive(der);
  }

  // ---------------------------------------------------------------------------
  // Nesting
  // ---------------------------------------------------------------------------

  /** A protected message as its holder has it. Its decoded header may have been
      changed in any way. */
  ghost predicate Protected(m: Msg) {
    HeaderBytes(m.rawHeader) && BodyBytes(m.rawBody) && m.protection != [] && AllElements(m.extraCerts)
  }

  ghost predicate AllProtected(ms: seq<Msg>) {
    forall i :: 0 <= i < |ms| ==> Protected(ms[i])
  }

  function ReadInner(s: Bytes): Option<(Parsed, Bytes)> {
    var e := ReadAny(s);
    if e.None? || !Peek(e.value.0, SEQUENCE) then None
    else
      var p := ReadMessage(e.value.0);
      if p.None? then None else Some((p.value, e.value.1))
  }

  function ReadNestedContent(s: Bytes): Option<seq<Parsed>> {
    var r := ReadSequenceOf(ReadInner, s);
    if r.None? || r.value.1 != [] || r.value.0 == [] then None else Some(r.value.0)
  }

  /** parseNestedMessages. */
  function ReadNested(body: Bytes): Option<seq<Parsed>> {
    var r := ReadWrapped(Context(20), ReadNestedContent, body);
    if r.None? then None else Some(r.value.0)
  }

  lemma InnerIsRead(m: Msg, tail: Bytes) returns (p: Parsed)
    requires Protected(m) && Fits(MarshalForNesting(m).0)
    ensures ReadInner(MarshalForNesting(m).0 + tail) == Some((p, tail)) && KeptBy(Some(p), m)
    ensures |MarshalForNesting(m).0| > 0 && MarshalForNesting(m).1 == m
  {
    var der := WriteMessage(m.rawHeader, m.rawBody, m.protection, m.extraCerts);
    assert MarshalForNesting(m) == (der, m);
    MessageRoundTrips(m.rawHeader, m.rawBody, m.protection, m.extraCerts);
    p := ReadMessage(der).value;
    ReadAnyOf(der, tail);
  }

  /** Each message arrives with its own bytes. */
  ghost predicate Preserved(ms: seq<Msg>, ps: seq<Parsed>) {
    |ps| == |ms| && forall i :: 0 <= i < |ms| ==> KeptBy(Some(ps[i]), ms[i])
  }

  lemma ReadAllStep(s: Bytes, p: Parsed, rest: Bytes, ps: seq<Parsed>)
    requires ReadInner(s) == Some((p, rest)) && |rest| < |s| && ReadAll(ReadInner, rest) == Some(ps)
    ensures ReadAll(ReadInner, s) == Some([p] + ps)
  {
  }

  lemma {:induction false} InnersAreRead(ms: seq<Msg>) returns (ps: seq<Parsed>)
    requires AllProtected(ms) && Fits(MarshalNested(ms).0)
    ensures ReadAll(ReadInner, MarshalNested(ms).0) == Some(ps) && Preserved(ms, ps)
  {
    if ms == [] {
      ps := [];
    } else {
      var first, rest := MarshalForNesting(ms[0]).0, MarshalNested(ms[1..]).0;
      assert MarshalNested(ms).0 == first + rest;
      var others := InnersAreRead(ms[1..]);
      var p := InnerIsRead(ms[0], rest);
      ReadAllStep(first + rest, p, rest, others);
      ps := [p] + others;
      PreservedStep(ms, p, others);
    }
  }

  lemma PreservedStep(ms: seq<Msg>, p: Parsed, ps: seq<Parsed>)
    requires ms != [] && KeptBy(Some(p), ms[0]) && Preserved(ms[1..], ps)
    ensures Preserved(ms, [p] + ps)
  {
    assert forall i :: 1 <= i < |ms| ==> ms[i] == ms[1..][i - 1] && ([p] + ps)[i] == ps[i - 1];
  }

  lemma NestedContent(written: Bytes, ps: seq<Parsed>)
    requires Fits(written) && ReadAll(ReadInner, written) == Some(ps) && ps != []
    ensures ReadNestedContent(Element(SEQUENCE, written)) == Some(ps)
  {
    assert Element(SEQUENCE, written) + [] == Element(SEQUENCE, written);
    SequenceOfReads(ReadInner, written, ps, []);
  }

  lemma NestedWraps(content: Bytes, ps: seq<Parsed>)
    requires Fits(content) && ReadNestedContent(content) == Some(ps)
    ensures ReadNested(Element(Context(20), content)) == Some(ps)
  {
    assert Element(Context(20), content) + [] == Element(Context(20), content);
    WrappedRoundTrips(Context(20), content, ReadNestedContent, ps, []);
  }

  lemma NestedBytes(v: int, ms: seq<Msg>) returns (written: Bytes)
    ensures written == MarshalNested(ms).0
    ensures MarshalBody(v, NestedBody(ms)).0.bytes == Element(Context(20), Element(SEQUENCE, written))
  {
    written := MarshalNested(ms).0;
  }

  /** Nesting any number of protected messages and parsing them back preserves the
      header and body bytes, the protection and the certificates of each. */
  lemma NestingPreserves(v: int, ms: seq<Msg>)
    requires ms != [] && AllProtected(ms) && Fits(MarshalBody(v, NestedBody(ms)).0.bytes)
    ensures var r := ReadNested(MarshalBody(v, NestedBody(ms)).0.bytes); r.Some? && Preserved(ms, r.value)
  {
    var written := NestedBytes(v, ms);
    var ps := InnersAreRead(ms);
    NestedContent(written, ps);
    NestedWraps(Element(SEQUENCE, written), ps);
  }
}
