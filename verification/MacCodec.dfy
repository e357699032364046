/**
  MAC protection parameters as bytes (pkicmp/protect.go, pkicmp/verify.go): PBMParameter
  is read by cryptobyte, PBMAC1-params by encoding/asn1. An echoed suite survives the
  wire, whoever encoded the parameters it was captured from.
 */
module MacCodec {
  import opened Types
  import opened MacParams
  import opened Der
  import opened Codecs

  // ---------------------------------------------------------------------------
  // PBMParameter
  // ---------------------------------------------------------------------------

  function WritePbmContent(salt: Bytes, owf: AlgorithmIdentifier, iterations: int, mac: AlgorithmIdentifier): Bytes {
    Element(OCTET_STRING, salt) + (WriteAlgorithm(owf) + (Int64(iterations) + WriteAlgorithm(mac)))
  }

  /** What follows the last field is ignored. */
  function ReadPbmContent(s: Bytes): Option<ProtectionAlg> {
    var salt := ReadTagged(s, OCTET_STRING);
    if salt.None? then None
    else
      var owf := ReadAlgorithm(salt.value.1);
      if owf.None? then None
      else
        var n := ReadInt64(owf.value.1);
        if n.None? || !ValidIterationCount(n.value.0) then None
        else
          var mac := ReadAlgorithm(n.value.1);
          if mac.None? then None
          else Some(PasswordBasedMac(salt.value.0, owf.value.0.algorithm, owf.value.0.parameters, n.value.0,
                                     mac.value.0.algorithm, mac.value.0.parameters))
  }

  /** An identifier as it arrives: its parameters are absent, one element, or octets
      that do not start with an element. */
  predicate Arrived(a: AlgorithmIdentifier) {
    NormalAlgorithm(a) || ReadAny(a.parameters).None?
  }

  lemma ReadAlgorithmArrived(s: Bytes)
    requires ReadAlgorithm(s).Some?
    ensures Arrived(ReadAlgorithm(s).value.0)
  {
    var inner := ReadTagged(s, SEQUENCE).value.0;
    var rest := ReadTagged(inner, OBJECT_IDENTIFIER).value.1;
    if ReadAny(rest).Some? {
      AnyIsPrefix(rest);
    }
  }

  lemma ArrivedRoundTrips(a: AlgorithmIdentifier, tail: Bytes)
    requires Arrived(a) && Fits(WriteAlgorithm(a))
    ensures ReadAlgorithm(WriteAlgorithm(a) + tail) == Some((a, tail))
  {
    if NormalAlgorithm(a) {
      AlgorithmRoundTrips(a, tail);
    } else {
      ReadTaggedOf(OBJECT_IDENTIFIER, a.algorithm, a.parameters);
      ReadTaggedOf(SEQUENCE, WriteAlgorithmInner(a), tail);
    }
  }

  lemma PbmRoundTrips(salt: Bytes, owf: AlgorithmIdentifier, iterations: int, mac: AlgorithmIdentifier)
    requires Arrived(owf) && Arrived(mac) && ValidIterationCount(iterations)
             && Fits(WritePbmContent(salt, owf, iterations, mac))
    ensures ReadPbmContent(WritePbmContent(salt, owf, iterations, mac))
         == Some(PasswordBasedMac(salt, owf.algorithm, owf.parameters, iterations, mac.algorithm, mac.parameters))
  {
    var last := WriteAlgorithm(mac);
    assert last + [] == last;
    ReadTaggedOf(OCTET_STRING, salt, WriteAlgorithm(owf) + (Int64(iterations) + last));
    ArrivedRoundTrips(owf, Int64(iterations) + last);
    ReadInt64Of(iterations, last);
    ArrivedRoundTrips(mac, []);
  }

  lemma PbmArrived(s: Bytes)
    requires ReadPbmContent(s).Some?
    ensures var p := ReadPbmContent(s).value;
            p.PasswordBasedMac? && Arrived(AlgorithmIdentifier(p.owf, p.owfParams))
                && Arrived(AlgorithmIdentifier(p.mac, p.macParams))
  {
    var owf := ReadTagged(s, OCTET_STRING).value.1;
    ReadAlgorithmArrived(owf);
    ReadAlgorithmArrived(ReadInt64(ReadAlgorithm(owf).value.1).value.1);
  }

  // ---------------------------------------------------------------------------
  // PBKDF2-params
  // ---------------------------------------------------------------------------

  /** encoding/asn1 reads an AlgorithmIdentifier: parameters that do not parse are an error. */
  function ReadStrictContent(s: Bytes): Option<AlgorithmIdentifier> {
    var oid := ReadTagged(s, OBJECT_IDENTIFIER);
    if oid.None? then None
    else if oid.value.1 == [] then Some(AlgorithmIdentifier(oid.value.0, []))
    else
      var params := ReadAny(oid.value.1);
      if params.None? then None else Some(AlgorithmIdentifier(oid.value.0, params.value.0))
  }

  function ReadStrict(s: Bytes): Option<(AlgorithmIdentifier, Bytes)> {
    ReadWrapped(SEQUENCE, ReadStrictContent, s)
  }

  lemma StrictRoundTrips(a: AlgorithmIdentifier, tail: Bytes)
    requires NormalAlgorithm(a) && Fits(WriteAlgorithm(a))
    ensures ReadStrict(WriteAlgorithm(a) + tail) == Some((a, tail))
  {
    ReadTaggedOf(OBJECT_IDENTIFIER, a.algorithm, a.parameters);
    if a.parameters != [] {
      assert a.parameters + [] == a.parameters;
      ReadAnyOf(a.parameters, []);
    }
    WrappedRoundTrips(SEQUENCE, WriteAlgorithmInner(a), ReadStrictContent, a, tail);
  }

  datatype Kdf = Kdf(salt: Bytes, iterations: int, keyLength: int, prf: Option<Oid>)

  function WriteKeyLength(n: int): Bytes {
    if n == 0 then [] else Int64(n)
  }

  function WritePrf(prf: Option<Oid>): Bytes {
    if prf.None? then [] else WriteAlgorithm(AlgorithmIdentifier(prf.value, []))
  }

  function WriteKdfContent(k: Kdf): Bytes {
    Element(OCTET_STRING, k.salt) + (Int64(k.iterations) + (WriteKeyLength(k.keyLength) + WritePrf(k.prf)))
  }

  function ReadKeyLength(s: Bytes): Option<(int, Bytes)> {
    if Peek(s, INTEGER) then ReadInt64(s) else Some((0, s))
  }

  function ReadPrf(s: Bytes): Option<Option<Oid>> {
    if !Peek(s, SEQUENCE) then Some(None)
    else
      var prf := ReadStrict(s);
      if prf.None? then None else Some(Some(prf.value.0.algorithm))
  }

  /** What follows the last field is ignored. */
  function ReadKdfContent(s: Bytes): Option<Kdf> {
    var salt := ReadTagged(s, OCTET_STRING);
    if salt.None? then None
    else
      var n := ReadInt64(salt.value.1);
      if n.None? then None
      else
        var len := ReadKeyLength(n.value.1);
        if len.None? then None
        else
          var prf := ReadPrf(len.value.1);
          if prf.None? then None else Some(Kdf(salt.value.0, n.value.0, len.value.0, prf.value))
  }

  function ReadKdf(s: Bytes): Option<Kdf> {
    var content := ReadTagged(s, SEQUENCE);
    if content.None? then None else ReadKdfContent(content.value.0)
  }

  lemma PrfRoundTrips(prf: Option<Oid>)
    requires Fits(WritePrf(prf))
    ensures ReadPrf(WritePrf(prf)) == Some(prf) && !Peek(WritePrf(prf), INTEGER)
  {
    if prf.Some? {
      var a := AlgorithmIdentifier(prf.value, []);
      assert WriteAlgorithm(a) + [] == WriteAlgorithm(a);
      StrictRoundTrips(a, []);
      ReadTaggedOf(SEQUENCE, WriteAlgorithmInner(a), []);
    }
  }

  lemma KeyLengthRoundTrips(n: int, tail: Bytes)
    requires FitsInt64(n) && !Peek(tail, INTEGER)
    ensures ReadKeyLength(WriteKeyLength(n) + tail) == Some((n, tail))
  {
    if n == 0 {
      assert [] + tail == tail;
    } else {
      ReadInt64Of(n, tail);
    }
  }

  lemma KdfRoundTrips(k: Kdf)
    requires FitsInt64(k.iterations) && FitsInt64(k.keyLength) && Fits(WriteKdfContent(k))
    ensures ReadKdfContent(WriteKdfContent(k)) == Some(k)
  {
    var prf := WritePrf(k.prf);
    PrfRoundTrips(k.prf);
    KeyLengthRoundTrips(k.keyLength, prf);
    ReadInt64Of(k.iterations, WriteKeyLength(k.keyLength) + prf);
    ReadTaggedOf(OCTET_STRING, k.salt, Int64(k.iterations) + (WriteKeyLength(k.keyLength) + prf));
  }

  // ---------------------------------------------------------------------------
  // PBMAC1-params
  // ---------------------------------------------------------------------------

  function WritePbmac1Content(k: Kdf, mac: Oid): Bytes {
    WriteAlgorithm(AlgorithmIdentifier(OID_PBKDF2, Element(SEQUENCE, WriteKdfContent(k))))
        + WriteAlgorithm(AlgorithmIdentifier(mac, []))
  }

  function ReadPbmac1Content(s: Bytes): Option<ProtectionAlg> {
    var kdf := ReadStrict(s);
    if kdf.None? || kdf.value.0.algorithm != OID_PBKDF2 then None
    else
      var mac := ReadStrict(kdf.value.1);
      var k := ReadKdf(kdf.value.0.parameters);
      if mac.None? || k.None? then None
      else Some(Pbmac1(OID_PBKDF2, k.value.salt, k.value.iterations, k.value.keyLength, k.value.prf,
                       mac.value.0.algorithm))
  }

  lemma Pbmac1Parts(params: Bytes, k: Kdf, mac: Oid)
    requires IsElement(params) && ReadKdf(params) == Some(k)
    requires Fits(WriteAlgorithm(AlgorithmIdentifier(OID_PBKDF2, params))
                  + WriteAlgorithm(AlgorithmIdentifier(mac, [])))
    ensures ReadPbmac1Content(WriteAlgorithm(AlgorithmIdentifier(OID_PBKDF2, params))
                              + WriteAlgorithm(AlgorithmIdentifier(mac, [])))
         == Some(Pbmac1(OID_PBKDF2, k.salt, k.iterations, k.keyLength, k.prf, mac))
  {
    var scheme := AlgorithmIdentifier(mac, []);
    StrictRoundTrips(AlgorithmIdentifier(OID_PBKDF2, params), WriteAlgorithm(scheme));
    assert WriteAlgorithm(scheme) + [] == WriteAlgorithm(scheme);
    StrictRoundTrips(scheme, []);
  }

  lemma KdfIsElement(content: Bytes, k: Kdf)
    requires Fits(content) && ReadKdfContent(content) == Some(k)
    ensures IsElement(Element(SEQUENCE, content)) && ReadKdf(Element(SEQUENCE, content)) == Some(k)
  {
    ElementIsElement(SEQUENCE, content);
    assert Element(SEQUENCE, content) + [] == Element(SEQUENCE, content);
    ReadTaggedOf(SEQUENCE, content, []);
  }

  lemma Pbmac1RoundTrips(k: Kdf, mac: Oid)
    requires FitsInt64(k.iterations) && FitsInt64(k.keyLength) && Fits(WritePbmac1Content(k, mac))
    ensures ReadPbmac1Content(WritePbmac1Content(k, mac))
            == Some(Pbmac1(OID_PBKDF2, k.salt, k.iterations, k.keyLength, k.prf, mac))
  {
    var content := WriteKdfContent(k);
    KdfRoundTrips(k);
    KdfIsElement(content, k);
    Pbmac1Parts(Element(SEQUENCE, content), k, mac);
  }

  // ---------------------------------------------------------------------------
  // The identifier in the header
  // ---------------------------------------------------------------------------

  /** The MAC parameters of a protectionAlg, or None when it is no MAC or does not decode. */
  function Decode(a: AlgorithmIdentifier): Option<ProtectionAlg> {
    var content := ReadTagged(a.parameters, SEQUENCE);
    if content.None? then None
    else if a.algorithm == OID_PBM then ReadPbmContent(content.value.0)
    else if a.algorithm == OID_PBMAC1 then ReadPbmac1Content(content.value.0)
    else None
  }

  function EncodedContent(alg: ProtectionAlg): Bytes
    requires alg.PasswordBasedMac? || alg.Pbmac1?
  {
    if alg.PasswordBasedMac?
    then WritePbmContent(alg.salt, AlgorithmIdentifier(alg.owf, alg.owfParams), alg.iterations,
                         AlgorithmIdentifier(alg.mac, alg.macParams))
    else WritePbmac1Content(Kdf(alg.salt, alg.iterations, alg.keyLength, alg.prf), alg.mac)
  }

  function Encode(alg: ProtectionAlg): AlgorithmIdentifier
    requires alg.PasswordBasedMac? || alg.Pbmac1?
  {
    AlgorithmIdentifier(if alg.PasswordBasedMac? then OID_PBM else OID_PBMAC1, Element(SEQUENCE, EncodedContent(alg)))
  }

  /** Parameters that verify and whose inner identifiers arrived from somewhere. */
  predicate Echoable(alg: ProtectionAlg) {
    && Captured(alg).Some?
    && (alg.PasswordBasedMac? ==>
          Arrived(AlgorithmIdentifier(alg.owf, alg.owfParams)) && Arrived(AlgorithmIdentifier(alg.mac, alg.macParams)))
  }

  lemma DecodeReads(oid: Oid, content: Bytes)
    requires Fits(content)
    ensures Decode(AlgorithmIdentifier(oid, Element(SEQUENCE, content)))
         == if oid == OID_PBM then ReadPbmContent(content) else if oid == OID_PBMAC1 then ReadPbmac1Content(content)
            else None
  {
    assert Element(SEQUENCE, content) + [] == Element(SEQUENCE, content);
    ReadTaggedOf(SEQUENCE, content, []);
  }

  lemma ContentIsDecoded(alg: ProtectionAlg)
    requires Echoable(alg) && Fits(EncodedContent(alg)) && (alg.Pbmac1? ==> alg.kdf == OID_PBKDF2)
    ensures (if alg.PasswordBasedMac? then ReadPbmContent(EncodedContent(alg))
             else ReadPbmac1Content(EncodedContent(alg))) == Some(alg)
  {
    if alg.PasswordBasedMac? {
      PbmRoundTrips(alg.salt, AlgorithmIdentifier(alg.owf, alg.owfParams), alg.iterations,
                    AlgorithmIdentifier(alg.mac, alg.macParams));
    } else {
      Pbmac1RoundTrips(Kdf(alg.salt, alg.iterations, alg.keyLength, alg.prf), alg.mac);
    }
  }

  lemma EncodedIsDecoded(alg: ProtectionAlg)
    requires Echoable(alg) && Fits(EncodedContent(alg)) && (alg.Pbmac1? ==> alg.kdf == OID_PBKDF2)
    ensures Decode(Encode(alg)) == Some(alg)
  {
    assert OID_PBM[4] != OID_PBMAC1[4];
    ContentIsDecoded(alg);
    DecodeReads(Encode(alg).algorithm, EncodedContent(alg));
  }

  /** Whatever bytes the peer sent. */
  lemma DecodedIsEchoable(a: AlgorithmIdentifier)
    requires Decode(a).Some? && Captured(Decode(a).value).Some?
    ensures Echoable(Decode(a).value)
  {
    if a.algorithm == OID_PBM {
      PbmArrived(ReadTagged(a.parameters, SEQUENCE).value.0);
    }
  }

  /** The protectionAlg of a reply protected with this option and a fresh salt. */
  function ReplyWith(option: Option<MacOption>, salt: Bytes): Option<AlgorithmIdentifier> {
    var alg := Protect(option, salt);
    if alg.None? then None else Some(Encode(alg.value))
  }

  /** The reply to a message whose parameters verified. */
  function Echo(a: AlgorithmIdentifier, salt: Bytes): Option<AlgorithmIdentifier> {
    if Decode(a).None? || Captured(Decode(a).value).None? then None
    else ReplyWith(Captured(Decode(a).value), salt)
  }

  /** The reply fits the format. */
  ghost predicate Room(option: Option<MacOption>, salt: Bytes) {
    var alg := Protect(option, salt);
    alg.Some? ==> Fits(EncodedContent(alg.value))
  }

  /** Whatever bytes the peer sent, parameters that verified are echoed in bytes from
      which the peer captures the same suite, and the echo of the stored identifier
      writes the same bytes as the live echo. */
  lemma EchoSurvivesWire(a: AlgorithmIdentifier, salt: Bytes)
    requires Decode(a).Some? && Captured(Decode(a).value).Some? && Room(Captured(Decode(a).value), salt)
    ensures Echo(a, salt).Some? && Echo(a, salt) == ReplyWith(Some(EchoAlgorithm(Decode(a).value)), salt)
    ensures var b := Decode(Echo(a, salt).value); b.Some? && Captured(b.value) == Captured(Decode(a).value)
  {
    var alg := Decode(a).value;
    DecodedIsEchoable(a);
    VerifiedParametersEcho(alg, salt);
    EncodedIsDecoded(Protect(Captured(alg), salt).value);
  }

  /** The identifier after exchanges in which each side echoes what it verified. */
  function Exchange(a: AlgorithmIdentifier, salts: seq<Bytes>): Option<AlgorithmIdentifier> {
    if salts == [] then Some(a)
    else
      var prior := Exchange(a, salts[..|salts| - 1]);
      if prior.None? then None else Echo(prior.value, salts[|salts| - 1])
  }

  /** Over any number of exchanges the suite on the wire stays the same. */
  lemma {:induction false} SuiteIsStable(a: AlgorithmIdentifier, salts: seq<Bytes>)
    requires Decode(a).Some? && Captured(Decode(a).value).Some?
    requires forall i :: 0 <= i < |salts| ==> Room(Captured(Decode(a).value), salts[i])
    ensures var last := Exchange(a, salts);
            last.Some? && Decode(last.value).Some? && Captured(Decode(last.value).value) == Captured(Decode(a).value)
  {
    if salts != [] {
      SuiteIsStable(a, salts[..|salts| - 1]);
      EchoSurvivesWire(Exchange(a, salts[..|salts| - 1]).value, salts[|salts| - 1]);
    }
  }
}
