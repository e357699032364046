/**
  The codecs of status, error and confirmation values (pkicmp/status.go,
  pkicmp/enrollment.go, pkicmp/types.go), on byte strings.

  Object identifiers are their content octets, certificates and encrypted values
  are opaque elements, and texts are octets.
 */
module Codecs {
  import opened Types
  import opened Der

  // ---------------------------------------------------------------------------
  // Texts and algorithm identifiers
  // ---------------------------------------------------------------------------

  function WriteUtf8(s: Bytes): Bytes {
    Element(UTF8_STRING, s)
  }

  function ReadUtf8(s: Bytes): Option<(Bytes, Bytes)> {
    ReadTagged(s, UTF8_STRING)
  }

  /** PKIFreeText. An empty one is not written. */
  function WriteText(text: seq<Bytes>): Bytes {
    if text == [] then [] else Element(SEQUENCE, WriteAll(WriteUtf8, text))
  }

  function ReadText(s: Bytes): Option<(seq<Bytes>, Bytes)> {
    var r := ReadTagged(s, SEQUENCE);
    if r.None? then None
    else
      var items := ReadAll(ReadUtf8, r.value.0);
      if items.None? then None else Some((items.value, r.value.1))
  }

  lemma Utf8RoundTrips(s: Bytes)
    requires Fits(WriteUtf8(s))
    ensures RoundTrips(WriteUtf8, ReadUtf8, s)
  {
    forall tail ensures ReadUtf8(WriteUtf8(s) + tail) == Some((s, tail)) {
      ReadTaggedOf(UTF8_STRING, s, tail);
    }
  }

  lemma {:induction false} Utf8ListRoundTrips(text: seq<Bytes>)
    requires Fits(WriteAll(WriteUtf8, text))
    ensures ReadAll(ReadUtf8, WriteAll(WriteUtf8, text)) == Some(text)
  {
    forall i | 0 <= i < |text| ensures RoundTrips(WriteUtf8, ReadUtf8, text[i]) {
      WriteAllSize(WriteUtf8, text, i);
      Utf8RoundTrips(text[i]);
    }
    ListRoundTrips(WriteUtf8, ReadUtf8, text);
  }

  lemma TextRoundTrips(text: seq<Bytes>, tail: Bytes)
    requires text != [] && Fits(WriteText(text))
    ensures ReadText(WriteText(text) + tail) == Some((text, tail)) && Peek(WriteText(text) + tail, SEQUENCE)
  {
    Utf8ListRoundTrips(text);
    ReadTaggedOf(SEQUENCE, WriteAll(WriteUtf8, text), tail);
  }

  datatype AlgorithmIdentifier = AlgorithmIdentifier(algorithm: Bytes, parameters: Bytes)

  function WriteAlgorithmInner(a: AlgorithmIdentifier): Bytes {
    Element(OBJECT_IDENTIFIER, a.algorithm) + a.parameters
  }

  function WriteAlgorithm(a: AlgorithmIdentifier): Bytes {
    Element(SEQUENCE, WriteAlgorithmInner(a))
  }

  /** What follows the identifier is one element, or everything that is left. */
  function ReadAlgorithmInner(s: Bytes): Option<(AlgorithmIdentifier, Bytes)> {
    var oid := ReadTagged(s, OBJECT_IDENTIFIER);
    if oid.None? then None
    else if oid.value.1 == [] then Some((AlgorithmIdentifier(oid.value.0, []), []))
    else
      var params := ReadAny(oid.value.1);
      if params.Some? then Some((AlgorithmIdentifier(oid.value.0, params.value.0), params.value.1))
      else Some((AlgorithmIdentifier(oid.value.0, oid.value.1), []))
  }

  function ReadAlgorithm(s: Bytes): Option<(AlgorithmIdentifier, Bytes)> {
    var r := ReadTagged(s, SEQUENCE);
    if r.None? then None
    else
      var a := ReadAlgorithmInner(r.value.0);
      if a.None? then None else Some((a.value.0, r.value.1))
  }

  predicate NormalAlgorithm(a: AlgorithmIdentifier) {
    a.parameters == [] || IsElement(a.parameters)
  }

  lemma AlgorithmInnerRoundTrips(a: AlgorithmIdentifier)
    requires NormalAlgorithm(a) && Fits(WriteAlgorithmInner(a))
    ensures ReadAlgorithmInner(WriteAlgorithmInner(a)) == Some((a, []))
  {
    ReadTaggedOf(OBJECT_IDENTIFIER, a.algorithm, a.parameters);
    if a.parameters != [] {
      assert a.parameters + [] == a.parameters;
      ReadAnyOf(a.parameters, []);
    }
  }

  lemma AlgorithmRoundTrips(a: AlgorithmIdentifier, tail: Bytes)
    requires NormalAlgorithm(a) && Fits(WriteAlgorithm(a))
    ensures ReadAlgorithm(WriteAlgorithm(a) + tail) == Some((a, tail)) && Peek(WriteAlgorithm(a) + tail, SEQUENCE)
  {
    AlgorithmInnerRoundTrips(a);
    ReadTaggedOf(SEQUENCE, WriteAlgorithmInner(a), tail);
  }

  // ---------------------------------------------------------------------------
  // failInfo
  // ---------------------------------------------------------------------------

  function TrailingZeros(v: nat): nat
    requires v > 0
  {
    if v % 2 == 1 then 0 else 1 + TrailingZeros(v / 2)
  }

  function PowerOfTwo(k: nat): nat {
    if k == 0 then 1 else 2 * PowerOfTwo(k - 1)
  }

  /** Low bits decide, unless they are all zero. */
  lemma {:induction false} LowBits(q: nat, r: nat, k: nat)
    requires 0 < r < PowerOfTwo(k)
    ensures TrailingZeros(q * PowerOfTwo(k) + r) == TrailingZeros(r) < k
  {
    var p := PowerOfTwo(k - 1);
    var v := q * PowerOfTwo(k) + r;
    assert v == 2 * (q * p) + r;
    if r % 2 == 0 {
      assert v / 2 == q * p + r / 2;
      LowBits(q, r / 2, k - 1);
    }
  }

  lemma LowOctet(v: nat)
    requires v % 256 != 0
    ensures TrailingZeros(v) == TrailingZeros(v % 256) < 8
  {
    assert PowerOfTwo(8) == 256;
    LowBits(v / 256, v % 256, 8);
    assert v / 256 * PowerOfTwo(8) + v % 256 == v;
  }

  lemma Doubled(w: nat)
    requires w > 0
    ensures TrailingZeros(2 * w) == 1 + TrailingZeros(w)
  {
  }

  lemma Nibble(w: nat)
    requires w > 0
    ensures TrailingZeros(16 * w) == 4 + TrailingZeros(w)
  {
    Doubled(w);
    Doubled(2 * w);
    Doubled(4 * w);
    Doubled(8 * w);
  }

  lemma ZeroOctet(v: nat)
    requires v > 0 && v % 256 == 0
    ensures TrailingZeros(v) == 8 + TrailingZeros(v / 256)
  {
    var w := v / 256;
    Nibble(w);
    Nibble(16 * w);
    assert v == 16 * (16 * w);
  }

  /** The lowest octet that is not zero, counted from the end, decides. */
  lemma TrailingOctets(v: nat) returns (z: nat)
    requires 0 < v < TWO_32
    ensures z < 4 && z == TrailingZeros(v) / 8
    ensures z >= 1 ==> v % 0x100 == 0
    ensures z >= 2 ==> v % 0x1_0000 == 0
    ensures z >= 3 ==> v % 0x100_0000 == 0
    ensures Uint32(v)[3 - z] != 0 && TrailingZeros(Uint32(v)[3 - z] as int) == TrailingZeros(v) % 8
  {
    var w := v / 0x100;
    var x := w / 0x100;
    var y := x / 0x100;
    assert w == v / 0x100 && x == v / 0x1_0000 && y == v / 0x100_0000;
    if v % 256 != 0 {
      z := 0;
      LowOctet(v);
    } else if w % 256 != 0 {
      z := 1;
      ZeroOctet(v);
      LowOctet(w);
    } else if x % 256 != 0 {
      z := 2;
      ZeroOctet(v);
      ZeroOctet(w);
      LowOctet(x);
    } else {
      z := 3;
      ZeroOctet(v);
      ZeroOctet(w);
      ZeroOctet(x);
      assert y % 256 == y;
      LowOctet(y);
    }
  }

  function Uint32(v: nat): Bytes
    requires v < TWO_32
  {
    [v / 0x100_0000, v / 0x1_0000 % 256, v / 0x100 % 256, v % 256]
  }

  /** The content of the BIT STRING: octets and bits that are zero at the end are left out. */
  function WriteFailInfo(v: nat): Bytes
    requires 0 < v < TWO_32
  {
    var trailing := TrailingZeros(v);
    assert trailing / 8 < 4 by { var z := TrailingOctets(v); }
    [trailing % 8] + Uint32(v)[..4 - trailing / 8]
  }

  /** The value of at most four octets, as the byte loop of the source builds it. */
  function FailInfoValue(bs: Bytes): nat {
    (if |bs| > 0 then bs[0] * 0x100_0000 else 0) + (if |bs| > 1 then bs[1] * 0x1_0000 else 0)
    + (if |bs| > 2 then bs[2] * 0x100 else 0) + (if |bs| > 3 then bs[3] as int else 0)
  }

  /** The byte loop: the octet number `i` goes to bit 8 * (3 - i). */
  method AccumulateFailInfo(bits: Bytes) returns (v: nat)
    ensures v == FailInfoValue(bits)
  {
    v := 0;
    var i: nat, weight: int := 0, 0x100_0000;
    while i < 4 && i < |bits|
      invariant 0 <= i <= 4 && i <= |bits|
      invariant weight == if i == 0 then 0x100_0000 else if i == 1 then 0x1_0000 else if i == 2 then 0x100
                else if i == 3 then 1 else 0
      invariant v == FailInfoValue(bits[..i])
    {
      v := v + bits[i] * weight;
      weight := weight / 256;
      i := i + 1;
    }
    assert i == |bits| ==> bits[..i] == bits;
  }

  lemma Octets(v: nat)
    requires v < TWO_32
    ensures FailInfoValue(Uint32(v)) == v
    ensures v % 0x1_0000 == 0 ==> Uint32(v)[2] == 0 == Uint32(v)[3]
    ensures v % 0x100_0000 == 0 ==> Uint32(v)[1] == 0 == Uint32(v)[2] && Uint32(v)[3] == 0
  {
    var w := v / 0x100;
    var x := w / 0x100;
    assert v == 0x100 * w + v % 256 && w == 0x100 * x + w % 256 && x == 0x100 * (x / 0x100) + x % 256;
    assert w == v / 0x100 && x == v / 0x1_0000 && x / 0x100 == v / 0x100_0000;
  }

  lemma TrimmedValue(v: nat, z: nat)
    requires v < TWO_32 && z < 4
    requires z >= 1 ==> v % 0x100 == 0
    requires z >= 2 ==> v % 0x1_0000 == 0
    requires z >= 3 ==> v % 0x100_0000 == 0
    ensures FailInfoValue(Uint32(v)[..4 - z]) == v
  {
    Octets(v);
    assert Uint32(v)[..4] == Uint32(v);
  }

  /** The bits survive the trimming, and the trimming is minimal: the last octet is
      not zero and its unused bits are exactly its trailing zeros, as section 11.2.2
      of X.690 requires. */
  lemma FailInfoSurvives(v: nat)
    requires 0 < v < TWO_32
    ensures var content := WriteFailInfo(v);
            && 2 <= |content| <= 5 && FailInfoValue(content[1..]) == v
            && var last, unused := content[|content| - 1], content[0] as int;
               last != 0 && unused < 8 && unused == TrailingZeros(last as int)
  {
    var z := TrailingOctets(v);
    assert WriteFailInfo(v)[1..] == Uint32(v)[..4 - z];
    TrimmedValue(v, z);
  }

  // ---------------------------------------------------------------------------
  // PKIStatusInfo and ErrorMsgContent
  // ---------------------------------------------------------------------------

  datatype PkiStatusInfo = PkiStatusInfo(status: int, text: seq<Bytes>, failInfo: nat)

  predicate NormalStatus(si: PkiStatusInfo) {
    FitsInt64(si.status) && si.failInfo < TWO_32
  }

  function WriteFail(v: nat): Bytes {
    if 0 < v < TWO_32 then Element(BIT_STRING, WriteFailInfo(v)) else []
  }

  function ReadOptionalText(s: Bytes): Option<(seq<Bytes>, Bytes)> {
    if Peek(s, SEQUENCE) then ReadText(s) else Some(([], s))
  }

  function ReadFail(s: Bytes): Option<(nat, Bytes)> {
    if !Peek(s, BIT_STRING) then Some((0, s))
    else
      var r := ReadTagged(s, BIT_STRING);
      if r.None? || r.value.0 == [] then None else Some((FailInfoValue(r.value.0[1..]), r.value.1))
  }

  function WriteStatusContent(si: PkiStatusInfo): Bytes {
    Int64(si.status) + (WriteText(si.text) + WriteFail(si.failInfo))
  }

  function WriteStatus(si: PkiStatusInfo): Bytes {
    Element(SEQUENCE, WriteStatusContent(si))
  }

  /** What follows the bit string is ignored. */
  function ReadStatusContent(s: Bytes): Option<PkiStatusInfo> {
    var status := ReadInt64(s);
    if status.None? then None
    else
      var text := ReadOptionalText(status.value.1);
      if text.None? then None
      else
        var fail := ReadFail(text.value.1);
        if fail.None? then None else Some(PkiStatusInfo(status.value.0, text.value.0, fail.value.0))
  }

  function ReadStatus(s: Bytes): Option<(PkiStatusInfo, Bytes)> {
    ReadWrapped(SEQUENCE, ReadStatusContent, s)
  }

  lemma OptionalTextRoundTrips(text: seq<Bytes>, tail: Bytes)
    requires Fits(WriteText(text)) && (text == [] ==> !Peek(tail, SEQUENCE))
    ensures ReadOptionalText(WriteText(text) + tail) == Some((text, tail))
  {
    if text != [] {
      TextRoundTrips(text, tail);
    } else {
      assert [] + tail == tail;
    }
  }

  lemma FailRoundTrips(v: nat, tail: Bytes)
    requires v < TWO_32 && (v == 0 ==> !Peek(tail, BIT_STRING))
    ensures ReadFail(WriteFail(v) + tail) == Some((v, tail))
  {
    if v > 0 {
      FailInfoSurvives(v);
      ReadTaggedOf(BIT_STRING, WriteFailInfo(v), tail);
    } else {
      assert [] + tail == tail;
    }
  }

  lemma StatusContentRoundTrips(si: PkiStatusInfo)
    requires NormalStatus(si) && Fits(WriteStatusContent(si))
    ensures ReadStatusContent(WriteStatusContent(si)) == Some(si)
  {
    var text, fail := WriteText(si.text), WriteFail(si.failInfo);
    ReadInt64Of(si.status, text + fail);
    OptionalTextRoundTrips(si.text, fail);
    assert fail + [] == fail;
    FailRoundTrips(si.failInfo, []);
  }

  lemma StatusRoundTrips(si: PkiStatusInfo, tail: Bytes)
    requires NormalStatus(si) && Fits(WriteStatus(si))
    ensures ReadStatus(WriteStatus(si) + tail) == Some((si, tail)) && Peek(WriteStatus(si) + tail, SEQUENCE)
  {
    StatusContentRoundTrips(si);
    WrappedRoundTrips(SEQUENCE, WriteStatusContent(si), ReadStatusContent, si, tail);
  }

  datatype ErrorMsg = ErrorMsg(info: PkiStatusInfo, code: int, details: seq<Bytes>)

  predicate NormalError(e: ErrorMsg) {
    NormalStatus(e.info) && FitsInt64(e.code)
  }

  function WriteCode(code: int): Bytes {
    if code == 0 then [] else Int64(code)
  }

  function ReadCode(s: Bytes): Option<(int, Bytes)> {
    if Peek(s, INTEGER) then ReadInt64(s) else Some((0, s))
  }

  function WriteErrorContent(e: ErrorMsg): Bytes {
    WriteStatus(e.info) + (WriteCode(e.code) + WriteText(e.details))
  }

  function WriteError(e: ErrorMsg): Bytes {
    Element(SEQUENCE, WriteErrorContent(e))
  }

  function ReadErrorContent(s: Bytes): Option<ErrorMsg> {
    var info := ReadStatus(s);
    if info.None? then None
    else
      var code := ReadCode(info.value.1);
      if code.None? then None
      else
        var details := ReadOptionalText(code.value.1);
        if details.None? then None else Some(ErrorMsg(info.value.0, code.value.0, details.value.0))
  }

  function ReadError(s: Bytes): Option<(ErrorMsg, Bytes)> {
    ReadWrapped(SEQUENCE, ReadErrorContent, s)
  }

  lemma CodeRoundTrips(code: int, tail: Bytes)
    requires FitsInt64(code) && (code == 0 ==> !Peek(tail, INTEGER))
    ensures ReadCode(WriteCode(code) + tail) == Some((code, tail))
  {
    if code != 0 {
      ReadInt64Of(code, tail);
    } else {
      assert [] + tail == tail;
    }
  }

  lemma ErrorContentRoundTrips(e: ErrorMsg)
    requires NormalError(e) && Fits(WriteErrorContent(e))
    ensures ReadErrorContent(WriteErrorContent(e)) == Some(e)
  {
    var code, details := WriteCode(e.code), WriteText(e.details);
    StatusRoundTrips(e.info, code + details);
    CodeRoundTrips(e.code, details);
    assert details + [] == details;
    OptionalTextRoundTrips(e.details, []);
  }

  lemma ErrorRoundTrips(e: ErrorMsg, tail: Bytes)
    requires NormalError(e) && Fits(WriteError(e))
    ensures ReadError(WriteError(e) + tail) == Some((e, tail))
  {
    ErrorContentRoundTrips(e);
    WrappedRoundTrips(SEQUENCE, WriteErrorContent(e), ReadErrorContent, e, tail);
  }

  // ---------------------------------------------------------------------------
  // CertConfirmContent
  // ---------------------------------------------------------------------------

  datatype WireCertStatus = WireCertStatus(certHash: Bytes, certReqID: int, info: Option<PkiStatusInfo>,
                                           hashAlg: Option<AlgorithmIdentifier>)

  predicate NormalCertStatus(cs: WireCertStatus) {
    && FitsInt64(cs.certReqID)
    && (cs.info.Some? ==> NormalStatus(cs.info.value))
    && (cs.hashAlg.Some? ==> NormalAlgorithm(cs.hashAlg.value))
  }

  function WriteOptionalStatus(si: Option<PkiStatusInfo>): Bytes {
    if si.Some? then WriteStatus(si.value) else []
  }

  function ReadOptionalStatus(s: Bytes): Option<(Option<PkiStatusInfo>, Bytes)> {
    if !Peek(s, SEQUENCE) then Some((None, s))
    else
      var r := ReadStatus(s);
      if r.None? then None else Some((Some(r.value.0), r.value.1))
  }

  function WriteHashAlg(a: Option<AlgorithmIdentifier>): Bytes {
    if a.Some? then Element(Context(0), WriteAlgorithm(a.value)) else []
  }

  /** The explicit tag, the sequence in it and its contents must all be used up. */
  function ReadHashAlg(s: Bytes): Option<(Option<AlgorithmIdentifier>, Bytes)> {
    if !Peek(s, Context(0)) then Some((None, s))
    else
      var outer := ReadTagged(s, Context(0));
      if outer.None? then None
      else
        var inner := ReadTagged(outer.value.0, SEQUENCE);
        if inner.None? || inner.value.1 != [] then None
        else
          var a := ReadAlgorithmInner(inner.value.0);
          if a.None? || a.value.1 != [] then None else Some((Some(a.value.0), outer.value.1))
  }

  function WriteStatusAndAlg(info: Option<PkiStatusInfo>, alg: Option<AlgorithmIdentifier>): Bytes {
    WriteOptionalStatus(info) + WriteHashAlg(alg)
  }

  /** The optional fields must use up the sequence. */
  function ReadStatusAndAlg(s: Bytes): Option<(Option<PkiStatusInfo>, Option<AlgorithmIdentifier>)> {
    var info := ReadOptionalStatus(s);
    if info.None? then None
    else
      var alg := ReadHashAlg(info.value.1);
      if alg.None? || alg.value.1 != [] then None else Some((info.value.0, alg.value.0))
  }

  function WriteCertStatusContent(cs: WireCertStatus): Bytes {
    Element(OCTET_STRING, cs.certHash) + (Int64(cs.certReqID) + WriteStatusAndAlg(cs.info, cs.hashAlg))
  }

  function WriteCertStatus(cs: WireCertStatus): Bytes {
    Element(SEQUENCE, WriteCertStatusContent(cs))
  }

  function ReadCertStatusContent(s: Bytes): Option<WireCertStatus> {
    var hash := ReadTagged(s, OCTET_STRING);
    if hash.None? then None
    else
      var id := ReadInt64(hash.value.1);
      if id.None? then None
      else
        var optional := ReadStatusAndAlg(id.value.1);
        if optional.None? then None
        else Some(WireCertStatus(hash.value.0, id.value.0, optional.value.0, optional.value.1))
  }

  function ReadCertStatus(s: Bytes): Option<(WireCertStatus, Bytes)> {
    ReadWrapped(SEQUENCE, ReadCertStatusContent, s)
  }

  lemma OptionalStatusRoundTrips(si: Option<PkiStatusInfo>, tail: Bytes)
    requires (if si.Some? then NormalStatus(si.value) else !Peek(tail, SEQUENCE)) && Fits(WriteOptionalStatus(si))
    ensures ReadOptionalStatus(WriteOptionalStatus(si) + tail) == Some((si, tail))
  {
    if si.Some? {
      StatusRoundTrips(si.value, tail);
    } else {
      assert [] + tail == tail;
    }
  }

  lemma HashAlgRoundTrips(a: Option<AlgorithmIdentifier>)
    requires (a.Some? ==> NormalAlgorithm(a.value)) && Fits(WriteHashAlg(a))
    ensures ReadHashAlg(WriteHashAlg(a)) == Some((a, []))
    ensures !Peek(WriteHashAlg(a), SEQUENCE)
  {
    if a.Some? {
      var inner := WriteAlgorithmInner(a.value);
      assert Element(SEQUENCE, inner) + [] == Element(SEQUENCE, inner);
      assert WriteHashAlg(a) + [] == WriteHashAlg(a);
      AlgorithmInnerRoundTrips(a.value);
      ReadTaggedOf(SEQUENCE, inner, []);
      ReadTaggedOf(Context(0), WriteAlgorithm(a.value), []);
    }
  }

  lemma StatusAndAlgRoundTrip(info: Option<PkiStatusInfo>, alg: Option<AlgorithmIdentifier>)
    requires (info.Some? ==> NormalStatus(info.value)) && (alg.Some? ==> NormalAlgorithm(alg.value))
    requires Fits(WriteStatusAndAlg(info, alg))
    ensures ReadStatusAndAlg(WriteStatusAndAlg(info, alg)) == Some((info, alg))
  {
    HashAlgRoundTrips(alg);
    OptionalStatusRoundTrips(info, WriteHashAlg(alg));
  }

  lemma CertStatusParts(hash: Bytes, id: int, optional: Bytes, info: Option<PkiStatusInfo>,
                        alg: Option<AlgorithmIdentifier>)
    requires Fits(hash) && FitsInt64(id) && ReadStatusAndAlg(optional) == Some((info, alg))
    ensures ReadCertStatusContent(Element(OCTET_STRING, hash) + (Int64(id) + optional))
            == Some(WireCertStatus(hash, id, info, alg))
  {
    ReadTaggedOf(OCTET_STRING, hash, Int64(id) + optional);
    ReadInt64Of(id, optional);
  }

  lemma CertStatusWraps(content: Bytes, cs: WireCertStatus, tail: Bytes)
    requires Fits(content) && ReadCertStatusContent(content) == Some(cs)
    ensures ReadCertStatus(Element(SEQUENCE, content) + tail) == Some((cs, tail))
  {
    WrappedRoundTrips(SEQUENCE, content, ReadCertStatusContent, cs, tail);
  }

  lemma CertStatusRoundTrips(cs: WireCertStatus, tail: Bytes)
    requires NormalCertStatus(cs) && Fits(WriteCertStatus(cs))
    ensures ReadCertStatus(WriteCertStatus(cs) + tail) == Some((cs, tail))
  {
    var optional := WriteStatusAndAlg(cs.info, cs.hashAlg);
    StatusAndAlgRoundTrip(cs.info, cs.hashAlg);
    CertStatusParts(cs.certHash, cs.certReqID, optional, cs.info, cs.hashAlg);
    CertStatusWraps(Element(OCTET_STRING, cs.certHash) + (Int64(cs.certReqID) + optional), cs, tail);
  }

  /** A list of values inside a SEQUENCE, read until it is used up. */
  function ReadSequenceOf<T>(read: Bytes -> Option<(T, Bytes)>, s: Bytes): Option<(seq<T>, Bytes)> {
    var r := ReadTagged(s, SEQUENCE);
    if r.None? then None
    else
      var items := ReadAll(read, r.value.0);
      if items.None? then None else Some((items.value, r.value.1))
  }

  function WriteSequenceOf<T>(write: T -> Bytes, xs: seq<T>): Bytes {
    Element(SEQUENCE, WriteAll(write, xs))
  }

  lemma SequenceOfReads<T>(read: Bytes -> Option<(T, Bytes)>, written: Bytes, xs: seq<T>, tail: Bytes)
    requires Fits(written) && ReadAll(read, written) == Some(xs)
    ensures ReadSequenceOf(read, Element(SEQUENCE, written) + tail) == Some((xs, tail))
  {
    ReadTaggedOf(SEQUENCE, written, tail);
  }

  lemma SequenceOfRoundTrips<T(!new)>(write: T -> Bytes, read: Bytes -> Option<(T, Bytes)>, xs: seq<T>, tail: Bytes)
    requires forall i :: 0 <= i < |xs| ==> RoundTrips(write, read, xs[i])
    requires Fits(WriteSequenceOf(write, xs))
    ensures ReadSequenceOf(read, WriteSequenceOf(write, xs) + tail) == Some((xs, tail))
    ensures Peek(WriteSequenceOf(write, xs) + tail, SEQUENCE)
  {
    ListRoundTrips(write, read, xs);
    ReadTaggedOf(SEQUENCE, WriteAll(write, xs), tail);
  }

  lemma SequenceReadsAs<T(!new), U(!new)>(write: T -> Bytes, read: Bytes -> Option<(U, Bytes)>, arrives: T -> U,
                                          xs: seq<T>, tail: Bytes)
    requires forall i :: 0 <= i < |xs| ==> ReadsAs(write, read, arrives, xs[i])
    requires Fits(WriteSequenceOf(write, xs))
    ensures var r := ReadSequenceOf(read, WriteSequenceOf(write, xs) + tail);
            r.Some? && r.value.1 == tail && |r.value.0| == |xs| && forall i :: 0 <= i < |xs| ==>
                r.value.0[i] == arrives(xs[i])
  {
    ListReadsAs(write, read, arrives, xs);
    ReadTaggedOf(SEQUENCE, WriteAll(write, xs), tail);
  }

  lemma CertStatusListed(cs: WireCertStatus)
    requires NormalCertStatus(cs) && Fits(WriteCertStatus(cs))
    ensures RoundTrips(WriteCertStatus, ReadCertStatus, cs)
  {
    forall tail ensures ReadCertStatus(WriteCertStatus(cs) + tail) == Some((cs, tail)) {
      CertStatusRoundTrips(cs, tail);
    }
  }

  lemma CertConfirmRoundTrips(statuses: seq<WireCertStatus>, tail: Bytes)
    requires forall i :: 0 <= i < |statuses| ==> NormalCertStatus(statuses[i])
    requires Fits(WriteSequenceOf(WriteCertStatus, statuses))
    ensures ReadSequenceOf(ReadCertStatus, WriteSequenceOf(WriteCertStatus, statuses) + tail) == Some((statuses, tail))
  {
    forall i | 0 <= i < |statuses| ensures RoundTrips(WriteCertStatus, ReadCertStatus, statuses[i]) {
      WriteAllSize(WriteCertStatus, statuses, i);
      CertStatusListed(statuses[i]);
    }
    SequenceOfRoundTrips(WriteCertStatus, ReadCertStatus, statuses, tail);
  }
}
