/**
  MAC protection parameters: what verification captures, what an echo chooses
  (pkicmp/verify.go, pkicmp/credentials.go, pkicmp/protect.go).

  A `ProtectionAlg` is a decoded AlgorithmIdentifier. Its DER is in module MacCodec.
 */
module MacParams {
  import opened Types

  // Object identifiers as their content octets.
  type Oid = Bytes

  const OID_SHA1: Oid := [43, 14, 3, 2, 26]
  const OID_SHA224: Oid := [96, 134, 72, 1, 101, 3, 4, 2, 4]
  const OID_SHA256: Oid := [96, 134, 72, 1, 101, 3, 4, 2, 1]
  const OID_SHA384: Oid := [96, 134, 72, 1, 101, 3, 4, 2, 2]
  const OID_SHA512: Oid := [96, 134, 72, 1, 101, 3, 4, 2, 3]
  const OID_PBM: Oid := [42, 134, 72, 134, 246, 125, 7, 66, 13]
  const OID_PBMAC1: Oid := [42, 134, 72, 134, 247, 13, 1, 5, 14]
  const OID_PBKDF2: Oid := [42, 134, 72, 134, 247, 13, 1, 5, 12]
  const OID_PBM_HMAC_SHA1: Oid := [43, 6, 1, 5, 5, 8, 1, 2]
  const OID_HMAC_SHA1: Oid := [42, 134, 72, 134, 247, 13, 2, 7]
  const OID_HMAC_SHA224: Oid := [42, 134, 72, 134, 247, 13, 2, 8]
  const OID_HMAC_SHA256: Oid := [42, 134, 72, 134, 247, 13, 2, 9]
  const OID_HMAC_SHA384: Oid := [42, 134, 72, 134, 247, 13, 2, 10]
  const OID_HMAC_SHA512: Oid := [42, 134, 72, 134, 247, 13, 2, 11]

  const DEFAULT_ITERATION_COUNT := 10000
  const MIN_ITERATION_COUNT := 1
  const MAX_ITERATION_COUNT := 500000
  const MIN_KEY_LENGTH := 16

  function HashFromOid(oid: Oid): Option<Hash> {
    if oid == OID_SHA1 then Some(SHA1)
    else if oid == OID_SHA224 then Some(SHA224)
    else if oid == OID_SHA256 then Some(SHA256)
    else if oid == OID_SHA384 then Some(SHA384)
    else if oid == OID_SHA512 then Some(SHA512)
    else None
  }

  function HmacHashFromOid(oid: Oid): Option<Hash> {
    if oid == OID_HMAC_SHA1 || oid == OID_PBM_HMAC_SHA1 then Some(SHA1)
    else if oid == OID_HMAC_SHA224 then Some(SHA224)
    else if oid == OID_HMAC_SHA256 then Some(SHA256)
    else if oid == OID_HMAC_SHA384 then Some(SHA384)
    else if oid == OID_HMAC_SHA512 then Some(SHA512)
    else None
  }

  function Size(h: Hash): int {
    match h
    case SHA1 => 20
    case SHA224 => 28
    case SHA256 => 32
    case SHA384 => 48
    case SHA512 => 64
    case OtherHash => 0
  }

  function BlockSize(h: Hash): int {
    match h
    case SHA1 | SHA224 | SHA256 => 64
    case SHA384 | SHA512 => 128
    case OtherHash => 0
  }

  /** Protection algorithms. A key length of zero and an absent prf are what the
      peer left out. `Unsupported` is any other identifier, and one whose
      parameters do not decode. */
  datatype ProtectionAlg =
    | PasswordBasedMac(salt: Bytes, owf: Oid, owfParams: Bytes, iterations: int, mac: Oid, macParams: Bytes)
    | Pbmac1(kdf: Oid, salt: Bytes, iterations: int, keyLength: int, prf: Option<Oid>, mac: Oid)
    | Signature(oid: Oid)
    | Unsupported(oid: Oid)

  /** What a MACCredentialOption sets: the parameters verification decoded, or the
      algorithm of a received message to be decoded again. */
  datatype MacOption =
    | CapturedPbm(iterations: int, owf: Oid, mac: Oid, owfParams: Bytes, macParams: Bytes)
    | CapturedPbmac1(iterations: int, keyLength: int, prf: Oid, mac: Oid)
    | EchoAlgorithm(alg: ProtectionAlg)

  predicate ValidIterationCount(n: int) {
    MIN_ITERATION_COUNT <= n <= MAX_ITERATION_COUNT
  }

  predicate ValidKeyLength(n: int, macHash: Hash) {
    MIN_KEY_LENGTH <= n <= BlockSize(macHash)
  }

  // PBKDF2-params default an absent prf to HMAC-SHA-1.
  function PrfOf(alg: ProtectionAlg): Oid
    requires alg.Pbmac1?
  {
    if alg.prf.None? then OID_HMAC_SHA1 else alg.prf.value
  }

  /** The checks verifyPBM and verifyPBMAC1 make on the parameters, and what they
      capture when the MAC matches. */
  function Captured(alg: ProtectionAlg): Option<MacOption> {
    match alg
    case PasswordBasedMac(_, owf, owfParams, iterations, mac, macParams) =>
      var hash, macHash := HashFromOid(owf), HmacHashFromOid(mac);
      if !ValidIterationCount(iterations) || hash.None? || macHash.None? then None
      else if Size(macHash.value) > Size(hash.value) then None
      else Some(CapturedPbm(iterations, owf, mac, owfParams, macParams))
    case Pbmac1(kdf, _, iterations, keyLength, _, mac) =>
      var prfHash, macHash := HmacHashFromOid(PrfOf(alg)), HmacHashFromOid(mac);
      if kdf != OID_PBKDF2 || !ValidIterationCount(iterations) || prfHash.None? || macHash.None? then None
      else
        var n := if keyLength == 0 then Size(macHash.value) else keyLength;
        if !ValidKeyLength(n, macHash.value) then None
        else Some(CapturedPbmac1(iterations, n, PrfOf(alg), mac))
    case _ => None
  }

  // X.690 section 11.5 forbids encoding a prf that holds its default.
  function ProtectPbmac1(salt: Bytes, iterationCount: int, keyLength: int, prf: Oid, mac: Oid): Option<ProtectionAlg> {
    var iterations := if iterationCount == 0 then DEFAULT_ITERATION_COUNT else iterationCount;
    var prfHash, macHash := HmacHashFromOid(prf), HmacHashFromOid(mac);
    if !ValidIterationCount(iterations) || prfHash.None? || macHash.None? then None
    else
      var n := if keyLength == 0 then Size(macHash.value) else keyLength;
      if !ValidKeyLength(n, macHash.value) then None
      else Some(Pbmac1(OID_PBKDF2, salt, iterations, n, if prf == OID_HMAC_SHA1 then None else Some(prf), mac))
  }

  function ProtectPbm(salt: Bytes, iterationCount: int, owf: Oid, mac: Oid, owfParams: Bytes,
                      macParams: Bytes): Option<ProtectionAlg> {
    var iterations := if iterationCount == 0 then DEFAULT_ITERATION_COUNT else iterationCount;
    var hash, macHash := HashFromOid(owf), HmacHashFromOid(mac);
    if !ValidIterationCount(iterations) || hash.None? || macHash.None? then None
    else if Size(macHash.value) > Size(hash.value) then None
    else Some(PasswordBasedMac(salt, owf, owfParams, iterations, mac, macParams))
  }

  /** The protectionAlg Protect puts in the header, or None when it reports an error.
      Without an option the default is PBMAC1 with HMAC-SHA-256. */
  function Protect(option: Option<MacOption>, salt: Bytes): (r: Option<ProtectionAlg>)
    ensures r.Some? ==> r.value.PasswordBasedMac? || r.value.Pbmac1?
  {
    match option
    case None => ProtectPbmac1(salt, 0, 0, OID_HMAC_SHA256, OID_HMAC_SHA256)
    case Some(CapturedPbm(iterations, owf, mac, owfParams, macParams)) =>
      ProtectPbm(salt, iterations, owf, mac, owfParams, macParams)
    case Some(CapturedPbmac1(iterations, keyLength, prf, mac)) =>
      ProtectPbmac1(salt, iterations, keyLength, prf, mac)
    case Some(EchoAlgorithm(alg)) =>
      match alg {
        case Pbmac1(kdf, _, iterations, keyLength, _, mac) =>
          if kdf != OID_PBKDF2 then None else ProtectPbmac1(salt, iterations, keyLength, PrfOf(alg), mac)
        case PasswordBasedMac(_, owf, owfParams, iterations, mac, macParams) =>
          if !ValidIterationCount(iterations) then None
          else ProtectPbm(salt, iterations, owf, mac, owfParams, macParams)
        case _ => None
      }
  }

  /** Parameters that verified can be echoed, and the live echo writes the same
      algorithm as the echo of a stored identifier. */
  lemma VerifiedParametersEcho(alg: ProtectionAlg, salt: Bytes)
    requires Captured(alg).Some?
    ensures Protect(Captured(alg), salt).Some?
    ensures Protect(Captured(alg), salt) == Protect(Some(EchoAlgorithm(alg)), salt)
    ensures Captured(Protect(Captured(alg), salt).value) == Captured(alg)
  {
  }

  // ---------------------------------------------------------------------------
  // Which suites are served
  // ---------------------------------------------------------------------------

  /** Digest size of a hash by its identifier (SHA-1 and SHA-2), or 0. */
  function DigestSize(oid: Oid): int {
    if oid == [43, 14, 3, 2, 26] then 20
    else if oid == [96, 134, 72, 1, 101, 3, 4, 2, 4] then 28
    else if oid == [96, 134, 72, 1, 101, 3, 4, 2, 1] then 32
    else if oid == [96, 134, 72, 1, 101, 3, 4, 2, 2] then 48
    else if oid == [96, 134, 72, 1, 101, 3, 4, 2, 3] then 64
    else 0
  }

  /** Digest size of an HMAC by its identifier (RFC 8018 appendix B.1, and the one
      of RFC 4210 for HMAC-SHA-1), or 0. */
  function HmacSize(oid: Oid): int {
    if oid == [42, 134, 72, 134, 247, 13, 2, 7] || oid == [43, 6, 1, 5, 5, 8, 1, 2] then 20
    else if oid == [42, 134, 72, 134, 247, 13, 2, 8] then 28
    else if oid == [42, 134, 72, 134, 247, 13, 2, 9] then 32
    else if oid == [42, 134, 72, 134, 247, 13, 2, 10] then 48
    else if oid == [42, 134, 72, 134, 247, 13, 2, 11] then 64
    else 0
  }

  /** The prf of PBKDF2: HMAC-SHA-1 unless another is named (RFC 8018 appendix A.2). */
  function NamedPrf(prf: Option<Oid>): Oid {
    if prf.Some? then prf.value else [42, 134, 72, 134, 247, 13, 2, 7]
  }

  /** The length of the derived key: the digest size unless another is named. */
  function DerivedLength(keyLength: int, mac: Oid): int {
    if keyLength == 0 then HmacSize(mac) else keyLength
  }

  /** A suite is served with known algorithms, 1 to 500000 iterations, and a key the
      derivation can fill: for PBMAC1 from 16 octets to one block of the MAC's hash. */
  predicate Served(alg: ProtectionAlg) {
    match alg
    case PasswordBasedMac(_, owf, _, iterations, mac, _) =>
      1 <= iterations <= 500000 && DigestSize(owf) >= HmacSize(mac) > 0
    case Pbmac1(kdf, _, iterations, keyLength, prf, mac) =>
      && kdf == [42, 134, 72, 134, 247, 13, 1, 5, 12] && 1 <= iterations <= 500000
      && HmacSize(NamedPrf(prf)) > 0 && HmacSize(mac) > 0
      && 16 <= DerivedLength(keyLength, mac) <= (if HmacSize(mac) <= 32 then 64 else 128)
    case _ => false
  }

  lemma SizesAgree(oid: Oid)
    ensures DigestSize(oid) == if HashFromOid(oid).Some? then Size(HashFromOid(oid).value) else 0
    ensures HmacSize(oid) == if HmacHashFromOid(oid).Some? then Size(HmacHashFromOid(oid).value) else 0
    ensures HmacHashFromOid(oid).Some? ==>
              BlockSize(HmacHashFromOid(oid).value) == if HmacSize(oid) <= 32 then 64 else 128
  {
  }

  /** Verification captures parameters exactly of the suites that are served, and it
      captures what the sender wrote, with defaults filled in and without the salt. */
  lemma CapturesServed(alg: ProtectionAlg)
    ensures Captured(alg).Some? <==> Served(alg)
    ensures Served(alg) ==>
              Captured(alg).value ==
              if alg.Pbmac1?
              then CapturedPbmac1(alg.iterations, DerivedLength(alg.keyLength, alg.mac), NamedPrf(alg.prf), alg.mac)
              else CapturedPbm(alg.iterations, alg.owf, alg.mac, alg.owfParams, alg.macParams)
  {
    match alg
    case PasswordBasedMac(_, owf, _, _, mac, _) =>
      SizesAgree(owf);
      SizesAgree(mac);
    case Pbmac1(_, _, _, _, prf, mac) =>
      SizesAgree(NamedPrf(prf));
      SizesAgree(mac);
    case _ =>
  }

  /** The answer to an algorithm: its suite under a new salt, with the derived length
      written out and the default prf left out (X.690 section 11.5). */
  function Renewed(alg: ProtectionAlg, salt: Bytes): ProtectionAlg {
    match alg
    case PasswordBasedMac(_, owf, owfParams, iterations, mac, macParams) =>
      PasswordBasedMac(salt, owf, owfParams, iterations, mac, macParams)
    case Pbmac1(kdf, _, iterations, keyLength, prf, mac) =>
      var named := NamedPrf(prf);
      Pbmac1(kdf, salt, iterations, DerivedLength(keyLength, mac),
             if named == [42, 134, 72, 134, 247, 13, 2, 7] then None else Some(named), mac)
    case _ => alg
  }

  /** PBMAC1 protection takes no iterations for the default number. */
  function Counted(alg: ProtectionAlg): ProtectionAlg {
    if alg.Pbmac1? && alg.iterations == 0 then alg.(iterations := 10000) else alg
  }

  /** An algorithm is answered in kind exactly when its suite is served, and a sender of
      PBMAC1 that gives no iterations, whom verification refuses, would be answered too. */
  lemma EchoesServed(alg: ProtectionAlg, salt: Bytes)
    ensures Protect(Some(EchoAlgorithm(alg)), salt)
         == if Served(Counted(alg)) then Some(Renewed(Counted(alg), salt)) else None
  {
    match alg
    case PasswordBasedMac(_, owf, _, _, mac, _) =>
      SizesAgree(owf);
      SizesAgree(mac);
    case Pbmac1(_, _, _, _, prf, mac) =>
      SizesAgree(NamedPrf(prf));
      SizesAgree(mac);
    case _ =>
  }

  /** Without an algorithm to answer, PBMAC1: PBKDF2 with HMAC-SHA-256, 10000 iterations
      and 32 octets of key for HMAC-SHA-256. */
  lemma ProtectsByDefault(salt: Bytes)
    ensures Protect(None, salt)
         == Some(Pbmac1([42, 134, 72, 134, 247, 13, 1, 5, 12], salt, 10000, 32,
                        Some([42, 134, 72, 134, 247, 13, 2, 9]), [42, 134, 72, 134, 247, 13, 2, 9]))
  {
    SizesAgree([42, 134, 72, 134, 247, 13, 2, 9]);
  }
}
