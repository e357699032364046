/**
  Protocol messages as the client and the server see them after decoding.

  Bodies whose content does not decode are `None`. A certificate field that is
  absent, encrypted or unparsable is `None` too, since the client treats the three
  alike. Texts, times and names play no part in the exchange and are left out.
 */
module Messages {
  import opened Types
  import opened MacParams

  datatype Status = Accepted | GrantedWithMods | Rejection | Waiting | OtherStatus

  datatype Failure =
    | BadAlg | BadMessageCheck | BadRequest | BadTime | BadCertId | BadDataFormat | BadRecipientNonce | BadSenderNonce
    | TransactionIdInUse | UnsupportedVersion | SystemUnavail | SystemFailure | OtherFailure

  datatype StatusInfo = StatusInfo(status: Status, failInfo: set<Failure>)

  function Refusal(f: Failure): StatusInfo {
    StatusInfo(Rejection, {f})
  }

  datatype HashAlg = HashAlg(oid: Oid, parameters: Bytes)

  datatype CertStatus = CertStatus(certHash: Bytes, certReqID: int, statusInfo: Option<StatusInfo>,
                                   hashAlg: Option<HashAlg>)

  datatype CertResponse = CertResponse(certReqID: int, status: StatusInfo, cert: Option<Certificate>)

  datatype PollItem = PollItem(certReqID: int, checkAfter: int)

  datatype RepKind = IP | CP | KUP

  datatype Body =
    | CertReq(reqType: RequestType, ids: Option<seq<int>>)
    | CertRep(kind: RepKind, responses: Option<seq<CertResponse>>, caPubs: seq<Certificate>)
    | PollReq(pollIds: Option<seq<int>>)
    | PollRep(items: Option<seq<PollItem>>)
    | CertConf(statuses: Option<seq<CertStatus>>)
    | PkiConf
    | RevReq
    | RevRep(revStatus: StatusInfo)
    | Error(info: Option<StatusInfo>)
    | OtherBody

  datatype Header = Header(
    pvno: int,
    transactionID: Bytes,
    senderNonce: Bytes,
    recipNonce: Bytes,
    implicitConfirm: bool,
    protectionAlg: Option<ProtectionAlg>)

  datatype Message = Message(header: Header, body: Body, extraCerts: seq<Certificate>)

  // ---------------------------------------------------------------------------
  // Confirmation hashes (pkicmp/algorithms.go)
  // ---------------------------------------------------------------------------

  function HashOid(h: Hash): Oid {
    match h
    case SHA256 => OID_SHA256
    case SHA384 => OID_SHA384
    case _ => OID_SHA512
  }

  /** The hash of CertHash: the one the certificate was signed with. */
  function CertHashFunc(cert: Certificate): Option<Hash> {
    match cert.algorithm
    case Classic(h) => Some(h)
    case Composite(h) => Some(h)
    case _ => None
  }

  function NewCertStatus(digest: (Hash, Certificate) -> Bytes, cert: Certificate, certReqID: int): Option<CertStatus> {
    if cert.algorithm.MLDSA? then
      Some(CertStatus(digest(SHA512, cert), certReqID, None, Some(HashAlg(OID_SHA512, []))))
    else if CertHashFunc(cert).None? then None
    else
      Some(CertStatus(digest(CertHashFunc(cert).value, cert), certReqID, None,
                      if cert.algorithm.Composite? then Some(HashAlg(HashOid(cert.algorithm.preHash), [])) else None))
  }

  /** The hash the server compares a CertStatus with, or None when it cannot be computed. */
  function CertificateHash(digest: (Hash, Certificate) -> Bytes, cs: CertStatus, cert: Certificate): Option<Bytes> {
    if cs.hashAlg.None? then
      if CertHashFunc(cert).None? then None else Some(digest(CertHashFunc(cert).value, cert))
    else
      var h := HashFromOid(cs.hashAlg.value.oid);
      if h.None? || h.value == SHA1 || h.value == SHA224 then None
      else if cs.hashAlg.value.parameters !in {[], [5, 0]} then None
      else Some(digest(h.value, cert))
  }

  /** A certificate whose confirmation hash both sides compute alike: any but one
      signed with a composite algorithm whose pre-hash has no identifier of its own. */
  predicate ConfirmationIsUnderstood(cert: Certificate) {
    cert.algorithm.Composite? ==> cert.algorithm.preHash in {SHA256, SHA384, SHA512}
  }

  /** The hash the server computes from the client's confirmation is that of the
      algorithm the confirmation names. It is the hash in the confirmation for every
      certificate that is understood, and otherwise exactly when SHA-512, which is
      named then, and the pre-hash give the same digest. */
  lemma ConfirmationHashAgrees(digest: (Hash, Certificate) -> Bytes, cert: Certificate, certReqID: int)
    requires NewCertStatus(digest, cert, certReqID).Some?
    ensures var cs := NewCertStatus(digest, cert, certReqID).value;
            CertificateHash(digest, cs, cert) == Some(cs.certHash) <==>
            ConfirmationIsUnderstood(cert) || digest(SHA512, cert) == digest(cert.algorithm.preHash, cert)
  {
  }

  /** Were there a composite algorithm with SHA-224 as pre-hash, its confirmation would
      name SHA-512 and carry another digest. */
  lemma UnnamedPreHashDisagrees() returns (digest: (Hash, Certificate) -> Bytes, cert: Certificate)
    ensures var cs := NewCertStatus(digest, cert, 0);
            cs.Some? && CertificateHash(digest, cs.value, cert).Some?
                && CertificateHash(digest, cs.value, cert) != Some(cs.value.certHash)
  {
    digest := (h, c) => if h == SHA512 then [1] else [];
    cert := Certificate([0x30], [1], Composite(SHA224));
    ConfirmationHashAgrees(digest, cert, 0);
  }
}
