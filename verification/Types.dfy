/** Values shared by the client, the server and the wire format. */
module Types {

  type byte = x: int | 0 <= x < 256
  type Bytes = seq<byte>

  const TWO_32: int := 0x1_0000_0000

  predicate FitsInt64(n: int) {
    -0x8000_0000_0000_0000 <= n < 0x8000_0000_0000_0000
  }

  // Durations are nanoseconds.
  const SECOND := 1_000_000_000

  // The protocol versions of CMP2000 and CMP2021.
  const PVNO2 := 2
  const PVNO3 := 3

  datatype Option<+T> = None | Some(value: T)

  // Digest algorithms, in the order crypto.Hash gives them.
  datatype Hash = SHA1 | SHA224 | SHA256 | SHA384 | SHA512 | OtherHash

  /** How a certificate was signed, as far as its confirmation hash depends on it. */
  datatype SignatureAlgorithm = Classic(hash: Hash) | MLDSA | Composite(preHash: Hash) | UnknownAlgorithm

  /** A certificate is identified by its encoding. `key` is its encoded public key. */
  datatype Certificate = Certificate(der: Bytes, key: Bytes, algorithm: SignatureAlgorithm)

  datatype RequestType = RequestIR | RequestCR | RequestP10CR | RequestKUR
}
