/**
  The bytes that identify a transaction and a credential before they are hashed
  (server/transaction.go makeKey, server/handler.go credentialID).

  The source truncates each length prefix to 32 bits.
 */
module KeyInput {
  import opened Types

  function PutUint32(n: nat): (r: Bytes)
    ensures |r| == 4
  {
    var m := n % TWO_32;
    [m / 0x100_0000, m / 0x1_0000 % 256, m / 256 % 256, m % 256]
  }

  function Prefixed(b: Bytes): Bytes {
    PutUint32(|b|) + b
  }

  function KeyInput(credentialID: Bytes, transactionID: Bytes): Bytes {
    Prefixed(credentialID) + Prefixed(transactionID)
  }

  // "cmp-mac"
  const MAC_PREFIX: Bytes := [99, 109, 112, 45, 109, 97, 99]

  /** What names a credential: senderKID and sender name for a shared secret, the
      encoding of the certificate for a signature. */
  datatype Credential = MacCredential(senderKID: Bytes, nameKey: Bytes) | CertCredential(der: Bytes)

  function CredentialInput(c: Credential): Bytes {
    match c
    case MacCredential(kid, name) => MAC_PREFIX + Prefixed(kid) + Prefixed(name)
    case CertCredential(der) => der
  }

  lemma PutUint32Injective(m: nat, n: nat)
    requires m < TWO_32 && n < TWO_32 && PutUint32(m) == PutUint32(n)
    ensures m == n
  {
    Digits(m);
    Digits(n);
  }

  lemma Digits(n: nat)
    requires n < TWO_32
    ensures var d: seq<int> := PutUint32(n); n == ((d[0] * 256 + d[1]) * 256 + d[2]) * 256 + d[3]
  {
    var a, b := n / 256, n / 0x1_0000;
    assert n == 256 * a + n % 256;
    assert a / 256 == b && a == 256 * b + a % 256;
    assert b / 256 == n / 0x100_0000 && b == 256 * (b / 256) + b % 256;
  }

  /** A length-prefixed field followed by anything determines both. */
  lemma PrefixedSplits(a: Bytes, x: Bytes, b: Bytes, y: Bytes)
    requires |a| < TWO_32 && |b| < TWO_32 && Prefixed(a) + x == Prefixed(b) + y
    ensures a == b && x == y
  {
    var s := Prefixed(a) + x;
    assert s[..4] == PutUint32(|a|) && s[..4] == PutUint32(|b|);
    PutUint32Injective(|a|, |b|);
    assert s[4..4 + |a|] == a && s[4..4 + |b|] == b;
    assert s[4 + |a|..] == x && s[4 + |b|..] == y;
  }

  /** The key input is injective while credentials are shorter than 4 GiB. They are
      SHA-256 digests, so transactionIDs of any length are covered. */
  lemma KeyInputInjective(c1: Bytes, t1: Bytes, c2: Bytes, t2: Bytes)
    requires |c1| < TWO_32 && |c2| < TWO_32 && KeyInput(c1, t1) == KeyInput(c2, t2)
    ensures c1 == c2 && t1 == t2
  {
    PrefixedSplits(c1, Prefixed(t1), c2, Prefixed(t2));
    assert Prefixed(t1)[4..] == t1 && Prefixed(t2)[4..] == t2;
  }

  function Zeros(n: nat): Bytes {
    seq(n, i => 0)
  }

  /** Without that bound it is not: the truncated prefix hides a 4 GiB credential. */
  lemma KeyInputCollides()
    ensures KeyInput([], Zeros(TWO_32)) == KeyInput(Zeros(TWO_32), [])
  {
    assert PutUint32(0) == [0, 0, 0, 0] && PutUint32(TWO_32) == [0, 0, 0, 0];
    var a, b := KeyInput([], Zeros(TWO_32)), KeyInput(Zeros(TWO_32), []);
    assert |a| == |b| == TWO_32 + 8;
    forall i | 0 <= i < |a| ensures a[i] == 0 && b[i] == 0 {
    }
  }

  ghost predicate InjectiveBelow(n: nat) {
    forall c1: Bytes, t1: Bytes, c2: Bytes, t2: Bytes ::
      |c1| < n && |c2| < n && KeyInput(c1, t1) == KeyInput(c2, t2) ==> c1 == c2 && t1 == t2
  }

  /** So 4 GiB is exactly the bound on credentials that the key needs. */
  lemma InjectiveBelowFourGiB(n: nat)
    ensures InjectiveBelow(n) <==> n <= TWO_32
  {
    if n <= TWO_32 {
      forall c1: Bytes, t1: Bytes, c2: Bytes, t2: Bytes
        | |c1| < n && |c2| < n && KeyInput(c1, t1) == KeyInput(c2, t2)
        ensures c1 == c2 && t1 == t2
      {
        KeyInputInjective(c1, t1, c2, t2);
      }
    } else {
      KeyInputCollides();
      assert |Zeros(TWO_32)| == TWO_32;
    }
  }

  /** A certificate encoding is a SEQUENCE. */
  predicate WellFormed(c: Credential) {
    match c
    case MacCredential(kid, name) => |kid| < TWO_32
    case CertCredential(der) => |der| > 0 && der[0] == 0x30
  }

  /** Different credentials are hashed from different bytes. In particular a shared
      secret and a certificate never coincide. */
  lemma CredentialInputInjective(c: Credential, d: Credential)
    requires WellFormed(c) && WellFormed(d) && CredentialInput(c) == CredentialInput(d)
    ensures c == d
  {
    var s := CredentialInput(c);
    assert c.MacCredential? ==> s[0] == 99;
    assert d.MacCredential? ==> s[0] == 99;
    if c.MacCredential? && d.MacCredential? {
      assert s[7..] == Prefixed(c.senderKID) + Prefixed(c.nameKey);
      assert s[7..] == Prefixed(d.senderKID) + Prefixed(d.nameKey);
      KeyInputInjective(c.senderKID, c.nameKey, d.senderKID, d.nameKey);
    }
  }

  /** The bytes, at one transaction and two credentials: credential before transactionID,
      senderKID before name, each behind its length, most significant octet first. */
  lemma InputOctets()
    ensures KeyInput([1, 2], [3]) == [0, 0, 0, 2, 1, 2, 0, 0, 0, 1, 3]
    ensures CredentialInput(MacCredential([1], [2, 3]))
         == [0x63, 0x6d, 0x70, 0x2d, 0x6d, 0x61, 0x63, 0, 0, 0, 1, 1, 0, 0, 0, 2, 2, 3]
    ensures CredentialInput(CertCredential([0x30, 0])) == [0x30, 0]
  {
    assert Prefixed([1, 2]) == [0, 0, 0, 2, 1, 2] && Prefixed([3]) == [0, 0, 0, 1, 3];
    assert Prefixed([1]) == [0, 0, 0, 1, 1] && Prefixed([2, 3]) == [0, 0, 0, 2, 2, 3];
  }
}
