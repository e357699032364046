/**
  Certification path search below the trust anchors of crypto/x509
  (internal/certpath/certpath.go).

  A `Cert` value stands for one DER encoding: two certificates are equal exactly
  when their encodings are, so the sets and maps the source keys by DER are keyed
  by `Cert` here.  The chains crypto/x509 builds and the composite signature check
  are arbitrary functions of their arguments.
 */
module CertPath {

  const MAX_DEPTH := 8
  const MAX_SIGNATURE_CHECKS := 100

  type Name = seq<int>
  type Oid = seq<nat>

  const OID_NAME_CONSTRAINTS: Oid := [2, 5, 29, 30]

  datatype Cert = Cert(
    serial: int,
    subject: Name,
    issuer: Name,
    notBefore: int,
    notAfter: int,
    unhandledCritical: seq<Oid>,
    basicConstraintsValid: bool,
    maxPathLen: int,
    maxPathLenZero: bool,
    extensions: seq<Oid>)

  /** What a search is run against: the candidate issuers, the verification time,
      the chains crypto/x509 builds above a certificate (none when it reports an
      error) and the composite signature check. */
  datatype Pki = Pki(
    candidates: seq<Cert>,
    now: int,
    chains: Cert -> seq<seq<Cert>>,
    signedBy: (Cert, Cert) -> bool)

  /** crypto/x509 returns chains that begin with the certificate verified. */
  ghost predicate ChainsStartAtLeaf(w: Pki) {
    forall c: Cert, i: nat :: i < |w.chains(c)| ==> |w.chains(c)[i]| > 0 && w.chains(c)[i][0] == c
  }

  predicate HasNameConstraints(c: Cert) {
    OID_NAME_CONSTRAINTS in c.extensions
  }

  predicate AllowsFollowing(issuer: Cert, intermediates: int) {
    if !issuer.basicConstraintsValid || issuer.maxPathLen < 0 || (issuer.maxPathLen == 0 && !issuer.maxPathLenZero)
    then true
    else intermediates <= issuer.maxPathLen
  }

  predicate ValidAt(c: Cert, now: int) {
    c.notBefore <= now <= c.notAfter && c.unhandledCritical == []
  }

  // ---------------------------------------------------------------------------
  // What a trusted path is
  // ---------------------------------------------------------------------------

  ghost predicate Distinct(p: seq<Cert>) {
    forall i, j :: 0 <= i < j < |p| ==> p[i] != p[j]
  }

  /** `upper` is a candidate that issued and signed `lower`, which is within its
      validity period and has no critical extension left unhandled. */
  ghost predicate Link(w: Pki, lower: Cert, upper: Cert) {
    && upper in w.candidates
    && upper.subject == lower.issuer
    && w.signedBy(lower, upper)
    && lower.notBefore <= w.now <= lower.notAfter && |lower.unhandledCritical| == 0
  }

  /** Section 4.2.1.9 of RFC 5280: a certificate whose basic constraints hold a path
      length, which may be zero, has at most that many intermediates below it. It must
      not carry the extension of section 4.2.1.10, name constraints, either. */
  ghost predicate MayIssueOver(c: Cert, intermediates: int) {
    && (forall i :: 0 <= i < |c.extensions| ==> c.extensions[i] != [2, 5, 29, 30])
    && (c.basicConstraintsValid && (c.maxPathLen > 0 || (c.maxPathLen == 0 && c.maxPathLenZero)) ==>
          intermediates <= c.maxPathLen)
  }

  /** Every issuer of a path, leaf first, may issue over what is below it. */
  ghost predicate Permitted(path: seq<Cert>) {
    forall m :: 1 <= m < |path| ==> MayIssueOver(path[m], m - 1)
  }

  lemma RuleIsChecked(c: Cert, intermediates: int)
    ensures MayIssueOver(c, intermediates) <==> !HasNameConstraints(c) && AllowsFollowing(c, intermediates)
  {
  }

  /** `p` climbs from `cert` by composite links to a certificate above which
      crypto/x509 builds `chain`, and the joined path is permitted as a whole. */
  ghost predicate TrustedPath(w: Pki, cert: Cert, p: seq<Cert>, chain: seq<Cert>) {
    && 2 <= |p| <= 9
    && p[0] == cert
    && Distinct(p)
    && (forall i :: 0 <= i < |p| - 1 ==> Link(w, p[i], p[i + 1]))
    && chain in w.chains(p[|p| - 1])
    && |chain| > 0
    && Permitted(p + chain[1..])
  }

  ghost predicate Reaches(w: Pki, q: seq<Cert>)
    requires |q| > 0
  {
    exists p, chain :: q <= p && TrustedPath(w, q[0], p, chain)
  }

  // ---------------------------------------------------------------------------
  // The search as a function: (answer, signature checks left)
  // ---------------------------------------------------------------------------

  predicate ChainAccepts(chain: seq<Cert>, depth: int) {
    forall i :: 0 <= i < |chain| ==>
      !HasNameConstraints(chain[i]) && (i > 0 ==> AllowsFollowing(chain[i], depth + i - 1))
  }

  predicate SomeChainAccepts(chains: seq<seq<Cert>>, depth: int) {
    exists k :: 0 <= k < |chains| && ChainAccepts(chains[k], depth)
  }

  function Climb(w: Pki, cert: Cert, depth: nat, onPath: set<Cert>, left: nat): (r: (bool, nat))
    requires depth <= MAX_DEPTH
    ensures r.1 <= left
    decreases MAX_DEPTH - depth, |w.candidates| + 1
  {
    if depth > 0 && SomeChainAccepts(w.chains(cert), depth) then (true, left)
    else if depth >= MAX_DEPTH || !ValidAt(cert, w.now) then (false, left)
    else TryIssuers(w, cert, depth, onPath + {cert}, left, 0)
  }

  predicate Eligible(parent: Cert, cert: Cert, depth: nat, onPath: set<Cert>) {
    && parent !in onPath
    && parent.subject == cert.issuer
    && !HasNameConstraints(parent)
    && AllowsFollowing(parent, depth)
  }

  function TryIssuers(w: Pki, cert: Cert, depth: nat, onPath: set<Cert>, left: nat, i: nat): (r: (bool, nat))
    requires depth < MAX_DEPTH && i <= |w.candidates|
    ensures r.1 <= left
    decreases MAX_DEPTH - depth, |w.candidates| - i
  {
    if i == |w.candidates| then (false, left)
    else
      var parent := w.candidates[i];
      if !Eligible(parent, cert, depth, onPath) then TryIssuers(w, cert, depth, onPath, left, i + 1)
      else if left == 0 then (false, 0)
      else if !w.signedBy(cert, parent) then TryIssuers(w, cert, depth, onPath, left - 1, i + 1)
      else
        var r := Climb(w, parent, depth + 1, onPath, left - 1);
        if r.0 then r else TryIssuers(w, cert, depth, onPath, r.1, i + 1)
  }

  // ---------------------------------------------------------------------------
  // Soundness and completeness of the search
  // ---------------------------------------------------------------------------

  ghost function Elements(p: seq<Cert>): set<Cert> {
    set c | c in p
  }

  /** A prefix the search has climbed: distinct, linked and permitted so far. */
  ghost predicate Climbed(w: Pki, q: seq<Cert>) {
    && 1 <= |q| <= MAX_DEPTH + 1
    && Distinct(q)
    && (forall i :: 0 <= i < |q| - 1 ==> Link(w, q[i], q[i + 1]))
    && Permitted(q)
  }

  lemma ClimbSound(w: Pki, q: seq<Cert>, left: nat)
    requires ChainsStartAtLeaf(w) && Climbed(w, q)
    ensures Climb(w, q[|q| - 1], |q| - 1, Elements(q[..|q| - 1]), left).0 ==> Reaches(w, q)
    decreases MAX_DEPTH - |q|, |w.candidates| + 1
  {
    var cert, depth := q[|q| - 1], |q| - 1;
    if depth > 0 && SomeChainAccepts(w.chains(cert), depth) {
      var k :| 0 <= k < |w.chains(cert)| && ChainAccepts(w.chains(cert)[k], depth);
      AcceptedChainPermits(w, q, k);
      assert TrustedPath(w, q[0], q, w.chains(cert)[k]);
    } else if depth < MAX_DEPTH && ValidAt(cert, w.now) {
      assert Elements(q[..depth]) + {cert} == Elements(q);
      TryIssuersSound(w, q, left, 0);
    }
  }

  lemma AcceptedChainPermits(w: Pki, q: seq<Cert>, k: nat)
    requires ChainsStartAtLeaf(w) && Climbed(w, q) && |q| >= 2
    requires k < |w.chains(q[|q| - 1])|
    ensures var chain := w.chains(q[|q| - 1])[k];
            |chain| > 0 && (ChainAccepts(chain, |q| - 1) <==> Permitted(q + chain[1..]))
  {
    var chain := w.chains(q[|q| - 1])[k];
    assert chain[0] == q[|q| - 1];
    var joined := q + chain[1..];
    if ChainAccepts(chain, |q| - 1) {
      forall m | 1 <= m < |joined| ensures MayIssueOver(joined[m], m - 1) {
        RuleIsChecked(joined[m], m - 1);
        if m < |q| {
          assert joined[m] == q[m];
        } else {
          assert joined[m] == chain[m - |q| + 1];
        }
      }
    }
    if Permitted(joined) {
      forall i | 0 <= i < |chain|
        ensures !HasNameConstraints(chain[i]) && (i > 0 ==> AllowsFollowing(chain[i], |q| - 1 + i - 1))
      {
        assert joined[|q| - 1 + i] == chain[i];
        RuleIsChecked(chain[i], |q| - 1 + i - 1);
      }
    }
  }

  /** Adding an eligible, signing candidate keeps a climbed prefix climbed. */
  lemma ExtendClimbed(w: Pki, q: seq<Cert>, i: nat)
    requires Climbed(w, q) && |q| <= MAX_DEPTH && ValidAt(q[|q| - 1], w.now)
    requires i < |w.candidates| && Eligible(w.candidates[i], q[|q| - 1], |q| - 1, Elements(q))
    requires w.signedBy(q[|q| - 1], w.candidates[i])
    ensures Climbed(w, q + [w.candidates[i]])
    ensures (q + [w.candidates[i]])[..|q|] == q
  {
    var parent := w.candidates[i];
    var q' := q + [parent];
    forall a, b | 0 <= a < b < |q'| ensures q'[a] != q'[b] {
      assert q'[a] == q[a];
      assert q[a] in Elements(q);
    }
    assert Link(w, q[|q| - 1], parent);
    RuleIsChecked(parent, |q| - 1);
  }

  lemma TryIssuersSound(w: Pki, q: seq<Cert>, left: nat, i: nat)
    requires ChainsStartAtLeaf(w) && Climbed(w, q) && |q| <= MAX_DEPTH && ValidAt(q[|q| - 1], w.now)
    requires i <= |w.candidates|
    ensures TryIssuers(w, q[|q| - 1], |q| - 1, Elements(q), left, i).0 ==> Reaches(w, q)
    decreases MAX_DEPTH - |q|, |w.candidates| - i
  {
    if i < |w.candidates| {
      var cert, depth, parent := q[|q| - 1], |q| - 1, w.candidates[i];
      if !Eligible(parent, cert, depth, Elements(q)) {
        TryIssuersSound(w, q, left, i + 1);
      } else if left > 0 {
        if !w.signedBy(cert, parent) {
          TryIssuersSound(w, q, left - 1, i + 1);
        } else {
          ExtendClimbed(w, q, i);
          var q' := q + [parent];
          ClimbSound(w, q', left - 1);
          var r := Climb(w, parent, depth + 1, Elements(q), left - 1);
          if r.0 {
            var p, chain :| q' <= p && TrustedPath(w, q'[0], p, chain);
            assert q <= p;
          } else {
            TryIssuersSound(w, q, r.1, i + 1);
          }
        }
      }
    }
  }

  /** A trusted path through `q` either ends there, at an accepted x509 chain, or
      goes on through a candidate. */
  lemma ReachesStep(w: Pki, q: seq<Cert>)
    requires ChainsStartAtLeaf(w) && Climbed(w, q) && Reaches(w, q)
    ensures || (|q| >= 2 && SomeChainAccepts(w.chains(q[|q| - 1]), |q| - 1))
            || (|q| <= MAX_DEPTH && ValidAt(q[|q| - 1], w.now)
                && exists j :: 0 <= j < |w.candidates| && Reaches(w, q + [w.candidates[j]]))
  {
    var p, chain :| q <= p && TrustedPath(w, q[0], p, chain);
    var last := |q| - 1;
    if |p| == |q| {
      assert p == q;
      var k :| 0 <= k < |w.chains(q[last])| && w.chains(q[last])[k] == chain;
      AcceptedChainPermits(w, q, k);
    } else {
      assert Link(w, p[last], p[last + 1]);
      var j :| 0 <= j < |w.candidates| && w.candidates[j] == p[last + 1];
      var q' := q + [w.candidates[j]];
      assert q' <= p && q'[0] == q[0];
      assert Reaches(w, q');
    }
  }

  lemma ReachesEligible(w: Pki, q: seq<Cert>, i: nat)
    requires Climbed(w, q) && |q| <= MAX_DEPTH && i < |w.candidates|
    requires Reaches(w, q + [w.candidates[i]])
    ensures Eligible(w.candidates[i], q[|q| - 1], |q| - 1, Elements(q)) && w.signedBy(q[|q| - 1], w.candidates[i])
  {
    var parent := w.candidates[i];
    var q' := q + [parent];
    var p, chain :| q' <= p && TrustedPath(w, q'[0], p, chain);
    assert p[|q| - 1] == q[|q| - 1] && p[|q|] == parent;
    assert Link(w, p[|q| - 1], p[|q|]);
    assert (p + chain[1..])[|q|] == parent;
    RuleIsChecked(parent, |q| - 1);
    forall a | 0 <= a < |q| ensures q[a] != parent {
      assert p[a] == q[a];
    }
  }

  lemma ClimbComplete(w: Pki, q: seq<Cert>, left: nat)
    requires ChainsStartAtLeaf(w) && Climbed(w, q)
    requires var r := Climb(w, q[|q| - 1], |q| - 1, Elements(q[..|q| - 1]), left); !r.0 && r.1 > 0
    ensures !Reaches(w, q)
    decreases MAX_DEPTH - |q|, |w.candidates| + 1
  {
    var cert, depth := q[|q| - 1], |q| - 1;
    if depth < MAX_DEPTH && ValidAt(cert, w.now) {
      assert Elements(q[..depth]) + {cert} == Elements(q);
      TryIssuersComplete(w, q, left, 0);
    }
    if Reaches(w, q) {
      ReachesStep(w, q);
    }
  }

  lemma TryIssuersComplete(w: Pki, q: seq<Cert>, left: nat, i: nat)
    requires ChainsStartAtLeaf(w) && Climbed(w, q) && |q| <= MAX_DEPTH && ValidAt(q[|q| - 1], w.now)
    requires i <= |w.candidates|
    requires var r := TryIssuers(w, q[|q| - 1], |q| - 1, Elements(q), left, i); !r.0 && r.1 > 0
    ensures forall j :: i <= j < |w.candidates| ==> !Reaches(w, q + [w.candidates[j]])
    decreases MAX_DEPTH - |q|, |w.candidates| - i
  {
    if i < |w.candidates| {
      var cert, depth, parent := q[|q| - 1], |q| - 1, w.candidates[i];
      if Reaches(w, q + [parent]) {
        ReachesEligible(w, q, i);
      }
      if !Eligible(parent, cert, depth, Elements(q)) {
        TryIssuersComplete(w, q, left, i + 1);
      } else if !w.signedBy(cert, parent) {
        TryIssuersComplete(w, q, left - 1, i + 1);
      } else {
        ExtendClimbed(w, q, i);
        ClimbComplete(w, q + [parent], left - 1);
        TryIssuersComplete(w, q, Climb(w, parent, depth + 1, Elements(q), left - 1).1, i + 1);
      }
    }
  }

  // ---------------------------------------------------------------------------
  // The budget
  // ---------------------------------------------------------------------------

  function Times(a: nat, b: nat): nat {
    if a == 0 then 0 else b + Times(a - 1, b)
  }

  /** The most signature checks a search can make with `n` candidates not yet used. */
  function Cost(n: nat): nat {
    if n == 0 then 0 else Times(n, 1 + Cost(n - 1))
  }

  lemma CostOfFour()
    ensures Cost(4) == 64
  {
    assert Cost(1) == 1;
    assert Cost(2) == 4;
    assert Cost(3) == 15;
  }

  /** How many candidates from number `i` on are not on the path. */
  ghost function Unused(w: Pki, onPath: set<Cert>, i: nat): nat
    requires i <= |w.candidates|
    ensures Unused(w, onPath, i) <= |w.candidates| - i
    decreases |w.candidates| - i
  {
    if i == |w.candidates| then 0
    else (if w.candidates[i] in onPath then 0 else 1) + Unused(w, onPath, i + 1)
  }

  lemma {:induction false} UseOne(w: Pki, onPath: set<Cert>, i: nat, s: nat)
    requires i <= |w.candidates| && s < |w.candidates| && w.candidates[s] !in onPath
    ensures Unused(w, onPath + {w.candidates[s]}, i) <= Unused(w, onPath, i) - (if i <= s then 1 else 0)
    decreases |w.candidates| - i
  {
    if i < |w.candidates| {
      UseOne(w, onPath, i + 1, s);
    }
  }

  lemma {:induction false} TimesMonotone(a: nat, b: nat, c: nat)
    requires a <= b
    ensures Times(a, c) <= Times(b, c)
  {
    if a > 0 {
      TimesMonotone(a - 1, b - 1, c);
    }
  }

  lemma {:induction false} ClimbCost(w: Pki, cert: Cert, depth: nat, onPath: set<Cert>, left: nat, n: nat)
    requires depth <= MAX_DEPTH && Unused(w, onPath + {cert}, 0) <= n
    ensures left - Climb(w, cert, depth, onPath, left).1 <= Cost(n)
    decreases n, |w.candidates| + 1
  {
    if depth < MAX_DEPTH {
      var unit := 1 + if n == 0 then 0 else Cost(n - 1);
      TryIssuersCost(w, cert, depth, onPath + {cert}, left, 0, n, unit);
      TimesMonotone(Unused(w, onPath + {cert}, 0), n, unit);
    }
  }

  lemma {:induction false} TryIssuersCost(w: Pki, cert: Cert, depth: nat, onPath: set<Cert>, left: nat, i: nat, n: nat,
                                          unit: nat)
    requires depth < MAX_DEPTH && i <= |w.candidates| && Unused(w, onPath, 0) <= n
    requires n > 0 ==> unit == 1 + Cost(n - 1)
    ensures left - TryIssuers(w, cert, depth, onPath, left, i).1 <= Times(Unused(w, onPath, i), unit)
    decreases n, |w.candidates| - i
  {
    if i < |w.candidates| {
      var parent := w.candidates[i];
      if !Eligible(parent, cert, depth, onPath) {
        TryIssuersCost(w, cert, depth, onPath, left, i + 1, n, unit);
        TimesMonotone(Unused(w, onPath, i + 1), Unused(w, onPath, i), unit);
      } else {
        UseOne(w, onPath, 0, i);
        if left > 0 {
          if !w.signedBy(cert, parent) {
            TryIssuersCost(w, cert, depth, onPath, left - 1, i + 1, n, unit);
          } else {
            ClimbCost(w, parent, depth + 1, onPath, left - 1, n - 1);
            TryIssuersCost(w, cert, depth, onPath, Climb(w, parent, depth + 1, onPath, left - 1).1, i + 1, n, unit);
          }
        }
      }
    }
  }

  // ---------------------------------------------------------------------------
  // When the answer is exact
  // ---------------------------------------------------------------------------

  /** The answer of Verify: a direct chain, or else the search with a full budget. */
  predicate Verifies(w: Pki, cert: Cert) {
    w.chains(cert) != [] || Climb(w, cert, 0, {}, MAX_SIGNATURE_CHECKS).0
  }

  ghost predicate IsTrusted(w: Pki, cert: Cert) {
    w.chains(cert) != [] || exists p, chain :: TrustedPath(w, cert, p, chain)
  }

  /** Every certificate accepted is trusted.  A refusal that left signature checks
      unspent is right too. */
  lemma VerifiesSoundAndComplete(w: Pki, cert: Cert)
    requires ChainsStartAtLeaf(w)
    ensures Verifies(w, cert) ==> IsTrusted(w, cert)
    ensures !Verifies(w, cert) && Climb(w, cert, 0, {}, MAX_SIGNATURE_CHECKS).1 > 0 ==> !IsTrusted(w, cert)
  {
    var q := [cert];
    assert Elements(q[..0]) == {};
    ClimbSound(w, q, MAX_SIGNATURE_CHECKS);
    var r := Climb(w, cert, 0, {}, MAX_SIGNATURE_CHECKS);
    if !r.0 && r.1 > 0 {
      ClimbComplete(w, q, MAX_SIGNATURE_CHECKS);
    }
    assert (exists p, chain :: TrustedPath(w, cert, p, chain)) ==> Reaches(w, q) by {
      if p, chain :| TrustedPath(w, cert, p, chain) {
        assert q <= p;
      }
    }
  }

  ghost predicate ExactFor(n: nat) {
    forall w: Pki, cert: Cert :: ChainsStartAtLeaf(w) && |w.candidates| == n ==>
        (Verifies(w, cert) <==> IsTrusted(w, cert))
  }

  /** The budget never decides the answer for `n` candidates exactly when `n` is at most four. */
  lemma ExactUpToFourCandidates(n: nat)
    ensures ExactFor(n) <==> n <= 4
  {
    if n <= 4 {
      forall w: Pki, cert: Cert | ChainsStartAtLeaf(w) && |w.candidates| == n
        ensures Verifies(w, cert) <==> IsTrusted(w, cert)
      {
        FourCandidatesSuffice(w, cert);
      }
    } else {
      CrowdHidesPath(n);
    }
  }

  lemma FourCandidatesSuffice(w: Pki, cert: Cert)
    requires ChainsStartAtLeaf(w) && |w.candidates| <= 4
    ensures Verifies(w, cert) <==> IsTrusted(w, cert)
  {
    assert {} + {cert} == {cert};
    ClimbCost(w, cert, 0, {}, MAX_SIGNATURE_CHECKS, 4);
    CostOfFour();
    VerifiesSoundAndComplete(w, cert);
  }

  /** Five candidates that all issue one another, and an anchor above the last of
      them that admits one intermediate only. */
  function Member(serial: int, subject: Name): Cert {
    Cert(serial, subject, [1], 0, 0, [], false, 0, false, [])
  }

  const TARGET: Cert := Member(-1, [0])
  const ANCHOR: Cert := Cert(-2, [3], [3], 0, 0, [], true, 1, false, [])

  function Crowd(n: nat): Pki {
    Pki(seq(n, j => if 0 <= j < 5 then Member(j, [1]) else Member(j, [2])), 0,
        c => if c == Member(4, [1]) then [[c, ANCHOR]] else [], (lower, upper) => true)
  }

  ghost predicate IsCrowd(w: Pki) {
    && |w.candidates| >= 5 && w.now == 0
    && (forall j :: 0 <= j < 5 ==> w.candidates[j] == Member(j, [1]))
    && (forall j :: 5 <= j < |w.candidates| ==> w.candidates[j].subject == [2])
    && (forall lower, upper :: w.signedBy(lower, upper))
    && (forall c :: w.chains(c) == if c == Member(4, [1]) then [[c, ANCHOR]] else [])
  }

  /** How many of the five from number `i` on are not on the path. */
  ghost function Free(onPath: set<Cert>, i: nat): nat
    decreases 5 - i
  {
    if i >= 5 then 0 else (if Member(i, [1]) in onPath then 0 else 1) + Free(onPath, i + 1)
  }

  lemma {:induction false} FreeUse(onPath: set<Cert>, i: nat, s: nat)
    requires s < 5 && Member(s, [1]) !in onPath
    ensures Free(onPath + {Member(s, [1])}, i) == Free(onPath, i) - (if i <= s then 1 else 0)
    ensures i <= s ==> Free(onPath, i) > 0
    decreases 5 - i
  {
    if i < 5 {
      FreeUse(onPath, i + 1, s);
    }
  }

  function Spend(left: nat, cost: nat): nat {
    if left < cost then 0 else left - cost
  }

  lemma SpendTwice(left: nat, first: nat, second: nat)
    requires left > 0 && first > 0
    ensures Spend(Spend(left - 1, first - 1), second) == Spend(left, first + second)
  {
  }

  lemma NoCrowdChain(w: Pki, s: int, depth: nat)
    requires IsCrowd(w) && 0 <= s < 5 && depth >= 1 && (depth == 1 ==> s != 4)
    ensures !SomeChainAccepts(w.chains(Member(s, [1])), depth)
  {
    if s == 4 {
      assert w.chains(Member(s, [1]))[0][1] == ANCHOR;
    }
  }

  /** In the crowd a climb that cannot stop at the anchor spends the whole cost. */
  lemma {:induction false} CrowdClimb(w: Pki, s: int, depth: nat, onPath: set<Cert>, left: nat, m: nat)
    requires IsCrowd(w) && 0 <= s < 5 && depth >= 1 && (depth == 1 ==> s != 4)
    requires Free(onPath + {Member(s, [1])}, 0) == m && depth + m < MAX_DEPTH
    ensures Climb(w, Member(s, [1]), depth, onPath, left) == (false, Spend(left, Cost(m)))
    decreases m, 6, 0
  {
    var c := Member(s, [1]);
    NoCrowdChain(w, s, depth);
    CrowdTry(w, c, depth, onPath + {c}, left, 0, m, 1 + if m == 0 then 0 else Cost(m - 1));
  }

  lemma CrowdStep(w: Pki, c: Cert, depth: nat, onPath: set<Cert>, left: nat, i: nat)
    requires IsCrowd(w) && i < 5 && depth < MAX_DEPTH && c.issuer == [1]
    ensures TryIssuers(w, c, depth, onPath, left, i)
         == if Member(i, [1]) in onPath then TryIssuers(w, c, depth, onPath, left, i + 1)
            else if left == 0 then (false, 0)
            else
              var r := Climb(w, Member(i, [1]), depth + 1, onPath, left - 1);
              if r.0 then r else TryIssuers(w, c, depth, onPath, r.1, i + 1)
  {
    assert w.candidates[i] == Member(i, [1]);
  }

  ghost predicate CrowdScan(w: Pki, c: Cert, depth: nat, onPath: set<Cert>, m: nat, unit: nat) {
    && IsCrowd(w) && 1 <= depth && c.issuer == [1]
    && Free(onPath, 0) == m && depth + m < MAX_DEPTH && (m > 0 ==> unit == 1 + Cost(m - 1))
  }

  lemma {:induction false} CrowdTry(w: Pki, c: Cert, depth: nat, onPath: set<Cert>, left: nat, i: nat, m: nat,
                                    unit: nat)
    requires CrowdScan(w, c, depth, onPath, m, unit) && i <= 5
    ensures TryIssuers(w, c, depth, onPath, left, i) == (false, Spend(left, Times(Free(onPath, i), unit)))
    decreases m, 5 - i, 2
  {
    if i == 5 {
      CrowdRest(w, c, depth, onPath, left, 5);
    } else if Member(i, [1]) in onPath {
      CrowdStep(w, c, depth, onPath, left, i);
      CrowdTry(w, c, depth, onPath, left, i + 1, m, unit);
    } else if left > 0 {
      CrowdTake(w, c, depth, onPath, left, i, m, unit);
    } else {
      CrowdStep(w, c, depth, onPath, left, i);
    }
  }

  lemma {:induction false} CrowdTake(w: Pki, c: Cert, depth: nat, onPath: set<Cert>, left: nat, i: nat, m: nat,
                                     unit: nat)
    requires CrowdScan(w, c, depth, onPath, m, unit) && i < 5 && Member(i, [1]) !in onPath && left > 0
    ensures TryIssuers(w, c, depth, onPath, left, i) == (false, Spend(left, Times(Free(onPath, i), unit)))
    decreases m, 5 - i, 1
  {
    var left', rest := Spend(left - 1, unit - 1), Free(onPath, i + 1);
    CrowdChild(w, c, depth, onPath, left, i, m, unit);
    CrowdStep(w, c, depth, onPath, left, i);
    CrowdTry(w, c, depth, onPath, left', i + 1, m, unit);
    assert Times(Free(onPath, i), unit) == unit + Times(rest, unit);
    SpendTwice(left, unit, Times(rest, unit));
  }

  lemma {:induction false} CrowdChild(w: Pki, c: Cert, depth: nat, onPath: set<Cert>, left: nat, i: nat, m: nat,
                                      unit: nat)
    requires CrowdScan(w, c, depth, onPath, m, unit) && i < 5 && Member(i, [1]) !in onPath && left > 0
    ensures m > 0 && Climb(w, Member(i, [1]), depth + 1, onPath, left - 1) == (false, Spend(left - 1, unit - 1))
    decreases m, 5 - i, 0
  {
    FreeUse(onPath, 0, i);
    assert Cost(m - 1) == unit - 1;
    CrowdClimb(w, i, depth + 1, onPath, left - 1, m - 1);
  }

  /** Candidates after the fifth carry another name and are passed over. */
  lemma {:induction false} CrowdRest(w: Pki, c: Cert, depth: nat, onPath: set<Cert>, left: nat, i: nat)
    requires IsCrowd(w) && 5 <= i <= |w.candidates| && depth < MAX_DEPTH && c.issuer == [1]
    ensures TryIssuers(w, c, depth, onPath, left, i) == (false, left)
    decreases |w.candidates| - i
  {
    if i < |w.candidates| {
      CrowdRest(w, c, depth, onPath, left, i + 1);
    }
  }

  lemma CrowdPath(w: Pki)
    requires IsCrowd(w)
    ensures IsTrusted(w, TARGET)
  {
    var p, chain := [TARGET, Member(4, [1])], [Member(4, [1]), ANCHOR];
    assert w.candidates[4] == p[1];
    assert w.chains(p[1])[0] == chain;
    assert Link(w, p[0], p[1]);
    assert TrustedPath(w, TARGET, p, chain);
  }

  lemma CrowdSpendsBudget(w: Pki)
    requires IsCrowd(w)
    ensures !Verifies(w, TARGET)
  {
    CostOfFour();
    assert Climb(w, Member(0, [1]), 1, {TARGET}, 99) == (false, 35) by {
      FreeOfFive(0);
      CrowdClimb(w, 0, 1, {TARGET}, 99, 4);
    }
    assert Climb(w, Member(1, [1]), 1, {TARGET}, 34) == (false, 0) by {
      FreeOfFive(1);
      CrowdClimb(w, 1, 1, {TARGET}, 34, 4);
    }
    CrowdStep(w, TARGET, 0, {TARGET}, 0, 2);
    CrowdStep(w, TARGET, 0, {TARGET}, 35, 1);
    CrowdStep(w, TARGET, 0, {TARGET}, 100, 0);
    assert {} + {TARGET} == {TARGET};
  }

  lemma FreeOfFive(s: nat)
    requires s < 5
    ensures Free({TARGET} + {Member(s, [1])}, 0) == 4
  {
    assert Free({TARGET}, 2) == 3 by {
      assert Free({TARGET}, 4) == 1;
    }
    FreeUse({TARGET}, 0, s);
  }

  lemma CrowdHidesPath(n: nat)
    requires n >= 5
    ensures ChainsStartAtLeaf(Crowd(n)) && |Crowd(n).candidates| == n
    ensures IsTrusted(Crowd(n), TARGET) && !Verifies(Crowd(n), TARGET)
  {
    CrowdPath(Crowd(n));
    CrowdSpendsBudget(Crowd(n));
  }

  // ---------------------------------------------------------------------------
  // The search as the source runs it
  // ---------------------------------------------------------------------------

  /** Every certificate of the chain may issue over what is below it, of which there is
      nothing the chain's own first certificate is asked about again. */
  ghost predicate PermitsBelow(chain: seq<Cert>, depth: int) {
    && (|chain| > 0 ==> forall i :: 0 <= i < |chain[0].extensions| ==> chain[0].extensions[i] != [2, 5, 29, 30])
    && (forall i :: 1 <= i < |chain| ==> MayIssueOver(chain[i], depth + i - 1))
  }

  lemma ChainIsChecked(chain: seq<Cert>, depth: int)
    ensures ChainAccepts(chain, depth) <==> PermitsBelow(chain, depth)
  {
    forall i | 1 <= i < |chain|
      ensures MayIssueOver(chain[i], depth + i - 1) <==>
              !HasNameConstraints(chain[i]) && AllowsFollowing(chain[i], depth + i - 1)
    {
      RuleIsChecked(chain[i], depth + i - 1);
    }
  }

  /** Whether one of the chains built above a certificate with `depth` certificates
      below it also permits those certificates. */
  method AcceptsLowerPath(chains: seq<seq<Cert>>, depth: int) returns (accepts: bool)
    ensures accepts == SomeChainAccepts(chains, depth)
    ensures accepts <==> exists k :: 0 <= k < |chains| && PermitsBelow(chains[k], depth)
  {
    forall k | 0 <= k < |chains| ensures ChainAccepts(chains[k], depth) <==> PermitsBelow(chains[k], depth) {
      ChainIsChecked(chains[k], depth);
    }
    var k := 0;
    while k < |chains|
      invariant 0 <= k <= |chains|
      invariant forall h :: 0 <= h < k ==> !ChainAccepts(chains[h], depth)
    {
      var chain := chains[k];
      var ok, i := true, 0;
      while i < |chain|
        invariant 0 <= i <= |chain|
        invariant ok
        invariant forall h :: 0 <= h < i ==>
          !HasNameConstraints(chain[h]) && (h > 0 ==> AllowsFollowing(chain[h], depth + h - 1))
      {
        if HasNameConstraints(chain[i]) || (i > 0 && !AllowsFollowing(chain[i], depth + i - 1)) {
          ok := false;
          break;
        }
        i := i + 1;
      }
      if ok {
        return true;
      }
      k := k + 1;
    }
    return false;
  }

  class Search {
    const w: Pki
    var checksLeft: int
    var upper: map<Cert, seq<seq<Cert>>>
    var onPath: set<Cert>

    ghost predicate Valid()
      reads this
    {
      checksLeft >= 0 && forall c :: c in upper ==> upper[c] == w.chains(c)
    }

    constructor (w: Pki)
      ensures Valid() && this.w == w && checksLeft == MAX_SIGNATURE_CHECKS && onPath == {}
    {
      this.w := w;
      checksLeft := MAX_SIGNATURE_CHECKS;
      upper := map[];
      onPath := {};
    }

    /** The chains above a certificate, computed once. */
    method UpperChains(cert: Cert) returns (chains: seq<seq<Cert>>)
      requires Valid()
      modifies this`upper
      ensures Valid() && chains == w.chains(cert)
    {
      if cert !in upper {
        upper := upper[cert := w.chains(cert)];
      }
      chains := upper[cert];
    }

    /** The memo table and the shared path set change nothing about the answer or
        the budget, and the path set is restored. */
    method Trusted(cert: Cert, depth: nat) returns (trusted: bool)
      requires Valid() && depth <= MAX_DEPTH && cert !in onPath
      modifies this
      ensures Valid() && onPath == old(onPath)
      ensures (trusted, checksLeft) == Climb(w, cert, depth, old(onPath), old(checksLeft))
      decreases MAX_DEPTH - depth
    {
      if depth > 0 {
        var chains := UpperChains(cert);
        var accepts := AcceptsLowerPath(chains, depth);
        if accepts {
          return true;
        }
      }
      if depth >= MAX_DEPTH || !ValidAt(cert, w.now) {
        return false;
      }
      onPath := onPath + {cert};
      trusted := false;
      var i := 0;
      while i < |w.candidates|
        invariant Valid() && 0 <= i <= |w.candidates| && !trusted
        invariant onPath == old(onPath) + {cert}
        invariant Climb(w, cert, depth, old(onPath), old(checksLeft))
                  == TryIssuers(w, cert, depth, onPath, checksLeft, i)
      {
        var parent := w.candidates[i];
        if parent in onPath || parent.subject != cert.issuer {
          i := i + 1;
          continue;
        }
        if HasNameConstraints(parent) || !AllowsFollowing(parent, depth) {
          i := i + 1;
          continue;
        }
        if checksLeft == 0 {
          break;
        }
        checksLeft := checksLeft - 1;
        if !w.signedBy(cert, parent) {
          i := i + 1;
          continue;
        }
        trusted := Trusted(parent, depth + 1);
        if trusted {
          break;
        }
        i := i + 1;
      }
      onPath := onPath - {cert};
    }
  }

  /** Verify of the source. `left` is what the budget has left, which decides how
      much a refusal means. */
  method Verify(w: Pki, cert: Cert) returns (ok: bool, left: nat)
    requires ChainsStartAtLeaf(w)
    ensures ok ==> IsTrusted(w, cert)
    ensures !ok && left > 0 ==> !IsTrusted(w, cert)
    ensures |w.candidates| <= 4 ==> (ok <==> IsTrusted(w, cert))
    ensures ok == Verifies(w, cert)
  {
    VerifiesSoundAndComplete(w, cert);
    if |w.candidates| <= 4 {
      FourCandidatesSuffice(w, cert);
    }
    left := MAX_SIGNATURE_CHECKS;
    if w.chains(cert) != [] {
      return true, left;
    }
    var s := new Search(w);
    ok := s.Trusted(cert, 0);
    left := s.checksLeft;
  }
}
