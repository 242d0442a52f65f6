/**
 * FROST signing and aggregation (sections 4.4, 5.2 and 5.3 of RFC 9591) around the
 * even-y hooks, and the signature check of a Mina verifier, which sees only x.
 */
module Signing {
  import opened Wrappers
  import opened Bytes
  import opened Modular
  import opened Folds
  import opened Shamir
  import opened PrimeGroup
  import opened EvenY

  /** The hash functions of the ciphersuite are whatever they are. */
  datatype Suite<!P> = Suite(
    group: Group<P>,
    bindingFactor: (P, SigningPackage<P>, nat) -> nat,
    challenge: (int, P, seq<Byte>) -> Result<nat, Error>)

  datatype KeyPackage<P> = KeyPackage(
    identifier: nat,
    signingShare: nat,
    verifyingShare: P,
    verifyingKey: P,
    minSigners: nat)

  datatype PublicKeyPackage<P> = PublicKeyPackage(verifyingShares: map<nat, P>, verifyingKey: P)

  datatype Signature<P> = Signature(r: P, z: nat)

  /** A ciphersuite over a lawful group, and a package for identifiers that are non-zero scalars. */
  ghost predicate WellFormed<P(!new)>(s: Suite<P>, package: SigningPackage<P>) {
    IsGroup(s.group) && s.group.order > 0 && Identifiers(s.group.order, package.commitments.Keys)
  }

  /** Section 4.4. Serializing the identity fails, so a package that holds it has no binding factors. */
  function BindingFactors<P(==)>(s: Suite<P>, key: P, package: SigningPackage<P>): Result<BindingFactorList, Error> {
    var c := package.commitments;
    if key == s.group.identity
       || exists id :: id in c && (c[id].hiding == s.group.identity || c[id].binding == s.group.identity)
    then Err(InvalidIdentityElement)
    else Ok(map id | id in c :: s.bindingFactor(key, package, id))
  }

  /** Section 5.2, with the hook between the binding factors and the group commitment. */
  function Sign<P(==,!new)>(s: Suite<P>, package: SigningPackage<P>, nonces: SigningNonces, key: KeyPackage<P>)
    : Result<nat, Error>
    requires WellFormed(s, package)
  {
    var g, ids := s.group, package.commitments.Keys;
    if |package.commitments| < key.minSigners then Err(IncorrectNumberOfCommitments)
    else if key.identifier !in ids then Err(MissingCommitment)
    else if Commit(g, nonces) != package.commitments[key.identifier] then Err(IncorrectCommitment)
    else
      var factors :- BindingFactors(s, key.verifyingKey, package);
      var hooked :- PreCommitmentSign(g, package, nonces, factors);
      var r :- ComputeGroupCommitment(g, hooked.0, factors);
      var c :- s.challenge(g.x(r), key.verifyingKey, package.message);
      Ok(ShareOf(g.order, hooked.1, factors[key.identifier], Lambda(g.order, ids, key.identifier), key.signingShare, c))
  }

  function ShareOf(q: nat, nonces: SigningNonces, factor: nat, lambda: nat, secret: nat, c: nat): nat
    requires q > 0
  {
    (nonces.hiding + nonces.binding * factor + lambda * secret * c) % q
  }

  /** A signer refuses a package that is too small, that has no commitment under its
      identifier, or one that its nonces do not open. */
  lemma WhatSignersRefuse<P(!new)>(s: Suite<P>, package: SigningPackage<P>, nonces: SigningNonces, key: KeyPackage<P>)
    requires WellFormed(s, package)
    ensures |package.commitments| < key.minSigners ==>
      Sign(s, package, nonces, key) == Err(IncorrectNumberOfCommitments)
    ensures |package.commitments| >= key.minSigners && key.identifier !in package.commitments ==>
      Sign(s, package, nonces, key) == Err(MissingCommitment)
    ensures |package.commitments| >= key.minSigners && key.identifier in package.commitments ==>
      var own := package.commitments[key.identifier];
      (|| own.hiding != Times(s.group, nonces.hiding, s.group.generator)
       || own.binding != Times(s.group, nonces.binding, s.group.generator)) ==>
        Sign(s, package, nonces, key) == Err(IncorrectCommitment)
  {
    hide Times;
  }

  /** What the coordinator computes from the signing package alone. */
  datatype Transcript<P> = Transcript(
    package: SigningPackage<P>,
    factors: BindingFactorList,
    r: P,
    challenge: nat)

  function Prepare<P(==)>(s: Suite<P>, key: P, package: SigningPackage<P>): Result<Transcript<P>, Error>
    requires s.group.order > 0
  {
    var factors :- BindingFactors(s, key, package);
    var hooked :- PreCommitmentAggregate(s.group, package, factors);
    var r :- ComputeGroupCommitment(s.group, hooked, factors);
    var c :- s.challenge(s.group.x(r), key, package.message);
    Ok(Transcript(hooked, factors, r, c))
  }

  predicate Verifies<P(==)>(s: Suite<P>, key: P, challenge: nat, signature: Signature<P>)
    requires s.group.order > 0
  {
    var g := s.group;
    Times(g, signature.z, g.generator) == g.add(signature.r, Times(g, challenge, key))
  }

  /** Section 5.3; the aggregate is returned only if it verifies. */
  function Aggregate<P(==)>(s: Suite<P>, package: SigningPackage<P>, shares: map<nat, nat>,
                            pubkeys: PublicKeyPackage<P>)
    : Result<Signature<P>, Error>
    requires s.group.order > 0
  {
    if package.commitments.Keys != shares.Keys then Err(UnknownIdentifier)
    else
      var t :- Prepare(s, pubkeys.verifyingKey, package);
      var signature := Signature(t.r, Sum(shares) % s.group.order);
      if Verifies(s, pubkeys.verifyingKey, t.challenge, signature) then Ok(signature) else Err(InvalidSignature)
  }

  /** A Mina verifier recomputes the commitment and wants it finite, of even y and with the given x. */
  predicate MinaAccepts<P(==)>(s: Suite<P>, key: P, message: seq<Byte>, rx: int, z: nat)
    requires s.group.order > 0
  {
    var g := s.group;
    match s.challenge(rx, key, message)
    case Err(_) => false
    case Ok(c) =>
      var v := g.add(Times(g, z, g.generator), g.neg(Times(g, c, key)));
      v != g.identity && !g.oddY(v) && g.x(v) == rx
  }

  // ---------------------------------------------------------------------
  // Facts about the transcript
  // ---------------------------------------------------------------------

  lemma PreparedIsEven<P(!new)>(s: Suite<P>, key: P, package: SigningPackage<P>)
    requires WellFormed(s, package) && Prepare(s, key, package).Ok?
    ensures var t := Prepare(s, key, package).value;
      && !s.group.oddY(t.r)
      && t.package.commitments.Keys == package.commitments.Keys == t.factors.Keys
      && ComputeGroupCommitment(s.group, t.package, t.factors) == Ok(t.r)
      && s.challenge(s.group.x(t.r), key, package.message) == Ok(t.challenge)
  {
    hide IsGroup, ComputeGroupCommitment, NegatePackage, NegateNonces, Commit;
    var factors := BindingFactors(s, key, package).value;
    HooksAgree(s.group, package, SigningNonces(0, 0), factors);
  }

  /** The transcript's commitment is the package's own, or its mirror image. */
  lemma PreparedMirrors<P(!new)>(s: Suite<P>, key: P, package: SigningPackage<P>)
    requires WellFormed(s, package) && Prepare(s, key, package).Ok?
    ensures var t := Prepare(s, key, package).value;
      Mirrored(s.group, package, t.factors, t.package)
  {
    hide IsGroup, ComputeGroupCommitment, NegatePackage, NegateNonces, Commit, Mirrored;
    var factors := BindingFactors(s, key, package).value;
    HooksAgree(s.group, package, SigningNonces(0, 0), factors);
  }

  /**
   * A signer whose commitment is in the package signs the coordinator's transcript,
   * with nonces that open its commitment there; otherwise it fails as the coordinator would.
   */
  lemma SignerFollowsTranscript<P(!new)>(s: Suite<P>, package: SigningPackage<P>, nonces: SigningNonces,
                                         key: KeyPackage<P>)
    returns (used: SigningNonces)
    requires WellFormed(s, package)
    requires key.minSigners <= |package.commitments| && key.identifier in package.commitments
    requires Commit(s.group, nonces) == package.commitments[key.identifier]
    ensures match Prepare(s, key.verifyingKey, package)
      case Err(e) => Sign(s, package, nonces, key) == Err(e)
      case Ok(t) =>
        && t.package.commitments.Keys == package.commitments.Keys == t.factors.Keys
        && Commit(s.group, used) == t.package.commitments[key.identifier]
        && Sign(s, package, nonces, key) ==
           Ok(ShareOf(s.group.order, used, t.factors[key.identifier],
                      Lambda(s.group.order, package.commitments.Keys, key.identifier), key.signingShare, t.challenge))
  {
    hide IsGroup, ComputeGroupCommitment, NegatePackage, NegateNonces, Commit, ShareOf, Lambda;
    used := nonces;
    var fs := BindingFactors(s, key.verifyingKey, package);
    if fs.Ok? {
      HooksAgree(s.group, package, nonces, fs.value);
      var hooked := PreCommitmentSign(s.group, package, nonces, fs.value);
      if hooked.Ok? { used := hooked.value.1; }
    }
  }

  // ---------------------------------------------------------------------
  // In the terms of the suite and of the package before the hook
  // ---------------------------------------------------------------------

  /** D_i + rho_i * E_i, where rho_i is the suite's binding factor for the package as it was sent. */
  function Bound<P>(s: Suite<P>, key: P, package: SigningPackage<P>, id: nat): P
    requires s.group.order > 0 && id in package.commitments
  {
    s.group.add(package.commitments[id].hiding,
                Times(s.group, s.bindingFactor(key, package, id), package.commitments[id].binding))
  }

  /** The sum of all signers' bound commitments. */
  function BoundSum<P>(s: Suite<P>, key: P, package: SigningPackage<P>): P
    requires s.group.order > 0
  {
    PointSum(s.group, map id | id in package.commitments :: Bound(s, key, package, id))
  }

  /** The sign that everybody uses: negative exactly if the sum has an odd y. */
  function Signed<P>(g: Group<P>, negative: bool, a: P): P {
    if negative then g.neg(a) else a
  }

  lemma FactorsAreTheSuites<P(!new)>(s: Suite<P>, key: P, package: SigningPackage<P>)
    requires s.group.order > 0 && BindingFactors(s, key, package).Ok?
    ensures var factors := BindingFactors(s, key, package).value;
      && factors.Keys == package.commitments.Keys
      && (forall id :: id in factors ==> factors[id] == s.bindingFactor(key, package, id))
      && (forall id :: id in factors ==>
           Share(s.group, package.commitments[id], factors[id]) == Bound(s, key, package, id))
      && ComputeGroupCommitment(s.group, package, factors) == Ok(BoundSum(s, key, package))
  {
    hide Times;
    var factors := BindingFactors(s, key, package).value;
    assert Shares(s.group, package, factors) == map id | id in package.commitments :: Bound(s, key, package, id);
  }

  /** The hook gives every bound commitment the one sign that makes y of their sum even. */
  lemma PreparedIsSigned<P(!new)>(s: Suite<P>, key: P, package: SigningPackage<P>)
    requires WellFormed(s, package) && Prepare(s, key, package).Ok?
    ensures var g, t, sum := s.group, Prepare(s, key, package).value, BoundSum(s, key, package);
      && t.r == Signed(g, g.oddY(sum), sum)
      && t.package.commitments.Keys == t.factors.Keys == package.commitments.Keys
      && forall id :: id in package.commitments ==>
           Share(g, t.package.commitments[id], t.factors[id]) == Signed(g, g.oddY(sum), Bound(s, key, package, id))
  {
    hide IsGroup, ComputeGroupCommitment, Share, Bound, BoundSum, NegateCommitments;
    var g, factors := s.group, BindingFactors(s, key, package).value;
    FactorsAreTheSuites(s, key, package);
    NegatedGroupCommitment(g, package, factors);
    forall id | id in package.commitments
      ensures Share(g, NegateCommitments(g, package.commitments[id]), factors[id])
              == g.neg(Share(g, package.commitments[id], factors[id]))
    {
      NegatedShare(g, package.commitments[id], factors[id]);
    }
  }

  // ---------------------------------------------------------------------
  // Signature shares
  // ---------------------------------------------------------------------

  /** The check of one signature share (section 5.3). */
  ghost predicate ShareVerifies<P(!new)>(s: Suite<P>, t: Transcript<P>, id: nat, verifyingShare: P, z: nat)
    requires WellFormed(s, t.package) && id in t.package.commitments && id in t.factors
  {
    var g := s.group;
    var lambda := Lambda(g.order, t.package.commitments.Keys, id);
    Times(g, z, g.generator)
    == g.add(Share(g, t.package.commitments[id], t.factors[id]), Times(g, t.challenge * lambda, verifyingShare))
  }

  lemma ShareInTheExponent<P(!new)>(g: Group<P>, n: SigningNonces, factor: nat, lambda: nat, secret: nat, c: nat,
                                    z: nat)
    requires IsGroup(g) && g.order > 0
    ensures g.add(Share(g, Commit(g, n), factor), Times(g, c * lambda, Times(g, secret, g.generator)))
            == Times(g, n.hiding + n.binding * factor + lambda * secret * c, g.generator)
  {
    hide IsGroup, Times;
    var b := g.generator;
    TimesTimes(g, factor, n.binding, b);
    TimesAdd(g, n.hiding, factor * n.binding, b);
    TimesTimes(g, c * lambda, secret, b);
    TimesAdd(g, n.hiding + factor * n.binding, c * lambda * secret, b);
    assert n.hiding + factor * n.binding + c * lambda * secret
      == n.hiding + n.binding * factor + lambda * secret * c by {
      assert factor * n.binding == n.binding * factor;
      assert c * lambda * secret == lambda * secret * c;
    }
  }

  lemma ShareCheck<P(!new)>(s: Suite<P>, t: Transcript<P>, used: SigningNonces, id: nat, secret: nat, z: nat)
    requires WellFormed(s, t.package) && id in t.package.commitments && id in t.factors
    requires Commit(s.group, used) == t.package.commitments[id]
    requires z < s.group.order
    ensures IsPrime(s.group.order)
    ensures var lambda := Lambda(s.group.order, t.package.commitments.Keys, id);
            ShareVerifies(s, t, id, Times(s.group, secret, s.group.generator), z)
            <==> ShareOf(s.group.order, used, t.factors[id], lambda, secret, t.challenge) == z
  {
    hide IsGroup, Commit, Lambda, Share, Times, Cong;
    var g := s.group;
    Positive(g);
    var lambda := Lambda(g.order, t.package.commitments.Keys, id);
    ShareInTheExponent(g, used, t.factors[id], lambda, secret, t.challenge, z);
    var whole := used.hiding + used.binding * t.factors[id] + lambda * secret * t.challenge;
    GeneratorIsFree(g, z, whole);
    ResidueOf(g.order, z, whole);
  }

  /** The equation of one share, with the suite's binding factor and the package before the hook. */
  ghost predicate ShareEquation<P(!new)>(s: Suite<P>, key: P, package: SigningPackage<P>, id: nat, verifyingShare: P,
                                         challenge: nat, z: nat)
    requires WellFormed(s, package) && id in package.commitments
  {
    var g := s.group;
    var bound := Signed(g, g.oddY(BoundSum(s, key, package)), Bound(s, key, package, id));
    var lambda := Lambda(g.order, package.commitments.Keys, id);
    Times(g, z, g.generator) == g.add(bound, Times(g, challenge * lambda, verifyingShare))
  }

  lemma CheckIsEquation<P(!new)>(s: Suite<P>, key: P, package: SigningPackage<P>, id: nat, verifyingShare: P, z: nat)
    requires WellFormed(s, package) && Prepare(s, key, package).Ok? && id in package.commitments
    ensures var t := Prepare(s, key, package).value;
      && WellFormed(s, t.package) && id in t.package.commitments && id in t.factors
      && (ShareVerifies(s, t, id, verifyingShare, z) <==>
            ShareEquation(s, key, package, id, verifyingShare, t.challenge, z))
  {
    hide IsGroup, Prepare, Share, Bound, BoundSum, Times, Lambda;
    PreparedIsSigned(s, key, package);
  }

  /** Among scalars, the share a signer returns is the only one that passes its check. */
  lemma OnlyTheShareVerifies<P(!new)>(s: Suite<P>, package: SigningPackage<P>, nonces: SigningNonces,
                                      key: KeyPackage<P>, z: nat)
    requires WellFormed(s, package) && Sign(s, package, nonces, key).Ok?
    requires key.verifyingShare == Times(s.group, key.signingShare, s.group.generator)
    requires z < s.group.order
    ensures var t := Prepare(s, key.verifyingKey, package);
      && t.Ok? && WellFormed(s, t.value.package)
      && key.identifier in t.value.package.commitments && key.identifier in t.value.factors
      && (ShareVerifies(s, t.value, key.identifier, key.verifyingShare, z) <==> Sign(s, package, nonces, key) == Ok(z))
      && key.identifier in package.commitments
      && (Sign(s, package, nonces, key) == Ok(z) <==>
            ShareEquation(s, key.verifyingKey, package, key.identifier, key.verifyingShare, t.value.challenge, z))
  {
    hide IsGroup, ComputeGroupCommitment, Commit, Lambda, Share, Times, Prepare, BindingFactors, ShareVerifies, ShareOf,
      PreCommitmentSign, ShareEquation;
    CheckIsEquationOf(s, package, nonces, key, z);
    var used := SignerFollowsTranscript(s, package, nonces, key);
    var t := Prepare(s, key.verifyingKey, package).value;
    ShareCheck(s, t, used, key.identifier, key.signingShare, z);
  }

  lemma CheckIsEquationOf<P(!new)>(s: Suite<P>, package: SigningPackage<P>, nonces: SigningNonces,
                                   key: KeyPackage<P>, z: nat)
    requires WellFormed(s, package) && Sign(s, package, nonces, key).Ok?
    ensures var t := Prepare(s, key.verifyingKey, package);
      && t.Ok? && key.identifier in package.commitments
      && WellFormed(s, t.value.package)
      && key.identifier in t.value.package.commitments && key.identifier in t.value.factors
      && (ShareVerifies(s, t.value, key.identifier, key.verifyingShare, z) <==>
            ShareEquation(s, key.verifyingKey, package, key.identifier, key.verifyingShare, t.value.challenge, z))
  {
    hide IsGroup, ComputeGroupCommitment, Commit, Lambda, Share, Times, Prepare, BindingFactors, ShareVerifies, ShareOf,
         PreCommitmentSign, ShareEquation;
    var used := SignerFollowsTranscript(s, package, nonces, key);
    CheckIsEquation(s, key.verifyingKey, package, key.identifier, key.verifyingShare, z);
  }

  lemma ResidueOf(q: nat, z: nat, whole: nat)
    requires z < q
    ensures Cong(q, z, whole) <==> whole % q == z
  {
    if Cong(q, z, whole) {
      CongEqual(q, z, whole);
    } else if whole % q == z {
      CongMod(q, whole);
    }
  }

  // ---------------------------------------------------------------------
  // Aggregation
  // ---------------------------------------------------------------------

  function Weighted<P(!new)>(g: Group<P>, ids: set<nat>, verifyingShares: map<nat, P>): (m: map<nat, P>)
    requires IsGroup(g) && g.order > 0 && Identifiers(g.order, ids) && ids <= verifyingShares.Keys
    ensures m.Keys == ids
  {
    map id | id in ids :: Times(g, Lambda(g.order, ids, id), verifyingShares[id])
  }

  /** Verifying shares that belong to the verifying key, as seen by these signers. */
  ghost predicate SharesOfKey<P(!new)>(g: Group<P>, ids: set<nat>, pubkeys: PublicKeyPackage<P>)
    requires IsGroup(g) && g.order > 0 && Identifiers(g.order, ids)
  {
    ids <= pubkeys.verifyingShares.Keys
    && PointSum(g, Weighted(g, ids, pubkeys.verifyingShares)) == pubkeys.verifyingKey
  }

  ghost predicate AllSharesVerify<P(!new)>(s: Suite<P>, t: Transcript<P>, pubkeys: PublicKeyPackage<P>,
                                           shares: map<nat, nat>)
    requires WellFormed(s, t.package) && t.factors.Keys == t.package.commitments.Keys
  {
    && shares.Keys == t.package.commitments.Keys <= pubkeys.verifyingShares.Keys
    && forall id :: id in shares ==> ShareVerifies(s, t, id, pubkeys.verifyingShares[id], shares[id])
  }

  lemma SplitSum<P(!new)>(g: Group<P>, c: nat, answers: map<nat, P>, committed: map<nat, P>, weighted: map<nat, P>)
    requires IsGroup(g) && g.order > 0
    requires answers.Keys == committed.Keys == weighted.Keys
    requires forall id :: id in answers ==> answers[id] == g.add(committed[id], Times(g, c, weighted[id]))
    ensures PointSum(g, answers) == g.add(PointSum(g, committed), Times(g, c, PointSum(g, weighted)))
  {
    hide IsGroup, Times, PointSum;
    var challenged := map id | id in weighted :: Times(g, c, weighted[id]);
    PointSumScale(g, c, weighted, challenged);
    PointSumAdd(g, committed, challenged, answers);
  }

  /** If every share passes its check, the sum is a signature under the key. */
  lemma VerifiedSharesAddUp<P(!new)>(s: Suite<P>, t: Transcript<P>, pubkeys: PublicKeyPackage<P>, shares: map<nat, nat>)
    requires WellFormed(s, t.package) && t.factors.Keys == t.package.commitments.Keys
    requires ComputeGroupCommitment(s.group, t.package, t.factors) == Ok(t.r)
    requires AllSharesVerify(s, t, pubkeys, shares)
    requires SharesOfKey(s.group, t.package.commitments.Keys, pubkeys)
    ensures Verifies(s, pubkeys.verifyingKey, t.challenge, Signature(t.r, Sum(shares) % s.group.order))
  {
    hide IsGroup, Lambda, Share, Times, Cong, PointSum, Sum;
    var g, ids := s.group, t.package.commitments.Keys;
    Positive(g);
    var answers := map id | id in ids :: Times(g, shares[id], g.generator);
    PointSumTimes(g, shares, g.generator, answers);
    forall id | id in ids
      ensures answers[id] == g.add(Shares(g, t.package, t.factors)[id],
                                  Times(g, t.challenge, Weighted(g, ids, pubkeys.verifyingShares)[id]))
    {
      assert ShareVerifies(s, t, id, pubkeys.verifyingShares[id], shares[id]);
      TimesTimes(g, t.challenge, Lambda(g.order, ids, id), pubkeys.verifyingShares[id]);
    }
    SplitSum(g, t.challenge, answers, Shares(g, t.package, t.factors), Weighted(g, ids, pubkeys.verifyingShares));
    CongMod(g.order, Sum(shares));
    TimesCong(g, Sum(shares) % g.order, Sum(shares), g.generator);
  }

  /**
   * The coordinator returns a signature if every share passes its check, so when
   * aggregation fails some share gives its sender away.
   */
  lemma AggregateVerifiedShares<P(!new)>(s: Suite<P>, package: SigningPackage<P>, pubkeys: PublicKeyPackage<P>,
                                         shares: map<nat, nat>)
    requires WellFormed(s, package)
    requires SharesOfKey(s.group, package.commitments.Keys, pubkeys)
    requires Prepare(s, pubkeys.verifyingKey, package).Ok?
    ensures var t := Prepare(s, pubkeys.verifyingKey, package).value;
      && WellFormed(s, t.package) && t.factors.Keys == t.package.commitments.Keys
      && (AllSharesVerify(s, t, pubkeys, shares) ==>
           Aggregate(s, package, shares, pubkeys) == Ok(Signature(t.r, Sum(shares) % s.group.order)))
  {
    hide IsGroup, ComputeGroupCommitment, Lambda, Share, Times, Prepare, BindingFactors, SharesOfKey, ShareVerifies,
         Verifies, Sum;
    PreparedIsEven(s, pubkeys.verifyingKey, package);
    var t := Prepare(s, pubkeys.verifyingKey, package).value;
    if AllSharesVerify(s, t, pubkeys, shares) {
      VerifiedSharesAddUp(s, t, pubkeys, shares);
    }
  }

  /** Aggregation returns a signature exactly if there is one share for every commitment,
      the coordinator can prepare, and z * G = R + c * PK for the sum z of the shares. */
  lemma WhenAggregated<P(!new)>(s: Suite<P>, package: SigningPackage<P>, shares: map<nat, nat>,
                                pubkeys: PublicKeyPackage<P>)
    requires WellFormed(s, package)
    ensures var g, key, result := s.group, pubkeys.verifyingKey, Aggregate(s, package, shares, pubkeys);
      var prepared := Prepare(s, key, package);
      && (shares.Keys != package.commitments.Keys ==> result == Err(UnknownIdentifier))
      && (shares.Keys == package.commitments.Keys && prepared.Err? ==> result == Err(prepared.error))
      && (shares.Keys == package.commitments.Keys && prepared.Ok? ==>
            var t := prepared.value;
            if Times(g, Sum(shares), g.generator) == g.add(t.r, Times(g, t.challenge, key))
            then result == Ok(Signature(t.r, Sum(shares) % g.order)) else result == Err(InvalidSignature))
  {
    hide IsGroup, Prepare, Times, Sum, Cong;
    var g := s.group;
    CongMod(g.order, Sum(shares));
    TimesCong(g, Sum(shares) % g.order, Sum(shares), g.generator);
  }

  /** The verifier that sees only an x accepts exactly if some finite point with that x and
      an even y completes the signature. */
  lemma AcceptsExactly<P(!new)>(s: Suite<P>, key: P, message: seq<Byte>, rx: int, z: nat)
    requires IsGroup(s.group) && s.group.order > 0
    ensures MinaAccepts(s, key, message, rx, z) <==>
      && s.challenge(rx, key, message).Ok?
      && exists r :: Completes(s.group, key, s.challenge(rx, key, message).value, rx, z, r)
  {
    hide IsGroup, Times;
    var g := s.group;
    if s.challenge(rx, key, message).Ok? {
      var c := s.challenge(rx, key, message).value;
      var e := Times(g, c, key);
      var v := g.add(Times(g, z, g.generator), g.neg(e));
      // (z * G - e) + e = z * G
      Unit(g, e);
      Comm(g, g.neg(e), e);
      Assoc(g, Times(g, z, g.generator), g.neg(e), e);
      Unit(g, Times(g, z, g.generator));
      if MinaAccepts(s, key, message, rx, z) {
        assert Completes(g, key, c, rx, z, v);
      }
      if r :| Completes(g, key, c, rx, z, r) {
        // (r + e) - e = r
        Assoc(g, r, e, g.neg(e));
        Unit(g, r);
      }
    }
  }

  ghost predicate Completes<P(!new)>(g: Group<P>, key: P, c: nat, rx: int, z: nat, r: P)
    requires g.order > 0
  {
    && r != g.identity && !g.oddY(r) && g.x(r) == rx
    && Times(g, z, g.generator) == g.add(r, Times(g, c, key))
  }

  /**
   * Whatever the shares were, a signature that aggregation returns has a commitment of
   * even y and satisfies z * G = R + c * PK; the Mina verifier, given only the x of R,
   * accepts it exactly when R is not the identity.
   */
  lemma AggregateIsEven<P(!new)>(s: Suite<P>, package: SigningPackage<P>, shares: map<nat, nat>,
                                 pubkeys: PublicKeyPackage<P>)
    requires WellFormed(s, package) && Aggregate(s, package, shares, pubkeys).Ok?
    ensures var g, key, signature := s.group, pubkeys.verifyingKey, Aggregate(s, package, shares, pubkeys).value;
      && !g.oddY(signature.r)
      && s.challenge(g.x(signature.r), key, package.message).Ok?
      && Verifies(s, key, s.challenge(g.x(signature.r), key, package.message).value, signature)
      && (MinaAccepts(s, key, package.message, g.x(signature.r), signature.z) <==> signature.r != g.identity)
  {
    hide IsGroup, ComputeGroupCommitment, Times, Prepare, BindingFactors, Sum;
    var g, key := s.group, pubkeys.verifyingKey;
    PreparedIsEven(s, key, package);
    var t := Prepare(s, key, package).value;
    var signature := Aggregate(s, package, shares, pubkeys).value;
    var e := Times(g, t.challenge, key);
    // (R + e) - e = R
    Assoc(g, signature.r, e, g.neg(e));
    Unit(g, e);
    Unit(g, signature.r);
  }
}
