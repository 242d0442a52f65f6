/**
 * The hooks of the BluePallas ciphersuite: when the group commitment has an odd y,
 * signers negate their nonces and everybody negates all commitments, so that the
 * group commitment becomes its mirror image of even y.
 */
module EvenY {
  import opened Wrappers
  import opened Bytes
  import opened Modular
  import opened PrimeGroup

  datatype Error =
    | UnknownIdentifier
    | MissingCommitment
    | IncorrectCommitment
    | IncorrectNumberOfCommitments
    | InvalidIdentityElement
    | InvalidSecretShare
    | InvalidSignature
    | ChallengeError

  datatype SigningNonces = SigningNonces(hiding: nat, binding: nat)

  datatype SigningCommitments<P> = SigningCommitments(hiding: P, binding: P)

  datatype SigningPackage<P> = SigningPackage(commitments: map<nat, SigningCommitments<P>>, message: seq<Byte>)

  type BindingFactorList = map<nat, nat>

  // ---------------------------------------------------------------------
  // Negation
  // ---------------------------------------------------------------------

  function NegateNonces<P>(g: Group<P>, nonces: SigningNonces): SigningNonces
    requires g.order > 0
  {
    SigningNonces((0 - nonces.hiding) % g.order, (0 - nonces.binding) % g.order)
  }

  function NegateCommitments<P>(g: Group<P>, c: SigningCommitments<P>): SigningCommitments<P> {
    SigningCommitments(g.neg(c.hiding), g.neg(c.binding))
  }

  function NegatePackage<P>(g: Group<P>, package: SigningPackage<P>): SigningPackage<P> {
    var negated := map id | id in package.commitments :: NegateCommitments(g, package.commitments[id]);
    SigningPackage(negated, package.message)
  }

  lemma NegatePackageTwice<P(!new)>(g: Group<P>, package: SigningPackage<P>)
    requires IsGroup(g)
    ensures NegatePackage(g, NegatePackage(g, package)) == package
  {
    hide IsGroup;
    var again := NegatePackage(g, NegatePackage(g, package));
    forall id | id in package.commitments ensures again.commitments[id] == package.commitments[id] {
      NegNeg(g, package.commitments[id].hiding);
      NegNeg(g, package.commitments[id].binding);
    }
    assert again.commitments == package.commitments;
  }

  lemma NegateResidueTwice(q: nat, d: nat)
    requires d < q
    ensures (0 - (0 - d) % q) % q == d
  {
    if d == 0 {
      assert (0 - d) % q == 0;
    } else {
      assert (0 - d) % q == q - d;
      assert (0 - (q - d)) % q == d;
    }
  }

  lemma NegateNoncesTwice<P>(g: Group<P>, nonces: SigningNonces)
    requires nonces.hiding < g.order && nonces.binding < g.order
    ensures NegateNonces(g, NegateNonces(g, nonces)) == nonces
  {
    NegateResidueTwice(g.order, nonces.hiding);
    NegateResidueTwice(g.order, nonces.binding);
  }

  /** The commitments that a signer publishes for its nonces (section 5.1 of RFC 9591). */
  function Commit<P>(g: Group<P>, nonces: SigningNonces): SigningCommitments<P>
    requires g.order > 0
  {
    SigningCommitments(Times(g, nonces.hiding, g.generator), Times(g, nonces.binding, g.generator))
  }

  lemma NegatedMultiple<P(!new)>(g: Group<P>, k: int, a: P)
    requires IsGroup(g) && g.order > 0
    ensures Times(g, (0 - k) % g.order, a) == g.neg(Times(g, k, a))
  {
    hide IsGroup, Times;
    CongMod(g.order, 0 - k);
    TimesCong(g, (0 - k) % g.order, 0 - k, a);
    TimesNeg(g, k, a);
    assert -k == 0 - k;
  }

  /** Negated nonces open exactly the negated commitments. */
  lemma NegatedNoncesOpen<P(!new)>(g: Group<P>, nonces: SigningNonces, c: SigningCommitments<P>)
    requires IsGroup(g) && g.order > 0
    ensures Commit(g, NegateNonces(g, nonces)) == NegateCommitments(g, Commit(g, nonces))
    ensures Commit(g, NegateNonces(g, nonces)) == NegateCommitments(g, c) <==> Commit(g, nonces) == c
  {
    hide IsGroup, Times;
    NegatedMultiple(g, nonces.hiding, g.generator);
    NegatedMultiple(g, nonces.binding, g.generator);
    var own := Commit(g, nonces);
    NegNeg(g, own.hiding);
    NegNeg(g, own.binding);
    NegNeg(g, c.hiding);
    NegNeg(g, c.binding);
  }

  // ---------------------------------------------------------------------
  // The group commitment
  // ---------------------------------------------------------------------

  function Share<P>(g: Group<P>, c: SigningCommitments<P>, factor: nat): P
    requires g.order > 0
  {
    g.add(c.hiding, Times(g, factor, c.binding))
  }

  function Shares<P>(g: Group<P>, package: SigningPackage<P>, factors: BindingFactorList): (m: map<nat, P>)
    requires g.order > 0 && package.commitments.Keys <= factors.Keys
    ensures m.Keys == package.commitments.Keys
  {
    map id | id in package.commitments :: Share(g, package.commitments[id], factors[id])
  }

  /** Section 4.5 of RFC 9591. */
  function ComputeGroupCommitment<P>(g: Group<P>, package: SigningPackage<P>, factors: BindingFactorList)
    : Result<P, Error>
    requires g.order > 0
  {
    if !(package.commitments.Keys <= factors.Keys) then Err(UnknownIdentifier)
    else Ok(PointSum(g, Shares(g, package, factors)))
  }

  lemma NegatedShare<P(!new)>(g: Group<P>, c: SigningCommitments<P>, factor: nat)
    requires IsGroup(g) && g.order > 0
    ensures Share(g, NegateCommitments(g, c), factor) == g.neg(Share(g, c, factor))
  {
    hide IsGroup, Times;
    TimesNeg(g, factor, c.binding);
    NegAdd(g, c.hiding, Times(g, factor, c.binding));
  }

  /** Negating the package negates the group commitment, under the same binding factors. */
  lemma NegatedGroupCommitment<P(!new)>(g: Group<P>, package: SigningPackage<P>, factors: BindingFactorList)
    requires IsGroup(g) && g.order > 0
    ensures var before := ComputeGroupCommitment(g, package, factors);
            ComputeGroupCommitment(g, NegatePackage(g, package), factors)
            == if before.Ok? then Ok(g.neg(before.value)) else before
  {
    hide IsGroup, Share, NegateCommitments, PointSum;
    var negated := NegatePackage(g, package);
    assert negated.commitments.Keys == package.commitments.Keys;
    if package.commitments.Keys <= factors.Keys {
      forall id | id in package.commitments
        ensures Shares(g, negated, factors)[id] == g.neg(Shares(g, package, factors)[id])
      {
        NegatedShare(g, package.commitments[id], factors[id]);
      }
      PointSumNeg(g, Shares(g, package, factors), Shares(g, negated, factors));
    }
  }

  // ---------------------------------------------------------------------
  // The two hooks
  // ---------------------------------------------------------------------

  function PreCommitmentAggregate<P>(g: Group<P>, package: SigningPackage<P>, factors: BindingFactorList)
    : Result<SigningPackage<P>, Error>
    requires g.order > 0
  {
    var commit :- ComputeGroupCommitment(g, package, factors);
    if !g.oddY(commit) then Ok(package) else Ok(NegatePackage(g, package))
  }

  function PreCommitmentSign<P>(
    g: Group<P>, package: SigningPackage<P>, nonces: SigningNonces, factors: BindingFactorList)
    : Result<(SigningPackage<P>, SigningNonces), Error>
    requires g.order > 0
  {
    var commit :- ComputeGroupCommitment(g, package, factors);
    if !g.oddY(commit) then Ok((package, nonces))
    else Ok((NegatePackage(g, package), NegateNonces(g, nonces)))
  }

  /** What the hook makes of a package whose group commitment is known. */
  ghost predicate Mirrored<P>(g: Group<P>, package: SigningPackage<P>, factors: BindingFactorList,
                              hooked: SigningPackage<P>)
    requires g.order > 0
  {
    var before := ComputeGroupCommitment(g, package, factors);
    var after := ComputeGroupCommitment(g, hooked, factors);
    && before.Ok? && after.Ok?
    && !g.oddY(after.value)
    && g.x(after.value) == g.x(before.value)
    && (after == before || after.value == g.neg(before.value))
    && (after.value == g.identity <==> before.value == g.identity)
    && hooked.message == package.message
    && hooked.commitments.Keys == package.commitments.Keys
  }

  /**
   * Everybody who runs a hook on the same signing package fails in the same way or ends
   * with the same package, whose group commitment has even y and the x it had before;
   * nonces open the commitments afterwards exactly when they did before.
   */
  lemma HooksAgree<P(!new)>(g: Group<P>, package: SigningPackage<P>, nonces: SigningNonces, factors: BindingFactorList)
    requires IsGroup(g) && g.order > 0
    ensures var signer := PreCommitmentSign(g, package, nonces, factors);
            match PreCommitmentAggregate(g, package, factors)
            case Err(e) => signer == Err(e) && ComputeGroupCommitment(g, package, factors) == Err(e)
            case Ok(hooked) =>
              && signer.Ok? && signer.value.0 == hooked
              && Mirrored(g, package, factors, hooked)
              && (forall id :: id in package.commitments ==>
                   (Commit(g, signer.value.1) == hooked.commitments[id]
                    <==> Commit(g, nonces) == package.commitments[id]))
  {
    hide IsGroup, Commit, NegateNonces;
    NegatedGroupCommitment(g, package, factors);
    var commit := ComputeGroupCommitment(g, package, factors);
    if commit.Ok? && g.oddY(commit.value) {
      MirrorImage(g, commit.value);
      forall id | id in package.commitments
        ensures Commit(g, NegateNonces(g, nonces)) == NegateCommitments(g, package.commitments[id])
                <==> Commit(g, nonces) == package.commitments[id]
      {
        NegatedNoncesOpen(g, nonces, package.commitments[id]);
      }
    }
  }

  lemma MirrorImage<P(!new)>(g: Group<P>, a: P)
    requires IsGroup(g) && g.oddY(a)
    ensures !g.oddY(g.neg(a)) && g.x(g.neg(a)) == g.x(a) && a != g.identity && g.neg(a) != g.identity
  {
    assert Mirrors(g, a);
    NegIdentity(g, a);
  }

  /** The hook changes nothing when it is run on its own result. */
  lemma HookTwice<P(!new)>(g: Group<P>, package: SigningPackage<P>, factors: BindingFactorList)
    requires IsGroup(g) && g.order > 0
    requires PreCommitmentAggregate(g, package, factors).Ok?
    ensures var hooked := PreCommitmentAggregate(g, package, factors).value;
            PreCommitmentAggregate(g, hooked, factors) == Ok(hooked)
  {
    hide IsGroup, NegatePackage, NegateNonces, Commit;
    HooksAgree(g, package, SigningNonces(0, 0), factors);
  }
}
