/** Key material dealt from a secret polynomial, and whole signing runs with it. */
module HonestSigning {
  import opened Wrappers
  import opened Bytes
  import opened Modular
  import opened Folds
  import opened Shamir
  import opened PrimeGroup
  import opened EvenY
  import opened Signing

  /** The key of participant id; the threshold is the number of coefficients. */
  function DealtKey<P>(g: Group<P>, p: seq<int>, id: nat): KeyPackage<P>
    requires g.order > 0
  {
    KeyPackage(id, Eval(p, id) % g.order, Times(g, Eval(p, id), g.generator), Times(g, Eval(p, 0), g.generator), |p|)
  }

  function DealtPublicKeys<P>(g: Group<P>, p: seq<int>, ids: set<nat>): PublicKeyPackage<P>
    requires g.order > 0
  {
    PublicKeyPackage(map id | id in ids :: Times(g, Eval(p, id), g.generator), Times(g, Eval(p, 0), g.generator))
  }

  /** Verifying shares interpolate, in the exponent, to the verifying key. */
  lemma SharesInterpolate<P(!new)>(g: Group<P>, p: seq<int>, all: set<nat>, ids: set<nat>)
    requires IsGroup(g) && g.order > 0 && Identifiers(g.order, ids) && ids <= all && |p| <= |ids|
    ensures SharesOfKey(g, ids, DealtPublicKeys(g, p, all))
  {
    hide IsGroup, Lambda, Times, Eval, Sum, PointSum, Cong;
    Positive(g);
    var terms, weighted := Terms(g.order, ids, p), Weighted(g, ids, DealtPublicKeys(g, p, all).verifyingShares);
    forall id | id in ids ensures weighted[id] == Times(g, terms[id], g.generator) {
      TimesTimes(g, Lambda(g.order, ids, id), Eval(p, id), g.generator);
    }
    PointSumTimes(g, terms, g.generator, weighted);
    Interpolation(g.order, ids, p);
    TimesCong(g, Sum(terms), Eval(p, 0), g.generator);
  }

  function CommitAll<P>(g: Group<P>, nonces: map<nat, SigningNonces>, message: seq<Byte>): (package: SigningPackage<P>)
    requires g.order > 0
    ensures package.commitments.Keys == nonces.Keys && package.message == message
  {
    SigningPackage(map id | id in nonces :: Commit(g, nonces[id]), message)
  }

  /** The key or some commitment is the identity, which cannot be serialized. */
  ghost predicate HasIdentity<P>(g: Group<P>, key: P, package: SigningPackage<P>) {
    || key == g.identity
    || exists id :: id in package.commitments
                    && (package.commitments[id].hiding == g.identity || package.commitments[id].binding == g.identity)
  }

  /**
   * The coordinator succeeds exactly if nothing is the identity and the message can be
   * hashed with the x of the signers' bound commitments; otherwise it says which it was.
   */
  lemma WhenPrepared<P(!new)>(s: Suite<P>, key: P, package: SigningPackage<P>)
    requires WellFormed(s, package)
    ensures var c := s.challenge(s.group.x(BoundSum(s, key, package)), key, package.message);
      && (Prepare(s, key, package).Ok? <==> !HasIdentity(s.group, key, package) && c.Ok?)
      && (Prepare(s, key, package).Err? ==>
            Prepare(s, key, package).error
            == if HasIdentity(s.group, key, package) then InvalidIdentityElement else c.error)
    ensures Prepare(s, key, package).Ok? <==>
      && BindingFactors(s, key, package).Ok?
      && ComputeGroupCommitment(s.group, package, BindingFactors(s, key, package).value).Ok?
      && s.challenge(s.group.x(ComputeGroupCommitment(s.group, package, BindingFactors(s, key, package).value).value),
                     key, package.message).Ok?
  {
    hide IsGroup, NegatePackage, NegateNonces, Commit, ComputeGroupCommitment, BoundSum;
    var factors := BindingFactors(s, key, package);
    if factors.Ok? {
      HooksAgree(s.group, package, SigningNonces(0, 0), factors.value);
      FactorsAreTheSuites(s, key, package);
    }
  }

  lemma IsIdentity<P(!new)>(g: Group<P>, k: int)
    requires IsGroup(g) && g.order > 0
    ensures Times(g, k, g.generator) == g.identity <==> k % g.order == 0
  {
    hide IsGroup, Times, Cong;
    TimesOne(g, g.generator);
    GeneratorIsFree(g, k, 0);
    if k % g.order == 0 { CongMod(g.order, k); CongMod(g.order, 0); }
    if Cong(g.order, k, 0) { CongEqual(g.order, k, 0); }
  }

  /** A run of honest signers has binding factors exactly if the secret and all nonces are not zero. */
  lemma WhenHonestRunsWork<P(!new)>(s: Suite<P>, p: seq<int>, nonces: map<nat, SigningNonces>, message: seq<Byte>)
    requires IsGroup(s.group) && s.group.order > 0 && Identifiers(s.group.order, nonces.Keys)
    ensures var g, package := s.group, CommitAll(s.group, nonces, message);
      BindingFactors(s, Times(g, Eval(p, 0), g.generator), package).Ok?
      <==> && Eval(p, 0) % g.order != 0
           && forall id :: id in nonces ==> nonces[id].hiding % g.order != 0 && nonces[id].binding % g.order != 0
  {
    hide IsGroup, Times, Eval;
    var g, c := s.group, CommitAll(s.group, nonces, message).commitments;
    IsIdentity(g, Eval(p, 0));
    forall id | id in nonces
      ensures c[id].hiding == g.identity <==> nonces[id].hiding % g.order == 0
      ensures c[id].binding == g.identity <==> nonces[id].binding % g.order == 0
    {
      IsIdentity(g, nonces[id].hiding);
      IsIdentity(g, nonces[id].binding);
    }
  }

  lemma HonestShare<P(!new)>(s: Suite<P>, p: seq<int>, nonces: map<nat, SigningNonces>, message: seq<Byte>, id: nat)
    requires IsGroup(s.group) && s.group.order > 0 && Identifiers(s.group.order, nonces.Keys)
    requires |p| <= |nonces| && id in nonces
    ensures var package, key := CommitAll(s.group, nonces, message), DealtKey(s.group, p, id);
      && WellFormed(s, package)
      && var t, z := Prepare(s, key.verifyingKey, package), Sign(s, package, nonces[id], key);
      && (t.Err? ==> z == Err(t.error))
      && (t.Ok? ==>
            && WellFormed(s, t.value.package) && id in t.value.package.commitments && id in t.value.factors
            && z.Ok? && ShareVerifies(s, t.value, id, key.verifyingShare, z.value))
  {
    hide IsGroup, Commit, Lambda, Times, Prepare, Sign, ShareVerifies, Eval, Cong, ComputeGroupCommitment;
    var g := s.group;
    var package, key := CommitAll(g, nonces, message), DealtKey(g, p, id);
    assert |package.commitments| == |nonces| by {
      assert package.commitments.Keys == nonces.Keys;
      assert |package.commitments.Keys| == |package.commitments| && |nonces.Keys| == |nonces|;
    }
    var used := SignerFollowsTranscript(s, package, nonces[id], key);
    if Prepare(s, key.verifyingKey, package).Ok? {
      CongMod(g.order, Eval(p, id));
      TimesCong(g, Eval(p, id) % g.order, Eval(p, id), g.generator);
      OnlyTheShareVerifies(s, package, nonces[id], key, Sign(s, package, nonces[id], key).value);
    }
  }

  /** Either all signers fail as the coordinator does, or all their shares pass their checks. */
  lemma HonestShares<P(!new)>(s: Suite<P>, p: seq<int>, all: set<nat>, nonces: map<nat, SigningNonces>,
                              message: seq<Byte>)
    returns (shares: map<nat, nat>)
    requires IsGroup(s.group) && s.group.order > 0 && Identifiers(s.group.order, all)
    requires nonces.Keys <= all && |p| <= |nonces|
    ensures WellFormed(s, CommitAll(s.group, nonces, message))
    ensures var g, package, pubkeys := s.group, CommitAll(s.group, nonces, message), DealtPublicKeys(s.group, p, all);
      var prepared := Prepare(s, pubkeys.verifyingKey, package);
      && (prepared.Err? ==>
            forall id :: id in nonces ==> Sign(s, package, nonces[id], DealtKey(g, p, id)) == Err(prepared.error))
      && (prepared.Ok? ==>
            && shares.Keys == nonces.Keys
            && (forall id :: id in nonces ==> Sign(s, package, nonces[id], DealtKey(g, p, id)) == Ok(shares[id]))
            && WellFormed(s, prepared.value.package)
            && prepared.value.factors.Keys == prepared.value.package.commitments.Keys
            && AllSharesVerify(s, prepared.value, pubkeys, shares))
  {
    hide IsGroup, Commit, Lambda, Times, Prepare, Sign, ShareVerifies, Eval, ComputeGroupCommitment;
    var g, package, pubkeys := s.group, CommitAll(s.group, nonces, message), DealtPublicKeys(s.group, p, all);
    forall id | id in nonces {
      HonestShare(s, p, nonces, message, id);
    }
    shares := map[];
    var prepared := Prepare(s, pubkeys.verifyingKey, package);
    if prepared.Ok? {
      PreparedIsEven(s, pubkeys.verifyingKey, package);
      shares := map id | id in nonces :: Sign(s, package, nonces[id], DealtKey(g, p, id)).value;
    }
  }

  /** D_i + rho_i * E_i, for nonces (d_i, e_i) and the suite's own binding factor rho_i. */
  function HonestBound<P>(s: Suite<P>, p: seq<int>, nonces: map<nat, SigningNonces>, message: seq<Byte>, id: nat): P
    requires s.group.order > 0 && id in nonces
  {
    var g := s.group;
    var factor := s.bindingFactor(Times(g, Eval(p, 0), g.generator), CommitAll(g, nonces, message), id);
    g.add(Times(g, nonces[id].hiding, g.generator), Times(g, factor, Times(g, nonces[id].binding, g.generator)))
  }

  function HonestSum<P>(s: Suite<P>, p: seq<int>, nonces: map<nat, SigningNonces>, message: seq<Byte>): P
    requires s.group.order > 0
  {
    PointSum(s.group, map id | id in nonces :: HonestBound(s, p, nonces, message, id))
  }

  lemma HonestSumIs<P(!new)>(s: Suite<P>, p: seq<int>, nonces: map<nat, SigningNonces>, message: seq<Byte>)
    requires s.group.order > 0
    ensures var key, package := Times(s.group, Eval(p, 0), s.group.generator), CommitAll(s.group, nonces, message);
      && (forall id :: id in nonces ==> Bound(s, key, package, id) == HonestBound(s, p, nonces, message, id))
      && BoundSum(s, key, package) == HonestSum(s, p, nonces, message)
  {
    hide Times, Eval;
    var key, package := Times(s.group, Eval(p, 0), s.group.generator), CommitAll(s.group, nonces, message);
    assert (map id | id in package.commitments :: Bound(s, key, package, id))
        == map id | id in nonces :: HonestBound(s, p, nonces, message, id);
  }

  /** Verified shares satisfy the equations of the suite, and the commitment is the signed sum. */
  lemma HonestEquations<P(!new)>(s: Suite<P>, p: seq<int>, all: set<nat>, nonces: map<nat, SigningNonces>,
                                 message: seq<Byte>, shares: map<nat, nat>)
    requires IsGroup(s.group) && s.group.order > 0 && Identifiers(s.group.order, all)
    requires nonces.Keys <= all && WellFormed(s, CommitAll(s.group, nonces, message))
    requires var key := Times(s.group, Eval(p, 0), s.group.generator);
      var prepared := Prepare(s, key, CommitAll(s.group, nonces, message));
      && prepared.Ok? && WellFormed(s, prepared.value.package)
      && prepared.value.factors.Keys == prepared.value.package.commitments.Keys
      && AllSharesVerify(s, prepared.value, DealtPublicKeys(s.group, p, all), shares) && shares.Keys == nonces.Keys
    ensures var g, sum := s.group, HonestSum(s, p, nonces, message);
      var key := Times(g, Eval(p, 0), g.generator);
      var t := Prepare(s, key, CommitAll(g, nonces, message)).value;
      && t.r == Signed(g, g.oddY(sum), sum)
      && s.challenge(g.x(t.r), key, message) == Ok(t.challenge)
      && forall id :: id in nonces ==>
           Times(g, shares[id], g.generator)
           == g.add(Signed(g, g.oddY(sum), HonestBound(s, p, nonces, message, id)),
                    Times(g, t.challenge * Lambda(g.order, nonces.Keys, id), Times(g, Eval(p, id), g.generator)))
  {
    hide IsGroup, Prepare, ShareVerifies, Times, Eval, CommitAll, HonestBound, HonestSum, Bound, BoundSum, Lambda;
    var g := s.group;
    var key, package := Times(g, Eval(p, 0), g.generator), CommitAll(g, nonces, message);
    PreparedIsSigned(s, key, package);
    PreparedIsEven(s, key, package);
    HonestSumIs(s, p, nonces, message);
    forall id | id in nonces
      ensures ShareEquation(s, key, package, id, Times(g, Eval(p, id), g.generator),
                            Prepare(s, key, package).value.challenge, shares[id])
    {
      assert DealtPublicKeys(g, p, all).verifyingShares[id] == Times(g, Eval(p, id), g.generator);
      CheckIsEquation(s, key, package, id, Times(g, Eval(p, id), g.generator), shares[id]);
    }
  }

  /**
   * Even-y FROST is correct: for every polynomial, every set of at least as many signers
   * as it has coefficients, all nonces and all binding factors, either everybody fails
   * with the coordinator's error, or everybody signs and the aggregate is z * G = R + c * PK
   * with R of even y. With one sign for all signers, R is the sum of their bound
   * commitments D_i + rho_i * E_i, and z_i * G that of signer i plus lambda_i * c * Y_i,
   * rho_i being the suite's binding factor for the package as the coordinator sent it.
   * The Mina verifier accepts exactly when R is not the identity.
   */
  lemma EvenYCorrect<P(!new)>(s: Suite<P>, p: seq<int>, all: set<nat>, nonces: map<nat, SigningNonces>,
                              message: seq<Byte>)
    returns (shares: map<nat, nat>)
    requires IsGroup(s.group) && s.group.order > 0 && Identifiers(s.group.order, all)
    requires nonces.Keys <= all && |p| <= |nonces|
    ensures WellFormed(s, CommitAll(s.group, nonces, message))
    ensures var g, package, pubkeys := s.group, CommitAll(s.group, nonces, message), DealtPublicKeys(s.group, p, all);
      var prepared := Prepare(s, pubkeys.verifyingKey, package);
      && (prepared.Err? ==>
            forall id :: id in nonces ==> Sign(s, package, nonces[id], DealtKey(g, p, id)) == Err(prepared.error))
      && (prepared.Ok? ==>
            var t, z := prepared.value, Sum(shares) % g.order;
            && shares.Keys == nonces.Keys
            && (forall id :: id in nonces ==> Sign(s, package, nonces[id], DealtKey(g, p, id)) == Ok(shares[id]))
            && Aggregate(s, package, shares, pubkeys) == Ok(Signature(t.r, z))
            && Verifies(s, pubkeys.verifyingKey, t.challenge, Signature(t.r, z))
            && !g.oddY(t.r)
            && Mirrored(g, package, t.factors, t.package)
            && var sum := HonestSum(s, p, nonces, message);
            && t.r == Signed(g, g.oddY(sum), sum)
            && s.challenge(g.x(t.r), pubkeys.verifyingKey, message) == Ok(t.challenge)
            && (forall id :: id in nonces ==>
                 Times(g, shares[id], g.generator)
                 == g.add(Signed(g, g.oddY(sum), HonestBound(s, p, nonces, message, id)),
                          Times(g, t.challenge * Lambda(g.order, nonces.Keys, id), Times(g, Eval(p, id), g.generator))))
            && (MinaAccepts(s, pubkeys.verifyingKey, message, g.x(t.r), z) <==> t.r != g.identity))
  {
    hide IsGroup, Prepare, Sign, ComputeGroupCommitment, SharesOfKey, Aggregate, AllSharesVerify, Verifies,
         MinaAccepts, Mirrored, Sum, DealtPublicKeys, DealtKey, CommitAll, HonestSum, HonestBound, Times, Lambda, Eval,
         ShareVerifies;
    var g, package, pubkeys := s.group, CommitAll(s.group, nonces, message), DealtPublicKeys(s.group, p, all);
    shares := HonestShares(s, p, all, nonces, message);
    if Prepare(s, pubkeys.verifyingKey, package).Ok? {
      SharesInterpolate(g, p, all, nonces.Keys);
      AggregateVerifiedShares(s, package, pubkeys, shares);
      AggregateIsEven(s, package, shares, pubkeys);
      PreparedMirrors(s, pubkeys.verifyingKey, package);
      PreparedIsEven(s, pubkeys.verifyingKey, package);
      DealtKeyIs(g, p, all);
      HonestEquations(s, p, all, nonces, message, shares);
    }
  }

  lemma DealtKeyIs<P>(g: Group<P>, p: seq<int>, all: set<nat>)
    requires g.order > 0
    ensures DealtPublicKeys(g, p, all).verifyingKey == Times(g, Eval(p, 0), g.generator)
  {
  }
}
