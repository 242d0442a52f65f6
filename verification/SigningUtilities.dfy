/** A whole signing run by one caller who holds every secret share. */
module SigningUtilities {
  import opened Wrappers
  import opened Bytes
  import opened Modular
  import opened Folds
  import opened Shamir
  import opened PrimeGroup
  import opened EvenY
  import opened Signing
  import opened HonestSigning

  datatype SecretShare<P> = SecretShare(identifier: nat, signingShare: nat, commitment: seq<P>)

  /** Indexing a map at an identifier without a key package panics. */
  datatype Run<P> = Returned(result: Result<(Signature<P>, P), Error>) | Panicked

  /** The sum of i^k * C_k, times a power already reached (appendix C.2 of RFC 9591). */
  function EvaluateVss<P>(g: Group<P>, commitment: seq<P>, i: nat, power: nat): P
    requires g.order > 0
  {
    if commitment == [] then g.identity
    else g.add(Times(g, power, commitment[0]), EvaluateVss(g, commitment[1..], i, power * i))
  }

  /** A share becomes a key package once it is checked against the dealer's commitment. */
  function TryFrom<P(==)>(g: Group<P>, share: SecretShare<P>): Result<KeyPackage<P>, Error>
    requires g.order > 0
  {
    var verifyingShare := EvaluateVss(g, share.commitment, share.identifier, 1);
    if Times(g, share.signingShare, g.generator) != verifyingShare then Err(InvalidSecretShare)
    else if share.commitment == [] then Err(MissingCommitment)
    else Ok(KeyPackage(share.identifier, share.signingShare, verifyingShare, share.commitment[0], |share.commitment|))
  }

  function Participants(n: nat): (ids: set<nat>)
    ensures |ids| == n && forall i :: i in ids <==> 1 <= i <= n
  {
    if n == 0 then {} else Participants(n - 1) + {n}
  }

  function MinSigners(n: nat): nat {
    if n <= 3 then n else 3
  }

  /** The identifiers that sign: 1, 2, 3, or fewer if there are fewer verifying shares. */
  function Signers(n: nat): (ids: set<nat>)
    ensures forall id :: id in ids <==> 1 <= id <= n && id <= 3
  {
    Participants(MinSigners(n))
  }

  function FirstError<T>(m: map<nat, Result<T, Error>>): Option<Error> {
    var failing := set id | id in m && m[id].Err?;
    if failing == {} then None else Some(m[Min(failing)].error)
  }

  lemma FirstErrorIs<T>(m: map<nat, Result<T, Error>>, id: nat)
    requires id in m && m[id].Err?
    requires forall k :: k in m ==> m[k].Ok? || id <= k
    ensures FirstError(m) == Some(m[id].error)
  {
    var failing := set id | id in m && m[id].Err?;
    assert id in failing && Min(failing) in failing;
  }

  lemma NoError<T>(m: map<nat, Result<T, Error>>)
    requires forall id :: id in m ==> m[id].Ok?
    ensures FirstError(m) == None
  {
    assert (set id | id in m && m[id].Err?) == {};
  }

  function LoadAll<P(==)>(g: Group<P>, shares: map<nat, SecretShare<P>>): (m: map<nat, Result<KeyPackage<P>, Error>>)
    requires g.order > 0
    ensures m.Keys == shares.Keys
  {
    map id | id in shares :: TryFrom(g, shares[id])
  }

  function DrawAll<P>(keys: map<nat, KeyPackage<P>>, ids: set<nat>, draw: (nat, nat) -> SigningNonces)
    : (m: map<nat, SigningNonces>)
    requires ids <= keys.Keys
    ensures m.Keys == ids && forall id :: id in ids ==> m[id] == draw(id, keys[id].signingShare)
  {
    map id | id in ids :: draw(id, keys[id].signingShare)
  }

  function SignAll<P(==,!new)>(s: Suite<P>, package: SigningPackage<P>, nonces: map<nat, SigningNonces>,
                               keys: map<nat, KeyPackage<P>>)
    : (m: map<nat, Result<nat, Error>>)
    requires WellFormed(s, package) && nonces.Keys <= keys.Keys
    ensures m.Keys == nonces.Keys
  {
    map id | id in nonces :: Sign(s, package, nonces[id], keys[id])
  }

  function Values<T>(m: map<nat, Result<T, Error>>): (v: map<nat, T>)
    requires forall id :: id in m ==> m[id].Ok?
    ensures v.Keys == m.Keys
  {
    map id | id in m :: m[id].value
  }

  lemma AllOk<T>(m: map<nat, Result<T, Error>>)
    requires FirstError(m) == None
    ensures forall id :: id in m ==> m[id].Ok?
  {
    var failing := set id | id in m && m[id].Err?;
    assert failing == {};
    assert forall id :: id in m && m[id].Err? ==> id in failing;
  }

  /** Round 1, round 2 and aggregation, given the loaded key packages. */
  function SignWith<P(==,!new)>(s: Suite<P>, message: seq<Byte>, keys: map<nat, KeyPackage<P>>,
                                pubkeys: PublicKeyPackage<P>, draw: (nat, nat) -> SigningNonces): Run<P>
    requires IsGroup(s.group) && s.group.order > 3
  {
    var ids := Signers(|pubkeys.verifyingShares|);
    if !(ids <= keys.Keys) then Panicked
    else
      var nonces := DrawAll(keys, ids, draw);
      var package := CommitAll(s.group, nonces, message);
      var signed := SignAll(s, package, nonces, keys);
      if FirstError(signed).Some? then Returned(Err(FirstError(signed).value))
      else
        AllOk(signed);
        Returned(Finish(Aggregate(s, package, Values(signed), pubkeys), pubkeys.verifyingKey))
  }

  function Finish<P>(signature: Result<Signature<P>, Error>, key: P): Result<(Signature<P>, P), Error> {
    if signature.Ok? then Ok((signature.value, key)) else Err(signature.error)
  }

  /** The run as one expression over maps, every step done for all participants at once. */
  function RunOf<P(==,!new)>(s: Suite<P>, message: seq<Byte>, shares: map<nat, SecretShare<P>>,
                             pubkeys: PublicKeyPackage<P>, draw: (nat, nat) -> SigningNonces): Run<P>
    requires IsGroup(s.group) && s.group.order > 3
  {
    var loaded := LoadAll(s.group, shares);
    if FirstError(loaded).Some? then Returned(Err(FirstError(loaded).value))
    else
      AllOk(loaded);
      SignWith(s, message, Values(loaded), pubkeys, draw)
  }

  /** Checks and loads the shares in identifier order; the first bad one ends the run. */
  method LoadKeyPackages<P(==)>(g: Group<P>, shares: map<nat, SecretShare<P>>)
    returns (keys: map<nat, KeyPackage<P>>, failure: Option<Error>)
    requires g.order > 0
    ensures failure == FirstError(LoadAll(g, shares))
    ensures failure.None? ==>
              (forall id :: id in shares ==> LoadAll(g, shares)[id].Ok?) && keys == Values(LoadAll(g, shares))
  {
    hide TryFrom, FirstError;
    keys := map[];
    var rest := shares.Keys;
    while rest != {}
      invariant rest <= shares.Keys && keys.Keys == shares.Keys - rest
      invariant forall id :: id in keys ==> TryFrom(g, shares[id]) == Ok(keys[id])
      invariant forall i, j :: i in keys && j in rest ==> i < j
      decreases |rest|
    {
      var id := Min(rest);
      var loaded := TryFrom(g, shares[id]);
      if loaded.Err? {
        FirstErrorIs(LoadAll(g, shares), id);
        return keys, Some(loaded.error);
      }
      keys := keys[id := loaded.value];
      rest := rest - {id};
    }
    NoError(LoadAll(g, shares));
    failure := None;
  }

  /** Round 1: fresh nonces and their commitments, for each signer in turn. */
  method DrawNonces<P(==)>(g: Group<P>, keys: map<nat, KeyPackage<P>>, n: nat, draw: (nat, nat) -> SigningNonces)
    returns (nonces: map<nat, SigningNonces>, commitments: map<nat, SigningCommitments<P>>, panicked: bool)
    requires g.order > 0
    ensures panicked <==> exists id :: 1 <= id <= n && id <= 3 && id !in keys
    ensures !panicked ==>
      forall id :: id in nonces <==> 1 <= id <= n && id <= 3
    ensures !panicked ==>
      forall id :: id in nonces ==> id in keys && nonces[id] == draw(id, keys[id].signingShare)
    ensures commitments.Keys == nonces.Keys
    ensures forall id :: id in nonces ==>
      commitments[id] == SigningCommitments(Times(g, nonces[id].hiding, g.generator),
                                            Times(g, nonces[id].binding, g.generator))
  {
    hide Participants, Times;
    nonces, commitments, panicked := map[], map[], false;
    var minSigners := MinSigners(n);
    for id := 1 to minSigners + 1
      invariant forall i :: i in nonces <==> 1 <= i < id
      invariant forall i :: 1 <= i < id ==> i in keys && nonces[i] == draw(i, keys[i].signingShare)
      invariant commitments.Keys == nonces.Keys
      invariant forall i :: i in nonces ==> commitments[i] == Commit(g, nonces[i])
    {
      if id !in keys {
        panicked := true;
        return;
      }
      nonces := nonces[id := draw(id, keys[id].signingShare)];
      commitments := commitments[id := Commit(g, nonces[id])];
    }
  }

  /** Round 2: each signer in identifier order; the first refusal ends the run. */
  method SignEach<P(==,!new)>(s: Suite<P>, package: SigningPackage<P>, nonces: map<nat, SigningNonces>,
                              keys: map<nat, KeyPackage<P>>)
    returns (shares: map<nat, nat>, failure: Option<Error>)
    requires WellFormed(s, package) && nonces.Keys <= keys.Keys
    ensures failure == FirstError(SignAll(s, package, nonces, keys))
    ensures failure.None? ==>
      && (forall id :: id in nonces ==> SignAll(s, package, nonces, keys)[id].Ok?)
      && shares == Values(SignAll(s, package, nonces, keys))
  {
    hide IsGroup, Sign;
    shares := map[];
    var rest := nonces.Keys;
    while rest != {}
      invariant rest <= nonces.Keys && shares.Keys == nonces.Keys - rest
      invariant forall id :: id in shares ==> Sign(s, package, nonces[id], keys[id]) == Ok(shares[id])
      invariant forall i, j :: i in shares && j in rest ==> i < j
      decreases |rest|
    {
      var id := Min(rest);
      var signed := Sign(s, package, nonces[id], keys[id]);
      if signed.Err? {
        FirstErrorIs(SignAll(s, package, nonces, keys), id);
        return shares, Some(signed.error);
      }
      shares := shares[id := signed.value];
      rest := rest - {id};
    }
    NoError(SignAll(s, package, nonces, keys));
    failure := None;
  }

  lemma DrawnIs<P>(keys: map<nat, KeyPackage<P>>, n: nat, draw: (nat, nat) -> SigningNonces,
                   nonces: map<nat, SigningNonces>)
    requires forall id :: id in nonces <==> 1 <= id <= n && id <= 3
    requires forall id :: id in nonces ==> id in keys && nonces[id] == draw(id, keys[id].signingShare)
    ensures Signers(n) <= keys.Keys && nonces == DrawAll(keys, Signers(n), draw)
  {
    assert nonces.Keys == Signers(n);
  }

  lemma CommittedIs<P>(g: Group<P>, nonces: map<nat, SigningNonces>, message: seq<Byte>, package: SigningPackage<P>)
    requires g.order > 0 && package.message == message && package.commitments.Keys == nonces.Keys
    requires forall id :: id in nonces ==>
      package.commitments[id] == SigningCommitments(Times(g, nonces[id].hiding, g.generator),
                                                    Times(g, nonces[id].binding, g.generator))
    ensures package == CommitAll(g, nonces, message)
  {
    hide Times;
    assert package.commitments == CommitAll(g, nonces, message).commitments;
  }

  method SignFromPackages<P(==,!new)>(s: Suite<P>, message: seq<Byte>, shares: map<nat, SecretShare<P>>,
                                      pubkeys: PublicKeyPackage<P>, draw: (nat, nat) -> SigningNonces)
    returns (run: Run<P>)
    requires IsGroup(s.group) && s.group.order > 3
    ensures run == RunOf(s, message, shares, pubkeys, draw)
  {
    hide IsGroup, Sign, Aggregate, FirstError, Signers, TryFrom, Times, DrawAll, LoadAll, SignAll, Values, Finish;
    var keys, unloaded := LoadKeyPackages(s.group, shares);
    if unloaded.Some? { return Returned(Err(unloaded.value)); }
    var nonces, commitments, panicked := DrawNonces(s.group, keys, |pubkeys.verifyingShares|, draw);
    if panicked { return Panicked; }
    DrawnIs(keys, |pubkeys.verifyingShares|, draw, nonces);
    var package := SigningPackage(commitments, message);
    CommittedIs(s.group, nonces, message, package);
    var signatureShares, refused := SignEach(s, package, nonces, keys);
    if refused.Some? { return Returned(Err(refused.value)); }
    var signature := Aggregate(s, package, signatureShares, pubkeys);
    run := Returned(Finish(signature, pubkeys.verifyingKey));
  }

  // ---------------------------------------------------------------------
  // Runs over shares that a dealer split from one polynomial
  // ---------------------------------------------------------------------

  function Commitments<P>(g: Group<P>, p: seq<int>): (c: seq<P>)
    requires g.order > 0
    ensures |c| == |p|
  {
    if p == [] then [] else [Times(g, p[0], g.generator)] + Commitments(g, p[1..])
  }

  /** The check in the exponent evaluates the polynomial that the commitment hides. */
  lemma {:induction false} VssEvaluates<P(!new)>(g: Group<P>, p: seq<int>, i: nat, power: nat)
    requires IsGroup(g) && g.order > 0
    ensures EvaluateVss(g, Commitments(g, p), i, power) == Times(g, power * Eval(p, i), g.generator)
  {
    hide IsGroup, Times;
    if p == [] {
      TimesOne(g, g.generator);
      assert power * Eval(p, i) == 0;
    } else {
      var c := Commitments(g, p);
      assert c[1..] == Commitments(g, p[1..]);
      VssEvaluates(g, p[1..], i, power * i);
      TimesTimes(g, power, p[0], g.generator);
      TimesAdd(g, power * p[0], power * i * Eval(p[1..], i), g.generator);
      HornerTerm(power, p[0], i, Eval(p[1..], i));
    }
  }

  lemma HornerTerm(power: int, c: int, i: int, e: int)
    ensures power * (c + i * e) == power * c + power * i * e
  {
    assert power * (i * e) == power * i * e;
  }

  function DealtShares<P>(g: Group<P>, p: seq<int>, n: nat): (m: map<nat, SecretShare<P>>)
    requires g.order > 0
    ensures m.Keys == Participants(n)
  {
    map id | id in Participants(n) :: SecretShare(id, Eval(p, id) % g.order, Commitments(g, p))
  }

  lemma DealtShareLoads<P(!new)>(g: Group<P>, p: seq<int>, n: nat, id: nat)
    requires IsGroup(g) && g.order > 0 && p != [] && 1 <= id <= n
    ensures TryFrom(g, DealtShares(g, p, n)[id]) == Ok(DealtKey(g, p, id))
  {
    hide IsGroup, Times, Cong, Eval;
    VssEvaluates(g, p, id, 1);
    assert 1 * Eval(p, id) == Eval(p, id);
    CongMod(g.order, Eval(p, id));
    TimesCong(g, Eval(p, id) % g.order, Eval(p, id), g.generator);
    assert Commitments(g, p)[0] == Times(g, p[0], g.generator);
    assert Eval(p, 0) == p[0] by { ConstantTerm(p); }
  }

  /** A share of a committed polynomial passes its check exactly if it is the polynomial's value. */
  lemma LoadsExactly<P(!new)>(g: Group<P>, p: seq<int>, i: nat, z: nat)
    requires IsGroup(g) && g.order > 0
    ensures var loaded := TryFrom(g, SecretShare(i, z, Commitments(g, p)));
      && (loaded.Ok? <==> p != [] && Cong(g.order, z, Eval(p, i)))
      && (loaded.Err? ==>
            loaded.error == if Cong(g.order, z, Eval(p, i)) then MissingCommitment else InvalidSecretShare)
  {
    hide IsGroup, Times, Cong, Eval;
    VssEvaluates(g, p, i, 1);
    assert 1 * Eval(p, i) == Eval(p, i);
    GeneratorIsFree(g, z, Eval(p, i));
  }

  /** When a run does not come to signing: a bad share ends it, the one of the lowest
      identifier first, and with good shares a missing one among the first three panics. */
  lemma WhenRunsEndEarly<P(!new)>(s: Suite<P>, message: seq<Byte>, shares: map<nat, SecretShare<P>>,
                                  pubkeys: PublicKeyPackage<P>, draw: (nat, nat) -> SigningNonces)
    requires IsGroup(s.group) && s.group.order > 3
    ensures var n, run := |pubkeys.verifyingShares|, RunOf(s, message, shares, pubkeys, draw);
      && (run.Panicked? <==>
            && (forall id :: id in shares ==> TryFrom(s.group, shares[id]).Ok?)
            && exists id :: 1 <= id <= n && id <= 3 && id !in shares)
      && forall id :: id in shares && TryFrom(s.group, shares[id]).Err? ==>
           (forall k :: k in shares && k < id ==> TryFrom(s.group, shares[k]).Ok?) ==>
             run == Returned(Err(TryFrom(s.group, shares[id]).error))
  {
    hide IsGroup, TryFrom, Sign, Aggregate, Signers, FirstError;
    var loaded := LoadAll(s.group, shares);
    forall id | && id in shares && TryFrom(s.group, shares[id]).Err?
                && (forall k :: k in shares && k < id ==> TryFrom(s.group, shares[k]).Ok?)
      ensures FirstError(loaded) == Some(TryFrom(s.group, shares[id]).error)
    {
      FirstErrorIs(loaded, id);
    }
    if forall id :: id in shares ==> TryFrom(s.group, shares[id]).Ok? {
      NoError(loaded);
    } else {
      var failing := set id | id in shares && TryFrom(s.group, shares[id]).Err?;
      var bad :| bad in shares && TryFrom(s.group, shares[bad]).Err?;
      assert bad in failing;
      var low := Min(failing);
      forall k | k in loaded ensures loaded[k].Ok? || low <= k {
        if loaded[k].Err? { assert k in failing; }
      }
      FirstErrorIs(loaded, low);
    }
  }

  lemma ConstantTerm(p: seq<int>)
    requires p != []
    ensures Eval(p, 0) == p[0]
  {
    assert 0 * Eval(p[1..], 0) == 0;
  }

  function DealtKeys<P>(g: Group<P>, p: seq<int>, n: nat): (m: map<nat, KeyPackage<P>>)
    requires g.order > 0
    ensures m.Keys == Participants(n)
  {
    map id | id in Participants(n) :: DealtKey(g, p, id)
  }

  lemma DealtSharesLoad<P(!new)>(s: Suite<P>, message: seq<Byte>, p: seq<int>, n: nat,
                                 draw: (nat, nat) -> SigningNonces)
    requires IsGroup(s.group) && s.group.order > 3 && p != []
    ensures var pubkeys := DealtPublicKeys(s.group, p, Participants(n));
      RunOf(s, message, DealtShares(s.group, p, n), pubkeys, draw)
      == SignWith(s, message, DealtKeys(s.group, p, n), pubkeys, draw)
  {
    hide IsGroup, TryFrom, DealtKey, SignWith, DealtPublicKeys;
    var loaded := LoadAll(s.group, DealtShares(s.group, p, n));
    forall id | id in loaded ensures loaded[id] == Ok(DealtKey(s.group, p, id)) {
      DealtShareLoads(s.group, p, n, id);
    }
    NoError(loaded);
    assert Values(loaded) == DealtKeys(s.group, p, n);
  }

  /** What the signers of a dealt run publish and hold. */
  function DealtNonces<P>(g: Group<P>, p: seq<int>, n: nat,
                          draw: (nat, nat) -> SigningNonces): (m: map<nat, SigningNonces>)
    requires g.order > 0
    ensures |m| == (if n < 3 then n else 3) && m.Keys == Signers(n)
  {
    assert Signers(n) <= Participants(n);
    var m := DrawAll(DealtKeys(g, p, n), Signers(n), draw);
    assert |m| == |m.Keys|;
    m
  }

  lemma DealtNoncesAre<P>(g: Group<P>, p: seq<int>, n: nat, draw: (nat, nat) -> SigningNonces)
    requires g.order > 0
    ensures forall id :: id in DealtNonces(g, p, n, draw) <==> 1 <= id <= n && id <= 3
    ensures forall id :: id in DealtNonces(g, p, n, draw) ==>
      DealtNonces(g, p, n, draw)[id] == draw(id, Eval(p, id) % g.order)
  {
  }

  lemma NoncesOfDealtKeys<P(!new)>(s: Suite<P>, message: seq<Byte>, p: seq<int>, n: nat,
                                   draw: (nat, nat) -> SigningNonces)
    requires IsGroup(s.group) && s.group.order > 3
    ensures WellFormed(s, CommitAll(s.group, DealtNonces(s.group, p, n, draw), message))
    ensures var nonces := DealtNonces(s.group, p, n, draw);
      var signed := SignAll(s, CommitAll(s.group, nonces, message), nonces, DealtKeys(s.group, p, n));
      var pubkeys := DealtPublicKeys(s.group, p, Participants(n));
      && (FirstError(signed).Some? ==>
            SignWith(s, message, DealtKeys(s.group, p, n), pubkeys, draw) == Returned(Err(FirstError(signed).value)))
      && ((forall id :: id in signed ==> signed[id].Ok?) ==>
            SignWith(s, message, DealtKeys(s.group, p, n), pubkeys, draw)
            == Returned(Finish(Aggregate(s, CommitAll(s.group, nonces, message), Values(signed), pubkeys),
                               pubkeys.verifyingKey)))
  {
    hide IsGroup, Sign, Aggregate, Eval, Times, FirstError, DealtKey, Participants, Commit;
    var pubkeys := DealtPublicKeys(s.group, p, Participants(n));
    assert |pubkeys.verifyingShares| == |pubkeys.verifyingShares.Keys| &&
           pubkeys.verifyingShares.Keys == Participants(n);
    assert Signers(n) <= Participants(n);
    var nonces := DealtNonces(s.group, p, n, draw);
    var signed := SignAll(s, CommitAll(s.group, nonces, message), nonces, DealtKeys(s.group, p, n));
    if forall id :: id in signed ==> signed[id].Ok? { NoError(signed); }
  }

  /** With too few signers for the threshold, the run ends in the first signer's refusal. */
  lemma TooFewSigners<P(!new)>(s: Suite<P>, message: seq<Byte>, p: seq<int>, n: nat, draw: (nat, nat) -> SigningNonces)
    requires IsGroup(s.group) && s.group.order > 3
    requires n >= 1 && (|p| > n || |p| > 3)
    ensures RunOf(s, message, DealtShares(s.group, p, n), DealtPublicKeys(s.group, p, Participants(n)), draw)
      == Returned(Err(IncorrectNumberOfCommitments))
  {
    hide IsGroup, Eval, Times, RunOf, SignWith, DealtShares, DealtPublicKeys, FirstError, BindingFactors,
         PreCommitmentSign, ComputeGroupCommitment, DealtNonces;
    DealtSharesLoad(s, message, p, n, draw);
    NoncesOfDealtKeys(s, message, p, n, draw);
    var nonces := DealtNonces(s.group, p, n, draw);
    var package := CommitAll(s.group, nonces, message);
    assert |package.commitments| == |package.commitments.Keys| == |nonces.Keys| == |nonces|;
    FirstErrorIs(SignAll(s, package, nonces, DealtKeys(s.group, p, n)), 1);
  }

  lemma DealtOutcome<P(!new)>(s: Suite<P>, message: seq<Byte>, p: seq<int>, n: nat, draw: (nat, nat) -> SigningNonces,
                              shares: map<nat, nat>)
    requires IsGroup(s.group) && s.group.order > 3 && n >= 1
    requires WellFormed(s, CommitAll(s.group, DealtNonces(s.group, p, n, draw), message))
    ensures var g, nonces := s.group, DealtNonces(s.group, p, n, draw);
            var pubkeys := DealtPublicKeys(s.group, p, Participants(n));
      var package := CommitAll(g, nonces, message);
      var run := SignWith(s, message, DealtKeys(g, p, n), pubkeys, draw);
      && (forall e :: (forall id :: id in nonces ==> Sign(s, package, nonces[id], DealtKey(g, p, id)) == Err(e)) ==>
            run == Returned(Err(e)))
      && (shares.Keys == nonces.Keys
          && (forall id :: id in nonces ==> Sign(s, package, nonces[id], DealtKey(g, p, id)) == Ok(shares[id])) ==>
            run == Returned(Finish(Aggregate(s, package, shares, pubkeys), pubkeys.verifyingKey)))
  {
    hide IsGroup, SignWith, DealtPublicKeys, FirstError, DealtNonces, Sign, Aggregate, CommitAll, DealtKey,
         Participants;
    NoncesOfDealtKeys(s, message, p, n, draw);
    var g, nonces := s.group, DealtNonces(s.group, p, n, draw);
    var package := CommitAll(g, nonces, message);
    var signed := SignAll(s, package, nonces, DealtKeys(g, p, n));
    assert 1 in nonces;
    if signed[1].Err? {
      if forall id :: id in nonces ==> Sign(s, package, nonces[id], DealtKey(g, p, id)) == Err(signed[1].error) {
        FirstErrorIs(signed, 1);
      }
    } else if forall id :: id in signed ==> signed[id].Ok? {
      if shares.Keys == nonces.Keys && forall id :: id in nonces ==> signed[id] == Ok(shares[id]) {
        assert Values(signed) == shares;
      }
    }
  }

  /**
   * A run over dealt shares whose threshold is met: it ends in the coordinator's error,
   * or in a signature of even y that the Mina verifier accepts exactly if the group
   * commitment is not the identity.
   */
  lemma DealtRunSigns<P(!new)>(s: Suite<P>, message: seq<Byte>, p: seq<int>, n: nat, draw: (nat, nat) -> SigningNonces)
    requires IsGroup(s.group) && s.group.order > 3
    requires n < s.group.order && 0 < |p| <= n && |p| <= 3
    ensures var g, pubkeys := s.group, DealtPublicKeys(s.group, p, Participants(n));
      var package := CommitAll(g, DealtNonces(g, p, n, draw), message);
      var run := RunOf(s, message, DealtShares(g, p, n), pubkeys, draw);
      var prepared := Prepare(s, pubkeys.verifyingKey, package);
      && (prepared.Err? ==> run == Returned(Err(prepared.error)))
      && (prepared.Ok? ==>
            && run.Returned? && run.result.Ok?
            && run.result.value.1 == pubkeys.verifyingKey
            && var signature := run.result.value.0;
            && signature.r == prepared.value.r && !g.oddY(signature.r)
            && var sum := HonestSum(s, p, DealtNonces(g, p, n, draw), message);
            && signature.r == Signed(g, g.oddY(sum), sum)
            && Verifies(s, pubkeys.verifyingKey, prepared.value.challenge, signature)
            && (MinaAccepts(s, pubkeys.verifyingKey, message, g.x(signature.r), signature.z)
                <==> signature.r != g.identity))
  {
    hide IsGroup, Times, RunOf, SignWith, DealtShares, DealtPublicKeys, FirstError, DealtNonces, Prepare, Aggregate,
         Verifies, MinaAccepts, Mirrored, CommitAll, SignAll, Values, HonestSum, HonestBound, Lambda, Eval;
    var g, pubkeys := s.group, DealtPublicKeys(s.group, p, Participants(n));
    DealtSharesLoad(s, message, p, n, draw);
    var package := CommitAll(g, DealtNonces(g, p, n, draw), message);
    var shares := EvenYCorrect(s, p, Participants(n), DealtNonces(g, p, n, draw), message);
    DealtOutcome(s, message, p, n, draw, shares);
  }
}
