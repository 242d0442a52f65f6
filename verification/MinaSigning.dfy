/**
 * The ciphersuite with its real challenge: the signed bytes are decoded to a message, and
 * the message is hashed with the key and with the x of the group commitment.
 */
module MinaSigning {
  import opened Wrappers
  import opened Bytes
  import opened Folds
  import opened Shamir
  import opened PrimeGroup
  import opened EvenY
  import opened Signing
  import opened HonestSigning
  import M = PallasMessage

  /** The hash of a message under a key and an x, whatever sponge computes it. */
  type MessageHash<!P, !R> = (int, P, M.Message<R>) -> nat

  /** A panic of the decoder is an error of the challenge here. */
  function Challenge<P, R>(c: M.Codec<R>, hash: MessageHash<P, R>, rx: int, key: P,
                           bytes: seq<Byte>): Result<nat, Error> {
    match M.ChallengeMessage(c, bytes)
    case Some(m) => Ok(hash(rx, key, m))
    case None => Err(ChallengeError)
  }

  function MinaSuite<P, R>(g: Group<P>, factor: (P, SigningPackage<P>, nat) -> nat, c: M.Codec<R>,
                           hash: MessageHash<P, R>): Suite<P> {
    Suite(g, factor, (rx, key, bytes) => Challenge(c, hash, rx, key, bytes))
  }

  /** The verifier of Mina hashes the message itself; it never sees its serialization. */
  predicate VerifiesMessage<P(==), R>(g: Group<P>, hash: MessageHash<P, R>, key: P, m: M.Message<R>, rx: int, z: nat)
    requires g.order > 0
  {
    var v := g.add(Times(g, z, g.generator), g.neg(Times(g, hash(rx, key, m), key)));
    v != g.identity && !g.oddY(v) && g.x(v) == rx
  }

  /** On the serialization of a message, the two verifiers agree. */
  lemma VerifiersAgree<P(!new), R(!new)>(s: Suite<P>, c: M.Codec<R>, hash: MessageHash<P, R>, key: P, m: M.Message<R>,
                                         rx: int, z: nat)
    requires s == MinaSuite(s.group, s.bindingFactor, c, hash) && s.group.order > 0
    requires M.Canonical(c) && (m.networkId.Custom? ==> c.utf8(m.networkId.name))
    requires M.Serialized(c, m).Ok? && |c.serialize(m.input)| < M.U32
    ensures MinaAccepts(s, key, M.Serialized(c, m).value, rx, z) <==> VerifiesMessage(s.group, hash, key, m, rx, z)
  {
    hide Times, M.ChallengeMessage, M.Serialized, M.Canonical;
    M.SerializedChallengesDiffer(c, m, m);
    assert s.challenge(rx, key, M.Serialized(c, m).value) == Challenge(c, hash, rx, key, M.Serialized(c, m).value);
  }

  /**
   * End to end: any threshold of the dealt signers, signing the serialization of a
   * message, either all fail with the coordinator's error or produce a signature whose x
   * and scalar the Mina verifier accepts for the message itself, unless the group
   * commitment is the identity.
   */
  lemma SignedMessageVerifies<P(!new), R(!new)>(s: Suite<P>, c: M.Codec<R>, hash: MessageHash<P, R>, m: M.Message<R>,
                                                p: seq<int>, all: set<nat>, nonces: map<nat, SigningNonces>)
    returns (shares: map<nat, nat>)
    requires IsGroup(s.group) && s.group.order > 0 && Identifiers(s.group.order, all)
    requires nonces.Keys <= all && |p| <= |nonces|
    requires s == MinaSuite(s.group, s.bindingFactor, c, hash)
    requires M.Canonical(c) && (m.networkId.Custom? ==> c.utf8(m.networkId.name))
    requires M.Serialized(c, m).Ok? && |c.serialize(m.input)| < M.U32
    ensures var package := CommitAll(s.group, nonces, M.Serialized(c, m).value);
      WellFormed(s, package)
    ensures var g, package := s.group, CommitAll(s.group, nonces, M.Serialized(c, m).value);
            var pubkeys := DealtPublicKeys(s.group, p, all);
      var prepared := Prepare(s, pubkeys.verifyingKey, package);
      && (prepared.Ok? <==> BindingFactors(s, pubkeys.verifyingKey, package).Ok?)
      && (prepared.Ok? ==>
            && shares.Keys == nonces.Keys
            && (forall id :: id in nonces ==> Sign(s, package, nonces[id], DealtKey(g, p, id)) == Ok(shares[id]))
            && Aggregate(s, package, shares, pubkeys) == Ok(Signature(prepared.value.r, Sum(shares) % g.order))
            && (VerifiesMessage(g, hash, pubkeys.verifyingKey, m, g.x(prepared.value.r), Sum(shares) % g.order)
                <==> prepared.value.r != g.identity))
  {
    hide IsGroup, Prepare, Sign, Aggregate, Verifies, MinaAccepts, VerifiesMessage, Mirrored, Sum, DealtKey,
         DealtPublicKeys, CommitAll, BindingFactors, M.Serialized, M.Canonical, Times;
    var g, bytes, pubkeys := s.group, M.Serialized(c, m).value, DealtPublicKeys(s.group, p, all);
    var package := CommitAll(g, nonces, bytes);
    shares := EvenYCorrect(s, p, all, nonces, bytes);
    NeverFailsToHash(s, c, hash, pubkeys.verifyingKey, package, m);
    var prepared := Prepare(s, pubkeys.verifyingKey, package);
    if prepared.Ok? {
      VerifiersAgree(s, c, hash, pubkeys.verifyingKey, m, g.x(prepared.value.r), Sum(shares) % g.order);
    }
  }

  lemma NeverFailsToHash<P(!new), R(!new)>(s: Suite<P>, c: M.Codec<R>, hash: MessageHash<P, R>, key: P,
                                           package: SigningPackage<P>, m: M.Message<R>)
    requires WellFormed(s, package)
    requires s == MinaSuite(s.group, s.bindingFactor, c, hash)
    requires M.Canonical(c) && (m.networkId.Custom? ==> c.utf8(m.networkId.name))
    requires M.Serialized(c, m).Ok? && |c.serialize(m.input)| < M.U32 && package.message == M.Serialized(c, m).value
    ensures Prepare(s, key, package).Ok? <==> BindingFactors(s, key, package).Ok?
  {
    hide IsGroup, Prepare, PointSum, Share, M.ChallengeMessage, M.Serialized, M.Canonical;
    WhenPrepared(s, key, package);
    M.SerializedChallengesDiffer(c, m, m);
    var factors := BindingFactors(s, key, package);
    if factors.Ok? {
      var r := ComputeGroupCommitment(s.group, package, factors.value);
      assert r.Ok?;
      assert s.challenge(s.group.x(r.value), key, package.message)
          == Challenge(c, hash, s.group.x(r.value), key, package.message);
    }
  }
}
