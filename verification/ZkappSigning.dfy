/** From a zkApp command to the bytes that are signed for it. */
module ZkappSigning {
  import opened Wrappers
  import opened Networks
  import opened ZkappTx
  import opened Commit
  import opened CommitBinding
  import opened SignatureInjection
  import M = PallasMessage

  /** The random-oracle input that holds one field element; different elements are different inputs. */
  ghost predicate Distinguishes<R>(ofField: Fp -> R) {
    forall a, b :: ofField(a) == ofField(b) ==> a == b
  }

  /** A command is signed as its full commitment alone; without a commitment, the conversion panics. */
  function MessageOf<R>(h: Hardfork, ofField: Fp -> R, tx: Command, network: NetworkId): Option<M.Message<R>> {
    var commitment := ZkCommit(h, tx, network);
    if commitment.Err? then None else Some(M.Message(ofField(commitment.value.1), network, false))
  }

  /** What is signed: the full commitment, for the network that was asked for and not in the
      legacy mode; there is no message exactly if there is no commitment. */
  lemma SignedMessage<R>(h: Hardfork, ofField: Fp -> R, tx: Command, network: NetworkId)
    ensures var m := MessageOf(h, ofField, tx, network);
      && (m.None? <==> ZkCommit(h, tx, network).Err?)
      && (m.Some? ==>
            && m.value.input == ofField(ZkCommit(h, tx, network).value.1)
            && m.value.networkId == network && !m.value.isLegacy)
  {
    hide ZkCommit;
  }

  ghost predicate Transportable<R>(c: M.Codec<R>, m: M.Message<R>) {
    && (m.networkId.Custom? ==> c.utf8(m.networkId.name))
    && M.Serialized(c, m).Ok? && |c.serialize(m.input)| < M.U32
  }

  /**
   * The signed bytes say which command was signed: two commands have the same ones
   * exactly if they are for the same network and agree in memo, fee payer, and account
   * updates with their call depths.
   */
  lemma SignedBytesBind<R(!new)>(h: Hardfork, c: M.Codec<R>, ofField: Fp -> R, t: Command, m: NetworkId, u: Command,
                                 n: NetworkId)
    requires M.Canonical(c) && Distinguishes(ofField)
    requires Sized(h, t) && Sized(h, u)
    requires MessageOf(h, ofField, t, m).Some? && MessageOf(h, ofField, u, n).Some?
    requires Transportable(c, MessageOf(h, ofField, t, m).value) && Transportable(c, MessageOf(h, ofField, u, n).value)
    ensures M.Serialized(c, MessageOf(h, ofField, t, m).value) == M.Serialized(c, MessageOf(h, ofField, u, n).value)
      <==> && m == n && t.memo == u.memo && SameFeePayer(t.feePayer, u.feePayer)
           && SameUpdates(t.accountUpdates, u.accountUpdates)
  {
    hide ZkCommit, Sized, SameFeePayer, SameUpdates, M.Serialized, M.Canonical;
    M.SerializedChallengesDiffer(c, MessageOf(h, ofField, t, m).value, MessageOf(h, ofField, u, n).value);
    FullCommitmentBinds(h, m, n, t, u);
  }

  /** Putting signatures into a command does not change the message that they sign. */
  lemma InjectedCommandSignsTheSame<R>(h: Hardfork, ofField: Fp -> R, tx: Command, injections: seq<Injection>,
                                       n: NetworkId)
    ensures MessageOf(h, ofField, InjectedAll(tx, injections), n) == MessageOf(h, ofField, tx, n)
  {
    hide ZkCommit, InjectedAll;
    InjectionsKeepCommitment(h, tx, injections, n);
  }
}
