/** The two commitments of a zkApp command, and what they bind. */
module Commit {
  import opened Wrappers
  import opened Bytes
  import opened Networks
  import opened ZkappTx
  import opened PackedInputs
  import opened Packing
  import opened CallForest
  import H = Hashing

  // ---------------------------------------------------------------------
  // Hashes of the parts
  // ---------------------------------------------------------------------

  predicate KindValid(k: AuthorizationKind) {
    !(k.isProved && k.isSigned) && (k.isProved || k.verificationKeyHash == DUMMY_HASH)
  }

  function HashAccountUpdate(h: Hardfork, network: NetworkId, u: AccountUpdate): Result<Fp, H.TxError> {
    if !KindValid(u.body.authorizationKind) then Err(H.InvalidAuthorizationKind)
    else H.HashWithPrefix(BodyPrefix(network), Fields(PackBody(h, u.body)))
  }

  function HashFeePayer(h: Hardfork, network: NetworkId, f: FeePayer): Result<Fp, H.TxError> {
    HashAccountUpdate(h, network, OfFeePayer(h, f))
  }

  /** The node of one tree on top of the stack of the trees after it. */
  function Push(tree: Fp, calls: Fp, stack: Fp): Fp {
    H.HashWith(H.Of(H.Cons), [H.HashWith(H.Of(H.Node), [tree, calls]), stack])
  }

  /** From the last tree to the first, the children of a tree before the tree. */
  function HashForest(h: Hardfork, network: NetworkId, forest: seq<CallTree>): Result<Fp, H.TxError> {
    if forest == [] then Ok(ZERO)
    else
      var stack :- HashForest(h, network, forest[1..]);
      var calls :- HashForest(h, network, forest[0].children);
      var tree :- HashAccountUpdate(h, network, forest[0].accountUpdate);
      Ok(Push(tree, calls, stack))
  }

  lemma EmptyForest(h: Hardfork, network: NetworkId)
    ensures HashForest(h, network, []) == Ok(ZERO)
  {
  }

  lemma ForestStep(h: Hardfork, network: NetworkId, forest: seq<CallTree>, i: nat, stack: Fp)
    requires i < |forest| && HashForest(h, network, forest[i + 1..]) == Ok(stack)
    ensures var calls := HashForest(h, network, forest[i].children);
      var tree := HashAccountUpdate(h, network, forest[i].accountUpdate);
      HashForest(h, network, forest[i..])
      == if calls.Err? then calls else if tree.Err? then tree else Ok(Push(tree.value, calls.value, stack))
  {
    hide HashAccountUpdate, Push;
    assert forest[i..][1..] == forest[i + 1..];
  }

  method CallForestHash(h: Hardfork, network: NetworkId, forest: seq<CallTree>) returns (result: Result<Fp, H.TxError>)
    ensures result == HashForest(h, network, forest)
    decreases forest
  {
    hide HashForest, HashAccountUpdate, H.HashWith;
    var stackHash := ZERO;
    var i := |forest|;
    assert forest[i..] == [];
    EmptyForest(h, network);
    while i > 0
      invariant 0 <= i <= |forest|
      invariant HashForest(h, network, forest[i..]) == Ok(stackHash)
    {
      i := i - 1;
      ForestStep(h, network, forest, i, stackHash);
      var calls := CallForestHash(h, network, forest[i].children);
      if calls.Err? {
        FailsAt(h, network, forest, i);
        return calls;
      }
      var tree := HashAccountUpdate(h, network, forest[i].accountUpdate);
      if tree.Err? {
        FailsAt(h, network, forest, i);
        return tree;
      }
      var node := H.HashWith(H.Of(H.Node), [tree.value, calls.value]);
      stackHash := H.HashWith(H.Of(H.Cons), [node, stackHash]);
    }
    assert forest[0..] == forest;
    result := Ok(stackHash);
  }

  /** A failure in a later tree comes out before anything of the earlier ones. */
  lemma {:induction false} FailsAt(h: Hardfork, network: NetworkId, forest: seq<CallTree>, i: nat)
    requires i < |forest| && HashForest(h, network, forest[i..]).Err?
    ensures HashForest(h, network, forest) == HashForest(h, network, forest[i..])
  {
    hide HashAccountUpdate, Push;
    if i == 0 {
      assert forest[0..] == forest;
    } else {
      assert forest[1..][i - 1..] == forest[i..];
      FailsAt(h, network, forest[1..], i - 1);
    }
  }

  // ---------------------------------------------------------------------
  // The memo
  // ---------------------------------------------------------------------

  /** The number with these bits, least significant first. */
  function LowFirst(bits: seq<bool>): nat {
    if bits == [] then 0 else (if bits[0] then 1 else 0) + 2 * LowFirst(bits[1..])
  }

  /** Legacy packing: 254 bits to a field, in the order they come. */
  function LegacyFields(bits: seq<bool>): seq<nat>
    decreases |bits|
  {
    if bits == [] then []
    else if |bits| <= 254 then [LowFirst(bits)]
    else [LowFirst(bits[..254])] + LegacyFields(bits[254..])
  }

  function MemoHash(memo: seq<Byte>): Fp {
    H.HashWith(H.Of(H.Memo), Residues(LegacyFields(AllBits(memo))))
  }

  // ---------------------------------------------------------------------
  // The commitments
  // ---------------------------------------------------------------------

  function ZkCommit(h: Hardfork, tx: Command, network: NetworkId): Result<(Fp, Fp), H.TxError> {
    if !DepthsValid(tx.accountUpdates) then Err(H.InvalidCallDepths)
    else
      var updates :- HashForest(h, network, Build(tx.accountUpdates));
      var feePayer :- HashFeePayer(h, network, tx.feePayer);
      Ok((updates, H.HashWith(H.Of(H.Cons), [MemoHash(tx.memo), feePayer, updates])))
  }

  /** The full commitment absorbs the memo, the update u, the account updates, and an evening zero. */
  ghost predicate AbsorbsFee(h: Hardfork, tx: Command, network: NetworkId, u: AccountUpdate, commitment: (Fp, Fp)) {
    && HashAccountUpdate(h, network, u).Ok?
    && commitment.1 == Hashed(H.Of(H.Cons), [MemoHash(tx.memo), HashAccountUpdate(h, network, u).value, commitment.0,
                                             Residue(0)])
  }

  lemma ThreeAbsorbed(prefix: nat, a: Fp, b: Fp, c: Fp)
    ensures H.HashWith(prefix, [a, b, c]) == Hashed(prefix, [a, b, c, Residue(0)])
  {
    assert [a, b, c] + [ZERO] == [a, b, c, Residue(0)];
  }

  method ComputeZkCommit(h: Hardfork, tx: Command, network: NetworkId) returns (result: Result<(Fp, Fp), H.TxError>)
    requires |tx.accountUpdates| < MAX_UPDATES
    ensures result == ZkCommit(h, tx, network)
    ensures result.Ok? ==> exists u :: ChargesFee(h, tx.feePayer, u) && AbsorbsFee(h, tx, network, u, result.value)
  {
    hide HashForest, HashAccountUpdate, MemoHash, ChargesFee;
    var valid := IsCallDepthValid(tx.accountUpdates);
    if !valid {
      return Err(H.InvalidCallDepths);
    }
    var forest := FromUpdates(tx.accountUpdates);
    var updates := CallForestHash(h, network, forest);
    if updates.Err? {
      return Err(updates.error);
    }
    var feePayerUpdate := FromFeePayer(h, tx.feePayer);
    var feePayer := HashAccountUpdate(h, network, feePayerUpdate);
    if feePayer.Err? {
      return Err(feePayer.error);
    }
    result := Ok((updates.value, H.HashWith(H.Of(H.Cons), [MemoHash(tx.memo), feePayer.value, updates.value])));
    ChargesFeeExactly(h, tx.feePayer, feePayerUpdate);
    ThreeAbsorbed(H.Of(H.Cons), MemoHash(tx.memo), feePayer.value, updates.value);
    assert AbsorbsFee(h, tx, network, feePayerUpdate, result.value);
  }
}
