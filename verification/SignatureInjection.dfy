/** Placing a group signature into a signed zkApp command, in place. */
module SignatureInjection {
  import opened Wrappers
  import opened Bytes
  import opened Networks
  import opened ZkappTx
  import opened CommitBinding
  import opened Commit

  datatype Warning =
    | FeePayerKeyMismatch(expected: PublicKey, found: PublicKey)
    | PartialCommitmentSkipped(index: nat, publicKey: PublicKey)
    | SignatureOverwritten(index: nat, publicKey: PublicKey)
    | FeePayerSignatureOverwritten

  datatype InjectionResult = InjectionResult(
    accountUpdatesInjected: nat,
    feePayerInjected: bool,
    warnings: seq<Warning>)

  // ---------------------------------------------------------------------
  // What injection does
  // ---------------------------------------------------------------------

  predicate ShouldInject(u: AccountUpdate, key: PublicKey) {
    u.body.authorizationKind.isSigned && u.body.publicKey == key
  }

  /** Signed by this key over the full commitment. */
  predicate Receives(u: AccountUpdate, key: PublicKey) {
    ShouldInject(u, key) && u.body.useFullCommitment
  }

  function InjectedUpdate(u: AccountUpdate, key: PublicKey, signature: string): AccountUpdate {
    if Receives(u, key) then u.(authorization := u.authorization.(signature := Some(signature))) else u
  }

  function InjectedUpdates(updates: seq<AccountUpdate>, key: PublicKey, signature: string): (s: seq<AccountUpdate>)
    ensures |s| == |updates| && forall i :: 0 <= i < |s| ==> s[i] == InjectedUpdate(updates[i], key, signature)
  {
    seq(|updates|, i requires 0 <= i < |updates| => InjectedUpdate(updates[i], key, signature))
  }

  function InjectedFeePayer(f: FeePayer, key: PublicKey, signature: string): FeePayer {
    if f.body.publicKey == key then f.(authorization := signature) else f
  }

  function Injected(tx: Command, key: PublicKey, signature: string): Command {
    tx.(feePayer := InjectedFeePayer(tx.feePayer, key, signature),
        accountUpdates := InjectedUpdates(tx.accountUpdates, key, signature))
  }

  function Receivers(updates: seq<AccountUpdate>, key: PublicKey): set<int> {
    set i | 0 <= i < |updates| && Receives(updates[i], key)
  }

  function FeePayerWarnings(f: FeePayer, key: PublicKey): seq<Warning> {
    if f.body.publicKey != key then [FeePayerKeyMismatch(key, f.body.publicKey)]
    else if f.authorization != "" then [FeePayerSignatureOverwritten]
    else []
  }

  function WarningOf(i: nat, u: AccountUpdate, key: PublicKey): Option<Warning> {
    if !ShouldInject(u, key) then None
    else if !u.body.useFullCommitment then Some(PartialCommitmentSkipped(i, u.body.publicKey))
    else if u.authorization.signature.Some? && u.authorization.signature.value != "" then
      Some(SignatureOverwritten(i, u.body.publicKey))
    else None
  }

  function UpdateWarnings(updates: seq<AccountUpdate>, key: PublicKey): seq<Warning> {
    if updates == [] then []
    else
      var n := |updates| - 1;
      var last := WarningOf(n, updates[n], key);
      UpdateWarnings(updates[..n], key) + (if last.Some? then [last.value] else [])
  }

  // ---------------------------------------------------------------------
  // The command
  // ---------------------------------------------------------------------

  class ZkAppCommand {
    var feePayer: FeePayer
    var accountUpdates: seq<AccountUpdate>
    var memo: seq<Byte>

    constructor (tx: Command)
      ensures Value() == tx
    {
      feePayer := tx.feePayer;
      accountUpdates := tx.accountUpdates;
      memo := tx.memo;
    }

    function Value(): Command
      reads this
    {
      Command(feePayer, accountUpdates, memo)
    }

    method InjectSignature(key: PublicKey, signature: string) returns (result: InjectionResult)
      modifies this`feePayer, this`accountUpdates
      ensures Value() == Injected(old(Value()), key, signature)
      ensures result.accountUpdatesInjected == |Receivers(old(accountUpdates), key)|
      ensures forall i :: i in Receivers(old(accountUpdates), key) <==>
                && 0 <= i < |old(accountUpdates)|
                && var b := old(accountUpdates)[i].body;
                   b.authorizationKind.isSigned && b.publicKey == key && b.useFullCommitment
      ensures result.feePayerInjected <==> old(feePayer).body.publicKey == key
      ensures result.warnings == FeePayerWarnings(old(feePayer), key) + UpdateWarnings(old(accountUpdates), key)
    {
      var warnings: seq<Warning> := [];
      var feePayerInjected;
      feePayerInjected, warnings := InjectFeePayerSignature(key, signature, warnings);
      var count;
      count, warnings := InjectAccountUpdateSignatures(key, signature, warnings);
      result := InjectionResult(count, feePayerInjected, warnings);
    }

    method InjectFeePayerSignature(key: PublicKey, signature: string, warnings: seq<Warning>)
      returns (injected: bool, warned: seq<Warning>)
      modifies this`feePayer
      ensures feePayer == InjectedFeePayer(old(feePayer), key, signature)
      ensures injected <==> old(feePayer).body.publicKey == key
      ensures warned == warnings + FeePayerWarnings(old(feePayer), key)
    {
      warned := warnings;
      if feePayer.body.publicKey != key {
        warned := warned + [FeePayerKeyMismatch(key, feePayer.body.publicKey)];
        return false, warned;
      }
      if feePayer.authorization != "" {
        warned := warned + [FeePayerSignatureOverwritten];
      }
      feePayer := feePayer.(authorization := signature);
      injected := true;
    }

    method InjectAccountUpdateSignatures(key: PublicKey, signature: string, warnings: seq<Warning>)
      returns (count: nat, warned: seq<Warning>)
      modifies this`accountUpdates
      ensures accountUpdates == InjectedUpdates(old(accountUpdates), key, signature)
      ensures count == |Receivers(old(accountUpdates), key)|
      ensures warned == warnings + UpdateWarnings(old(accountUpdates), key)
    {
      ghost var before := accountUpdates;
      warned := warnings;
      count := 0;
      for index := 0 to |accountUpdates|
        invariant |accountUpdates| == |before|
        invariant forall i :: 0 <= i < index ==> accountUpdates[i] == InjectedUpdate(before[i], key, signature)
        invariant forall i :: index <= i < |before| ==> accountUpdates[i] == before[i]
        invariant count == |Receivers(before[..index], key)|
        invariant warned == warnings + UpdateWarnings(before[..index], key)
      {
        var update := accountUpdates[index];
        NextUpdate(before, index, key);
        if ShouldInject(update, key) {
          if !update.body.useFullCommitment {
            warned := warned + [PartialCommitmentSkipped(index, update.body.publicKey)];
            continue;
          }
          if update.authorization.signature.Some? {
            if update.authorization.signature.value != "" {
              warned := warned + [SignatureOverwritten(index, update.body.publicKey)];
            }
          }
          update := update.(authorization := update.authorization.(signature := Some(signature)));
          accountUpdates := accountUpdates[index := update];
          count := count + 1;
        }
      }
      assert before[..|before|] == before;
    }
  }

  lemma NextUpdate(updates: seq<AccountUpdate>, i: nat, key: PublicKey)
    requires i < |updates|
    ensures |Receivers(updates[..i + 1], key)|
      == |Receivers(updates[..i], key)| + if Receives(updates[i], key) then 1 else 0
    ensures var w := WarningOf(i, updates[i], key);
      UpdateWarnings(updates[..i + 1], key) == UpdateWarnings(updates[..i], key) + if w.Some? then [w.value] else []
  {
    assert updates[..i + 1][..i] == updates[..i];
    var before, after := Receivers(updates[..i], key), Receivers(updates[..i + 1], key);
    assert after == before + if Receives(updates[i], key) then {i as int} else {};
  }

  // ---------------------------------------------------------------------
  // Exactness
  // ---------------------------------------------------------------------

  /** Signatures change on the receiving updates, and nothing else does. */
  lemma InjectionIsExact(tx: Command, key: PublicKey, signature: string)
    ensures var after := Injected(tx, key, signature);
      && after.memo == tx.memo && after.feePayer.body == tx.feePayer.body
      && after.feePayer.authorization ==
           (if tx.feePayer.body.publicKey == key then signature else tx.feePayer.authorization)
      && |after.accountUpdates| == |tx.accountUpdates|
      && forall i :: 0 <= i < |tx.accountUpdates| ==>
           var u, v := tx.accountUpdates[i], after.accountUpdates[i];
           && v.body == u.body && v.authorization.proof == u.authorization.proof
           && v.authorization.signature ==
                (if u.body.authorizationKind.isSigned && u.body.publicKey == key && u.body.useFullCommitment
                 then Some(signature) else u.authorization.signature)
  {
  }

  /** The fee payer's warnings: another key, or an authorization that was not empty. */
  lemma FeePayerWarned(f: FeePayer, key: PublicKey)
    ensures f.body.publicKey != key ==> FeePayerWarnings(f, key) == [FeePayerKeyMismatch(key, f.body.publicKey)]
    ensures f.body.publicKey == key && |f.authorization| > 0 ==>
              FeePayerWarnings(f, key) == [FeePayerSignatureOverwritten]
    ensures f.body.publicKey == key && |f.authorization| == 0 ==> |FeePayerWarnings(f, key)| == 0
  {
  }

  /** An update with this key that is signed only in part, and one whose signature is replaced. */
  ghost predicate SkippedAt(updates: seq<AccountUpdate>, i: int, key: PublicKey) {
    && 0 <= i < |updates| && updates[i].body.authorizationKind.isSigned && updates[i].body.publicKey == key
    && !updates[i].body.useFullCommitment
  }

  ghost predicate OverwrittenAt(updates: seq<AccountUpdate>, i: int, key: PublicKey) {
    && 0 <= i < |updates| && updates[i].body.authorizationKind.isSigned && updates[i].body.publicKey == key
    && updates[i].body.useFullCommitment
    && updates[i].authorization.signature.Some? && |updates[i].authorization.signature.value| > 0
  }

  /** There is a warning for every update that is skipped or overwritten, and no other. */
  lemma WarnedExactly(updates: seq<AccountUpdate>, key: PublicKey, w: Warning)
    ensures w in UpdateWarnings(updates, key) <==>
      || (w.PartialCommitmentSkipped? && SkippedAt(updates, w.index, key) && w.publicKey == key)
      || (w.SignatureOverwritten? && OverwrittenAt(updates, w.index, key) && w.publicKey == key)
  {
    WarningsAreExact(updates, key);
    if w.PartialCommitmentSkipped? && w.index < |updates| {
      assert SkippedAt(updates, w.index, key) ==>
        WarningOf(w.index, updates[w.index], key) == Some(PartialCommitmentSkipped(w.index, key));
    } else if w.SignatureOverwritten? && w.index < |updates| {
      assert OverwrittenAt(updates, w.index, key) ==>
        WarningOf(w.index, updates[w.index], key) == Some(SignatureOverwritten(w.index, key));
    }
  }

  /** The warnings about updates are complete, name their update, and come in index order. */
  lemma {:induction false} WarningsAreExact(updates: seq<AccountUpdate>, key: PublicKey)
    ensures forall w :: w in UpdateWarnings(updates, key) ==>
      (w.PartialCommitmentSkipped? || w.SignatureOverwritten?) && w.index < |updates|
    ensures forall i :: 0 <= i < |updates| && WarningOf(i, updates[i], key).Some? ==>
      WarningOf(i, updates[i], key).value in UpdateWarnings(updates, key)
    ensures forall w :: w in UpdateWarnings(updates, key) ==>
      w.index < |updates| && WarningOf(w.index, updates[w.index], key) == Some(w)
    ensures forall a, b :: 0 <= a < b < |UpdateWarnings(updates, key)| ==>
      UpdateWarnings(updates, key)[a].index < UpdateWarnings(updates, key)[b].index
  {
    hide WarningOf;
    if updates != [] {
      var n := |updates| - 1;
      WarningsAreExact(updates[..n], key);
      WarningNames(n, updates[n], key);
      forall i | 0 <= i < n ensures updates[..n][i] == updates[i] {
      }
    }
  }

  lemma WarningNames(i: nat, u: AccountUpdate, key: PublicKey)
    ensures WarningOf(i, u, key).Some? ==>
      var w := WarningOf(i, u, key).value;
      (w.PartialCommitmentSkipped? || w.SignatureOverwritten?) && w.index == i
  {
  }

  // ---------------------------------------------------------------------
  // Sequences of injections
  // ---------------------------------------------------------------------

  /** Injecting again for the same key leaves only the last signature; with the same one it changes nothing. */
  lemma LastSignatureStays(tx: Command, key: PublicKey, first: string, second: string)
    ensures Injected(Injected(tx, key, first), key, second) == Injected(tx, key, second)
  {
    var once, again := Injected(tx, key, second), Injected(Injected(tx, key, first), key, second);
    assert again.accountUpdates == once.accountUpdates;
  }

  /** Injections for distinct keys commute. */
  lemma DistinctKeysCommute(tx: Command, k: PublicKey, s: string, l: PublicKey, t: string)
    requires k != l
    ensures Injected(Injected(tx, k, s), l, t) == Injected(Injected(tx, l, t), k, s)
  {
    var a, b := Injected(Injected(tx, k, s), l, t), Injected(Injected(tx, l, t), k, s);
    assert a.accountUpdates == b.accountUpdates;
  }

  datatype Injection = Injection(key: PublicKey, signature: string)

  function InjectedAll(tx: Command, injections: seq<Injection>): Command
    decreases |injections|
  {
    if injections == [] then tx
    else InjectedAll(Injected(tx, injections[0].key, injections[0].signature), injections[1..])
  }

  /**
   * What was signed stays what it was: after any injections with any keys and signatures,
   * the commitments are the same, and so are the reasons for having none.
   */
  lemma {:induction false} InjectionsKeepCommitment(h: Hardfork, tx: Command, injections: seq<Injection>, n: NetworkId)
    ensures ZkCommit(h, InjectedAll(tx, injections), n) == ZkCommit(h, tx, n)
    decreases |injections|
  {
    hide ZkCommit;
    if injections != [] {
      var once := Injected(tx, injections[0].key, injections[0].signature);
      InjectionsKeepCommitment(h, once, injections[1..], n);
      InjectionIsExact(tx, injections[0].key, injections[0].signature);
      assert AlikeLists(Equal, tx.accountUpdates, once.accountUpdates);
      CommitReadsBodies(h, tx, once, n);
    }
  }
}
