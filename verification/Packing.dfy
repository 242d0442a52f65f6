/** How every part of an account update becomes a random-oracle input. */
module Packing {
  import opened Wrappers
  import opened Bytes
  import opened ZkappTx
  import opened BitPacking
  import opened PackedInputs
  import H = Hashing

  // ---------------------------------------------------------------------
  // Leaves
  // ---------------------------------------------------------------------

  function PackField(f: Fp): PackedInput {
    OfField(f)
  }

  function PackBool(b: bool): PackedInput {
    OfBool(b)
  }

  function PackPublicKey(k: PublicKey): PackedInput {
    PackedInput([k.x], [BoolBit(k.isOdd)])
  }

  function PackRange32(r: RangeCondition<U32>): PackedInput {
    PackedInput([], [U32Bits(r.lower), U32Bits(r.upper)])
  }

  function PackRange64(r: RangeCondition<U64>): PackedInput {
    PackedInput([], [U64Bits(r.lower), U64Bits(r.upper)])
  }

  function ThreeBits(e: Encoded): PackedInput {
    PackedInput([], [BoolBit(e.constant), BoolBit(e.signatureNecessary), BoolBit(e.signatureSufficient)])
  }

  function PackAuth(a: AuthRequired): PackedInput {
    ThreeBits(Encode(a))
  }

  function PackSetVerificationKey(s: SetVerificationKey): PackedInput {
    Append(PackAuth(s.auth), PackedInput([], [U32Bits(s.txnVersion)]))
  }

  /** Only the hash of a verification key is packed. */
  function PackVerificationKey(v: VerificationKeyData): PackedInput {
    OfField(v.hash)
  }

  function PackTiming(t: TimingData): PackedInput {
    PackedInput([], [U64Bits(t.initialMinimumBalance), U32Bits(t.cliffTime), U64Bits(t.cliffAmount),
                     U32Bits(t.vestingPeriod), U64Bits(t.vestingIncrement)])
  }

  function PackTokenSymbol(s: TokenSymbol): PackedInput {
    PackedInput([], [ByteBits(Padded(s))])
  }

  function PackBalanceChange(b: BalanceChange): PackedInput {
    PackedInput([], [U64Bits(b.magnitude), BoolBit(b.sgn == 1)])
  }

  function PackMayUseToken(m: MayUseToken): PackedInput {
    PackedInput([], [BoolBit(m.parentsOwnToken), BoolBit(m.inheritFromParent)])
  }

  function PackAuthorizationKind(k: AuthorizationKind): PackedInput {
    PackedInput([k.verificationKeyHash], [BoolBit(k.isSigned), BoolBit(k.isProved)])
  }

  // ---------------------------------------------------------------------
  // Hashed parts
  // ---------------------------------------------------------------------

  /** From the last event to the first, each event hashed on its own. */
  function HashEvents(empty: nat, cons: nat, event: nat, data: seq<seq<Fp>>): Fp {
    if data == [] then H.HashNoInput(empty)
    else H.HashWith(cons, [HashEvents(empty, cons, event, data[1..]), H.HashWith(event, data[0])])
  }

  function EventsHash(data: seq<seq<Fp>>): Fp {
    HashEvents(H.Of(H.EventsEmpty), H.Of(H.Events), H.Of(H.Event), data)
  }

  function ActionsHash(data: seq<seq<Fp>>): Fp {
    HashEvents(H.Of(H.ActionsEmpty), H.Of(H.Actions), H.Of(H.Event), data)
  }

  /** Events that hash alike are as many, and each is the same up to a zero that makes its length even. */
  lemma {:induction false} EventsHashBinds(empty: nat, cons: nat, event: nat, a: seq<seq<Fp>>, b: seq<seq<Fp>>)
    ensures HashEvents(empty, cons, event, a) == HashEvents(empty, cons, event, b)
      <==> |a| == |b| && forall i :: 0 <= i < |a| ==> H.PadEven(a[i]) == H.PadEven(b[i])
  {
    hide H.HashWith, H.PadEven;
    if a != [] && b != [] {
      EventsHashBinds(empty, cons, event, a[1..], b[1..]);
      H.HashPairInjective(cons, HashEvents(empty, cons, event, a[1..]), H.HashWith(event, a[0]),
                          HashEvents(empty, cons, event, b[1..]), H.HashWith(event, b[0]));
      HashWithBinds(event, a[0], b[0]);
      if |a| == |b| && H.PadEven(a[0]) == H.PadEven(b[0])
         && forall i :: 0 <= i < |a[1..]| ==> H.PadEven(a[1..][i]) == H.PadEven(b[1..][i]) {
        forall i | 0 <= i < |a| ensures H.PadEven(a[i]) == H.PadEven(b[i]) {
          if i > 0 { assert a[i] == a[1..][i - 1] && b[i] == b[1..][i - 1]; }
        }
      }
    } else if a != [] {
      NoInputIsNoHash(empty, cons, [HashEvents(empty, cons, event, a[1..]), H.HashWith(event, a[0])]);
    } else if b != [] {
      NoInputIsNoHash(empty, cons, [HashEvents(empty, cons, event, b[1..]), H.HashWith(event, b[0])]);
    }
  }

  lemma HashWithBinds(prefix: nat, a: seq<Fp>, b: seq<Fp>)
    ensures H.HashWith(prefix, a) == H.HashWith(prefix, b) <==> H.PadEven(a) == H.PadEven(b)
  {
  }

  lemma NoInputIsNoHash(empty: nat, prefix: nat, data: seq<Fp>)
    ensures H.HashNoInput(empty) != H.HashWith(prefix, data)
  {
  }

  predicate Bit(b: Byte, j: nat) {
    b / Pow2(j) % 2 == 1
  }

  /** The bits of a byte, least significant first. */
  function BitsOf(b: Byte): (bits: seq<bool>)
    ensures |bits| == 8 && forall j :: 0 <= j < 8 ==> bits[j] == Bit(b, j)
  {
    [Bit(b, 0), Bit(b, 1), Bit(b, 2), Bit(b, 3), Bit(b, 4), Bit(b, 5), Bit(b, 6), Bit(b, 7)]
  }

  function AllBits(bytes: seq<Byte>): (bits: seq<bool>)
    ensures |bits| == 8 * |bytes|
  {
    if bytes == [] then [] else BitsOf(bytes[0]) + AllBits(bytes[1..])
  }

  function AsItems(bits: seq<bool>): (items: seq<BitData>)
    ensures |items| == |bits| && forall i :: 0 <= i < |bits| ==> items[i] == BoolBit(bits[i])
  {
    if bits == [] then [] else [BoolBit(bits[0])] + AsItems(bits[1..])
  }

  /** A final one marks the end of the URI. */
  function UriBits(uri: ZkappUri): seq<bool> {
    AllBits(uri) + [true]
  }

  function UriHash(uri: ZkappUri): Fp {
    H.HashWith(H.Of(H.Uri), Residues(Packed(AsItems(UriBits(uri)))))
  }

  lemma {:induction false} AllBitsSnoc(bytes: seq<Byte>, b: Byte)
    ensures AllBits(bytes + [b]) == AllBits(bytes) + BitsOf(b)
  {
    hide BitsOf;
    if bytes == [] {
      assert [] + [b] == [b] && [b][1..] == [];
    } else {
      assert (bytes + [b])[1..] == bytes[1..] + [b];
      AllBitsSnoc(bytes[1..], b);
    }
  }

  lemma {:induction false} BitAt(uri: seq<Byte>, i: nat, j: nat)
    requires i < |uri| && j < 8
    ensures AllBits(uri)[8 * i + j] <==> uri[i] / Pow2(j) % 2 == 1
  {
    hide BitsOf;
    if i > 0 { BitAt(uri[1..], i - 1, j); }
  }

  lemma BitOfUri(uri: ZkappUri, i: nat, j: nat)
    requires i < |uri| && j < 8
    ensures 8 * i + j < 8 * |uri| && (UriBits(uri)[8 * i + j] <==> uri[i] / Pow2(j) % 2 == 1)
  {
    hide AllBits, Pow2;
    BitAt(uri, i, j);
  }

  /** Appends the bits of every byte, and the end mark. */
  method UriInput(uri: ZkappUri) returns (bits: seq<bool>)
    ensures bits == UriBits(uri)
    ensures |bits| == 8 * |uri| + 1 && bits[8 * |uri|]
    ensures forall i, j :: 0 <= i < |uri| && 0 <= j < 8 ==> (bits[8 * i + j] <==> uri[i] / Pow2(j) % 2 == 1)
  {
    hide Bit, BitsOf, Pow2;
    forall i, j | 0 <= i < |uri| && 0 <= j < 8 ensures UriBits(uri)[8 * i + j] <==> uri[i] / Pow2(j) % 2 == 1 {
      BitOfUri(uri, i, j);
    }
    bits := [];
    for i := 0 to |uri|
      invariant bits == AllBits(uri[..i])
    {
      for j := 0 to 8
        invariant bits == AllBits(uri[..i]) + BitsOf(uri[i])[..j]
      {
        bits := bits + [Bit(uri[i], j)];
        assert BitsOf(uri[i])[..j + 1] == BitsOf(uri[i])[..j] + [BitsOf(uri[i])[j]];
      }
      assert uri[..i + 1] == uri[..i] + [uri[i]];
      AllBitsSnoc(uri[..i], uri[i]);
    }
    assert uri[..|uri|] == uri;
    bits := bits + [true];
  }

  function PackUri(uri: ZkappUri): PackedInput {
    OfField(UriHash(uri))
  }

  // ---------------------------------------------------------------------
  // Placeholders of missing values
  // ---------------------------------------------------------------------

  function EmptyField(): PackedInput {
    OfField(ZERO)
  }

  function EmptyActionState(): PackedInput {
    OfField(H.HashNoInput(H.Of(H.ActionStateEmpty)))
  }

  function EmptyPublicKey(): PackedInput {
    PackPublicKey(EMPTY_KEY)
  }

  function EmptyPermissions(h: Hardfork): PackedInput {
    PackPermissions(Permissions(
      NoAuth, NoAuth, NoAuth, NoAuth, NoAuth, NoAuth, SetVerificationKey(NoAuth, h.TxnVersion()),
      NoAuth, NoAuth, NoAuth, NoAuth, NoAuth, NoAuth))
  }

  function EmptyTokenSymbol(): PackedInput {
    PackTokenSymbol([])
  }

  function EmptyTiming(): PackedInput {
    PackTiming(TimingData(0, 0, 0, 0, 0))
  }

  function EmptyRange32(): PackedInput {
    PackRange32(RangeCondition(0, U32_MAX))
  }

  function EmptyRange64(): PackedInput {
    PackRange64(RangeCondition(0, U64_MAX))
  }

  function EmptyUri(): PackedInput {
    OfField(H.HashWith(H.Of(H.Uri), [ZERO, ZERO]))
  }

  // ---------------------------------------------------------------------
  // Composite parts
  // ---------------------------------------------------------------------

  function PermissionParts(p: Permissions): seq<PackedInput> {
    [PackAuth(p.editState), PackAuth(p.access), PackAuth(p.send), PackAuth(p.receive), PackAuth(p.setDelegate),
     PackAuth(p.setPermissions), PackSetVerificationKey(p.setVerificationKey), PackAuth(p.setZkappUri),
     PackAuth(p.editActionState), PackAuth(p.setTokenSymbol), PackAuth(p.incrementNonce), PackAuth(p.setVotingFor),
     PackAuth(p.setTiming)]
  }

  function PackPermissions(p: Permissions): PackedInput {
    Concat(PermissionParts(p))
  }

  function PackOptField(f: Option<Fp>): PackedInput {
    PackOption(f, PackField, EmptyField())
  }

  function PackOptRange32(r: Option<RangeCondition<U32>>): PackedInput {
    PackOption(r, PackRange32, EmptyRange32())
  }

  function PackOptRange64(r: Option<RangeCondition<U64>>): PackedInput {
    PackOption(r, PackRange64, EmptyRange64())
  }

  function PackOptKey(k: Option<PublicKey>): PackedInput {
    PackOption(k, PackPublicKey, EmptyPublicKey())
  }

  function PackOptBool(b: Option<bool>): PackedInput {
    PackOption(b, PackBool, OfBool(false))
  }

  /** The state fields, in order, however many there are. */
  function PackState(state: seq<Option<Fp>>): PackedInput {
    Concat(PackEach(state, PackOptField))
  }

  function UpdateParts(h: Hardfork, u: Update): seq<PackedInput> {
    [PackState(u.appState),
     PackOptKey(u.delegate),
     PackOption(u.verificationKey, PackVerificationKey, EmptyField()),
     PackOption(u.permissions, PackPermissions, EmptyPermissions(h)),
     PackOption(u.zkappUri, PackUri, EmptyUri()),
     PackOption(u.tokenSymbol, PackTokenSymbol, EmptyTokenSymbol()),
     PackOption(u.timing, PackTiming, EmptyTiming()),
     PackOptField(u.votingFor)]
  }

  function PackUpdate(h: Hardfork, u: Update): PackedInput {
    Concat(UpdateParts(h, u))
  }

  function LedgerParts(l: EpochLedger): seq<PackedInput> {
    [PackOptField(l.hash), PackOptRange64(l.totalCurrency)]
  }

  function EpochParts(e: EpochData): seq<PackedInput> {
    [Concat(LedgerParts(e.ledger)), PackOptField(e.seed), PackOptField(e.startCheckpoint),
     PackOptField(e.lockCheckpoint), PackOptRange32(e.epochLength)]
  }

  function NetworkParts(n: NetworkPreconditions): seq<PackedInput> {
    [PackOptField(n.snarkedLedgerHash), PackOptRange32(n.blockchainLength), PackOptRange32(n.minWindowDensity),
     PackOptRange64(n.totalCurrency), PackOptRange32(n.globalSlotSinceGenesis),
     Concat(EpochParts(n.stakingEpochData)), Concat(EpochParts(n.nextEpochData))]
  }

  function AccountParts(a: AccountPreconditions): seq<PackedInput> {
    [PackOptRange64(a.balance), PackOptRange32(a.nonce), PackOptField(a.receiptChainHash), PackOptKey(a.delegate),
     PackState(a.state), PackOption(a.actionState, PackField, EmptyActionState()), PackOptBool(a.provedState),
     PackOptBool(a.isNew)]
  }

  function PreconditionParts(p: Preconditions): seq<PackedInput> {
    [Concat(NetworkParts(p.network)), Concat(AccountParts(p.account)), PackOptRange32(p.validWhile)]
  }

  /** The call depth is not among the parts. */
  function BodyParts(h: Hardfork, b: AccountUpdateBody): seq<PackedInput> {
    [PackPublicKey(b.publicKey), OfField(b.tokenId), PackUpdate(h, b.update), PackBalanceChange(b.balanceChange),
     OfBool(b.incrementNonce), OfField(EventsHash(b.events)), OfField(ActionsHash(b.actions)), OfField(b.callData),
     Concat(PreconditionParts(b.preconditions)), OfBool(b.useFullCommitment), OfBool(b.implicitAccountCreationFee),
     PackMayUseToken(b.mayUseToken), PackAuthorizationKind(b.authorizationKind)]
  }

  function PackBody(h: Hardfork, b: AccountUpdateBody): PackedInput {
    Concat(BodyParts(h, b))
  }
}
