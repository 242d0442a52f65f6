/** The zkApp transaction: its datatypes, its defaults, and the fee payer seen as an account update. */
module ZkappTx {
  import opened Wrappers
  import opened Bytes

  type U32 = x: int | 0 <= x < 0x1_0000_0000
  type U64 = x: int | 0 <= x < 0x1_0000_0000_0000_0000

  const U32_MAX: U32 := 0xFFFF_FFFF
  const U64_MAX: U64 := 0xFFFF_FFFF_FFFF_FFFF
  const MEMO_BYTES: nat := 34

  /**
   * Field elements, with an ideal hash: what a sponge squeezes after a prefix alone, or
   * after a prefix and some data, is equal to nothing else. Prefixes are residues.
   */
  datatype Fp = Residue(n: nat) | Digest(prefix: nat) | Hashed(prefix: nat, data: seq<Fp>)

  const ZERO: Fp := Residue(0)
  const ONE: Fp := Residue(1)

  /** The two builds differ in the number of state fields and the transaction version. */
  datatype Hardfork = PreMesa | Mesa
  {
    function AppStateLength(): nat {
      if this == PreMesa then 8 else 32
    }

    function TxnVersion(): U32 {
      if this == PreMesa then 3 else 4
    }
  }

  datatype PublicKey = PublicKey(x: Fp, isOdd: bool)

  datatype RangeCondition<T> = RangeCondition(lower: T, upper: T)

  datatype AuthRequired = NoAuth | Either | Proof | Signature | Impossible | Both

  datatype Encoded = Encoded(constant: bool, signatureNecessary: bool, signatureSufficient: bool)

  datatype SetVerificationKey = SetVerificationKey(auth: AuthRequired, txnVersion: U32)

  datatype Permissions = Permissions(
    editState: AuthRequired,
    access: AuthRequired,
    send: AuthRequired,
    receive: AuthRequired,
    setDelegate: AuthRequired,
    setPermissions: AuthRequired,
    setVerificationKey: SetVerificationKey,
    setZkappUri: AuthRequired,
    editActionState: AuthRequired,
    setTokenSymbol: AuthRequired,
    incrementNonce: AuthRequired,
    setVotingFor: AuthRequired,
    setTiming: AuthRequired)

  datatype VerificationKeyData = VerificationKeyData(data: string, hash: Fp)

  datatype TimingData = TimingData(
    initialMinimumBalance: U64,
    cliffTime: U32,
    cliffAmount: U64,
    vestingPeriod: U32,
    vestingIncrement: U64)

  /** At most six bytes, as its parser makes sure. */
  type TokenSymbol = s: seq<Byte> | |s| <= 6

  type ZkappUri = seq<Byte>

  datatype Update = Update(
    appState: seq<Option<Fp>>,
    delegate: Option<PublicKey>,
    verificationKey: Option<VerificationKeyData>,
    permissions: Option<Permissions>,
    zkappUri: Option<ZkappUri>,
    tokenSymbol: Option<TokenSymbol>,
    timing: Option<TimingData>,
    votingFor: Option<Fp>)

  datatype BalanceChange = BalanceChange(magnitude: U64, sgn: int)

  datatype EpochLedger = EpochLedger(hash: Option<Fp>, totalCurrency: Option<RangeCondition<U64>>)

  datatype EpochData = EpochData(
    ledger: EpochLedger,
    seed: Option<Fp>,
    startCheckpoint: Option<Fp>,
    lockCheckpoint: Option<Fp>,
    epochLength: Option<RangeCondition<U32>>)

  datatype NetworkPreconditions = NetworkPreconditions(
    snarkedLedgerHash: Option<Fp>,
    blockchainLength: Option<RangeCondition<U32>>,
    minWindowDensity: Option<RangeCondition<U32>>,
    totalCurrency: Option<RangeCondition<U64>>,
    globalSlotSinceGenesis: Option<RangeCondition<U32>>,
    stakingEpochData: EpochData,
    nextEpochData: EpochData)

  datatype AccountPreconditions = AccountPreconditions(
    balance: Option<RangeCondition<U64>>,
    nonce: Option<RangeCondition<U32>>,
    receiptChainHash: Option<Fp>,
    delegate: Option<PublicKey>,
    state: seq<Option<Fp>>,
    actionState: Option<Fp>,
    provedState: Option<bool>,
    isNew: Option<bool>)

  datatype Preconditions = Preconditions(
    network: NetworkPreconditions,
    account: AccountPreconditions,
    validWhile: Option<RangeCondition<U32>>)

  datatype MayUseToken = MayUseToken(parentsOwnToken: bool, inheritFromParent: bool)

  datatype AuthorizationKind = AuthorizationKind(isSigned: bool, isProved: bool, verificationKeyHash: Fp)

  datatype AccountUpdateBody = AccountUpdateBody(
    publicKey: PublicKey,
    tokenId: Fp,
    update: Update,
    balanceChange: BalanceChange,
    incrementNonce: bool,
    events: seq<seq<Fp>>,
    actions: seq<seq<Fp>>,
    callData: Fp,
    callDepth: U32,
    preconditions: Preconditions,
    useFullCommitment: bool,
    implicitAccountCreationFee: bool,
    mayUseToken: MayUseToken,
    authorizationKind: AuthorizationKind)

  datatype Authorization = Authorization(proof: Option<string>, signature: Option<string>)

  datatype AccountUpdate = AccountUpdate(body: AccountUpdateBody, authorization: Authorization)

  datatype FeePayerBody = FeePayerBody(publicKey: PublicKey, fee: U64, validUntil: Option<U32>, nonce: U32)

  datatype FeePayer = FeePayer(body: FeePayerBody, authorization: string)

  datatype Command = Command(feePayer: FeePayer, accountUpdates: seq<AccountUpdate>, memo: seq<Byte>)

  /** The fixed-size arrays of the build. */
  predicate SizedBody(h: Hardfork, b: AccountUpdateBody) {
    |b.update.appState| == h.AppStateLength() && |b.preconditions.account.state| == h.AppStateLength()
  }

  predicate Sized(h: Hardfork, tx: Command) {
    |tx.memo| == MEMO_BYTES
    && forall i :: 0 <= i < |tx.accountUpdates| ==> SizedBody(h, tx.accountUpdates[i].body)
  }

  // ---------------------------------------------------------------------
  // Conversions
  // ---------------------------------------------------------------------

  function Encode(a: AuthRequired): Encoded {
    match a
    case NoAuth => Encoded(true, false, true)
    case Either => Encoded(false, false, true)
    case Proof => Encoded(false, false, false)
    case Signature => Encoded(false, true, true)
    case Impossible => Encoded(true, true, false)
    case Both => Encoded(false, true, false)
  }

  /** What the bits say: whether no proof or signature can change the outcome, whether a
      signature is needed, and whether it is enough. */
  lemma EncodeMeans(a: AuthRequired)
    ensures Encode(a).constant <==> a == NoAuth || a == Impossible
    ensures Encode(a).signatureNecessary <==> a == Signature || a == Impossible || a == Both
    ensures Encode(a).signatureSufficient <==> a == NoAuth || a == Either || a == Signature
  {
  }

  lemma EncodeInjective(a: AuthRequired, b: AuthRequired)
    ensures Encode(a) == Encode(b) <==> a == b
  {
    match a
    case NoAuth => assert Encode(b) == Encoded(true, false, true) ==> b == NoAuth;
    case Either => assert Encode(b) == Encoded(false, false, true) ==> b == Either;
    case Proof => assert Encode(b) == Encoded(false, false, false) ==> b == Proof;
    case Signature => assert Encode(b) == Encoded(false, true, true) ==> b == Signature;
    case Impossible => assert Encode(b) == Encoded(true, true, false) ==> b == Impossible;
    case Both => assert Encode(b) == Encoded(false, true, false) ==> b == Both;
  }

  /** The six-byte form of a token symbol: zeros after its end. */
  function Padded(s: TokenSymbol): (bytes: seq<Byte>)
    ensures |bytes| == 6
  {
    s + Zeros(6 - |s|)
  }

  /** Overwrites the front of the buffer and leaves the rest; a longer symbol would panic. */
  method ToBytes(s: TokenSymbol, bytes: array<Byte>)
    requires |s| <= bytes.Length
    modifies bytes
    ensures bytes[..] == s + old(bytes[|s|..])
  {
    if s == [] {
      return;
    }
    var length := |s|;
    var source := s[..if length <= 6 then length else 6];
    forall i | 0 <= i < length {
      bytes[i] := source[i];
    }
  }

  /** Symbols have the same six bytes exactly if they differ only in zeros at the end. */
  lemma PaddedExactly(s: TokenSymbol, t: TokenSymbol)
    requires |s| <= |t|
    ensures Padded(s) == Padded(t) <==> t == s + Zeros(|t| - |s|)
  {
    if Padded(s) == Padded(t) {
      forall i | 0 <= i < |t| ensures t[i] == (s + Zeros(|t| - |s|))[i] {
        assert t[i] == Padded(t)[i] == Padded(s)[i];
      }
    }
  }

  // ---------------------------------------------------------------------
  // Defaults and the fee payer
  // ---------------------------------------------------------------------

  function NoneOf(n: nat): (s: seq<Option<Fp>>)
    ensures |s| == n && forall i :: 0 <= i < n ==> s[i] == None
  {
    seq(n, _ => None)
  }

  /** The hash that stands for the absence of a verification key. */
  const DUMMY_HASH: Fp := Residue(3392518251768960475377392625298437850623664973002200885669375116181514017494)

  const EMPTY_KEY: PublicKey := PublicKey(ZERO, false)

  function DefaultUpdate(h: Hardfork): Update {
    Update(NoneOf(h.AppStateLength()), None, None, None, None, None, None, None)
  }

  function DefaultPreconditions(h: Hardfork): Preconditions {
    var ledger := EpochLedger(None, None);
    var epoch := EpochData(ledger, None, None, None, None);
    Preconditions(
      NetworkPreconditions(None, None, None, None, None, epoch, epoch),
      AccountPreconditions(None, None, None, None, NoneOf(h.AppStateLength()), None, None, None),
      None)
  }

  function DefaultBody(h: Hardfork): AccountUpdateBody {
    AccountUpdateBody(
      EMPTY_KEY, ONE, DefaultUpdate(h), BalanceChange(0, 1), false, [], [], ZERO, 0, DefaultPreconditions(h),
      false, false, MayUseToken(false, false), AuthorizationKind(true, false, DUMMY_HASH))
  }

  /** A missing expiry counts as the last slot. */
  function Expiry(validUntil: Option<U32>): U32 {
    if validUntil.Some? then validUntil.value else U32_MAX
  }

  function OfFeePayer(h: Hardfork, f: FeePayer): AccountUpdate {
    var d := DefaultBody(h);
    var network := d.preconditions.network.(
      globalSlotSinceGenesis := Some(RangeCondition(0, Expiry(f.body.validUntil))));
    var account := d.preconditions.account.(nonce := Some(RangeCondition(f.body.nonce, f.body.nonce)));
    AccountUpdate(
      d.(publicKey := f.body.publicKey,
         balanceChange := BalanceChange(f.body.fee, -1),
         incrementNonce := true,
         preconditions := d.preconditions.(network := network, account := account),
         useFullCommitment := true,
         implicitAccountCreationFee := true,
         authorizationKind := AuthorizationKind(true, false, DUMMY_HASH)),
      Authorization(None, Some(f.authorization)))
  }

  /** The update takes the fee from the fee payer's account, and nothing else happens to it. */
  ghost predicate TakesFee(f: FeePayer, b: AccountUpdateBody) {
    && b.publicKey == f.body.publicKey && b.tokenId == Residue(1) && b.callDepth == 0
    && b.balanceChange.magnitude == f.body.fee && b.balanceChange.sgn == -1
    && b.incrementNonce && b.useFullCommitment && b.implicitAccountCreationFee
    && b.authorizationKind.isSigned && !b.authorizationKind.isProved
    && b.authorizationKind.verificationKeyHash ==
         Residue(3392518251768960475377392625298437850623664973002200885669375116181514017494)
    && b.events == [] && b.actions == [] && b.callData == Residue(0)
    && !b.mayUseToken.parentsOwnToken && !b.mayUseToken.inheritFromParent
  }

  /** Nothing of the account is set. */
  ghost predicate SetsNothing(h: Hardfork, u: Update) {
    && |u.appState| == (if h.PreMesa? then 8 else 32) && (forall i :: 0 <= i < |u.appState| ==> u.appState[i].None?)
    && u.delegate.None? && u.verificationKey.None? && u.permissions.None? && u.zkappUri.None?
    && u.tokenSymbol.None? && u.timing.None? && u.votingFor.None?
  }

  ghost predicate NoEpoch(e: EpochData) {
    && e.ledger.hash.None? && e.ledger.totalCurrency.None?
    && e.seed.None? && e.startCheckpoint.None? && e.lockCheckpoint.None? && e.epochLength.None?
  }

  /** It holds at the fee payer's nonce, up to the slot of its expiry or the last slot there is. */
  ghost predicate HoldsUntilExpiry(h: Hardfork, f: FeePayer, p: Preconditions) {
    && p.account.nonce == Some(RangeCondition(f.body.nonce, f.body.nonce))
    && p.network.globalSlotSinceGenesis.Some? && p.network.globalSlotSinceGenesis.value.lower == 0
    && p.network.globalSlotSinceGenesis.value.upper ==
         (if f.body.validUntil.Some? then f.body.validUntil.value else 4294967295)
    && p.network.snarkedLedgerHash.None? && p.network.blockchainLength.None? && p.network.minWindowDensity.None?
    && p.network.totalCurrency.None? && NoEpoch(p.network.stakingEpochData) && NoEpoch(p.network.nextEpochData)
    && p.account.balance.None? && p.account.receiptChainHash.None? && p.account.delegate.None?
    && |p.account.state| == (if h.PreMesa? then 8 else 32)
    && (forall i :: 0 <= i < |p.account.state| ==> p.account.state[i].None?)
    && p.account.actionState.None? && p.account.provedState.None? && p.account.isNew.None?
    && p.validWhile.None?
  }

  /** The update that stands for the fee payer. */
  ghost predicate ChargesFee(h: Hardfork, f: FeePayer, u: AccountUpdate) {
    && TakesFee(f, u.body) && SetsNothing(h, u.body.update) && HoldsUntilExpiry(h, f, u.body.preconditions)
    && u.authorization.proof.None? && u.authorization.signature == Some(f.authorization)
  }

  /** That is one update. */
  lemma ChargesFeeExactly(h: Hardfork, f: FeePayer, u: AccountUpdate)
    ensures ChargesFee(h, f, u) <==> u == OfFeePayer(h, f)
  {
    if ChargesFee(h, f, u) {
      var v := OfFeePayer(h, f);
      assert u.body.update.appState == v.body.update.appState;
      assert u.body.preconditions.account.state == v.body.preconditions.account.state;
      assert u.body.preconditions.network == v.body.preconditions.network;
      assert u.body.preconditions.account == v.body.preconditions.account;
    }
  }

  /** Assigns the body field by field, as the conversion does. */
  method FromFeePayer(h: Hardfork, f: FeePayer) returns (update: AccountUpdate)
    ensures TakesFee(f, update.body) && SetsNothing(h, update.body.update)
    ensures HoldsUntilExpiry(h, f, update.body.preconditions)
    ensures update.authorization == Authorization(None, Some(f.authorization))
    ensures update == OfFeePayer(h, f)
    ensures SizedBody(h, update.body)
  {
    var body := DefaultBody(h);
    var validUntil := Expiry(f.body.validUntil);
    body := body.(publicKey := f.body.publicKey);
    body := body.(balanceChange := BalanceChange(f.body.fee, -1));
    body := body.(incrementNonce := true);
    var preconditions := body.preconditions;
    preconditions := preconditions.(
      network := preconditions.network.(globalSlotSinceGenesis := Some(RangeCondition(0, validUntil))));
    preconditions := preconditions.(
      account := preconditions.account.(nonce := Some(RangeCondition(f.body.nonce, f.body.nonce))));
    body := body.(preconditions := preconditions);
    body := body.(useFullCommitment := true);
    body := body.(implicitAccountCreationFee := true);
    body := body.(authorizationKind := AuthorizationKind(true, false, DUMMY_HASH));
    update := AccountUpdate(body, Authorization(None, Some(f.authorization)));
  }
}
