/**
 * The layout of a packed account update does not depend on which options are present,
 * so that equal packed bodies agree in every part that is packed.
 */
module PackingInjective {
  import opened Wrappers
  import opened ZkappTx
  import opened BitPacking
  import opened PackedInputs
  import opened Packing

  // ---------------------------------------------------------------------
  // Leaves
  // ---------------------------------------------------------------------

  lemma FieldUniform(empty: Fp)
    ensures Uniform(PackField, OfField(empty))
    ensures SameLayout(OfField(empty), OfField(empty))
  {
    forall f: Fp ensures SameLayout(PackField(f), OfField(empty)) { FieldLayout(f, empty); }
    FieldLayout(empty, empty);
  }

  lemma KeyLayout(a: PublicKey, b: PublicKey)
    ensures SameLayout(PackPublicKey(a), PackPublicKey(b))
    ensures PackPublicKey(a) == PackPublicKey(b) <==> a == b
  {
    if PackPublicKey(a) == PackPublicKey(b) {
      assert [a.x][0] == [b.x][0] && [BoolBit(a.isOdd)][0] == [BoolBit(b.isOdd)][0];
    }
  }

  lemma Range32Layout(a: RangeCondition<U32>, b: RangeCondition<U32>)
    ensures SameLayout(PackRange32(a), PackRange32(b))
    ensures PackRange32(a) == PackRange32(b) <==> a == b
  {
    var s, t := PackRange32(a).bits, PackRange32(b).bits;
    if s == t { assert s[0] == t[0] && s[1] == t[1]; }
  }

  lemma Range64Layout(a: RangeCondition<U64>, b: RangeCondition<U64>)
    ensures SameLayout(PackRange64(a), PackRange64(b))
    ensures PackRange64(a) == PackRange64(b) <==> a == b
  {
    var s, t := PackRange64(a).bits, PackRange64(b).bits;
    if s == t { assert s[0] == t[0] && s[1] == t[1]; }
  }

  lemma AuthLayout(a: AuthRequired, b: AuthRequired)
    ensures SameLayout(PackAuth(a), PackAuth(b))
    ensures PackAuth(a) == PackAuth(b) <==> a == b
  {
    hide Encode, SameLayout, ThreeBits;
    EncodeInjective(a, b);
    ThreeBitsLayout(Encode(a), Encode(b));
  }

  lemma ThreeBitsLayout(a: Encoded, b: Encoded)
    ensures SameLayout(ThreeBits(a), ThreeBits(b))
    ensures ThreeBits(a) == ThreeBits(b) <==> a == b
  {
    var s, t := ThreeBits(a).bits, ThreeBits(b).bits;
    assert s[0] == BoolBit(a.constant) && s[1] == BoolBit(a.signatureNecessary) &&
           s[2] == BoolBit(a.signatureSufficient);
    assert t[0] == BoolBit(b.constant) && t[1] == BoolBit(b.signatureNecessary) &&
           t[2] == BoolBit(b.signatureSufficient);
  }

  lemma SetVerificationKeyLayout(a: SetVerificationKey, b: SetVerificationKey)
    ensures SameLayout(PackSetVerificationKey(a), PackSetVerificationKey(b))
    ensures PackSetVerificationKey(a) == PackSetVerificationKey(b) <==> a == b
  {
    hide PackAuth, Append;
    AuthLayout(a.auth, b.auth);
    var s, t := PackedInput([], [U32Bits(a.txnVersion)]), PackedInput([], [U32Bits(b.txnVersion)]);
    AppendLayout(PackAuth(a.auth), PackAuth(b.auth), s, t);
    AppendInjective(PackAuth(a.auth), PackAuth(b.auth), s, t);
    if s == t { assert s.bits[0] == t.bits[0]; }
  }

  lemma TimingLayout(a: TimingData, b: TimingData)
    ensures SameLayout(PackTiming(a), PackTiming(b))
    ensures PackTiming(a) == PackTiming(b) <==> a == b
  {
    var s, t := PackTiming(a).bits, PackTiming(b).bits;
    if s == t { assert s[0] == t[0] && s[1] == t[1] && s[2] == t[2] && s[3] == t[3] && s[4] == t[4]; }
  }

  lemma SymbolLayout(a: TokenSymbol, b: TokenSymbol)
    ensures SameLayout(PackTokenSymbol(a), PackTokenSymbol(b))
    ensures PackTokenSymbol(a) == PackTokenSymbol(b) <==> Padded(a) == Padded(b)
  {
    var s, t := PackTokenSymbol(a).bits, PackTokenSymbol(b).bits;
    if s == t { assert s[0] == t[0]; }
  }

  lemma BalanceChangeLayout(a: BalanceChange, b: BalanceChange)
    ensures SameLayout(PackBalanceChange(a), PackBalanceChange(b))
    ensures PackBalanceChange(a) == PackBalanceChange(b)
      <==> a.magnitude == b.magnitude && (a.sgn == 1 <==> b.sgn == 1)
  {
    var s, t := PackBalanceChange(a).bits, PackBalanceChange(b).bits;
    if s == t { assert s[0] == t[0] && s[1] == t[1]; }
  }

  lemma MayUseTokenLayout(a: MayUseToken, b: MayUseToken)
    ensures SameLayout(PackMayUseToken(a), PackMayUseToken(b))
    ensures PackMayUseToken(a) == PackMayUseToken(b) <==> a == b
  {
    var s, t := PackMayUseToken(a).bits, PackMayUseToken(b).bits;
    if s == t { assert s[0] == t[0] && s[1] == t[1]; }
  }

  lemma AuthorizationKindLayout(a: AuthorizationKind, b: AuthorizationKind)
    ensures SameLayout(PackAuthorizationKind(a), PackAuthorizationKind(b))
    ensures PackAuthorizationKind(a) == PackAuthorizationKind(b) <==> a == b
  {
    var s, t := PackAuthorizationKind(a), PackAuthorizationKind(b);
    if s == t { assert s.fields[0] == t.fields[0] && s.bits[0] == t.bits[0] && s.bits[1] == t.bits[1]; }
  }

  // ---------------------------------------------------------------------
  // Options
  // ---------------------------------------------------------------------

  lemma OptFieldLayout(a: Option<Fp>, b: Option<Fp>)
    ensures SameLayout(PackOptField(a), PackOptField(b))
    ensures PackOptField(a) == PackOptField(b) <==> a == b
  {
    hide SameLayout, Uniform, PackOption;
    FieldUniform(ZERO);
    OptionLayout(PackField, EmptyField(), a, b);
    OptionInjective(PackField, EmptyField(), a, b);
    if a.Some? && b.Some? { FieldLayout(a.value, b.value); }
  }

  lemma OptKeyLayout(a: Option<PublicKey>, b: Option<PublicKey>)
    ensures SameLayout(PackOptKey(a), PackOptKey(b))
    ensures PackOptKey(a) == PackOptKey(b) <==> a == b
  {
    hide SameLayout, PackOption, PackPublicKey;
    forall k: PublicKey ensures SameLayout(PackPublicKey(k), EmptyPublicKey()) { KeyLayout(k, EMPTY_KEY); }
    KeyLayout(EMPTY_KEY, EMPTY_KEY);
    OptionLayout(PackPublicKey, EmptyPublicKey(), a, b);
    OptionInjective(PackPublicKey, EmptyPublicKey(), a, b);
    if a.Some? && b.Some? { KeyLayout(a.value, b.value); }
  }

  lemma OptRange32Layout(a: Option<RangeCondition<U32>>, b: Option<RangeCondition<U32>>)
    ensures SameLayout(PackOptRange32(a), PackOptRange32(b))
    ensures PackOptRange32(a) == PackOptRange32(b) <==> a == b
  {
    hide SameLayout, PackOption, PackRange32;
    var all := RangeCondition(0, U32_MAX);
    forall r: RangeCondition<U32> ensures SameLayout(PackRange32(r), EmptyRange32()) { Range32Layout(r, all); }
    Range32Layout(all, all);
    OptionLayout(PackRange32, EmptyRange32(), a, b);
    OptionInjective(PackRange32, EmptyRange32(), a, b);
    if a.Some? && b.Some? { Range32Layout(a.value, b.value); }
  }

  lemma OptRange64Layout(a: Option<RangeCondition<U64>>, b: Option<RangeCondition<U64>>)
    ensures SameLayout(PackOptRange64(a), PackOptRange64(b))
    ensures PackOptRange64(a) == PackOptRange64(b) <==> a == b
  {
    hide SameLayout, PackOption, PackRange64;
    var all := RangeCondition(0, U64_MAX);
    forall r: RangeCondition<U64> ensures SameLayout(PackRange64(r), EmptyRange64()) { Range64Layout(r, all); }
    Range64Layout(all, all);
    OptionLayout(PackRange64, EmptyRange64(), a, b);
    OptionInjective(PackRange64, EmptyRange64(), a, b);
    if a.Some? && b.Some? { Range64Layout(a.value, b.value); }
  }

  lemma OptBoolLayout(a: Option<bool>, b: Option<bool>)
    ensures SameLayout(PackOptBool(a), PackOptBool(b))
    ensures PackOptBool(a) == PackOptBool(b) <==> a == b
  {
    hide SameLayout, PackOption, OfBool;
    forall c: bool ensures SameLayout(PackBool(c), OfBool(false)) { BoolLayout(c, false); }
    BoolLayout(false, false);
    OptionLayout(PackBool, OfBool(false), a, b);
    OptionInjective(PackBool, OfBool(false), a, b);
    if a.Some? && b.Some? { BoolLayout(a.value, b.value); }
  }

  lemma OptActionStateLayout(a: Option<Fp>, b: Option<Fp>)
    ensures SameLayout(PackOption(a, PackField, EmptyActionState()), PackOption(b, PackField, EmptyActionState()))
    ensures PackOption(a, PackField, EmptyActionState()) == PackOption(b, PackField, EmptyActionState()) <==> a == b
  {
    hide SameLayout, Uniform, PackOption;
    var empty := EmptyActionState();
    FieldUniform(empty.fields[0]);
    OptionLayout(PackField, empty, a, b);
    OptionInjective(PackField, empty, a, b);
    if a.Some? && b.Some? { FieldLayout(a.value, b.value); }
  }

  lemma OptVerificationKeyLayout(a: Option<VerificationKeyData>, b: Option<VerificationKeyData>)
    ensures var p := PackOption(a, PackVerificationKey, EmptyField());
            var q := PackOption(b, PackVerificationKey, EmptyField());
      SameLayout(p, q) && (p == q <==> SameVerificationKey(a, b))
  {
    hide SameLayout, PackOption;
    forall v: VerificationKeyData ensures SameLayout(PackVerificationKey(v), EmptyField()) {
      FieldLayout(v.hash, ZERO);
    }
    FieldLayout(ZERO, ZERO);
    OptionLayout(PackVerificationKey, EmptyField(), a, b);
    OptionInjective(PackVerificationKey, EmptyField(), a, b);
    if a.Some? && b.Some? { FieldLayout(a.value.hash, b.value.hash); }
  }

  lemma OptUriLayout(a: Option<ZkappUri>, b: Option<ZkappUri>)
    ensures var p, q := PackOption(a, PackUri, EmptyUri()), PackOption(b, PackUri, EmptyUri());
      SameLayout(p, q) && (p == q <==> SameUri(a, b))
  {
    hide SameLayout, PackOption, UriHash;
    var empty := EmptyUri();
    forall u: ZkappUri ensures SameLayout(PackUri(u), empty) { FieldLayout(UriHash(u), empty.fields[0]); }
    FieldLayout(empty.fields[0], empty.fields[0]);
    OptionLayout(PackUri, empty, a, b);
    OptionInjective(PackUri, empty, a, b);
    if a.Some? && b.Some? { FieldLayout(UriHash(a.value), UriHash(b.value)); }
  }

  lemma OptSymbolLayout(a: Option<TokenSymbol>, b: Option<TokenSymbol>)
    ensures var p := PackOption(a, PackTokenSymbol, EmptyTokenSymbol());
            var q := PackOption(b, PackTokenSymbol, EmptyTokenSymbol());
      SameLayout(p, q) && (p == q <==> SameSymbol(a, b))
  {
    hide SameLayout, PackOption, PackTokenSymbol, Padded;
    forall s: TokenSymbol ensures SameLayout(PackTokenSymbol(s), EmptyTokenSymbol()) { SymbolLayout(s, []); }
    SymbolLayout([], []);
    OptionLayout(PackTokenSymbol, EmptyTokenSymbol(), a, b);
    OptionInjective(PackTokenSymbol, EmptyTokenSymbol(), a, b);
    if a.Some? && b.Some? { SymbolLayout(a.value, b.value); }
  }

  lemma OptTimingLayout(a: Option<TimingData>, b: Option<TimingData>)
    ensures var p, q := PackOption(a, PackTiming, EmptyTiming()), PackOption(b, PackTiming, EmptyTiming());
      SameLayout(p, q) && (p == q <==> a == b)
  {
    hide SameLayout, PackOption, PackTiming;
    var none := TimingData(0, 0, 0, 0, 0);
    forall t: TimingData ensures SameLayout(PackTiming(t), EmptyTiming()) { TimingLayout(t, none); }
    TimingLayout(none, none);
    OptionLayout(PackTiming, EmptyTiming(), a, b);
    OptionInjective(PackTiming, EmptyTiming(), a, b);
    if a.Some? && b.Some? { TimingLayout(a.value, b.value); }
  }

  lemma PermissionsLayout(a: Permissions, b: Permissions)
    ensures SameLayout(PackPermissions(a), PackPermissions(b))
    ensures PackPermissions(a) == PackPermissions(b) <==> a == b
  {
    hide SameLayout, PackAuth, PackSetVerificationKey, Concat;
    AuthLayout(a.editState, b.editState);
    AuthLayout(a.access, b.access);
    AuthLayout(a.send, b.send);
    AuthLayout(a.receive, b.receive);
    AuthLayout(a.setDelegate, b.setDelegate);
    AuthLayout(a.setPermissions, b.setPermissions);
    SetVerificationKeyLayout(a.setVerificationKey, b.setVerificationKey);
    AuthLayout(a.setZkappUri, b.setZkappUri);
    AuthLayout(a.editActionState, b.editActionState);
    AuthLayout(a.setTokenSymbol, b.setTokenSymbol);
    AuthLayout(a.incrementNonce, b.incrementNonce);
    AuthLayout(a.setVotingFor, b.setVotingFor);
    AuthLayout(a.setTiming, b.setTiming);
    var s, t := PermissionParts(a), PermissionParts(b);
    ConcatLayout(s, t);
    ConcatInjective(s, t);
    if s == t {
      assert s[0] == t[0] && s[1] == t[1] && s[2] == t[2] && s[3] == t[3] && s[4] == t[4] && s[5] == t[5] &&
             s[6] == t[6];
      assert s[7] == t[7] && s[8] == t[8] && s[9] == t[9] && s[10] == t[10] && s[11] == t[11] && s[12] == t[12];
    }
  }

  lemma OptPermissionsLayout(h: Hardfork, a: Option<Permissions>, b: Option<Permissions>)
    ensures var p := PackOption(a, PackPermissions, EmptyPermissions(h));
            var q := PackOption(b, PackPermissions, EmptyPermissions(h));
      SameLayout(p, q) && (p == q <==> a == b)
  {
    hide SameLayout, PackOption, PackPermissions;
    var none := Permissions(NoAuth, NoAuth, NoAuth, NoAuth, NoAuth, NoAuth, SetVerificationKey(NoAuth, h.TxnVersion()),
                            NoAuth, NoAuth, NoAuth, NoAuth, NoAuth, NoAuth);
    forall p: Permissions ensures SameLayout(PackPermissions(p), EmptyPermissions(h)) { PermissionsLayout(p, none); }
    PermissionsLayout(none, none);
    OptionLayout(PackPermissions, EmptyPermissions(h), a, b);
    OptionInjective(PackPermissions, EmptyPermissions(h), a, b);
    if a.Some? && b.Some? { PermissionsLayout(a.value, b.value); }
  }

  // ---------------------------------------------------------------------
  // What packing keeps of each part
  // ---------------------------------------------------------------------

  ghost predicate SameVerificationKey(a: Option<VerificationKeyData>, b: Option<VerificationKeyData>) {
    (a.Some? <==> b.Some?) && (a.Some? && b.Some? ==> a.value.hash == b.value.hash)
  }

  ghost predicate SameUri(a: Option<ZkappUri>, b: Option<ZkappUri>) {
    (a.Some? <==> b.Some?) && (a.Some? && b.Some? ==> UriHash(a.value) == UriHash(b.value))
  }

  ghost predicate SameSymbol(a: Option<TokenSymbol>, b: Option<TokenSymbol>) {
    (a.Some? <==> b.Some?) && (a.Some? && b.Some? ==> Padded(a.value) == Padded(b.value))
  }

  ghost predicate SameUpdate(a: Update, b: Update) {
    && a.appState == b.appState && a.delegate == b.delegate
    && SameVerificationKey(a.verificationKey, b.verificationKey)
    && a.permissions == b.permissions
    && SameUri(a.zkappUri, b.zkappUri)
    && SameSymbol(a.tokenSymbol, b.tokenSymbol)
    && a.timing == b.timing && a.votingFor == b.votingFor
  }

  /**
   * Two bodies that agree in all that is packed. What may differ is the call depth, the
   * data behind a verification key's hash, events, actions and URIs of equal hashes,
   * zeros at the end of a token symbol, and a sign other than one.
   */
  ghost predicate SameBody(a: AccountUpdateBody, b: AccountUpdateBody) {
    && a.publicKey == b.publicKey && a.tokenId == b.tokenId
    && SameUpdate(a.update, b.update)
    && a.balanceChange.magnitude == b.balanceChange.magnitude
    && (a.balanceChange.sgn == 1 <==> b.balanceChange.sgn == 1)
    && a.incrementNonce == b.incrementNonce
    && EventsHash(a.events) == EventsHash(b.events)
    && ActionsHash(a.actions) == ActionsHash(b.actions)
    && a.callData == b.callData
    && a.preconditions == b.preconditions
    && a.useFullCommitment == b.useFullCommitment
    && a.implicitAccountCreationFee == b.implicitAccountCreationFee
    && a.mayUseToken == b.mayUseToken
    && a.authorizationKind == b.authorizationKind
  }

  // ---------------------------------------------------------------------
  // Composite parts
  // ---------------------------------------------------------------------

  lemma StateLayout(a: seq<Option<Fp>>, b: seq<Option<Fp>>)
    requires |a| == |b|
    ensures SameLayout(PackState(a), PackState(b))
    ensures PackState(a) == PackState(b) <==> a == b
  {
    hide SameLayout, PackOptField, Concat, PackEach;
    var s, t := PackEach(a, PackOptField), PackEach(b, PackOptField);
    forall i | 0 <= i < |a| ensures SameLayout(s[i], t[i]) && (s[i] == t[i] <==> a[i] == b[i]) {
      OptFieldLayout(a[i], b[i]);
    }
    ConcatLayout(s, t);
    ConcatInjective(s, t);
    assert s == t ==> a == b;
  }

  lemma UpdateLayout(h: Hardfork, a: Update, b: Update)
    requires |a.appState| == |b.appState|
    ensures SameLayout(PackUpdate(h, a), PackUpdate(h, b))
    ensures PackUpdate(h, a) == PackUpdate(h, b) <==> SameUpdate(a, b)
  {
    hide SameLayout, Concat, PackOption, PackState, PackOptField, PackOptKey, EmptyField, EmptyPermissions, EmptyUri,
      EmptyTokenSymbol, EmptyTiming, SameVerificationKey, SameUri, SameSymbol;
    StateLayout(a.appState, b.appState);
    OptKeyLayout(a.delegate, b.delegate);
    OptVerificationKeyLayout(a.verificationKey, b.verificationKey);
    OptPermissionsLayout(h, a.permissions, b.permissions);
    OptUriLayout(a.zkappUri, b.zkappUri);
    OptSymbolLayout(a.tokenSymbol, b.tokenSymbol);
    OptTimingLayout(a.timing, b.timing);
    OptFieldLayout(a.votingFor, b.votingFor);
    var s, t := UpdateParts(h, a), UpdateParts(h, b);
    ConcatLayout(s, t);
    ConcatInjective(s, t);
    if s == t {
      assert s[0] == t[0] && s[1] == t[1] && s[2] == t[2] && s[3] == t[3] && s[4] == t[4] && s[5] == t[5];
      assert s[6] == t[6] && s[7] == t[7];
    }
  }

  lemma LedgerLayout(a: EpochLedger, b: EpochLedger)
    ensures SameLayout(Concat(LedgerParts(a)), Concat(LedgerParts(b)))
    ensures Concat(LedgerParts(a)) == Concat(LedgerParts(b)) <==> a == b
  {
    hide SameLayout, Concat, PackOptField, PackOptRange64;
    OptFieldLayout(a.hash, b.hash);
    OptRange64Layout(a.totalCurrency, b.totalCurrency);
    var s, t := LedgerParts(a), LedgerParts(b);
    ConcatLayout(s, t);
    ConcatInjective(s, t);
    if s == t { assert s[0] == t[0] && s[1] == t[1]; }
  }

  lemma EpochLayout(a: EpochData, b: EpochData)
    ensures SameLayout(Concat(EpochParts(a)), Concat(EpochParts(b)))
    ensures Concat(EpochParts(a)) == Concat(EpochParts(b)) <==> a == b
  {
    hide SameLayout, Concat, PackOptField, PackOptRange32, LedgerParts;
    LedgerLayout(a.ledger, b.ledger);
    OptFieldLayout(a.seed, b.seed);
    OptFieldLayout(a.startCheckpoint, b.startCheckpoint);
    OptFieldLayout(a.lockCheckpoint, b.lockCheckpoint);
    OptRange32Layout(a.epochLength, b.epochLength);
    var s, t := EpochParts(a), EpochParts(b);
    ConcatLayout(s, t);
    ConcatInjective(s, t);
    if s == t { assert s[0] == t[0] && s[1] == t[1] && s[2] == t[2] && s[3] == t[3] && s[4] == t[4]; }
  }

  lemma NetworkLayout(a: NetworkPreconditions, b: NetworkPreconditions)
    ensures SameLayout(Concat(NetworkParts(a)), Concat(NetworkParts(b)))
    ensures Concat(NetworkParts(a)) == Concat(NetworkParts(b)) <==> a == b
  {
    hide SameLayout, Concat, PackOptField, PackOptRange32, PackOptRange64, EpochParts;
    OptFieldLayout(a.snarkedLedgerHash, b.snarkedLedgerHash);
    OptRange32Layout(a.blockchainLength, b.blockchainLength);
    OptRange32Layout(a.minWindowDensity, b.minWindowDensity);
    OptRange64Layout(a.totalCurrency, b.totalCurrency);
    OptRange32Layout(a.globalSlotSinceGenesis, b.globalSlotSinceGenesis);
    EpochLayout(a.stakingEpochData, b.stakingEpochData);
    EpochLayout(a.nextEpochData, b.nextEpochData);
    var s, t := NetworkParts(a), NetworkParts(b);
    ConcatLayout(s, t);
    ConcatInjective(s, t);
    if s == t {
      assert s[0] == t[0] && s[1] == t[1] && s[2] == t[2] && s[3] == t[3] && s[4] == t[4] && s[5] == t[5] &&
             s[6] == t[6];
    }
  }

  lemma AccountLayout(a: AccountPreconditions, b: AccountPreconditions)
    requires |a.state| == |b.state|
    ensures SameLayout(Concat(AccountParts(a)), Concat(AccountParts(b)))
    ensures Concat(AccountParts(a)) == Concat(AccountParts(b)) <==> a == b
  {
    hide SameLayout, Concat, PackOption, PackOptField, PackOptRange32, PackOptRange64, PackOptKey, PackOptBool,
         PackState, EmptyActionState;
    OptRange64Layout(a.balance, b.balance);
    OptRange32Layout(a.nonce, b.nonce);
    OptFieldLayout(a.receiptChainHash, b.receiptChainHash);
    OptKeyLayout(a.delegate, b.delegate);
    StateLayout(a.state, b.state);
    OptActionStateLayout(a.actionState, b.actionState);
    OptBoolLayout(a.provedState, b.provedState);
    OptBoolLayout(a.isNew, b.isNew);
    var s, t := AccountParts(a), AccountParts(b);
    ConcatLayout(s, t);
    ConcatInjective(s, t);
    if s == t {
      assert s[0] == t[0] && s[1] == t[1] && s[2] == t[2] && s[3] == t[3] && s[4] == t[4] && s[5] == t[5];
      assert s[6] == t[6] && s[7] == t[7];
    }
  }

  lemma PreconditionsLayout(a: Preconditions, b: Preconditions)
    requires |a.account.state| == |b.account.state|
    ensures SameLayout(Concat(PreconditionParts(a)), Concat(PreconditionParts(b)))
    ensures Concat(PreconditionParts(a)) == Concat(PreconditionParts(b)) <==> a == b
  {
    hide SameLayout, Concat, NetworkParts, AccountParts, PackOptRange32;
    NetworkLayout(a.network, b.network);
    AccountLayout(a.account, b.account);
    OptRange32Layout(a.validWhile, b.validWhile);
    var s, t := PreconditionParts(a), PreconditionParts(b);
    ConcatLayout(s, t);
    ConcatInjective(s, t);
    if s == t { assert s[0] == t[0] && s[1] == t[1] && s[2] == t[2]; }
  }

  lemma BodyPartsLayout(h: Hardfork, a: AccountUpdateBody, b: AccountUpdateBody)
    requires SizedBody(h, a) && SizedBody(h, b)
    ensures SameLayouts(BodyParts(h, a), BodyParts(h, b))
  {
    hide SameLayout, Concat, PackPublicKey, OfField, PackUpdate, PackBalanceChange, OfBool, EventsHash, ActionsHash,
      PreconditionParts, PackMayUseToken, PackAuthorizationKind;
    KeyLayout(a.publicKey, b.publicKey);
    FieldLayout(a.tokenId, b.tokenId);
    UpdateLayout(h, a.update, b.update);
    BalanceChangeLayout(a.balanceChange, b.balanceChange);
    BoolLayout(a.incrementNonce, b.incrementNonce);
    FieldLayout(EventsHash(a.events), EventsHash(b.events));
    FieldLayout(ActionsHash(a.actions), ActionsHash(b.actions));
    FieldLayout(a.callData, b.callData);
    PreconditionsLayout(a.preconditions, b.preconditions);
    BoolLayout(a.useFullCommitment, b.useFullCommitment);
    BoolLayout(a.implicitAccountCreationFee, b.implicitAccountCreationFee);
    MayUseTokenLayout(a.mayUseToken, b.mayUseToken);
    AuthorizationKindLayout(a.authorizationKind, b.authorizationKind);
  }

  lemma BodyPartsDetermine(h: Hardfork, a: AccountUpdateBody, b: AccountUpdateBody)
    requires SizedBody(h, a) && SizedBody(h, b)
    requires BodyParts(h, a) == BodyParts(h, b)
    ensures SameBody(a, b)
  {
    hide SameLayout, PackPublicKey, OfField, PackUpdate, PackBalanceChange, OfBool, EventsHash, ActionsHash,
      PreconditionParts, PackMayUseToken, PackAuthorizationKind, SameUpdate, Concat;
    var s, t := BodyParts(h, a), BodyParts(h, b);
    assert s[0] == t[0] && s[1] == t[1] && s[2] == t[2] && s[3] == t[3] && s[4] == t[4] && s[5] == t[5] && s[6] == t[6];
    assert s[7] == t[7] && s[8] == t[8] && s[9] == t[9] && s[10] == t[10] && s[11] == t[11] && s[12] == t[12];
    KeyLayout(a.publicKey, b.publicKey);
    FieldLayout(a.tokenId, b.tokenId);
    UpdateLayout(h, a.update, b.update);
    BalanceChangeLayout(a.balanceChange, b.balanceChange);
    BoolLayout(a.incrementNonce, b.incrementNonce);
    FieldLayout(EventsHash(a.events), EventsHash(b.events));
    FieldLayout(ActionsHash(a.actions), ActionsHash(b.actions));
    FieldLayout(a.callData, b.callData);
    PreconditionsLayout(a.preconditions, b.preconditions);
    BoolLayout(a.useFullCommitment, b.useFullCommitment);
    BoolLayout(a.implicitAccountCreationFee, b.implicitAccountCreationFee);
    MayUseTokenLayout(a.mayUseToken, b.mayUseToken);
    AuthorizationKindLayout(a.authorizationKind, b.authorizationKind);
  }

  lemma SameBodySameParts(h: Hardfork, a: AccountUpdateBody, b: AccountUpdateBody)
    requires SizedBody(h, a) && SizedBody(h, b) && SameBody(a, b)
    ensures BodyParts(h, a) == BodyParts(h, b)
  {
    hide SameLayout, PackPublicKey, OfField, PackUpdate, PackBalanceChange, OfBool, EventsHash, ActionsHash,
      PreconditionParts, PackMayUseToken, PackAuthorizationKind, SameUpdate, Concat;
    UpdateLayout(h, a.update, b.update);
    BalanceChangeLayout(a.balanceChange, b.balanceChange);
  }

  /** Every body packs to the same layout, and to the same input exactly if it agrees in all that is packed. */
  lemma BodyInjective(h: Hardfork, a: AccountUpdateBody, b: AccountUpdateBody)
    requires SizedBody(h, a) && SizedBody(h, b)
    ensures SameLayout(PackBody(h, a), PackBody(h, b))
    ensures PackBody(h, a) == PackBody(h, b) <==> SameBody(a, b)
  {
    hide SameLayout, Concat, BodyParts, SameBody;
    BodyPartsLayout(h, a, b);
    if BodyParts(h, a) == BodyParts(h, b) { BodyPartsDetermine(h, a, b); }
    if SameBody(a, b) { SameBodySameParts(h, a, b); }
    ConcatLayout(BodyParts(h, a), BodyParts(h, b));
    ConcatInjective(BodyParts(h, a), BodyParts(h, b));
  }

  /** The same holds of the field elements that are hashed. */
  lemma BodyFieldsInjective(h: Hardfork, a: AccountUpdateBody, b: AccountUpdateBody)
    requires SizedBody(h, a) && SizedBody(h, b)
    ensures |Fields(PackBody(h, a))| == |Fields(PackBody(h, b))|
    ensures Fields(PackBody(h, a)) == Fields(PackBody(h, b)) <==> SameBody(a, b)
  {
    hide SameLayout, Fields, PackBody, SameBody;
    BodyInjective(h, a, b);
    FieldsInjective(PackBody(h, a), PackBody(h, b));
  }
}
