/** What is packed of an account update, row by row: its field elements and its bits, in order. */
module PackedBody {
  import opened Wrappers
  import opened Bytes
  import opened ZkappTx
  import opened BitPacking
  import opened PackedInputs
  import opened Packing
  import H = Hashing

  /** A row holds some field elements and some bits. */
  type Row = PackedInput
  type Table = seq<Row>

  function TableFields(t: Table): seq<Fp> {
    if t == [] then [] else t[0].fields + TableFields(t[1..])
  }

  function TableBits(t: Table): seq<BitData> {
    if t == [] then [] else t[0].bits + TableBits(t[1..])
  }

  /** The field elements and the bits of an input are those of the table's rows, in order. */
  ghost predicate Holds(p: PackedInput, t: Table) {
    p.fields == TableFields(t) && p.bits == TableBits(t)
  }

  /** Tables one after the other. */
  function Rows(tables: seq<Table>): Table {
    if tables == [] then [] else tables[0] + Rows(tables[1..])
  }

  lemma HoldsRow(p: PackedInput)
    ensures Holds(p, [p])
  {
    assert [p][1..] == [];
  }

  lemma {:induction false} TableConcat(t: Table, u: Table)
    ensures TableFields(t + u) == TableFields(t) + TableFields(u)
    ensures TableBits(t + u) == TableBits(t) + TableBits(u)
  {
    if t == [] {
      assert t + u == u;
    } else {
      assert (t + u)[1..] == t[1..] + u;
      TableConcat(t[1..], u);
    }
  }

  lemma {:induction false} HoldsAll(parts: seq<PackedInput>, tables: seq<Table>)
    requires |parts| == |tables| && forall i :: 0 <= i < |parts| ==> Holds(parts[i], tables[i])
    ensures Holds(Concat(parts), Rows(tables))
  {
    if parts != [] {
      HoldsAll(parts[1..], tables[1..]);
      TableConcat(tables[0], Rows(tables[1..]));
    }
  }

  // ---------------------------------------------------------------------
  // Rows
  // ---------------------------------------------------------------------

  function FieldRow(f: Fp): Row {
    PackedInput([f], [])
  }

  function BoolRow(b: bool): Row {
    PackedInput([], [BoolBit(b)])
  }

  function KeyRow(k: PublicKey): Row {
    PackedInput([k.x], [BoolBit(k.isOdd)])
  }

  /** A missing field element counts as zero. */
  function OptFieldRow(f: Option<Fp>): Row {
    if f.Some? then PackedInput([f.value], [BoolBit(true)]) else PackedInput([Residue(0)], [BoolBit(false)])
  }

  function OptKeyRow(k: Option<PublicKey>): Row {
    if k.Some? then PackedInput([k.value.x], [BoolBit(true), BoolBit(k.value.isOdd)])
    else PackedInput([Residue(0)], [BoolBit(false), BoolBit(false)])
  }

  /** Of a verification key only the hash. */
  function OptVerificationKeyRow(v: Option<VerificationKeyData>): Row {
    if v.Some? then PackedInput([v.value.hash], [BoolBit(true)]) else PackedInput([Residue(0)], [BoolBit(false)])
  }

  /** A missing range is the whole range. */
  function OptRange32Row(r: Option<RangeCondition<U32>>): Row {
    if r.Some? then PackedInput([], [BoolBit(true), U32Bits(r.value.lower), U32Bits(r.value.upper)])
    else PackedInput([], [BoolBit(false), U32Bits(0), U32Bits(4294967295)])
  }

  function OptRange64Row(r: Option<RangeCondition<U64>>): Row {
    if r.Some? then PackedInput([], [BoolBit(true), U64Bits(r.value.lower), U64Bits(r.value.upper)])
    else PackedInput([], [BoolBit(false), U64Bits(0), U64Bits(18446744073709551615)])
  }

  function OptBoolRow(b: Option<bool>): Row {
    PackedInput([], [BoolBit(b.Some?), BoolBit(b.Some? && b.value)])
  }

  /** A missing action state counts as the hash of the empty one. */
  function OptActionStateRow(f: Option<Fp>): Row {
    if f.Some? then PackedInput([f.value], [BoolBit(true)])
    else PackedInput([Digest(H.Of(H.ActionStateEmpty))], [BoolBit(false)])
  }

  /** A missing URI counts as the hash of two zeros. */
  function OptUriRow(u: Option<ZkappUri>): Row {
    if u.Some? then PackedInput([UriHash(u.value)], [BoolBit(true)])
    else PackedInput([Hashed(H.Of(H.Uri), [Residue(0), Residue(0)])], [BoolBit(false)])
  }

  /** Six bytes, the missing ones zero. */
  function OptSymbolRow(s: Option<TokenSymbol>): Row {
    var symbol := if s.Some? then s.value else [];
    PackedInput([], [BoolBit(s.Some?), ByteBits(symbol + Zeros(6 - |symbol|))])
  }

  function OptTimingRow(t: Option<TimingData>): Row {
    if t.Some? then
      PackedInput([], [BoolBit(true), U64Bits(t.value.initialMinimumBalance), U32Bits(t.value.cliffTime),
                       U64Bits(t.value.cliffAmount), U32Bits(t.value.vestingPeriod),
                       U64Bits(t.value.vestingIncrement)])
    else PackedInput([], [BoolBit(false), U64Bits(0), U32Bits(0), U64Bits(0), U32Bits(0), U64Bits(0)])
  }

  function AuthRow(a: AuthRequired): Row {
    PackedInput([], [BoolBit(a == NoAuth || a == Impossible),
                     BoolBit(a == Signature || a == Impossible || a == Both),
                     BoolBit(a == NoAuth || a == Either || a == Signature)])
  }

  // ---------------------------------------------------------------------
  // Tables
  // ---------------------------------------------------------------------

  function PermissionsTable(p: Permissions): Table {
    Rows([[AuthRow(p.editState)], [AuthRow(p.access)], [AuthRow(p.send)], [AuthRow(p.receive)],
          [AuthRow(p.setDelegate)], [AuthRow(p.setPermissions)],
          [AuthRow(p.setVerificationKey.auth), PackedInput([], [U32Bits(p.setVerificationKey.txnVersion)])],
          [AuthRow(p.setZkappUri)], [AuthRow(p.editActionState)], [AuthRow(p.setTokenSymbol)],
          [AuthRow(p.incrementNonce)], [AuthRow(p.setVotingFor)], [AuthRow(p.setTiming)]])
  }

  /** Missing permissions count as none required, with the version of the build. */
  function OptPermissionsTable(h: Hardfork, p: Option<Permissions>): Table {
    var version: U32 := if h.PreMesa? then 3 else 4;
    [BoolRow(p.Some?)] +
    PermissionsTable(
      if p.Some? then p.value
      else Permissions(NoAuth, NoAuth, NoAuth, NoAuth, NoAuth, NoAuth, SetVerificationKey(NoAuth, version),
                       NoAuth, NoAuth, NoAuth, NoAuth, NoAuth, NoAuth))
  }

  function StateTable(state: seq<Option<Fp>>): Table {
    seq(|state|, i requires 0 <= i < |state| => OptFieldRow(state[i]))
  }

  function UpdateTable(h: Hardfork, u: Update): Table {
    Rows([StateTable(u.appState), [OptKeyRow(u.delegate)], [OptVerificationKeyRow(u.verificationKey)],
          OptPermissionsTable(h, u.permissions), [OptUriRow(u.zkappUri)], [OptSymbolRow(u.tokenSymbol)],
          [OptTimingRow(u.timing)], [OptFieldRow(u.votingFor)]])
  }

  function EpochTable(e: EpochData): Table {
    Rows([[OptFieldRow(e.ledger.hash), OptRange64Row(e.ledger.totalCurrency)], [OptFieldRow(e.seed)],
          [OptFieldRow(e.startCheckpoint)], [OptFieldRow(e.lockCheckpoint)], [OptRange32Row(e.epochLength)]])
  }

  function NetworkTable(n: NetworkPreconditions): Table {
    Rows([[OptFieldRow(n.snarkedLedgerHash)], [OptRange32Row(n.blockchainLength)],
          [OptRange32Row(n.minWindowDensity)], [OptRange64Row(n.totalCurrency)],
          [OptRange32Row(n.globalSlotSinceGenesis)], EpochTable(n.stakingEpochData), EpochTable(n.nextEpochData)])
  }

  function AccountTable(a: AccountPreconditions): Table {
    Rows([[OptRange64Row(a.balance)], [OptRange32Row(a.nonce)], [OptFieldRow(a.receiptChainHash)],
          [OptKeyRow(a.delegate)], StateTable(a.state), [OptActionStateRow(a.actionState)],
          [OptBoolRow(a.provedState)], [OptBoolRow(a.isNew)]])
  }

  function PreconditionsTable(p: Preconditions): Table {
    Rows([NetworkTable(p.network), AccountTable(p.account), [OptRange32Row(p.validWhile)]])
  }

  /** The whole body; its call depth is in no row. */
  function BodyTable(h: Hardfork, b: AccountUpdateBody): Table {
    Rows([[KeyRow(b.publicKey)], [FieldRow(b.tokenId)], UpdateTable(h, b.update),
          [PackedInput([], [U64Bits(b.balanceChange.magnitude), BoolBit(b.balanceChange.sgn == 1)])],
          [BoolRow(b.incrementNonce)], [FieldRow(EventsHash(b.events))], [FieldRow(ActionsHash(b.actions))],
          [FieldRow(b.callData)], PreconditionsTable(b.preconditions), [BoolRow(b.useFullCommitment)],
          [BoolRow(b.implicitAccountCreationFee)],
          [PackedInput([], [BoolBit(b.mayUseToken.parentsOwnToken), BoolBit(b.mayUseToken.inheritFromParent)])],
          [PackedInput([b.authorizationKind.verificationKeyHash],
                       [BoolBit(b.authorizationKind.isSigned), BoolBit(b.authorizationKind.isProved)])]])
  }

  // ---------------------------------------------------------------------
  // Packing writes these tables
  // ---------------------------------------------------------------------

  lemma OptFieldHolds(f: Option<Fp>)
    ensures Holds(PackOptField(f), [OptFieldRow(f)])
  {
    HoldsRow(OptFieldRow(f));
  }

  lemma OptKeyHolds(k: Option<PublicKey>)
    ensures Holds(PackOptKey(k), [OptKeyRow(k)])
  {
    HoldsRow(OptKeyRow(k));
  }

  lemma OptRange32Holds(r: Option<RangeCondition<U32>>)
    ensures Holds(PackOptRange32(r), [OptRange32Row(r)])
  {
    HoldsRow(OptRange32Row(r));
  }

  lemma OptRange64Holds(r: Option<RangeCondition<U64>>)
    ensures Holds(PackOptRange64(r), [OptRange64Row(r)])
  {
    HoldsRow(OptRange64Row(r));
  }

  lemma OptBoolHolds(b: Option<bool>)
    ensures Holds(PackOptBool(b), [OptBoolRow(b)])
  {
    HoldsRow(OptBoolRow(b));
  }

  lemma OptActionStateHolds(f: Option<Fp>)
    ensures Holds(PackOption(f, PackField, EmptyActionState()), [OptActionStateRow(f)])
  {
    HoldsRow(OptActionStateRow(f));
  }

  lemma OptVerificationKeyHolds(v: Option<VerificationKeyData>)
    ensures Holds(PackOption(v, PackVerificationKey, EmptyField()), [OptVerificationKeyRow(v)])
  {
    HoldsRow(OptVerificationKeyRow(v));
  }

  lemma OptUriHolds(u: Option<ZkappUri>)
    ensures Holds(PackOption(u, PackUri, EmptyUri()), [OptUriRow(u)])
  {
    hide UriHash;
    HoldsRow(OptUriRow(u));
  }

  lemma OptSymbolHolds(s: Option<TokenSymbol>)
    ensures Holds(PackOption(s, PackTokenSymbol, EmptyTokenSymbol()), [OptSymbolRow(s)])
  {
    HoldsRow(OptSymbolRow(s));
  }

  lemma OptTimingHolds(t: Option<TimingData>)
    ensures Holds(PackOption(t, PackTiming, EmptyTiming()), [OptTimingRow(t)])
  {
    HoldsRow(OptTimingRow(t));
  }

  lemma AuthIsRow(a: AuthRequired)
    ensures PackAuth(a) == AuthRow(a)
  {
    EncodeMeans(a);
  }

  lemma StatePacked(state: seq<Option<Fp>>)
    ensures Holds(PackState(state), StateTable(state))
  {
    var parts := PackEach(state, PackOptField);
    var tables := seq(|state|, i requires 0 <= i < |state| => [OptFieldRow(state[i])]);
    forall i | 0 <= i < |parts| ensures Holds(parts[i], tables[i]) {
      OptFieldHolds(state[i]);
    }
    HoldsAll(parts, tables);
    SingleRows(StateTable(state), tables);
  }

  lemma {:induction false} SingleRows(t: Table, tables: seq<Table>)
    requires |t| == |tables| && forall i :: 0 <= i < |t| ==> tables[i] == [t[i]]
    ensures Rows(tables) == t
  {
    if t != [] {
      SingleRows(t[1..], tables[1..]);
    }
  }

  lemma PermissionsPacked(p: Permissions)
    ensures Holds(PackPermissions(p), PermissionsTable(p))
  {
    hide PackAuth, AuthRow, Holds, Concat, Rows, PackSetVerificationKey;
    forall a: AuthRequired ensures Holds(PackAuth(a), [AuthRow(a)]) {
      AuthIsRow(a);
      HoldsRow(PackAuth(a));
    }
    SetKeyHolds(p.setVerificationKey);
    var tables := [[AuthRow(p.editState)], [AuthRow(p.access)], [AuthRow(p.send)], [AuthRow(p.receive)],
                   [AuthRow(p.setDelegate)], [AuthRow(p.setPermissions)],
                   [AuthRow(p.setVerificationKey.auth), PackedInput([], [U32Bits(p.setVerificationKey.txnVersion)])],
                   [AuthRow(p.setZkappUri)], [AuthRow(p.editActionState)], [AuthRow(p.setTokenSymbol)],
                   [AuthRow(p.incrementNonce)], [AuthRow(p.setVotingFor)], [AuthRow(p.setTiming)]];
    HoldsAll(PermissionParts(p), tables);
    assert PermissionsTable(p) == Rows(tables);
  }

  lemma SetKeyHolds(s: SetVerificationKey)
    ensures Holds(PackSetVerificationKey(s), [AuthRow(s.auth), PackedInput([], [U32Bits(s.txnVersion)])])
  {
    AuthIsRow(s.auth);
    var last := PackedInput([], [U32Bits(s.txnVersion)]);
    HoldsRow(AuthRow(s.auth));
    HoldsRow(last);
    TableConcat([AuthRow(s.auth)], [last]);
    assert [AuthRow(s.auth)] + [last] == [AuthRow(s.auth), last];
  }

  lemma OptPermissionsPacked(h: Hardfork, p: Option<Permissions>)
    ensures Holds(PackOption(p, PackPermissions, EmptyPermissions(h)), OptPermissionsTable(h, p))
  {
    hide PackPermissions, PermissionsTable, Concat, Rows, TableFields, TableBits;
    var none := Permissions(NoAuth, NoAuth, NoAuth, NoAuth, NoAuth, NoAuth,
                            SetVerificationKey(NoAuth, if h.PreMesa? then 3 else 4),
                            NoAuth, NoAuth, NoAuth, NoAuth, NoAuth, NoAuth);
    var some := if p.Some? then p.value else none;
    PermissionsPacked(some);
    HoldsRow(BoolRow(p.Some?));
    TableConcat([BoolRow(p.Some?)], PermissionsTable(some));
  }

  lemma UpdatePacked(h: Hardfork, u: Update)
    ensures Holds(PackUpdate(h, u), UpdateTable(h, u))
  {
    hide Holds, Concat, Rows, PackState, StateTable, PackOption, PackOptField, PackOptKey, OptPermissionsTable,
         OptKeyRow, OptVerificationKeyRow, OptUriRow, OptSymbolRow, OptTimingRow, OptFieldRow;
    StatePacked(u.appState);
    OptKeyHolds(u.delegate);
    OptVerificationKeyHolds(u.verificationKey);
    OptPermissionsPacked(h, u.permissions);
    OptUriHolds(u.zkappUri);
    OptSymbolHolds(u.tokenSymbol);
    OptTimingHolds(u.timing);
    OptFieldHolds(u.votingFor);
    HoldsAll(UpdateParts(h, u),
             [StateTable(u.appState), [OptKeyRow(u.delegate)], [OptVerificationKeyRow(u.verificationKey)],
              OptPermissionsTable(h, u.permissions), [OptUriRow(u.zkappUri)], [OptSymbolRow(u.tokenSymbol)],
              [OptTimingRow(u.timing)], [OptFieldRow(u.votingFor)]]);
  }

  lemma LedgerHolds(l: EpochLedger)
    ensures Holds(Concat(LedgerParts(l)), [OptFieldRow(l.hash), OptRange64Row(l.totalCurrency)])
  {
    hide Holds, Concat, PackOptField, PackOptRange64, OptFieldRow, OptRange64Row;
    var tables := [[OptFieldRow(l.hash)], [OptRange64Row(l.totalCurrency)]];
    OptFieldHolds(l.hash);
    OptRange64Holds(l.totalCurrency);
    HoldsAll(LedgerParts(l), tables);
    SingleRows([OptFieldRow(l.hash), OptRange64Row(l.totalCurrency)], tables);
  }

  lemma EpochPacked(e: EpochData)
    ensures Holds(Concat(EpochParts(e)), EpochTable(e))
  {
    hide Holds, Concat, Rows, PackOptField, PackOptRange32, OptFieldRow, OptRange32Row, OptRange64Row, LedgerParts;
    LedgerHolds(e.ledger);
    OptFieldHolds(e.seed);
    OptFieldHolds(e.startCheckpoint);
    OptFieldHolds(e.lockCheckpoint);
    OptRange32Holds(e.epochLength);
    HoldsAll(EpochParts(e),
             [[OptFieldRow(e.ledger.hash), OptRange64Row(e.ledger.totalCurrency)], [OptFieldRow(e.seed)],
              [OptFieldRow(e.startCheckpoint)], [OptFieldRow(e.lockCheckpoint)], [OptRange32Row(e.epochLength)]]);
  }

  lemma NetworkPacked(n: NetworkPreconditions)
    ensures Holds(Concat(NetworkParts(n)), NetworkTable(n))
  {
    hide Holds, Concat, Rows, PackOptField, PackOptRange32, PackOptRange64, OptFieldRow, OptRange32Row, OptRange64Row,
         EpochParts, EpochTable;
    OptFieldHolds(n.snarkedLedgerHash);
    OptRange32Holds(n.blockchainLength);
    OptRange32Holds(n.minWindowDensity);
    OptRange64Holds(n.totalCurrency);
    OptRange32Holds(n.globalSlotSinceGenesis);
    EpochPacked(n.stakingEpochData);
    EpochPacked(n.nextEpochData);
    HoldsAll(NetworkParts(n),
             [[OptFieldRow(n.snarkedLedgerHash)], [OptRange32Row(n.blockchainLength)],
              [OptRange32Row(n.minWindowDensity)], [OptRange64Row(n.totalCurrency)],
              [OptRange32Row(n.globalSlotSinceGenesis)], EpochTable(n.stakingEpochData), EpochTable(n.nextEpochData)]);
  }

  lemma AccountPacked(a: AccountPreconditions)
    ensures Holds(Concat(AccountParts(a)), AccountTable(a))
  {
    hide Holds, Concat, Rows, PackOptField, PackOptRange32, PackOptRange64, PackOptKey, PackOptBool, PackOption,
         PackState, OptFieldRow, OptRange32Row, OptRange64Row, OptKeyRow, OptBoolRow, OptActionStateRow, StateTable;
    OptRange64Holds(a.balance);
    OptRange32Holds(a.nonce);
    OptFieldHolds(a.receiptChainHash);
    OptKeyHolds(a.delegate);
    StatePacked(a.state);
    OptActionStateHolds(a.actionState);
    OptBoolHolds(a.provedState);
    OptBoolHolds(a.isNew);
    HoldsAll(AccountParts(a),
             [[OptRange64Row(a.balance)], [OptRange32Row(a.nonce)], [OptFieldRow(a.receiptChainHash)],
              [OptKeyRow(a.delegate)], StateTable(a.state), [OptActionStateRow(a.actionState)],
              [OptBoolRow(a.provedState)], [OptBoolRow(a.isNew)]]);
  }

  lemma PreconditionsPacked(p: Preconditions)
    ensures Holds(Concat(PreconditionParts(p)), PreconditionsTable(p))
  {
    hide Holds, Concat, Rows, PackOptRange32, OptRange32Row, NetworkParts, AccountParts, NetworkTable, AccountTable;
    NetworkPacked(p.network);
    AccountPacked(p.account);
    OptRange32Holds(p.validWhile);
    HoldsAll(PreconditionParts(p), [NetworkTable(p.network), AccountTable(p.account), [OptRange32Row(p.validWhile)]]);
  }

  /** A packed body holds exactly the rows of its table, in order. */
  lemma BodyPacked(h: Hardfork, b: AccountUpdateBody)
    ensures PackBody(h, b).fields == TableFields(BodyTable(h, b))
    ensures PackBody(h, b).bits == TableBits(BodyTable(h, b))
  {
    hide Concat, Rows, PackUpdate, UpdateTable, PreconditionParts, PreconditionsTable, EventsHash, ActionsHash,
         TableFields, TableBits, Holds;
    forall p: PackedInput ensures Holds(p, [p]) { HoldsRow(p); }
    UpdatePacked(h, b.update);
    PreconditionsPacked(b.preconditions);
    var tables :=
      [[KeyRow(b.publicKey)], [FieldRow(b.tokenId)], UpdateTable(h, b.update),
       [PackedInput([], [U64Bits(b.balanceChange.magnitude), BoolBit(b.balanceChange.sgn == 1)])],
       [BoolRow(b.incrementNonce)], [FieldRow(EventsHash(b.events))], [FieldRow(ActionsHash(b.actions))],
       [FieldRow(b.callData)], PreconditionsTable(b.preconditions), [BoolRow(b.useFullCommitment)],
       [BoolRow(b.implicitAccountCreationFee)],
       [PackedInput([], [BoolBit(b.mayUseToken.parentsOwnToken), BoolBit(b.mayUseToken.inheritFromParent)])],
       [PackedInput([b.authorizationKind.verificationKeyHash],
                    [BoolBit(b.authorizationKind.isSigned), BoolBit(b.authorizationKind.isProved)])]];
    HoldsAll(BodyParts(h, b), tables);
    HeldIs(PackBody(h, b), BodyTable(h, b));
  }

  lemma HeldIs(p: PackedInput, t: Table)
    requires Holds(p, t)
    ensures p.fields == TableFields(t) && p.bits == TableBits(t)
  {
  }
}
