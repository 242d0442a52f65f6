/**
 * What equal commitments say: the same updates in the same order at the same call
 * depths, although call depths are never packed; and for the full commitment also the
 * same memo and fee payer.
 */
module CommitBinding {
  import opened Wrappers
  import opened Bytes
  import opened Networks
  import opened ZkappTx
  import opened BitPacking
  import opened PackedInputs
  import opened Packing
  import opened PackingInjective
  import opened CallForest
  import opened Commit
  import H = Hashing

  type BodyRelation = (AccountUpdateBody, AccountUpdateBody) -> bool

  /** Forests of one shape, with related bodies in it. */
  ghost predicate Alike(r: BodyRelation, f: seq<CallTree>, g: seq<CallTree>)
    decreases f
  {
    && (f == [] <==> g == [])
    && (f != [] && g != [] ==>
         && r(f[0].accountUpdate.body, g[0].accountUpdate.body)
         && Alike(r, f[0].children, g[0].children)
         && Alike(r, f[1..], g[1..]))
  }

  ghost predicate AlikeLists(r: BodyRelation, u: seq<AccountUpdate>, v: seq<AccountUpdate>) {
    |u| == |v| && forall i :: 0 <= i < |u| ==> r(u[i].body, v[i].body)
  }

  lemma AlikeConcat(r: BodyRelation, a: seq<AccountUpdate>, b: seq<AccountUpdate>, c: seq<AccountUpdate>,
                    d: seq<AccountUpdate>)
    requires AlikeLists(r, a, b) && AlikeLists(r, c, d)
    ensures AlikeLists(r, a + c, b + d)
  {
  }

  /** Forests of one shape have related updates in preorder, at the same levels. */
  lemma {:induction false} AlikeForestsPreorder(r: BodyRelation, f: seq<CallTree>, g: seq<CallTree>, level: nat)
    requires Alike(r, f, g)
    ensures AlikeLists(r, Preorder(f), Preorder(g))
    ensures Levels(f, level) == Levels(g, level)
    decreases f
  {
    hide AlikeLists;
    if f == [] {
      NothingAlike(r);
    } else {
      AlikeForestsPreorder(r, f[0].children, g[0].children, level + 1);
      AlikeForestsPreorder(r, f[1..], g[1..], level);
      OneAlike(r, f[0].accountUpdate, g[0].accountUpdate);
      AlikeConcat(r, [f[0].accountUpdate], [g[0].accountUpdate], Preorder(f[0].children), Preorder(g[0].children));
      AlikeConcat(r, [f[0].accountUpdate] + Preorder(f[0].children), [g[0].accountUpdate] + Preorder(g[0].children),
                  Preorder(f[1..]), Preorder(g[1..]));
    }
  }

  lemma NothingAlike(r: BodyRelation)
    ensures AlikeLists(r, [], [])
  {
  }

  lemma OneAlike(r: BodyRelation, a: AccountUpdate, b: AccountUpdate)
    requires r(a.body, b.body)
    ensures AlikeLists(r, [a], [b])
  {
  }

  /** Related lists with the same call depths are built into forests of one shape. */
  lemma {:induction false} AlikeListsBuild(r: BodyRelation, u: seq<AccountUpdate>, v: seq<AccountUpdate>, depth: nat)
    requires AlikeLists(r, u, v) && Depths(u) == Depths(v)
    ensures var (f, rest) := Step(u, depth);
            var (g, left) := Step(v, depth);
            Alike(r, f, g) && AlikeLists(r, rest, left) && Depths(rest) == Depths(left)
    decreases |u|
  {
    hide Preorder, Levels, AlikeLists;
    if u != [] {
      FirstAlike(r, u, v);
      if Depth(u[0]) >= depth {
        var (children, later) := Step(u[1..], depth + 1);
        var (siblings, rest) := Step(later, depth);
        var (nested, after) := Step(v[1..], depth + 1);
        var (others, left) := Step(after, depth);
        AlikeListsBuild(r, u[1..], v[1..], depth + 1);
        AlikeListsBuild(r, later, after, depth);
        AlikeTrees(r, CallTree(u[0], children), siblings, CallTree(v[0], nested), others);
      }
    } else {
      EmptyAlike(r, u, v);
    }
  }

  lemma EmptyAlike(r: BodyRelation, u: seq<AccountUpdate>, v: seq<AccountUpdate>)
    requires AlikeLists(r, u, v)
    ensures u == [] <==> v == []
  {
  }

  lemma FirstAlike(r: BodyRelation, u: seq<AccountUpdate>, v: seq<AccountUpdate>)
    requires AlikeLists(r, u, v) && Depths(u) == Depths(v) && u != []
    ensures v != [] && r(u[0].body, v[0].body) && Depth(u[0]) == Depth(v[0])
    ensures AlikeLists(r, u[1..], v[1..]) && Depths(u[1..]) == Depths(v[1..])
  {
    assert Depths(u)[0] == Depths(v)[0];
    assert Depths(u[1..]) == Depths(u)[1..] && Depths(v[1..]) == Depths(v)[1..];
  }

  lemma AlikeTrees(r: BodyRelation, s: CallTree, f: seq<CallTree>, t: CallTree, g: seq<CallTree>)
    requires r(s.accountUpdate.body, t.accountUpdate.body) && Alike(r, s.children, t.children) && Alike(r, f, g)
    ensures Alike(r, [s] + f, [t] + g)
  {
    assert ([s] + f)[1..] == f && ([t] + g)[1..] == g;
  }

  // ---------------------------------------------------------------------
  // Hashes of updates and forests
  // ---------------------------------------------------------------------

  ghost predicate SizedForest(h: Hardfork, f: seq<CallTree>)
    decreases f
  {
    f != [] ==> SizedBody(h, f[0].accountUpdate.body) && SizedForest(h, f[0].children) && SizedForest(h, f[1..])
  }

  ghost predicate SamePrefix(m: NetworkId, n: NetworkId) {
    H.Param(BodyPrefix(m)) == H.Param(BodyPrefix(n))
  }

  ghost const Same: BodyRelation := (a, b) => SameBody(a, b)

  lemma UpdateHashBinds(h: Hardfork, m: NetworkId, n: NetworkId, a: AccountUpdate, b: AccountUpdate)
    requires SizedBody(h, a.body) && SizedBody(h, b.body)
    requires HashAccountUpdate(h, m, a).Ok? && HashAccountUpdate(h, n, b).Ok?
    ensures HashAccountUpdate(h, m, a) == HashAccountUpdate(h, n, b) <==> SameBody(a.body, b.body) && SamePrefix(m, n)
  {
    hide Fields, PackBody, SameBody, H.Param, BodyPrefix, H.PadEven;
    BodyFieldsInjective(h, a.body, b.body);
    var s, t := Fields(PackBody(h, a.body)), Fields(PackBody(h, b.body));
    if HashAccountUpdate(h, m, a) == HashAccountUpdate(h, n, b) {
      H.PadEvenInjective(s, t);
    }
  }

  lemma PushBinds(a: Fp, c: Fp, s: Fp, b: Fp, d: Fp, t: Fp)
    ensures Push(a, c, s) == Push(b, d, t) <==> a == b && c == d && s == t
  {
    hide H.HashWith, H.Of;
    H.HashPairInjective(H.Of(H.Cons), H.HashWith(H.Of(H.Node), [a, c]), s, H.HashWith(H.Of(H.Node), [b, d]), t);
    H.HashPairInjective(H.Of(H.Node), a, c, b, d);
  }

  lemma PushIsNotEmpty(a: Fp, c: Fp, s: Fp)
    ensures Push(a, c, s) != ZERO
  {
  }

  /** Forests hash alike exactly if they have one shape and agree, node by node, in all that is packed. */
  lemma {:induction false} ForestHashBinds(h: Hardfork, m: NetworkId, n: NetworkId, f: seq<CallTree>, g: seq<CallTree>)
    requires SizedForest(h, f) && SizedForest(h, g)
    requires HashForest(h, m, f).Ok? && HashForest(h, n, g).Ok?
    ensures HashForest(h, m, f) == HashForest(h, n, g) <==> Alike(Same, f, g) && (f == [] || SamePrefix(m, n))
    decreases f
  {
    hide HashAccountUpdate, Push, SamePrefix, SameBody;
    if f != [] && g != [] {
      ForestHashBinds(h, m, n, f[1..], g[1..]);
      ForestHashBinds(h, m, n, f[0].children, g[0].children);
      UpdateHashBinds(h, m, n, f[0].accountUpdate, g[0].accountUpdate);
      PushBinds(HashAccountUpdate(h, m, f[0].accountUpdate).value, HashForest(h, m, f[0].children).value,
                HashForest(h, m, f[1..]).value,
                HashAccountUpdate(h, n, g[0].accountUpdate).value, HashForest(h, n, g[0].children).value,
                HashForest(h, n, g[1..]).value);
    } else if f != [] {
      PushIsNotEmpty(HashAccountUpdate(h, m, f[0].accountUpdate).value, HashForest(h, m, f[0].children).value,
                     HashForest(h, m, f[1..]).value);
    } else if g != [] {
      PushIsNotEmpty(HashAccountUpdate(h, n, g[0].accountUpdate).value, HashForest(h, n, g[0].children).value,
                     HashForest(h, n, g[1..]).value);
    }
  }

  ghost predicate SizedUpdates(h: Hardfork, u: seq<AccountUpdate>) {
    forall i :: 0 <= i < |u| ==> SizedBody(h, u[i].body)
  }

  lemma {:induction false} SizedPreorder(h: Hardfork, f: seq<CallTree>)
    requires SizedUpdates(h, Preorder(f))
    ensures SizedForest(h, f)
    decreases f
  {
    hide SizedBody;
    if f != [] {
      var all := Preorder(f);
      var k := |Preorder(f[0].children)|;
      assert all[0] == f[0].accountUpdate;
      assert Preorder(f[0].children) == all[1..1 + k] && Preorder(f[1..]) == all[1 + k..];
      SizedPreorder(h, f[0].children);
      SizedPreorder(h, f[1..]);
    }
  }

  /**
   * The account-updates commitment binds the updates and their call depths: of two
   * depth-valid lists it is equal exactly if they have as many updates, which agree in
   * order in all that is packed and in their call depths.
   */
  lemma UpdatesCommitmentBinds(h: Hardfork, m: NetworkId, n: NetworkId, u: seq<AccountUpdate>, v: seq<AccountUpdate>)
    requires SizedUpdates(h, u) && SizedUpdates(h, v)
    requires DepthsValid(u) && DepthsValid(v)
    requires HashForest(h, m, Build(u)).Ok? && HashForest(h, n, Build(v)).Ok?
    ensures HashForest(h, m, Build(u)) == HashForest(h, n, Build(v))
      <==> && |u| == |v| && (u == [] || SamePrefix(m, n))
           && forall i :: 0 <= i < |u| ==> SameBody(u[i].body, v[i].body) && Depth(u[i]) == Depth(v[i])
  {
    hide HashForest, SameBody, SamePrefix, SizedBody, Preorder, Levels, Alike, Gradual, DepthsValid, Build;
    BuildIsExact(u);
    BuildIsExact(v);
    SizedPreorder(h, Build(u));
    SizedPreorder(h, Build(v));
    ForestHashBinds(h, m, n, Build(u), Build(v));
    ValidExactly(u);
    ValidExactly(v);
    EmptyBuild(u);
    if Alike(Same, Build(u), Build(v)) {
      AlikeForestsPreorder(Same, Build(u), Build(v), 0);
      assert Depths(u) == Depths(v);
      forall i | 0 <= i < |u| ensures SameBody(u[i].body, v[i].body) && Depth(u[i]) == Depth(v[i]) {
        assert Same(u[i].body, v[i].body);
        assert Depths(u)[i] == Depths(v)[i];
      }
    }
    if |u| == |v| && forall i :: 0 <= i < |u| ==> SameBody(u[i].body, v[i].body) && Depth(u[i]) == Depth(v[i]) {
      assert AlikeLists(Same, u, v);
      BuildAlike(Same, u, v);
    }
  }

  lemma EmptyBuild(u: seq<AccountUpdate>)
    ensures Build(u) == [] <==> u == []
  {
  }

  lemma BuildAlike(r: BodyRelation, u: seq<AccountUpdate>, v: seq<AccountUpdate>)
    requires AlikeLists(r, u, v) && forall i :: 0 <= i < |u| ==> Depth(u[i]) == Depth(v[i])
    ensures Alike(r, Build(u), Build(v))
  {
    assert Depths(u) == Depths(v);
    AlikeListsBuild(r, u, v, 0);
  }

  // ---------------------------------------------------------------------
  // The memo
  // ---------------------------------------------------------------------

  lemma Regroup(b: nat, p: nat, k: nat, e: nat)
    requires p > 0 && b / p == 2 * k + e && e <= 1
    ensures b == k * (2 * p) + (e * p + b % p) && e * p <= p
  {
    assert b == (2 * k + e) * p + b % p;
    assert (2 * k + e) * p == k * (2 * p) + e * p;
  }

  lemma HalveQuotient(b: nat, p: nat)
    requires p > 0
    ensures b / p == 2 * (b / (2 * p)) + b / p % 2
  {
    var k, e := b / p / 2, b / p % 2;
    Regroup(b, p, k, e);
    UniqueRemainder(b, 2 * p, k, e * p + b % p);
  }

  lemma HalveBit(b: Byte, j: nat)
    ensures b / Pow2(j) == 2 * (b / Pow2(j + 1)) + (if Bit(b, j) then 1 else 0)
  {
    HalveQuotient(b, Pow2(j));
  }

  /** A byte is determined by its bits from any position up, and so by all of them. */
  lemma {:induction false} BitsDetermine(a: Byte, b: Byte, j: nat)
    requires j <= 8 && forall k :: j <= k < 8 ==> Bit(a, k) == Bit(b, k)
    ensures a / Pow2(j) == b / Pow2(j)
    decreases 8 - j
  {
    hide Bit, Pow2;
    if j < 8 {
      BitsDetermine(a, b, j + 1);
      HalveBit(a, j);
      HalveBit(b, j);
    } else {
      HighBits(a);
      HighBits(b);
    }
  }

  lemma HighBits(b: Byte)
    ensures b / Pow2(8) == 0 && b / Pow2(0) == b
  {
    SmallPowers();
  }

  lemma {:induction false} AllBitsInjective(a: seq<Byte>, b: seq<Byte>)
    requires |a| == |b| && AllBits(a) == AllBits(b)
    ensures a == b
  {
    hide Bit, BitsOf;
    if a != [] {
      assert BitsOf(a[0]) == AllBits(a)[..8] == AllBits(b)[..8] == BitsOf(b[0]);
      assert AllBits(a[1..]) == AllBits(a)[8..] == AllBits(b)[8..] == AllBits(b[1..]);
      forall k | 0 <= k < 8 ensures Bit(a[0], k) == Bit(b[0], k) {
        assert BitsOf(a[0])[k] == BitsOf(b[0])[k];
      }
      BitsDetermine(a[0], b[0], 0);
      HighBits(a[0]);
      HighBits(b[0]);
      AllBitsInjective(a[1..], b[1..]);
    }
  }

  lemma {:induction false} LowFirstInjective(a: seq<bool>, b: seq<bool>)
    requires |a| == |b| && LowFirst(a) == LowFirst(b)
    ensures a == b
  {
    if a != [] {
      assert a[0] == b[0];
      LowFirstInjective(a[1..], b[1..]);
      assert a == [a[0]] + a[1..] && b == [b[0]] + b[1..];
    }
  }

  lemma {:induction false} LegacyFieldsInjective(a: seq<bool>, b: seq<bool>)
    requires |a| == |b|
    ensures |LegacyFields(a)| == |LegacyFields(b)|
    ensures LegacyFields(a) == LegacyFields(b) ==> a == b
    decreases |a|
  {
    hide LowFirst;
    if a == [] {
    } else if |a| <= 254 {
      if LegacyFields(a) == LegacyFields(b) {
        assert LegacyFields(a)[0] == LegacyFields(b)[0];
        LowFirstInjective(a, b);
      }
    } else {
      LegacyFieldsInjective(a[254..], b[254..]);
      if LegacyFields(a) == LegacyFields(b) {
        assert LegacyFields(a)[0] == LegacyFields(b)[0];
        assert LegacyFields(a[254..]) == LegacyFields(a)[1..] == LegacyFields(b)[1..] == LegacyFields(b[254..]);
        LowFirstInjective(a[..254], b[..254]);
        assert a == a[..254] + a[254..] && b == b[..254] + b[254..];
      }
    }
  }

  lemma MemoHashBinds(a: seq<Byte>, b: seq<Byte>)
    requires |a| == |b|
    ensures MemoHash(a) == MemoHash(b) <==> a == b
  {
    hide AllBits, LegacyFields, H.PadEven;
    LegacyFieldsInjective(AllBits(a), AllBits(b));
    if MemoHash(a) == MemoHash(b) {
      var s, t := Residues(LegacyFields(AllBits(a))), Residues(LegacyFields(AllBits(b)));
      H.PadEvenInjective(s, t);
      ResiduesInjective(LegacyFields(AllBits(a)), LegacyFields(AllBits(b)));
      AllBitsInjective(a, b);
    }
  }

  // ---------------------------------------------------------------------
  // The full commitment
  // ---------------------------------------------------------------------

  /** A missing expiry is the same as the last slot. */
  ghost predicate SameFeePayer(f: FeePayer, g: FeePayer) {
    && f.body.publicKey == g.body.publicKey
    && f.body.fee == g.body.fee
    && f.body.nonce == g.body.nonce
    && Expiry(f.body.validUntil) == Expiry(g.body.validUntil)
  }

  lemma FeePayerBodies(h: Hardfork, f: FeePayer, g: FeePayer)
    ensures SizedBody(h, OfFeePayer(h, f).body) && KindValid(OfFeePayer(h, f).body.authorizationKind)
    ensures SameBody(OfFeePayer(h, f).body, OfFeePayer(h, g).body) <==> SameFeePayer(f, g)
    ensures ChargesFee(h, f, OfFeePayer(h, f)) && ChargesFee(h, g, OfFeePayer(h, g))
  {
    hide EventsHash, ActionsHash;
    ChargesFeeExactly(h, f, OfFeePayer(h, f));
    ChargesFeeExactly(h, g, OfFeePayer(h, g));
    var a, b := OfFeePayer(h, f).body, OfFeePayer(h, g).body;
    assert a.update == b.update;
    assert a.preconditions == b.preconditions <==>
      Expiry(f.body.validUntil) == Expiry(g.body.validUntil) && f.body.nonce == g.body.nonce by {
      if a.preconditions == b.preconditions {
        assert a.preconditions.network.globalSlotSinceGenesis.value.upper == Expiry(f.body.validUntil);
        assert a.preconditions.account.nonce.value.upper == f.body.nonce;
      }
    }
  }

  lemma HashTripleInjective(prefix: nat, a: Fp, b: Fp, c: Fp, d: Fp, e: Fp, f: Fp)
    ensures H.HashWith(prefix, [a, b, c]) == H.HashWith(prefix, [d, e, f]) <==> a == d && b == e && c == f
  {
    if H.HashWith(prefix, [a, b, c]) == H.HashWith(prefix, [d, e, f]) {
      H.PadEvenInjective([a, b, c], [d, e, f]);
      assert [a, b, c][0] == [d, e, f][0] && [a, b, c][1] == [d, e, f][1] && [a, b, c][2] == [d, e, f][2];
    }
  }

  ghost predicate SameUpdates(u: seq<AccountUpdate>, v: seq<AccountUpdate>) {
    |u| == |v| && forall i :: 0 <= i < |u| ==> SameBody(u[i].body, v[i].body) && Depth(u[i]) == Depth(v[i])
  }

  /**
   * The full commitment binds the network's prefix, the memo, the fee payer and the
   * account updates with their call depths.
   */
  lemma FullCommitmentBinds(h: Hardfork, m: NetworkId, n: NetworkId, t: Command, u: Command)
    requires Sized(h, t) && Sized(h, u)
    requires ZkCommit(h, t, m).Ok? && ZkCommit(h, u, n).Ok?
    ensures ZkCommit(h, t, m).value.1 == ZkCommit(h, u, n).value.1
      <==> && SamePrefix(m, n) && t.memo == u.memo && SameFeePayer(t.feePayer, u.feePayer)
           && SameUpdates(t.accountUpdates, u.accountUpdates)
  {
    hide HashForest, SameBody, SamePrefix, SizedBody, DepthsValid, Build, HashAccountUpdate, MemoHash, OfFeePayer,
      SameFeePayer, H.HashWith, KindValid;
    FeePayerBodies(h, t.feePayer, u.feePayer);
    FeePayerBodies(h, u.feePayer, t.feePayer);
    UpdateHashBinds(h, m, n, OfFeePayer(h, t.feePayer), OfFeePayer(h, u.feePayer));
    MemoHashBinds(t.memo, u.memo);
    var f, g := HashForest(h, m, Build(t.accountUpdates)), HashForest(h, n, Build(u.accountUpdates));
    UpdatesCommitmentBinds(h, m, n, t.accountUpdates, u.accountUpdates);
    HashTripleInjective(H.Of(H.Cons), MemoHash(t.memo), HashFeePayer(h, m, t.feePayer).value, f.value,
                        MemoHash(u.memo), HashFeePayer(h, n, u.feePayer).value, g.value);
  }

  // ---------------------------------------------------------------------
  // When there is a commitment, and what it reads
  // ---------------------------------------------------------------------

  /** Not both a proof and a signature, and without a proof the hash that stands for no key. */
  ghost predicate KindInOrder(k: AuthorizationKind) {
    && !(k.isProved && k.isSigned)
    && (!k.isProved ==> k.verificationKeyHash == DUMMY_HASH)
  }

  ghost predicate KindsValid(u: seq<AccountUpdate>) {
    forall i :: 0 <= i < |u| ==> KindInOrder(u[i].body.authorizationKind)
  }

  lemma KindsConcat(u: seq<AccountUpdate>, v: seq<AccountUpdate>)
    ensures KindsValid(u + v) <==> KindsValid(u) && KindsValid(v)
  {
    if KindsValid(u + v) {
      assert forall i :: 0 <= i < |u| ==> u[i] == (u + v)[i];
      assert forall i :: 0 <= i < |v| ==> v[i] == (u + v)[|u| + i];
    }
  }

  lemma {:induction false} ForestHashes(h: Hardfork, n: NetworkId, f: seq<CallTree>)
    ensures HashForest(h, n, f).Ok? <==> f == [] || (H.Param(BodyPrefix(n)).Ok? && KindsValid(Preorder(f)))
    decreases f
  {
    hide KindsValid, KindInOrder, Push, H.HashWith, H.Param, Fields, PackBody, BodyPrefix, KindValid;
    if f == [] {
    } else {
      ForestHashes(h, n, f[1..]);
      ForestHashes(h, n, f[0].children);
      var u := f[0].accountUpdate;
      KindsConcat([u] + Preorder(f[0].children), Preorder(f[1..]));
      KindsConcat([u], Preorder(f[0].children));
      OneKind(u);
      NoKinds();
    }
  }

  lemma NoKinds()
    ensures KindsValid([])
  {
  }

  lemma OneKind(u: AccountUpdate)
    ensures KindsValid([u]) <==> KindInOrder(u.body.authorizationKind)
    ensures KindInOrder(u.body.authorizationKind) <==> KindValid(u.body.authorizationKind)
  {
    if KindsValid([u]) { assert [u][0] == u; }
  }

  /** Of a forest whose hash fails, what fails is a kind or the prefix. */
  lemma {:induction false} WhyForestFails(h: Hardfork, n: NetworkId, f: seq<CallTree>)
    requires HashForest(h, n, f).Err?
    ensures H.Param(BodyPrefix(n)).Ok? ==> HashForest(h, n, f).error == H.InvalidAuthorizationKind
    ensures KindsValid(Preorder(f)) ==> HashForest(h, n, f).error == H.InvalidPrefix
    decreases f
  {
    hide KindsValid, KindInOrder, Push, H.HashWith, H.Param, Fields, PackBody, BodyPrefix, KindValid;
    var u := f[0].accountUpdate;
    KindsConcat([u] + Preorder(f[0].children), Preorder(f[1..]));
    KindsConcat([u], Preorder(f[0].children));
    OneKind(u);
    PrefixError(BodyPrefix(n));
    if HashForest(h, n, f[1..]).Err? {
      WhyForestFails(h, n, f[1..]);
    } else if HashForest(h, n, f[0].children).Err? {
      WhyForestFails(h, n, f[0].children);
    }
  }

  lemma PrefixError(prefix: seq<Byte>)
    ensures H.Param(prefix).Err? ==> H.Param(prefix).error == H.InvalidPrefix
  {
    hide ByteValue;
  }

  /** Invalid call depths are found first; then what is reported is a kind if only kinds are
      wrong, and the prefix if only the prefix is. */
  lemma WhyNotCommitted(h: Hardfork, tx: Command, n: NetworkId)
    ensures var u, c := tx.accountUpdates, ZkCommit(h, tx, n);
      && (c == Err(H.InvalidCallDepths) <==> !DepthsValid(u))
      && (DepthsValid(u) && !KindsValid(u) && H.Param(BodyPrefix(n)).Ok? ==> c == Err(H.InvalidAuthorizationKind))
      && (DepthsValid(u) && KindsValid(u) && H.Param(BodyPrefix(n)).Err? ==> c == Err(H.InvalidPrefix))
  {
    hide KindsValid, KindValid, H.HashWith, H.Param, Fields, PackBody, BodyPrefix, DepthsValid, HashForest,
         OfFeePayer, MemoHash, Build;
    var u := tx.accountUpdates;
    BuildIsExact(u);
    ForestHashes(h, n, Build(u));
    NoKinds();
    EmptyBuild(u);
    PrefixError(BodyPrefix(n));
    if HashForest(h, n, Build(u)).Err? {
      WhyForestFails(h, n, Build(u));
      NotDepths(h, n, Build(u));
    }
    FeePayerBodies(h, tx.feePayer, tx.feePayer);
  }

  lemma {:induction false} NotDepths(h: Hardfork, n: NetworkId, f: seq<CallTree>)
    requires HashForest(h, n, f).Err?
    ensures HashForest(h, n, f).error != H.InvalidCallDepths
    decreases f
  {
    hide H.HashWith, H.Param, Fields, PackBody, BodyPrefix, KindValid, Push;
    PrefixError(BodyPrefix(n));
    if HashForest(h, n, f[1..]).Err? {
      NotDepths(h, n, f[1..]);
    } else if HashForest(h, n, f[0].children).Err? {
      NotDepths(h, n, f[0].children);
    }
  }

  /** There is a commitment exactly if depths, authorization kinds and the network's prefix are in order. */
  lemma CommitsExactly(h: Hardfork, tx: Command, n: NetworkId)
    ensures ZkCommit(h, tx, n).Ok? <==>
      DepthsValid(tx.accountUpdates) && KindsValid(tx.accountUpdates) && H.Param(BodyPrefix(n)).Ok?
  {
    hide KindsValid, KindValid, H.HashWith, H.Param, Fields, PackBody, BodyPrefix, DepthsValid, HashForest,
         OfFeePayer, MemoHash, Build;
    var u := tx.accountUpdates;
    BuildIsExact(u);
    EmptyBuild(u);
    NoKinds();
    ForestHashes(h, n, Build(u));
    FeePayerBodies(h, tx.feePayer, tx.feePayer);
  }

  /**
   * With a network name in ASCII the prefix is never the problem: what can be wrong with a
   * command is its call depths and authorization kinds. The prefixes of two such networks
   * are hashed alike only if they are the same bytes.
   */
  lemma AsciiNetworksCommit(h: Hardfork, tx: Command, m: NetworkId, n: NetworkId)
    requires AsciiName(m) && AsciiName(n)
    ensures ZkCommit(h, tx, n).Ok? <==> DepthsValid(tx.accountUpdates) && KindsValid(tx.accountUpdates)
    ensures SamePrefix(m, n) <==> BodyPrefix(m) == BodyPrefix(n)
  {
    hide ZkCommit, BodyPrefix, DepthsValid, KindsValid, H.Param;
    CommitsExactly(h, tx, n);
    BodyPrefixSize(m);
    BodyPrefixSize(n);
    H.ShortPrefix(BodyPrefix(n));
    if SamePrefix(m, n) { H.FullPrefixesDiffer(BodyPrefix(m), BodyPrefix(n)); }
  }

  ghost const Equal: BodyRelation := (a, b) => a == b

  lemma {:induction false} ForestHashReadsBodies(h: Hardfork, n: NetworkId, f: seq<CallTree>, g: seq<CallTree>)
    requires Alike(Equal, f, g)
    ensures HashForest(h, n, f) == HashForest(h, n, g)
    decreases f
  {
    hide KindValid, H.HashWithPrefix, Fields, PackBody, BodyPrefix, Push;
    if f != [] {
      ForestHashReadsBodies(h, n, f[1..], g[1..]);
      ForestHashReadsBodies(h, n, f[0].children, g[0].children);
    }
  }

  lemma FeePayerReadsBody(h: Hardfork, n: NetworkId, f: FeePayer, g: FeePayer)
    requires f.body == g.body
    ensures HashFeePayer(h, n, f) == HashFeePayer(h, n, g)
  {
    hide KindValid, H.HashWithPrefix, Fields, PackBody, BodyPrefix;
  }

  lemma DepthsDecide(v: seq<AccountUpdate>, w: seq<AccountUpdate>)
    requires Depths(v) == Depths(w)
    ensures DepthsValid(v) <==> DepthsValid(w)
  {
    hide Gradual;
    if v != [] { assert Depths(v)[0] == Depths(w)[0]; }
  }

  /** Authorizations are not read, neither by the commitments nor by the refusals. */
  lemma CommitReadsBodies(h: Hardfork, t: Command, u: Command, n: NetworkId)
    requires AlikeLists(Equal, t.accountUpdates, u.accountUpdates)
    requires t.feePayer.body == u.feePayer.body && t.memo == u.memo
    ensures ZkCommit(h, t, n) == ZkCommit(h, u, n)
  {
    hide HashForest, Build, MemoHash, HashFeePayer, DepthsValid, H.HashWith;
    var v, w := t.accountUpdates, u.accountUpdates;
    EqualDepths(v, w);
    DepthsDecide(v, w);
    BuildAlike(Equal, v, w);
    ForestHashReadsBodies(h, n, Build(v), Build(w));
    FeePayerReadsBody(h, n, t.feePayer, u.feePayer);
  }

  lemma EqualDepths(v: seq<AccountUpdate>, w: seq<AccountUpdate>)
    requires AlikeLists(Equal, v, w)
    ensures Depths(v) == Depths(w) && forall i :: 0 <= i < |v| ==> Depth(v[i]) == Depth(w[i])
  {
    forall i | 0 <= i < |v| ensures Depth(v[i]) == Depth(w[i]) {
      assert Equal(v[i].body, w[i].body);
    }
  }
}
