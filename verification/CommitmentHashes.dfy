/** What is hashed where: the exact inputs of the sponge behind every part of a commitment. */
module CommitmentHashes {
  import opened Wrappers
  import opened Bytes
  import opened Networks
  import opened ZkappTx
  import opened BitPacking
  import opened PackedInputs
  import opened Packing
  import opened PackedBody
  import opened CallForest
  import opened Commit
  import opened CommitBinding
  import opened UriPacking
  import H = Hashing

  // ---------------------------------------------------------------------
  // Prefixes
  // ---------------------------------------------------------------------

  /** The prefixes of the protocol, with the stars up to 20 characters. */
  function Starred(p: H.Prefix): (s: string)
    ensures |s| <= 28 && forall i :: 0 <= i < |s| ==> s[i] as int < 128
  {
    match p
    case Node => "MinaAcctUpdateNode**"
    case Cons => "MinaAcctUpdateCons**"
    case Memo => "MinaZkappMemo*******"
    case EventsEmpty => "MinaZkappEventsEmpty"
    case Events => "MinaZkappEvents*****"
    case Event => "MinaZkappEvent******"
    case ActionsEmpty => "MinaZkappActionsEmpty"
    case Actions => "MinaZkappSeqEvents**"
    case ActionStateEmpty => "MinaZkappActionStateEmptyElt"
    case Uri => "MinaZkappUri********"
  }

  function StarsAfter(name: string): string {
    seq(if |name| < 20 then 20 - |name| else 0, _ => '*')
  }

  lemma NameStarred(p: H.Prefix)
    ensures Starred(p) == H.Name(p) + StarsAfter(H.Name(p))
  {
  }

  /** The residue of a prefix is the number with these characters, the first lowest. */
  lemma PrefixIs(p: H.Prefix)
    ensures H.Of(p) == FromLittleEndian(Ascii(Starred(p)))
  {
    hide FromLittleEndian, ByteValue, Pow2, H.Name, Starred;
    NameStarred(p);
    var s := Ascii(Starred(p));
    var bytes := H.PrefixBytes(Ascii(H.Name(p)));
    assert bytes == s + Zeros(32 - |s|);
    H.TrailingZeros(s, 32 - |s|);
    ByteValueBound(s);
    Pow2Monotone(8 * |s|, 254);
    ModulusBound();
    H.FullByteValue(bytes);
  }

  lemma FirstByte(a: Byte, rest: seq<Byte>)
    ensures FromLittleEndian([a] + rest) == a + 256 * FromLittleEndian(rest)
  {
    assert ([a] + rest)[1..] == rest;
  }

  lemma FourBytesLow(a: Byte, b: Byte, c: Byte, d: Byte, rest: seq<Byte>)
    ensures FromLittleEndian([a, b, c, d] + rest)
         == a + 0x100 * b + 0x1_0000 * c + 0x100_0000 * d + 0x1_0000_0000 * FromLittleEndian(rest)
  {
    FirstByte(d, rest);
    FirstByte(c, [d] + rest);
    FirstByte(b, [c] + ([d] + rest));
    FirstByte(a, [b] + ([c] + ([d] + rest)));
    assert [a, b, c, d] + rest == [a] + ([b] + ([c] + ([d] + rest)));
  }

  /** The residue of the node prefix, as a number. */
  lemma NodePrefixNumber()
    ensures H.Of(H.Node) == 240723076190006710499563866323038773312427551053
  {
    hide FromLittleEndian, H.Of;
    PrefixIs(H.Node);
    // MinaAcctUpdateNode**, four characters at a time
    var five: seq<Byte> := [100, 101, 42, 42];
    var four: seq<Byte> := [116, 101, 78, 111];
    var three: seq<Byte> := [85, 112, 100, 97];
    var two: seq<Byte> := [65, 99, 99, 116];
    var one: seq<Byte> := [77, 105, 110, 97];
    NoBytes();
    assert five + [] == five;
    FourBytesLow(100, 101, 42, 42, []);
    FourBytesLow(116, 101, 78, 111, five);
    FourBytesLow(85, 112, 100, 97, four + five);
    FourBytesLow(65, 99, 99, 116, three + (four + five));
    FourBytesLow(77, 105, 110, 97, two + (three + (four + five)));
    assert Ascii(Starred(H.Node)) == one + (two + (three + (four + five)));
  }

  lemma NoBytes()
    ensures FromLittleEndian([]) == 0
  {
  }

  /** No two purposes share a prefix. */
  lemma PrefixesDiffer(p: H.Prefix, q: H.Prefix)
    ensures H.Of(p) == H.Of(q) <==> p == q
  {
    if H.Of(p) == H.Of(q) {
      PrefixDecides(p, q);
      CharactersDiffer(p, q);
    }
  }

  lemma PrefixDecides(p: H.Prefix, q: H.Prefix)
    requires H.Of(p) == H.Of(q)
    ensures Ascii(Starred(p)) + Zeros(28 - |Starred(p)|) == Ascii(Starred(q)) + Zeros(28 - |Starred(q)|)
  {
    hide FromLittleEndian, Starred, H.Of;
    PrefixIs(p);
    PrefixIs(q);
    var s, t := Ascii(Starred(p)), Ascii(Starred(q));
    H.TrailingZeros(s, 28 - |s|);
    H.TrailingZeros(t, 28 - |t|);
    EncodeLittleEndian(s + Zeros(28 - |s|));
    EncodeLittleEndian(t + Zeros(28 - |t|));
  }

  /** Three of the characters tell the purposes apart. */
  lemma CharactersDiffer(p: H.Prefix, q: H.Prefix)
    requires Ascii(Starred(p)) + Zeros(28 - |Starred(p)|) == Ascii(Starred(q)) + Zeros(28 - |Starred(q)|)
    ensures p == q
  {
    LongEnough(p);
    LongEnough(q);
    CharacterAt(p, q, 9);
    CharacterAt(p, q, 14);
    CharacterAt(p, q, 15);
    Signature(p);
    Signature(q);
  }

  lemma LongEnough(p: H.Prefix)
    ensures |Starred(p)| >= 20
  {
  }

  lemma CharacterAt(p: H.Prefix, q: H.Prefix, i: nat)
    requires Ascii(Starred(p)) + Zeros(28 - |Starred(p)|) == Ascii(Starred(q)) + Zeros(28 - |Starred(q)|)
    requires i < |Starred(p)| && i < |Starred(q)|
    ensures Starred(p)[i] == Starred(q)[i]
  {
    hide Starred;
    assert (Ascii(Starred(p)) + Zeros(28 - |Starred(p)|))[i] == Starred(p)[i] as int;
    assert (Ascii(Starred(q)) + Zeros(28 - |Starred(q)|))[i] == Starred(q)[i] as int;
  }

  lemma Signature(p: H.Prefix)
    requires |Starred(p)| >= 20
    ensures var c := (Starred(p)[9], Starred(p)[14], Starred(p)[15]);
      c == match p
           case Node => ('p', 'N', 'o')
           case Cons => ('p', 'C', 'o')
           case Memo => ('M', '*', '*')
           case EventsEmpty => ('E', 's', 'E')
           case Events => ('E', 's', '*')
           case Event => ('E', '*', '*')
           case ActionsEmpty => ('A', 'n', 's')
           case Actions => ('S', 'e', 'n')
           case ActionStateEmpty => ('A', 'n', 'S')
           case Uri => ('U', '*', '*')
  {
  }

  // ---------------------------------------------------------------------
  // Trees, updates and the whole command
  // ---------------------------------------------------------------------

  /** A list of elements as the sponge absorbs it: a zero follows an odd last one. */
  function Absorbed(data: seq<Fp>): seq<Fp> {
    if |data| % 2 == 1 then data + [Residue(0)] else data
  }

  /** The first tree of a forest: its update and its children under the node prefix, and
      that with the trees after it under the other. No trees hash to zero. */
  lemma ForestAbsorbs(h: Hardfork, n: NetworkId, tree: CallTree, rest: seq<CallTree>)
    requires HashForest(h, n, [tree] + rest).Ok?
    ensures var update, calls, stack :=
              HashAccountUpdate(h, n, tree.accountUpdate), HashForest(h, n, tree.children), HashForest(h, n, rest);
      && update.Ok? && calls.Ok? && stack.Ok?
      && HashForest(h, n, [tree] + rest) ==
         Ok(Hashed(H.Of(H.Cons), [Hashed(H.Of(H.Node), [update.value, calls.value]), stack.value]))
    ensures HashForest(h, n, []) == Ok(Residue(0))
  {
    hide HashAccountUpdate, H.Of, H.HashWith, Push;
    assert ([tree] + rest)[1..] == rest && ([tree] + rest)[0] == tree;
    var update, calls, stack :=
      HashAccountUpdate(h, n, tree.accountUpdate), HashForest(h, n, tree.children), HashForest(h, n, rest);
    if update.Ok? && calls.Ok? && stack.Ok? {
      PushAbsorbs(update.value, calls.value, stack.value);
    }
  }

  lemma PushAbsorbs(update: Fp, calls: Fp, stack: Fp)
    ensures Push(update, calls, stack) == Hashed(H.Of(H.Cons), [Hashed(H.Of(H.Node), [update, calls]), stack])
  {
    hide H.Of;
  }

  /** An update: its rows' field elements and then its packed bits, under the network's prefix. */
  lemma UpdateAbsorbs(h: Hardfork, n: NetworkId, u: AccountUpdate)
    requires HashAccountUpdate(h, n, u).Ok?
    ensures H.Param(BodyPrefix(n)).Ok?
    ensures var rows := BodyTable(h, u.body);
      HashAccountUpdate(h, n, u) ==
        Ok(Hashed(H.Param(BodyPrefix(n)).value, Absorbed(TableFields(rows) + Residues(Packed(TableBits(rows))))))
    ensures |BodyPrefix(n)| == 20 ==> H.Param(BodyPrefix(n)).value == FromLittleEndian(BodyPrefix(n))
  {
    hide H.Param, BodyPrefix, PackBody, BodyTable, Packed, FromLittleEndian;
    BodyPacked(h, u.body);
    if |BodyPrefix(n)| == 20 {
      H.ShortPrefix(BodyPrefix(n));
      assert H.Starred(BodyPrefix(n)) == BodyPrefix(n);
    }
  }

  /** The full commitment: the hash of the memo's two numbers, the update that charges the fee,
      and the account updates. */
  lemma CommandAbsorbs(h: Hardfork, tx: Command, n: NetworkId, feeUpdate: AccountUpdate)
    requires Sized(h, tx) && ZkCommit(h, tx, n).Ok? && ChargesFee(h, tx.feePayer, feeUpdate)
    ensures var (updates, full) := ZkCommit(h, tx, n).value;
      && Ok(updates) == HashForest(h, n, Build(tx.accountUpdates))
      && HashAccountUpdate(h, n, feeUpdate).Ok?
      && var memo, v := Hashed(H.Of(H.Memo), MemoNumbers(tx.memo)), HashAccountUpdate(h, n, feeUpdate).value;
      && full == Hashed(H.Of(H.Cons), [memo, v, updates, Residue(0)])
  {
    hide HashForest, HashAccountUpdate, MemoHash, ChargesFee, OfFeePayer, H.Of, DepthsValid, Build, H.HashWith,
         MemoNumbers;
    ChargesFeeExactly(h, tx.feePayer, feeUpdate);
    MemoAbsorbs(tx.memo);
    ThreeAbsorbed(H.Of(H.Cons), MemoHash(tx.memo), HashAccountUpdate(h, n, feeUpdate).value,
                  ZkCommit(h, tx, n).value.0);
  }

  // ---------------------------------------------------------------------
  // Events, memo and URI
  // ---------------------------------------------------------------------

  /** What comes after an event is hashed before it, and together with the event's own hash. */
  lemma EventsAbsorb(event: seq<Fp>, rest: seq<seq<Fp>>)
    ensures EventsHash([]) == Digest(H.Of(H.EventsEmpty)) && ActionsHash([]) == Digest(H.Of(H.ActionsEmpty))
    ensures EventsHash([event] + rest) ==
            Hashed(H.Of(H.Events), [EventsHash(rest), Hashed(H.Of(H.Event), Absorbed(event))])
    ensures ActionsHash([event] + rest) ==
            Hashed(H.Of(H.Actions), [ActionsHash(rest), Hashed(H.Of(H.Event), Absorbed(event))])
  {
    hide H.Of;
    assert ([event] + rest)[1..] == rest;
  }

  lemma {:induction false} LowFirstConcat(a: seq<bool>, b: seq<bool>)
    ensures LowFirst(a + b) == LowFirst(a) + Pow2(|a|) * LowFirst(b)
  {
    if a == [] {
      assert a + b == b;
    } else {
      assert (a + b)[1..] == a[1..] + b;
      LowFirstConcat(a[1..], b);
      DoubleProduct(Pow2(|a| - 1), LowFirst(b));
    }
  }

  lemma ByteLowFirst(b: Byte)
    ensures LowFirst(BitsOf(b)) == b
  {
    hide Bit, Pow2;
    ByteFrom(b, 0);
    HighBits(b);
    assert BitsOf(b)[0..] == BitsOf(b);
  }

  lemma {:induction false} ByteFrom(b: Byte, j: nat)
    requires j <= 8
    ensures LowFirst(BitsOf(b)[j..]) == b / Pow2(j)
    decreases 8 - j
  {
    hide Bit, Pow2, BitsOf;
    if j == 8 {
      HighBits(b);
    } else {
      ByteFrom(b, j + 1);
      HalveBit(b, j);
      assert BitsOf(b)[j..][1..] == BitsOf(b)[j + 1..] && BitsOf(b)[j..][0] == Bit(b, j);
    }
  }

  /** The bits of bytes, the lowest of the first byte first, are the bits of the number they write. */
  lemma {:induction false} BytesLowFirst(bytes: seq<Byte>)
    ensures LowFirst(AllBits(bytes)) == FromLittleEndian(bytes)
  {
    hide Bit, BitsOf;
    if bytes != [] {
      BytesLowFirst(bytes[1..]);
      ByteLowFirst(bytes[0]);
      LowFirstConcat(BitsOf(bytes[0]), AllBits(bytes[1..]));
      Pow2Values();
    }
  }

  lemma {:induction false} LowFirstFits(bits: seq<bool>)
    ensures LowFirst(bits) < Pow2(|bits|)
  {
    if bits != [] { LowFirstFits(bits[1..]); }
  }

  /** Two to the power of 254. */
  const TWO_254: nat := 0x4000_0000_0000_0000_0000_0000_0000_0000_0000_0000_0000_0000_0000_0000_0000_0000

  /** The number that the memo's bytes write, cut after 254 bits. */
  function MemoNumbers(memo: seq<Byte>): seq<Fp> {
    [Residue(FromLittleEndian(memo) % TWO_254), Residue(FromLittleEndian(memo) / TWO_254)]
  }

  /** The memo is hashed as these two field elements. */
  lemma MemoAbsorbs(memo: seq<Byte>)
    requires |memo| == 34
    ensures MemoHash(memo) == Hashed(H.Of(H.Memo), MemoNumbers(memo))
  {
    hide Pow2, AllBits, LowFirst, FromLittleEndian, H.Of;
    var bits := AllBits(memo);
    var low, high := bits[..254], bits[254..];
    BytesLowFirst(memo);
    assert bits == low + high;
    LowFirstConcat(low, high);
    LowFirstFits(low);
    Pow2Of254();
    UniqueRemainder(LowFirst(bits), TWO_254, LowFirst(high), LowFirst(low));
    assert LegacyFields(bits) == [LowFirst(low)] + LegacyFields(high) == [LowFirst(low), LowFirst(high)];
    assert Residues([LowFirst(low), LowFirst(high)]) == [Residue(LowFirst(low)), Residue(LowFirst(high))];
  }

  lemma Pow2Of254()
    ensures Pow2(254) == TWO_254
  {
    hide Pow2;
    ModulusBound();
    assert Pow2(255) == 2 * Pow2(254) by { DoublePow2(254); }
  }

  lemma DoublePow2(n: nat)
    ensures Pow2(n + 1) == 2 * Pow2(n)
  {
  }

  lemma {:induction false} HighFirstDigits(bits: seq<bool>)
    ensures Digits(|bits|, HighFirst(bits)) == bits
  {
    if bits != [] {
      HighFirstDigits(bits[..|bits| - 1]);
    }
  }

  /** A piece of at most 254 bits is one number, whose binary digits are the bits, first highest. */
  lemma PieceIsNumber(bits: seq<bool>)
    requires |bits| <= 254
    ensures BitChunks(bits) == [HighFirst(bits)] && WordDigits(|bits|, HighFirst(bits)) == bits
  {
    hide HighFirst, WordDigits, Digits;
    HighFirstDigits(bits);
    WordDigitsAre(|bits|, HighFirst(bits));
  }

  /** A URI is hashed as the pieces of its bits, cut after every 254. */
  lemma UriAbsorbs(uri: ZkappUri)
    ensures UriHash(uri) == Hashed(H.Of(H.Uri), Absorbed(Residues(BitChunks(UriBits(uri)))))
    ensures |UriBits(uri)| > 254 ==>
              BitChunks(UriBits(uri)) == [HighFirst(UriBits(uri)[..254])] + BitChunks(UriBits(uri)[254..])
    ensures forall i, j :: 0 <= i < |uri| && 0 <= j < 8 ==>
              (UriBits(uri)[8 * i + j] <==> uri[i] / Pow2(j) % 2 == 1)
  {
    hide H.Of, Chunks, Packed, Pow2, HighFirst, AllBits;
    UriFields(uri);
    forall i, j | 0 <= i < |uri| && 0 <= j < 8 ensures UriBits(uri)[8 * i + j] <==> uri[i] / Pow2(j) % 2 == 1 {
      BitOfUri(uri, i, j);
    }
  }
}
