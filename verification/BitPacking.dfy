/** Packing of bit data into field elements, most significant item first, at most 254 bits each. */
module BitPacking {
  import opened Wrappers
  import opened Bytes
  import opened ZkappTx

  /** The order of the Pallas base field. */
  const MODULUS: nat := 0x4000_0000_0000_0000_0000_0000_0000_0000_224698fc094cf91b992d30ed00000001

  datatype BitData = U32Bits(word: U32) | U64Bits(long: U64) | BoolBit(bit: bool) | ByteBits(bytes: seq<Byte>)

  function Size(d: BitData): nat {
    match d
    case U32Bits(_) => 32
    case U64Bits(_) => 64
    case BoolBit(_) => 1
    case ByteBits(bytes) => |bytes| * 8
  }

  /** Two to the power of 255: what 32 bytes hold without their top bit. */
  const BIT_255: nat := 0x8000_0000_0000_0000_0000_0000_0000_0000_0000_0000_0000_0000_0000_0000_0000_0000

  /** The value of at most 32 bytes, little-endian, without the top bit; longer data is cut. */
  function ByteValue(bytes: seq<Byte>): nat {
    FromLittleEndian(if |bytes| <= 32 then bytes else bytes[..32]) % BIT_255
  }

  function Value(d: BitData): nat {
    match d
    case U32Bits(word) => word
    case U64Bits(long) => long
    case BoolBit(bit) => if bit then 1 else 0
    case ByteBits(bytes) => ByteValue(bytes)
  }

  /** Conversion to a field element panics on a value that is not a residue. */
  predicate Convertible(d: BitData) {
    Value(d) < MODULUS
  }

  predicate AllConvertible(bits: seq<BitData>) {
    forall i :: 0 <= i < |bits| ==> Convertible(bits[i])
  }

  // ---------------------------------------------------------------------
  // Powers of two
  // ---------------------------------------------------------------------

  function Pow2(n: nat): (p: nat)
    ensures p > 0
  {
    if n == 0 then 1 else 2 * Pow2(n - 1)
  }

  lemma DoubleProduct(p: int, q: int)
    ensures 2 * (p * q) == 2 * p * q
  {
  }

  lemma {:induction false} Pow2Add(m: nat, n: nat)
    ensures Pow2(m + n) == Pow2(m) * Pow2(n)
  {
    if m > 0 {
      Pow2Add(m - 1, n);
      assert Pow2(m + n) == 2 * Pow2(m - 1 + n);
      DoubleProduct(Pow2(m - 1), Pow2(n));
    }
  }

  lemma {:induction false} Pow2Monotone(m: nat, n: nat)
    requires m <= n
    ensures Pow2(m) <= Pow2(n)
    decreases n
  {
    if m < n { Pow2Monotone(m, n - 1); }
  }

  lemma SmallPowers()
    ensures Pow2(1) == 2 && Pow2(4) == 16 && Pow2(8) == 256
  {
  }

  lemma Pow2Values()
    ensures Pow2(1) == 2 && Pow2(4) == 16 && Pow2(8) == 256
    ensures Pow2(16) == 0x1_0000 && Pow2(32) == 0x1_0000_0000 && Pow2(64) == 0x1_0000_0000_0000_0000
  {
    hide Pow2;
    SmallPowers();
    Pow2Add(8, 8);
    Pow2Add(16, 16);
    Pow2Add(32, 32);
  }

  /** 254 bits always fit below the modulus. */
  lemma ModulusBound()
    ensures Pow2(254) <= MODULUS < Pow2(255) == BIT_255
    ensures MODULUS == Pow2(254) + 45560315531419706090280762371685220353
  {
    hide Pow2;
    Pow2Values();
    Pow2Add(64, 64);
    Pow2Add(128, 64);
    Pow2Add(192, 32);
    Pow2Add(224, 16);
    Pow2Add(240, 8);
    Pow2Add(4, 1);
    Pow2Add(5, 1);
    Pow2Add(248, 6);
    Pow2Add(254, 1);
  }

  lemma ByteValueBound(bytes: seq<Byte>)
    requires |bytes| <= 31
    ensures ByteValue(bytes) == FromLittleEndian(bytes) < Pow2(8 * |bytes|)
  {
    hide Pow2, FromLittleEndian;
    EncodeLittleEndian(bytes);
    Pow256IsPow2(|bytes|);
    Pow2Monotone(8 * |bytes|, 255);
    ModulusBound();
    SmallRemainder(FromLittleEndian(bytes), BIT_255);
  }

  lemma SmallRemainder(v: nat, p: nat)
    requires v < p
    ensures v % p == v
  {
  }

  lemma {:induction false} Pow256IsPow2(n: nat)
    ensures Pow256(n) == Pow2(8 * n)
  {
    if n > 0 {
      Pow256IsPow2(n - 1);
      Pow2Add(8, 8 * (n - 1));
      Pow2Values();
    }
  }

  /** An item of fewer than 255 bits is converted to a value of its size. */
  lemma ValueFits(d: BitData)
    requires Size(d) < 255
    ensures Value(d) < Pow2(Size(d)) && Convertible(d)
  {
    hide Pow2, ByteValue;
    Pow2Values();
    if d.ByteBits? { ByteValueBound(d.bytes); }
    Pow2Monotone(Size(d), 254);
    ModulusBound();
  }

  /** Same kind and same number of bits. */
  predicate SameKind(c: BitData, d: BitData) {
    && (c.U32Bits? <==> d.U32Bits?) && (c.U64Bits? <==> d.U64Bits?) && (c.BoolBit? <==> d.BoolBit?)
    && Size(c) == Size(d)
  }

  predicate SameKinds(a: seq<BitData>, b: seq<BitData>) {
    |a| == |b| && forall i :: 0 <= i < |a| ==> SameKind(a[i], b[i])
  }

  /** Items of the same kind below 255 bits are determined by their values. */
  lemma ValueDetermines(c: BitData, d: BitData)
    requires SameKind(c, d) && Size(c) < 255 && Value(c) == Value(d)
    ensures c == d
  {
    hide Pow2, ByteValue;
    if c.ByteBits? {
      ByteValueBound(c.bytes);
      ByteValueBound(d.bytes);
      EncodeLittleEndian(c.bytes);
      EncodeLittleEndian(d.bytes);
    }
  }

  // ---------------------------------------------------------------------
  // What packing means: the values of a greedy cut into chunks
  // ---------------------------------------------------------------------

  function TotalSize(bits: seq<BitData>): nat {
    if bits == [] then 0 else TotalSize(bits[..|bits| - 1]) + Size(bits[|bits| - 1])
  }

  /** The items of a chunk written one after the other, the first in the highest bits. */
  function Joined(chunk: seq<BitData>): nat {
    if chunk == [] then 0
    else
      var last := chunk[|chunk| - 1];
      Joined(chunk[..|chunk| - 1]) * Pow2(Size(last)) + Value(last)
  }

  /** Cuts before the first item with which the open chunk would reach 255 bits. */
  function Chunks(open: seq<BitData>, bits: seq<BitData>): seq<seq<BitData>>
    decreases |bits|
  {
    if bits == [] then [open]
    else if TotalSize(open) + Size(bits[0]) < 255 then Chunks(open + [bits[0]], bits[1..])
    else [open] + Chunks([bits[0]], bits[1..])
  }

  function JoinEach(chunks: seq<seq<BitData>>): (s: seq<nat>)
    ensures |s| == |chunks|
  {
    if chunks == [] then [] else [Joined(chunks[0])] + JoinEach(chunks[1..])
  }

  function Packed(bits: seq<BitData>): seq<nat> {
    if bits == [] then [] else JoinEach(Chunks([], bits))
  }

  predicate Small(bits: seq<BitData>) {
    forall i :: 0 <= i < |bits| ==> Size(bits[i]) < 255
  }

  lemma TotalSizeAppend(open: seq<BitData>, d: BitData)
    ensures TotalSize(open + [d]) == TotalSize(open) + Size(d)
    ensures Joined(open + [d]) == Joined(open) * Pow2(Size(d)) + Value(d)
  {
    assert (open + [d])[..|open|] == open;
  }

  lemma {:induction false} SizesInTotal(chunk: seq<BitData>)
    requires TotalSize(chunk) < 255
    ensures Small(chunk)
  {
    if chunk != [] {
      SizesInTotal(chunk[..|chunk| - 1]);
    }
  }

  /** A chunk of fewer than 255 bits has a value of its size. */
  lemma {:induction false} JoinedFits(chunk: seq<BitData>)
    requires TotalSize(chunk) < 255
    ensures Joined(chunk) < Pow2(TotalSize(chunk))
  {
    hide Pow2, Value;
    if chunk == [] {
      SmallPowers0();
    } else {
      var rest, last := chunk[..|chunk| - 1], chunk[|chunk| - 1];
      JoinedFits(rest);
      ValueFits(last);
      Pow2Add(TotalSize(rest), Size(last));
      PlaceValue(Joined(rest), Pow2(TotalSize(rest)), Pow2(Size(last)), Value(last));
    }
  }

  lemma SmallPowers0()
    ensures Pow2(0) == 1
  {
  }

  lemma PlaceValue(j: nat, p: nat, s: nat, v: nat)
    requires j < p && v < s
    ensures j * s + v < p * s
  {
    assert (j + 1) * s <= p * s;
    assert (j + 1) * s == j * s + s;
  }

  lemma BelowModulus(chunk: seq<BitData>)
    requires TotalSize(chunk) < 255
    ensures Joined(chunk) < Pow2(254) <= MODULUS
  {
    hide Pow2, Joined, TotalSize;
    JoinedFits(chunk);
    Pow2Monotone(TotalSize(chunk), 254);
    ModulusBound();
  }

  // ---------------------------------------------------------------------
  // Packing in a loop
  // ---------------------------------------------------------------------

  lemma CloseChunk(done: seq<nat>, open: seq<BitData>, d: BitData, rest: seq<BitData>)
    requires TotalSize(open) + Size(d) >= 255
    ensures done + JoinEach(Chunks(open, [d] + rest)) == done + [Joined(open)] + JoinEach(Chunks([d], rest))
  {
    hide TotalSize, Joined;
    assert ([d] + rest)[1..] == rest;
    var chunks := Chunks(open, [d] + rest);
    assert chunks == [open] + Chunks([d], rest);
    assert chunks[1..] == Chunks([d], rest);
  }

  /** One step of the field arithmetic does not wrap around. */
  lemma NoWrap(open: seq<BitData>, d: BitData)
    requires TotalSize(open) + Size(d) < 255
    ensures (Joined(open) * Pow2(Size(d)) + Value(d)) % MODULUS == Joined(open + [d])
    ensures TotalSize(open + [d]) == TotalSize(open) + Size(d)
  {
    hide Pow2, Value, TotalSize, Joined;
    TotalSizeAppend(open, d);
    BelowModulus(open + [d]);
    SmallRemainder(Joined(open + [d]), MODULUS);
  }

  /** The loop over field elements; none if some item cannot be converted. */
  method PackToFields(bits: seq<BitData>) returns (packed: Option<seq<nat>>)
    ensures packed.Some? <==> AllConvertible(bits)
    ensures Small(bits) ==> packed.Some?
    ensures packed.Some? ==> packed.value == Packed(bits)
  {
    hide Pow2, Value, TotalSize, Joined, Chunks, Small;
    if Small(bits) { SmallConvertible(bits); }
    if bits == [] {
      return Some([]);
    }
    var packedBits: seq<nat>, current, size := [], 0, 0;
    ghost var open: seq<BitData> := [];
    EmptyChunk();
    assert bits[0..] == bits;
    for i := 0 to |bits|
      invariant size == TotalSize(open) && current == Joined(open)
      invariant AllConvertible(bits[..i])
      invariant Packed(bits) == packedBits + JoinEach(Chunks(open, bits[i..]))
    {
      var d := bits[i];
      assert bits[..i + 1] == bits[..i] + [d];
      assert bits[i..] == [d] + bits[i + 1..];
      if !Convertible(d) {
        return None;
      }
      size := size + Size(d);
      if size < 255 {
        NoWrap(open, d);
        ChunkGoesOn(open, d, bits[i + 1..]);
        current := (current * Pow2(Size(d)) + Value(d)) % MODULUS;
        open := open + [d];
      } else {
        CloseChunk(packedBits, open, d, bits[i + 1..]);
        SingleChunk(d);
        packedBits := packedBits + [current];
        size := Size(d);
        current := Value(d);
        open := [d];
      }
    }
    assert bits[..|bits|] == bits && bits[|bits|..] == [];
    LastChunk(packedBits, open);
    packed := Some(packedBits + [current]);
  }

  lemma SmallConvertible(bits: seq<BitData>)
    requires Small(bits)
    ensures AllConvertible(bits)
  {
    hide Value, Size;
    forall i | 0 <= i < |bits| ensures Convertible(bits[i]) {
      ValueFits(bits[i]);
    }
  }

  lemma EmptyChunk()
    ensures TotalSize([]) == 0 && Joined([]) == 0
  {
  }

  lemma SingleChunk(d: BitData)
    ensures TotalSize([d]) == Size(d) && Joined([d]) == Value(d)
  {
    TotalSizeAppend([], d);
    assert [] + [d] == [d];
  }

  lemma ChunkGoesOn(open: seq<BitData>, d: BitData, rest: seq<BitData>)
    requires TotalSize(open) + Size(d) < 255
    ensures Chunks(open, [d] + rest) == Chunks(open + [d], rest)
  {
    assert ([d] + rest)[1..] == rest;
  }

  lemma LastChunk(done: seq<nat>, open: seq<BitData>)
    ensures done + JoinEach(Chunks(open, [])) == done + [Joined(open)]
  {
    assert Chunks(open, []) == [open];
    assert [open][1..] == [];
  }

  // ---------------------------------------------------------------------
  // Values as bit strings
  // ---------------------------------------------------------------------

  /** The n low bits of v, most significant first. */
  function Digits(n: nat, v: nat): (s: seq<bool>)
    ensures |s| == n
  {
    if n == 0 then [] else Digits(n - 1, v / 2) + [v % 2 == 1]
  }

  /** The n binary digits of a word, highest first. */
  function WordDigits(n: nat, word: nat): (s: seq<bool>)
    ensures |s| == n && forall k :: 0 <= k < n ==> (s[k] <==> word / Pow2(n - 1 - k) % 2 == 1)
  {
    seq(n, k requires 0 <= k < n => word / Pow2(n - 1 - k) % 2 == 1)
  }

  /** The last byte first, and of each byte the highest digit first. */
  function BytesDigits(bytes: seq<Byte>): (s: seq<bool>)
    ensures |s| == 8 * |bytes|
  {
    if bytes == [] then [] else BytesDigits(bytes[1..]) + WordDigits(8, bytes[0])
  }

  /** The binary digits of an item. */
  function ItemDigits(d: BitData): seq<bool> {
    match d
    case U32Bits(word) => WordDigits(32, word)
    case U64Bits(long) => WordDigits(64, long)
    case BoolBit(bit) => [bit]
    case ByteBits(bytes) => BytesDigits(bytes)
  }

  /** The digits of all items, one item after the other. */
  function AllDigits(chunk: seq<BitData>): seq<bool> {
    if chunk == [] then [] else AllDigits(chunk[..|chunk| - 1]) + ItemDigits(chunk[|chunk| - 1])
  }

  lemma HalfDigit(v: nat, p: nat)
    requires p > 0
    ensures v / 2 / p == v / (2 * p)
  {
    var q := v / (2 * p);
    var r := v % (2 * p);
    assert v == 2 * (p * q) + r;
    assert v / 2 == p * q + r / 2;
    UniqueRemainder(v / 2, p, q, r / 2);
  }

  lemma {:induction false} DigitAt(n: nat, v: nat, k: nat)
    requires k < n
    ensures Digits(n, v)[k] <==> v / Pow2(n - 1 - k) % 2 == 1
  {
    if k < n - 1 {
      DigitAt(n - 1, v / 2, k);
      HalfDigit(v, Pow2(n - 2 - k));
    } else {
      assert v / 1 == v;
    }
  }

  lemma WordDigitsAre(n: nat, v: nat)
    ensures Digits(n, v) == WordDigits(n, v)
  {
    hide Digits, Pow2, WordDigits;
    forall k | 0 <= k < n ensures Digits(n, v)[k] == WordDigits(n, v)[k] {
      DigitAt(n, v, k);
    }
  }

  lemma {:induction false} BytesDigitsAre(bytes: seq<Byte>)
    ensures Digits(8 * |bytes|, FromLittleEndian(bytes)) == BytesDigits(bytes)
  {
    hide Digits, Pow2, WordDigits;
    if bytes == [] {
      NoDigits();
    } else {
      var rest := FromLittleEndian(bytes[1..]);
      BytesDigitsAre(bytes[1..]);
      Pow2Values();
      DigitsAppend(8 * |bytes[1..]|, 8, rest, bytes[0]);
      WordDigitsAre(8, bytes[0]);
      assert FromLittleEndian(bytes) == rest * Pow2(8) + bytes[0];
    }
  }

  /** The value of an item has the item's own digits, as many as its size says. */
  lemma ItemDigitsAre(d: BitData)
    requires Size(d) < 255
    ensures Digits(Size(d), Value(d)) == ItemDigits(d)
  {
    hide Digits, WordDigits, BytesDigits, FromLittleEndian, Pow2, ByteValue;
    match d
    case U32Bits(word) => WordDigitsAre(32, word);
    case U64Bits(long) => WordDigitsAre(64, long);
    case BoolBit(bit) => OneDigit(bit);
    case ByteBits(bytes) =>
      ByteValueBound(bytes);
      BytesDigitsAre(bytes);
  }

  lemma OneDigit(bit: bool)
    ensures Digits(1, if bit then 1 else 0) == [bit]
  {
    assert Digits(0, 0) == [];
  }

  lemma {:induction false} DigitsAppend(m: nat, n: nat, x: nat, y: nat)
    requires y < Pow2(n)
    ensures Digits(m + n, x * Pow2(n) + y) == Digits(m, x) + Digits(n, y)
  {
    if n == 0 {
      assert x * Pow2(0) + y == x;
    } else {
      DigitsAppend(m, n - 1, x, y / 2);
      HalveSum(x, Pow2(n - 1), y);
    }
  }

  lemma HalveSum(x: nat, p: nat, y: nat)
    ensures (x * (2 * p) + y) / 2 == x * p + y / 2 && (x * (2 * p) + y) % 2 == y % 2
  {
    assert x * (2 * p) == 2 * (x * p);
  }

  /** The value of a chunk written in binary is its items written in binary, one after the other. */
  lemma {:induction false} JoinedDigits(chunk: seq<BitData>)
    requires TotalSize(chunk) < 255
    ensures Digits(TotalSize(chunk), Joined(chunk)) == AllDigits(chunk)
  {
    hide Pow2, Value, Digits, ItemDigits, Size;
    if chunk == [] {
      NoDigits();
    } else {
      var rest, last := chunk[..|chunk| - 1], chunk[|chunk| - 1];
      JoinedDigits(rest);
      ValueFits(last);
      ItemDigitsAre(last);
      DigitsAppend(TotalSize(rest), Size(last), Joined(rest), Value(last));
    }
  }

  lemma NoDigits()
    ensures Digits(0, 0) == []
  {
  }

  // ---------------------------------------------------------------------
  // No wrap-around, and no information lost
  // ---------------------------------------------------------------------

  function Flatten(chunks: seq<seq<BitData>>): seq<BitData> {
    if chunks == [] then [] else chunks[0] + Flatten(chunks[1..])
  }

  lemma {:induction false} ChunksCutAnywhereSmall(open: seq<BitData>, bits: seq<BitData>)
    requires TotalSize(open) < 255 && Small(bits)
    ensures Flatten(Chunks(open, bits)) == open + bits
    ensures forall k :: 0 <= k < |Chunks(open, bits)| ==> TotalSize(Chunks(open, bits)[k]) < 255
    decreases |bits|
  {
    hide TotalSize, Size;
    var chunks := Chunks(open, bits);
    if bits == [] {
      assert chunks == [open] && chunks[1..] == [];
    } else if TotalSize(open) + Size(bits[0]) < 255 {
      TotalSizeAppend(open, bits[0]);
      ChunksCutAnywhereSmall(open + [bits[0]], bits[1..]);
      assert open + [bits[0]] + bits[1..] == open + bits;
    } else {
      SingleChunk(bits[0]);
      ChunksCutAnywhereSmall([bits[0]], bits[1..]);
      assert chunks[1..] == Chunks([bits[0]], bits[1..]);
      assert [bits[0]] + bits[1..] == bits;
    }
  }

  /** A chunk is cut only where the next item would not fit into 254 bits. */
  lemma {:induction false} ChunksAreGreedy(open: seq<BitData>, bits: seq<BitData>)
    ensures Chunks(open, bits) != [] && open <= Chunks(open, bits)[0]
    ensures forall k :: 0 < k < |Chunks(open, bits)| ==>
      && Chunks(open, bits)[k] != []
      && TotalSize(Chunks(open, bits)[k - 1]) + Size(Chunks(open, bits)[k][0]) > 254
    decreases |bits|
  {
    hide TotalSize, Size;
    var chunks := Chunks(open, bits);
    if bits != [] {
      if TotalSize(open) + Size(bits[0]) < 255 {
        ChunksAreGreedy(open + [bits[0]], bits[1..]);
        assert open <= open + [bits[0]];
      } else {
        var rest := Chunks([bits[0]], bits[1..]);
        ChunksAreGreedy([bits[0]], bits[1..]);
        assert chunks == [open] + rest;
        assert rest[0][0] == [bits[0]][0];
      }
    }
  }

  /** A single item below 255 bits packs to its value. */
  lemma SingleItems(word: U32, long: U64, bit: bool, bytes: seq<Byte>)
    requires |bytes| <= 31
    ensures Packed([U32Bits(word)]) == [word]
    ensures Packed([U64Bits(long)]) == [long]
    ensures Packed([BoolBit(bit)]) == [if bit then 1 else 0]
    ensures Packed([ByteBits(bytes)]) == [FromLittleEndian(bytes)]
  {
    hide FromLittleEndian, ByteValue, Pow2;
    ByteValueBound(bytes);
    SingleItem(U32Bits(word));
    SingleItem(U64Bits(long));
    SingleItem(BoolBit(bit));
    SingleItem(ByteBits(bytes));
  }

  lemma SingleItem(d: BitData)
    requires Size(d) < 255
    ensures Packed([d]) == [Value(d)]
  {
    hide Value, Size;
    EmptyChunk();
    SingleChunk(d);
    assert [d][1..] == [] && [] + [d] == [d];
    assert Chunks([], [d]) == Chunks([d], []) == [[d]];
    assert [[d]][1..] == [];
  }

  lemma {:induction false} JoinEachAt(chunks: seq<seq<BitData>>, k: nat)
    requires k < |chunks|
    ensures JoinEach(chunks)[k] == Joined(chunks[k])
  {
    hide Joined;
    if k > 0 { JoinEachAt(chunks[1..], k - 1); }
  }

  /**
   * With items below 255 bits, every field is one of the consecutive pieces of the input,
   * each as long as 254 bits allow: written in binary it is the digits of the piece's
   * items, one item after the other, so that it stays below 2^254, and hence below the
   * modulus.
   */
  lemma PackedIsConcatenation(bits: seq<BitData>)
    requires Small(bits) && bits != []
    ensures var chunks := Chunks([], bits);
      && Flatten(chunks) == bits && |Packed(bits)| == |chunks|
      && forall k :: 0 <= k < |chunks| ==>
           && TotalSize(chunks[k]) <= 254
           && WordDigits(TotalSize(chunks[k]), Packed(bits)[k]) == AllDigits(chunks[k])
           && Packed(bits)[k] < Pow2(254) <= MODULUS
    ensures forall k :: 0 < k < |Chunks([], bits)| ==>
      && Chunks([], bits)[k] != []
      && TotalSize(Chunks([], bits)[k - 1]) + Size(Chunks([], bits)[k][0]) > 254
  {
    hide Joined, TotalSize, Pow2, Flatten, Chunks, Size, Digits, AllDigits, WordDigits;
    EmptyChunk();
    ChunksAreGreedy([], bits);
    ChunksCutAnywhereSmall([], bits);
    var chunks := Chunks([], bits);
    forall k | 0 <= k < |chunks|
      ensures Packed(bits)[k] < Pow2(254) <= MODULUS
      ensures WordDigits(TotalSize(chunks[k]), Packed(bits)[k]) == AllDigits(chunks[k])
    {
      JoinEachAt(chunks, k);
      BelowModulus(chunks[k]);
      JoinedDigits(chunks[k]);
      WordDigitsAre(TotalSize(chunks[k]), Joined(chunks[k]));
    }
  }

  lemma SplitPlaces(j: nat, k: nat, s: nat, v: nat, w: nat)
    requires v < s && w < s && j * s + v == k * s + w
    ensures j == k && v == w
  {
    UniqueRemainder(j * s + v, s, j, v);
    UniqueRemainder(j * s + v, s, k, w);
  }

  lemma {:induction false} JoinedDetermines(a: seq<BitData>, b: seq<BitData>)
    requires SameKinds(a, b) && Small(a) && Joined(a) == Joined(b)
    ensures a == b
  {
    hide Pow2, Value, SameKind;
    if a != [] {
      var m := |a| - 1;
      var c, d := a[m], b[m];
      assert SameKind(c, d);
      assert Size(c) == Size(d) by { KindHasSize(c, d); }
      ValueFits(c);
      ValueFits(d);
      SplitPlaces(Joined(a[..m]), Joined(b[..m]), Pow2(Size(c)), Value(c), Value(d));
      JoinedDetermines(a[..m], b[..m]);
      ValueDetermines(c, d);
      assert a == a[..m] + [c] && b == b[..m] + [d];
    }
  }

  lemma KindHasSize(c: BitData, d: BitData)
    requires SameKind(c, d)
    ensures Size(c) == Size(d)
  {
  }

  lemma {:induction false} SameTotal(a: seq<BitData>, b: seq<BitData>)
    requires SameKinds(a, b)
    ensures TotalSize(a) == TotalSize(b)
  {
    hide Size;
    if a != [] {
      var m := |a| - 1;
      assert SameKind(a[m], b[m]);
      KindHasSize(a[m], b[m]);
      SameTotal(a[..m], b[..m]);
    }
  }

  /** The cut depends on the kinds only, so equal packings have equal items. */
  lemma {:induction false} ChunksDetermine(p: seq<BitData>, q: seq<BitData>, a: seq<BitData>, b: seq<BitData>)
    requires SameKinds(p, q) && SameKinds(a, b) && Small(p) && Small(a)
    ensures |Chunks(p, a)| == |Chunks(q, b)|
    ensures JoinEach(Chunks(p, a)) == JoinEach(Chunks(q, b)) ==> p == q && a == b
    decreases |a|
  {
    hide Joined, TotalSize, Size, SameKind;
    SameTotal(p, q);
    var s, t := Chunks(p, a), Chunks(q, b);
    if a == [] {
      if JoinEach(s) == JoinEach(t) {
        assert s == [p] && t == [q];
        assert Joined(p) == JoinEach(s)[0] == JoinEach(t)[0] == Joined(q);
        JoinedDetermines(p, q);
      }
    } else {
      assert SameKind(a[0], b[0]);
      KindHasSize(a[0], b[0]);
      if TotalSize(p) + Size(a[0]) < 255 {
        ChunksDetermine(p + [a[0]], q + [b[0]], a[1..], b[1..]);
        if JoinEach(s) == JoinEach(t) { AppendedEqual(p, q, a, b); }
      } else {
        ChunksDetermine([a[0]], [b[0]], a[1..], b[1..]);
        if JoinEach(s) == JoinEach(t) {
          assert s[1..] == Chunks([a[0]], a[1..]) && t[1..] == Chunks([b[0]], b[1..]);
          assert Joined(p) == JoinEach(s)[0] == JoinEach(t)[0] == Joined(q);
          assert JoinEach(s[1..]) == JoinEach(s)[1..] == JoinEach(t)[1..] == JoinEach(t[1..]);
          JoinedDetermines(p, q);
          assert [a[0]][0] == [b[0]][0];
          assert a == [a[0]] + a[1..] && b == [b[0]] + b[1..];
        }
      }
    }
  }

  lemma AppendedEqual(p: seq<BitData>, q: seq<BitData>, a: seq<BitData>, b: seq<BitData>)
    requires |p| == |q| && a != [] && b != []
    requires p + [a[0]] == q + [b[0]] && a[1..] == b[1..]
    ensures p == q && a == b
  {
    assert p == (p + [a[0]])[..|p|] && q == (q + [b[0]])[..|q|];
    assert (p + [a[0]])[|p|] == a[0] && (q + [b[0]])[|q|] == b[0];
    assert a == [a[0]] + a[1..] && b == [b[0]] + b[1..];
  }

  /** Inputs of the same kinds pack to as many fields, and to the same fields only if they are equal. */
  lemma PackedInjective(a: seq<BitData>, b: seq<BitData>)
    requires SameKinds(a, b) && Small(a)
    ensures |Packed(a)| == |Packed(b)|
    ensures Packed(a) == Packed(b) <==> a == b
  {
    hide Chunks, SameKind;
    if a != [] { ChunksDetermine([], [], a, b); }
  }
}
