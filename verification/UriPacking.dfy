/**
 * When two URIs hash alike. Bits are packed 254 to a field, the first highest, so leading
 * zero bits of the last chunk leave no trace.
 */
module UriPacking {
  import opened ZkappTx
  import opened BitPacking
  import opened PackedInputs
  import opened Packing
  import opened CommitBinding
  import H = Hashing

  /** The number with these bits, most significant first. */
  function HighFirst(bits: seq<bool>): nat {
    if bits == [] then 0 else 2 * HighFirst(bits[..|bits| - 1]) + (if bits[|bits| - 1] then 1 else 0)
  }

  function BitChunks(bits: seq<bool>): (s: seq<nat>)
    ensures s != []
    decreases |bits|
  {
    if |bits| <= 254 then [HighFirst(bits)] else [HighFirst(bits[..254])] + BitChunks(bits[254..])
  }

  lemma ItemsSnoc(bits: seq<bool>, b: bool)
    ensures AsItems(bits + [b]) == AsItems(bits) + [BoolBit(b)]
  {
  }

  lemma ItemsCons(b: bool, bits: seq<bool>)
    ensures AsItems([b] + bits) == [BoolBit(b)] + AsItems(bits)
    ensures AsItems([b]) == [BoolBit(b)] && AsItems([]) == []
  {
  }

  lemma {:induction false} ItemsJoined(bits: seq<bool>)
    ensures TotalSize(AsItems(bits)) == |bits|
    ensures Joined(AsItems(bits)) == HighFirst(bits)
  {
    hide AsItems, TotalSize, Joined, Pow2;
    if bits == [] {
      ItemsCons(true, []);
      EmptyChunk();
    } else {
      var n := |bits| - 1;
      assert bits == bits[..n] + [bits[n]];
      ItemsSnoc(bits[..n], bits[n]);
      ItemsJoined(bits[..n]);
      TotalSizeAppend(AsItems(bits[..n]), BoolBit(bits[n]));
      SmallPowers();
    }
  }

  /** Cutting single bits greedily is cutting them 254 at a time. */
  lemma {:induction false} ChunksOfBits(p: seq<bool>, r: seq<bool>)
    requires |p| <= 254
    ensures JoinEach(Chunks(AsItems(p), AsItems(r))) == BitChunks(p + r)
    decreases |r|
  {
    hide Joined, TotalSize, HighFirst, AsItems, Chunks, JoinEach;
    ItemsJoined(p);
    if r == [] {
      assert p + r == p;
      ItemsCons(true, []);
      LastChunk([], AsItems(p));
      assert [] + JoinEach(Chunks(AsItems(p), [])) == JoinEach(Chunks(AsItems(p), []));
      assert [] + [HighFirst(p)] == [HighFirst(p)];
    } else {
      var d, rest := r[0], r[1..];
      assert r == [d] + rest;
      ItemsCons(d, rest);
      if |p| < 254 {
        ItemsSnoc(p, d);
        ChunksOfBits(p + [d], rest);
        ChunkGoesOn(AsItems(p), BoolBit(d), AsItems(rest));
        assert p + [d] + rest == p + r;
      } else {
        ChunksOfBits([d], rest);
        CloseChunk([], AsItems(p), BoolBit(d), AsItems(rest));
        var all := JoinEach(Chunks(AsItems(p), AsItems(r)));
        assert [] + all == all && [] + [HighFirst(p)] == [HighFirst(p)];
        assert (p + r)[..254] == p && (p + r)[254..] == r;
      }
    }
  }

  lemma UriFields(uri: ZkappUri)
    ensures Packed(AsItems(UriBits(uri))) == BitChunks(UriBits(uri))
  {
    hide Chunks, BitChunks, AllBits;
    ChunksOfBits([], UriBits(uri));
    assert AsItems([]) == [] && [] + UriBits(uri) == UriBits(uri);
  }

  function Falses(n: nat): (s: seq<bool>)
    ensures |s| == n && forall i :: 0 <= i < n ==> !s[i]
  {
    seq(n, _ => false)
  }

  /** Numbers are equal exactly if the longer one starts with zeros and goes on like the shorter. */
  lemma {:induction false} HighFirstExactly(a: seq<bool>, b: seq<bool>)
    requires |a| <= |b|
    ensures HighFirst(a) == HighFirst(b) <==> b == Falses(|b| - |a|) + a
  {
    if b != [] {
      var n := |b| - 1;
      if a == [] {
        HighFirstExactly(a, b[..n]);
        assert b == b[..n] + [b[n]];
        assert Falses(|b|) + a == Falses(n) + a + [false];
      } else {
        var m := |a| - 1;
        HighFirstExactly(a[..m], b[..n]);
        assert b == b[..n] + [b[n]];
        assert Falses(|b| - |a|) + a == Falses(n - m) + a[..m] + [a[m]];
      }
    }
  }

  /** Equal but for zeros inserted right before the last chunk. */
  ghost predicate GapBeforeLastChunk(a: seq<bool>, b: seq<bool>) {
    0 < |a| <= |b|
    && var q := (|a| - 1) / 254;
    && (|b| - 1) / 254 == q
    && b[..254 * q] == a[..254 * q]
    && b[254 * q..] == Falses(|b| - |a|) + a[254 * q..]
  }

  lemma GapStep(a: seq<bool>, b: seq<bool>)
    requires 254 < |a| <= |b|
    ensures GapBeforeLastChunk(a, b) <==> a[..254] == b[..254] && GapBeforeLastChunk(a[254..], b[254..])
  {
    var q, p := (|a| - 1) / 254, (|b| - 1) / 254;
    assert (|a[254..]| - 1) / 254 == q - 1 && (|b[254..]| - 1) / 254 == p - 1;
    if p == q {
      var k := 254 * (q - 1);
      assert 254 * q == 254 + k;
      assert a[..254 * q] == a[..254] + a[254..][..k] && b[..254 * q] == b[..254] + b[254..][..k];
      assert a[254 * q..] == a[254..][k..] && b[254 * q..] == b[254..][k..];
      if b[..254 * q] == a[..254 * q] {
        assert a[..254] == a[..254 * q][..254] == b[..254 * q][..254] == b[..254];
        assert a[254..][..k] == a[..254 * q][254..] == b[..254 * q][254..] == b[254..][..k];
      }
    }
  }

  lemma {:induction false} BitChunksExactly(a: seq<bool>, b: seq<bool>)
    requires 0 < |a| <= |b|
    ensures BitChunks(a) == BitChunks(b) <==> GapBeforeLastChunk(a, b)
    decreases |a|
  {
    hide HighFirst;
    if |a| <= 254 {
      assert (|a| - 1) / 254 == 0;
      if |b| <= 254 {
        HighFirstExactly(a, b);
        assert a[..0] == b[..0] && a[0..] == a && b[0..] == b;
        assert BitChunks(a) == BitChunks(b) <==> BitChunks(a)[0] == BitChunks(b)[0];
      } else {
        assert |BitChunks(a)| == 1 < |BitChunks(b)|;
        assert (|b| - 1) / 254 > 0;
      }
    } else {
      hide GapBeforeLastChunk;
      GapStep(a, b);
      BitChunksExactly(a[254..], b[254..]);
      HighFirstExactly(a[..254], b[..254]);
      assert Falses(0) + a[..254] == a[..254];
      assert BitChunks(a)[0] == HighFirst(a[..254]) && BitChunks(a)[1..] == BitChunks(a[254..]);
      assert BitChunks(b)[0] == HighFirst(b[..254]) && BitChunks(b)[1..] == BitChunks(b[254..]);
    }
  }

  /** The end mark makes the last field non-zero, so padding with zero cannot hide it. */
  lemma {:induction false} LastFieldIsOdd(bits: seq<bool>)
    requires bits != [] && bits[|bits| - 1]
    ensures BitChunks(bits)[|BitChunks(bits)| - 1] > 0
    decreases |bits|
  {
    if |bits| > 254 {
      LastFieldIsOdd(bits[254..]);
    }
  }

  lemma LongerIsDifferent(s: seq<nat>, t: seq<nat>)
    requires |s| < |t| && t[|t| - 1] > 0
    ensures H.PadEven(Residues(s)) != H.PadEven(Residues(t))
  {
    var p, r := H.PadEven(Residues(s)), H.PadEven(Residues(t));
    if |p| == |r| {
      assert p[|t| - 1] != r[|t| - 1];
    }
  }

  lemma PaddingIsVisible(s: seq<nat>, t: seq<nat>)
    requires s != [] && t != [] && s[|s| - 1] > 0 && t[|t| - 1] > 0
    ensures H.PadEven(Residues(s)) == H.PadEven(Residues(t)) <==> s == t
  {
    hide H.PadEven;
    if |s| < |t| {
      LongerIsDifferent(s, t);
    } else if |t| < |s| {
      LongerIsDifferent(t, s);
    } else if H.PadEven(Residues(s)) == H.PadEven(Residues(t)) {
      H.PadEvenInjective(Residues(s), Residues(t));
      ResiduesInjective(s, t);
    }
  }

  /**
   * Two URIs hash alike exactly if their bits, end mark included, fall into as many
   * chunks and differ at most by zeros inserted right before the last chunk.
   */
  lemma UrisCollideExactly(a: ZkappUri, b: ZkappUri)
    requires |a| <= |b|
    ensures UriHash(a) == UriHash(b) <==> GapBeforeLastChunk(UriBits(a), UriBits(b))
  {
    hide BitChunks, GapBeforeLastChunk, AllBits, Packed, Chunks, H.PadEven;
    var x, y := UriBits(a), UriBits(b);
    UriFields(a);
    UriFields(b);
    LastFieldIsOdd(x);
    LastFieldIsOdd(y);
    PaddingIsVisible(BitChunks(x), BitChunks(y));
    BitChunksExactly(x, y);
  }

  /** URIs of one length never collide. */
  lemma SameLengthUris(a: ZkappUri, b: ZkappUri)
    requires |a| == |b|
    ensures UriHash(a) == UriHash(b) <==> a == b
  {
    hide UriHash, AllBits;
    UrisCollideExactly(a, b);
    if UriHash(a) == UriHash(b) {
      var x, y := UriBits(a), UriBits(b);
      var q := (|x| - 1) / 254;
      assert Falses(0) + x[254 * q..] == x[254 * q..];
      assert x == x[..254 * q] + x[254 * q..] && y == y[..254 * q] + y[254 * q..];
      assert AllBits(a) == x[..|x| - 1] && AllBits(b) == y[..|y| - 1];
      AllBitsInjective(a, b);
    }
  }

  /** The empty URI and a single zero byte do. */
  lemma EmptyAndZeroCollide()
    ensures UriHash([]) == UriHash([0])
  {
    hide UriHash, Bit;
    UrisCollideExactly([], [0]);
    var x, y := UriBits([]), UriBits([0]);
    assert x == [true] by { assert AllBits([]) == []; }
    ZeroBits();
    assert AllBits([0]) == BitsOf(0) + AllBits([0][1..]) == Falses(8);
    assert y == Falses(8) + [true];
  }

  lemma ZeroBits()
    ensures BitsOf(0) == Falses(8)
  {
    forall j | 0 <= j < 8 ensures !BitsOf(0)[j] {
      assert 0 / Pow2(j) == 0;
    }
  }
}
