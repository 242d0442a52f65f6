/** Bytes, fixed-width little-endian integers and zero padding. */
module Bytes {

  type Byte = b: int | 0 <= b < 256

  function Pow256(width: nat): (p: nat)
    ensures p > 0
  {
    if width == 0 then 1 else 256 * Pow256(width - 1)
  }

  /** The low bytes of n, least significant first; higher bytes are lost, as in a cast. */
  function LittleEndian(n: nat, width: nat): (s: seq<Byte>)
    ensures |s| == width
  {
    if width == 0 then [] else [n % 256] + LittleEndian(n / 256, width - 1)
  }

  function FromLittleEndian(s: seq<Byte>): nat {
    if s == [] then 0 else s[0] + 256 * FromLittleEndian(s[1..])
  }

  lemma {:induction false} DecodeLittleEndian(n: nat, width: nat)
    ensures FromLittleEndian(LittleEndian(n, width)) == n % Pow256(width)
  {
    if width > 0 {
      var s := LittleEndian(n, width);
      assert s[1..] == LittleEndian(n / 256, width - 1);
      DecodeLittleEndian(n / 256, width - 1);
      ModuloStep(n, Pow256(width - 1));
    } else {
      assert n % 1 == 0;
    }
  }

  lemma ModuloStep(n: nat, p: nat)
    requires p > 0
    ensures n % (256 * p) == n % 256 + 256 * (n / 256 % p)
  {
    var q := n / 256 / p;
    assert n / 256 == q * p + n / 256 % p;
    var r := n % 256 + 256 * (n / 256 % p);
    assert n == q * (256 * p) + r;
    UniqueRemainder(n, 256 * p, q, r);
  }

  lemma UniqueRemainder(n: int, d: nat, q: int, r: int)
    requires d > 0 && n == q * d + r && 0 <= r < d
    ensures n % d == r && n / d == q
  {
    var k := n / d - q;
    assert n % d - r == 0 - k * d by {
      assert n == n / d * d + n % d;
      assert n / d * d == k * d + q * d;
    }
    assert k >= 1 ==> k * d >= d;
    assert k <= -1 ==> k * d <= 0 - d;
  }

  lemma {:induction false} EncodeLittleEndian(s: seq<Byte>)
    ensures FromLittleEndian(s) < Pow256(|s|)
    ensures LittleEndian(FromLittleEndian(s), |s|) == s
  {
    if s != [] {
      EncodeLittleEndian(s[1..]);
      var rest := FromLittleEndian(s[1..]);
      UniqueRemainder(FromLittleEndian(s), 256, rest, s[0]);
      assert s == [s[0]] + s[1..];
    }
  }

  lemma DivideTwice(n: nat, a: nat, b: nat)
    requires a > 0 && b > 0
    ensures a * b > 0 && n / a / b == n / (a * b)
  {
    var q, r := n / (a * b), n % (a * b);
    assert n == q * (a * b) + r;
    var s := r / a;
    assert r == s * a + r % a;
    assert n == (q * b + s) * a + r % a by {
      assert q * (a * b) == q * b * a;
    }
    UniqueRemainder(n, a, q * b + s, r % a);
    assert s < b;
    UniqueRemainder(q * b + s, b, q, s);
  }

  /** Byte i of a number is its digit to the base 256, counted from the lowest. */
  lemma {:induction false} LittleEndianAt(n: nat, width: nat, i: nat)
    requires i < width
    ensures LittleEndian(n, width)[i] == n / Pow256(i) % 256
  {
    if i > 0 {
      LittleEndianAt(n / 256, width - 1, i - 1);
      DivideTwice(n, 256, Pow256(i - 1));
    } else {
      assert n / 1 == n;
    }
  }

  function Zeros(n: nat): (s: seq<Byte>)
    ensures |s| == n && forall i :: 0 <= i < n ==> s[i] == 0
  {
    seq(n, _ => 0)
  }

  /** The bytes of an ASCII literal. */
  function Ascii(s: string): (b: seq<Byte>)
    requires forall i :: 0 <= i < |s| ==> s[i] as int < 128
    ensures |b| == |s| && forall i :: 0 <= i < |s| ==> b[i] == s[i] as int
  {
    seq(|s|, i requires 0 <= i < |s| => s[i] as int)
  }
}
