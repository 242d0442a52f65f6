/** Arithmetic modulo a prime: congruences, inverses and cancellation. */
module Modular {

  ghost predicate IsPrime(q: nat) {
    q > 1 && forall d :: 1 < d < q ==> q % d != 0
  }

  ghost predicate Cong(q: nat, a: int, b: int) {
    exists k :: a == b + q * k
  }

  lemma CongMod(q: nat, a: int)
    requires q > 0
    ensures Cong(q, a % q, a) && Cong(q, a, a % q)
  {
    assert a == a % q + q * (a / q);
    assert a % q == a + q * (-(a / q));
  }

  lemma CongEqual(q: nat, a: int, b: int)
    requires q > 0 && Cong(q, a, b)
    ensures a % q == b % q
  {
    var k :| a == b + q * k;
    var d := a / q - b / q - k;
    assert a % q - b % q == q * (-d) by {
      assert a == a % q + q * (a / q) && b == b % q + q * (b / q);
    }
    SmallMultiple(q, a % q - b % q, -d);
  }

  /** A multiple of q strictly between -q and q is zero. */
  lemma SmallMultiple(q: nat, x: int, k: int)
    requires q > 0 && x == q * k && 0 - q < x < q
    ensures x == 0
  {
    assert k >= 1 ==> q * k >= q;
    assert k <= -1 ==> q * k <= 0 - q;
  }

  lemma DivideWithRest(q: nat, k: nat) returns (m: nat)
    requires q > 0
    ensures m == k / q && k == m * q + k % q
  {
    m := k / q;
  }

  lemma CongRefl(q: nat, a: int)
    ensures Cong(q, a, a)
  {
    assert a == a + q * 0;
  }

  lemma CongSym(q: nat, a: int, b: int)
    requires Cong(q, a, b)
    ensures Cong(q, b, a)
  {
    var k :| a == b + q * k;
    assert b == a + q * (-k);
  }

  lemma CongTrans(q: nat, a: int, b: int, c: int)
    requires Cong(q, a, b) && Cong(q, b, c)
    ensures Cong(q, a, c)
  {
    var k :| a == b + q * k;
    var l :| b == c + q * l;
    assert a == c + q * (k + l);
  }

  lemma CongAdd(q: nat, a: int, b: int, c: int, d: int)
    requires Cong(q, a, b) && Cong(q, c, d)
    ensures Cong(q, a + c, b + d)
  {
    var k :| a == b + q * k;
    var l :| c == d + q * l;
    assert a + c == (b + d) + q * (k + l);
  }

  lemma CongMul(q: nat, a: int, b: int, c: int)
    requires Cong(q, a, b)
    ensures Cong(q, c * a, c * b) && Cong(q, a * c, b * c)
  {
    var k :| a == b + q * k;
    assert c * a == c * b + q * (c * k);
  }

  lemma CongSub(q: nat, a: int, b: int, c: int, d: int)
    requires Cong(q, a, b) && Cong(q, c, d)
    ensures Cong(q, a - c, b - d)
  {
    var k :| a == b + q * k;
    var l :| c == d + q * l;
    assert a - c == (b - d) + q * (k - l);
  }

  /** The inverse modulo a prime, by descent on q mod a. */
  function Invert(q: nat, a: nat): (r: nat)
    requires 0 < a < q
    decreases a
  {
    if a == 1 || q % a == 0 then 1
    else (-(q / a) * Invert(q, q % a)) % q
  }

  lemma BackSubstitute(q: int, a: int, r: int, k: int, c: int)
    requires q == a * k + r
    ensures a * (-k * c) == r * c + q * -c
  {
    assert a * (-k * c) == -(a * k) * c;
    assert -(q - r) * c == r * c + q * -c;
  }

  lemma CongOffset(q: nat, x: int, y: int, m: int)
    requires x == y + q * m
    ensures Cong(q, x, y)
  {
  }

  /** An inverse c of the rest r of q by a gives one of a. */
  lemma InverseStep(q: nat, a: int, r: int, k: int, c: int)
    requires q > 0 && q == a * k + r && Cong(q, r * c, 1)
    ensures Cong(q, a * ((-k * c) % q), 1)
  {
    hide Cong;
    var v := -k * c;
    CongMod(q, v);
    CongMul(q, v % q, v, a);
    BackSubstitute(q, a, r, k, c);
    CongOffset(q, a * v, r * c, -c);
    CongTrans(q, a * (v % q), a * v, r * c);
    CongTrans(q, a * (v % q), r * c, 1);
  }

  lemma InvertDescends(q: nat, a: nat)
    requires IsPrime(q) && 1 < a < q
    ensures 0 < q % a < a && Invert(q, a) == (-(q / a) * Invert(q, q % a)) % q
  {
    hide Cong;
  }

  lemma {:induction false} InvertCorrect(q: nat, a: nat)
    requires IsPrime(q) && 0 < a < q
    ensures Cong(q, a * Invert(q, a), 1)
    decreases a
  {
    hide Cong, IsPrime;
    if a == 1 {
      CongRefl(q, 1);
    } else {
      InvertDescends(q, a);
      hide Invert;
      InvertCorrect(q, q % a);
      var k := DivideWithRest(a, q);
      InverseStep(q, a, q % a, k, Invert(q, q % a));
    }
  }

  /** Every factor that is not zero modulo the prime has an inverse. */
  lemma HasInverse(q: nat, m: int) returns (i: int)
    requires IsPrime(q) && m % q != 0
    ensures Cong(q, m * i, 1)
  {
    hide Cong;
    i := Invert(q, m % q);
    InvertCorrect(q, m % q);
    CongMod(q, m);
    CongMul(q, m, m % q, i);
    CongTrans(q, m * i, m % q * i, 1);
  }

  lemma DropUnit(q: nat, a: int, m: int, i: int)
    requires Cong(q, m * i, 1)
    ensures Cong(q, a * m * i, a)
  {
    hide Cong;
    CongMul(q, m * i, 1, a);
    assert a * m * i == a * (m * i);
  }

  /** A factor that is not zero modulo the prime cancels. */
  lemma Cancel(q: nat, a: int, b: int, m: int)
    requires IsPrime(q) && m % q != 0 && Cong(q, a * m, b * m)
    ensures Cong(q, a, b)
  {
    hide Cong, IsPrime;
    var i := HasInverse(q, m);
    DropUnit(q, a, m, i);
    DropUnit(q, b, m, i);
    CongMul(q, a * m, b * m, i);
    CongSym(q, a * m * i, a);
    CongTrans(q, a, a * m * i, b * m * i);
    CongTrans(q, a, b * m * i, b);
  }

  lemma ProductNonZero(q: nat, a: int, b: int)
    requires IsPrime(q) && a % q != 0 && b % q != 0
    ensures (a * b) % q != 0
  {
    if (a * b) % q == 0 {
      CongMod(q, a * b);
      assert Cong(q, a * b, 0 * b);
      Cancel(q, a, 0, b);
      CongEqual(q, a, 0);
    }
  }

  /** Different residues stay different. */
  lemma DifferenceNonZero(q: nat, a: nat, b: nat)
    requires a < q && b < q && a != b
    ensures (a - b) % q != 0
  {
    if (a - b) % q == 0 {
      SmallMultiple(q, a - b, (a - b) / q);
    }
  }
}
