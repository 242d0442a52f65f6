/** Polynomial evaluation and Lagrange interpolation at zero, as in sections 4.1 and 4.2 of RFC 9591. */
module Shamir {
  import opened Modular
  import opened Folds

  /** Identifiers are non-zero scalars. */
  predicate Identifiers(q: nat, s: set<nat>) {
    forall i :: i in s ==> 0 < i < q
  }

  /** The polynomial with these coefficients, constant term first, before reduction. */
  function Eval(p: seq<int>, x: int): int {
    if p == [] then 0 else p[0] + x * Eval(p[1..], x)
  }

  /** The quotient of p by (X - a). */
  function Quotient(p: seq<int>, a: int): (r: seq<int>)
    ensures |r| == if p == [] then 0 else |p| - 1
  {
    if |p| <= 1 then [] else [Eval(p[1..], a)] + Quotient(p[1..], a)
  }

  lemma {:induction false} Divide(p: seq<int>, a: int, x: int)
    ensures Eval(p, x) == Eval(p, a) + (x - a) * Eval(Quotient(p, a), x)
  {
    if |p| > 1 {
      Divide(p[1..], a, x);
      var r, e, f := Quotient(p[1..], a), Eval(p[1..], a), Eval(p[1..], x);
      assert Quotient(p, a)[1..] == r;
      var g := Eval(r, x);
      assert Eval(Quotient(p, a), x) == e + x * g;
      HornerStep(x, a, e, f, g);
    } else if |p| == 1 {
      assert Eval(p, x) == p[0] && Eval(p, a) == p[0];
    }
  }

  lemma HornerStep(x: int, a: int, e: int, f: int, g: int)
    requires f == e + (x - a) * g
    ensures x * f == a * e + (x - a) * (e + x * g)
  {
    assert x * f == x * e + x * ((x - a) * g);
    assert x * ((x - a) * g) == (x - a) * (x * g);
  }

  function Numerators(s: set<nat>, i: nat): map<nat, int> {
    map j | j in s && j != i :: j
  }

  function Differences(s: set<nat>, i: nat): map<nat, int> {
    map j | j in s && j != i :: j - i
  }

  lemma DenominatorNotZero(q: nat, s: set<nat>, i: nat)
    requires IsPrime(q) && Identifiers(q, s) && i in s
    ensures Product(Differences(s, i)) % q != 0
  {
    var m := Differences(s, i);
    forall j | j in m ensures m[j] % q != 0 {
      DifferenceNonZero(q, j, i);
    }
    ProductNotZero(q, m);
  }

  /** The interpolating value of section 4.2. */
  function Lambda(q: nat, s: set<nat>, i: nat): nat
    requires IsPrime(q) && Identifiers(q, s) && i in s
  {
    DenominatorNotZero(q, s, i);
    (Product(Numerators(s, i)) * Invert(q, Product(Differences(s, i)) % q)) % q
  }

  lemma LambdaDivides(q: nat, s: set<nat>, i: nat)
    requires IsPrime(q) && Identifiers(q, s) && i in s
    ensures Cong(q, Lambda(q, s, i) * Product(Differences(s, i)), Product(Numerators(s, i)))
  {
    hide Cong, IsPrime, Product, Numerators, Differences, Invert;
    DenominatorNotZero(q, s, i);
    var n, d := Product(Numerators(s, i)), Product(Differences(s, i));
    InvertCorrect(q, d % q);
    DivideBack(q, n, d, Invert(q, d % q));
  }

  lemma DivideBack(q: nat, n: int, d: int, v: int)
    requires q > 0 && Cong(q, d % q * v, 1)
    ensures Cong(q, n * v % q * d, n)
  {
    hide Cong;
    ReduceFactor(q, n * v, d);
    ReduceFactor(q, d, v);
    CongSym(q, d % q * v, d * v);
    CongTrans(q, d * v, d % q * v, 1);
    DropUnit(q, n, d, v);
    assert n * v * d == n * d * v;
    CongTrans(q, n * v % q * d, n * d * v, n);
  }

  lemma ReduceFactor(q: nat, a: int, b: int)
    requires q > 0
    ensures Cong(q, a % q * b, a * b)
  {
    hide Cong;
    CongMod(q, a);
    CongMul(q, a % q, a, b);
  }

  /** Removing a participant changes each remaining weight by a factor a / (a - i). */
  lemma LambdaWithout(q: nat, s: set<nat>, i: nat, a: nat)
    requires IsPrime(q) && Identifiers(q, s) && i in s && a in s && i != a
    ensures Cong(q, Lambda(q, s, i) * (i - a), (0 - a) * Lambda(q, s - {a}, i))
  {
    hide Cong, IsPrime, Product, Lambda;
    var l, m := Lambda(q, s, i), Lambda(q, s - {a}, i);
    var n, d := Product(Numerators(s - {a}, i)), Product(Differences(s - {a}, i));
    ProductRemove(Numerators(s, i), a);
    ProductRemove(Differences(s, i), a);
    assert Numerators(s, i) - {a} == Numerators(s - {a}, i);
    assert Differences(s, i) - {a} == Differences(s - {a}, i);
    LambdaDivides(q, s, i);
    LambdaDivides(q, s - {a}, i);
    DenominatorNotZero(q, s - {a}, i);
    CancelWeights(q, l, m, n, d, a, i);
  }

  lemma CancelWeights(q: nat, l: int, m: int, n: int, d: int, a: int, i: int)
    requires IsPrime(q) && d % q != 0
    requires Cong(q, l * ((a - i) * d), a * n) && Cong(q, m * d, n)
    ensures Cong(q, l * (i - a), -a * m)
  {
    hide Cong, IsPrime;
    CongMul(q, m * d, n, a);
    CongSym(q, a * (m * d), a * n);
    CongTrans(q, l * ((a - i) * d), a * n, a * (m * d));
    assert l * ((a - i) * d) == l * (a - i) * d && a * (m * d) == a * m * d;
    Cancel(q, l * (a - i), a * m, d);
    CongMul(q, l * (a - i), a * m, -1);
    assert l * (a - i) * -1 == l * (i - a);
  }

  /** What the participants in s contribute to interpolation at zero. */
  function Terms(q: nat, s: set<nat>, p: seq<int>): (m: map<nat, int>)
    requires IsPrime(q) && Identifiers(q, s)
    ensures m.Keys == s
  {
    map i | i in s :: Lambda(q, s, i) * Eval(p, i)
  }

  function Shifted(q: nat, s: set<nat>, a: nat, p: seq<int>): (m: map<nat, int>)
    requires IsPrime(q) && Identifiers(q, s)
    ensures m.Keys == s
  {
    map i | i in s :: Lambda(q, s, i) * (i - a) * Eval(p, i)
  }

  lemma ShiftedSum(q: nat, s: set<nat>, a: nat, p: seq<int>)
    requires IsPrime(q) && Identifiers(q, s) && a in s
    ensures Cong(q, Sum(Shifted(q, s, a, p)), (0 - a) * Sum(Terms(q, s - {a}, p)))
  {
    hide Cong, IsPrime, Sum, Lambda, Eval;
    var m, t := Shifted(q, s, a, p), Terms(q, s - {a}, p);
    assert m[a] == 0;
    SumRemove(m, a);
    ScaledSum(0 - a, t);
    assert (m - {a}).Keys == s - {a};
    forall i | i in m - {a} ensures Cong(q, (m - {a})[i], Scaled(0 - a, t)[i]) {
      ShiftedEntry(q, s, i, a, Eval(p, i));
    }
    SumCong(q, m - {a}, Scaled(0 - a, t));
  }

  lemma ShiftedEntry(q: nat, s: set<nat>, i: nat, a: nat, e: int)
    requires IsPrime(q) && Identifiers(q, s) && i in s && a in s && i != a
    ensures Cong(q, Lambda(q, s, i) * (i - a) * e, (0 - a) * (Lambda(q, s - {a}, i) * e))
  {
    hide Cong, IsPrime, Lambda;
    var m := Lambda(q, s - {a}, i);
    LambdaWithout(q, s, i, a);
    CongMul(q, Lambda(q, s, i) * (i - a), (0 - a) * m, e);
    assert (0 - a) * m * e == (0 - a) * (m * e);
  }

  /** The weights of any participants add up to one. */
  lemma {:induction false} LambdasSumToOne(q: nat, s: set<nat>)
    requires IsPrime(q) && Identifiers(q, s) && s != {}
    ensures Cong(q, Sum(Terms(q, s, [1])), 1)
    decreases |s|
  {
    hide Cong, IsPrime, Lambda, Terms, Shifted;
    var a :| a in s;
    if s == {a} {
      LoneLambda(q, a);
    } else {
      assert s - {a} != {} by { assert s == s - {a} + {a}; }
      var b :| b in s - {a};
      assert b in s - {a} && a in s - {b};
      LambdasSumToOne(q, s - {a});
      LambdasSumToOne(q, s - {b});
      ShiftedSum(q, s, a, [1]);
      ShiftedSum(q, s, b, [1]);
      ShiftedDifference(q, s, a, b, [1]);
      DifferenceNonZero(q, b, a);
      Neville(q, a, b, Sum(Terms(q, s, [1])), Sum(Shifted(q, s, a, [1])), Sum(Shifted(q, s, b, [1])),
              Sum(Terms(q, s - {a}, [1])), Sum(Terms(q, s - {b}, [1])));
    }
  }

  lemma LoneLambda(q: nat, a: nat)
    requires IsPrime(q) && 0 < a < q
    ensures Cong(q, Sum(Terms(q, {a}, [1])), 1)
  {
    hide Cong, IsPrime;
    OneModulo(q);
    assert Numerators({a}, a) == map[] && Differences({a}, a) == map[];
    assert Lambda(q, {a}, a) == 1;
    assert Eval([1], a) == 1 by { assert Eval([1][1..], a) == 0; }
    var m := Terms(q, {a}, [1]);
    SumRemove(m, a);
    assert m - {a} == map[];
    CongRefl(q, 1);
  }

  lemma ShiftedDifference(q: nat, s: set<nat>, a: nat, b: nat, p: seq<int>)
    requires IsPrime(q) && Identifiers(q, s)
    ensures Sum(Shifted(q, s, a, p)) == Sum(Shifted(q, s, b, p)) + (b - a) * Sum(Terms(q, s, p))
  {
    hide IsPrime, Lambda, Eval, Sum;
    var t := Terms(q, s, p);
    ScaledSum(b - a, t);
    forall i | i in s ensures Shifted(q, s, a, p)[i] == Shifted(q, s, b, p)[i] + Scaled(b - a, t)[i] {
      SplitShift(Lambda(q, s, i), i, a, b, Eval(p, i));
    }
    SumAdd(Shifted(q, s, b, p), Scaled(b - a, t), Shifted(q, s, a, p));
  }

  lemma SplitShift(l: int, i: int, a: int, b: int, e: int)
    ensures l * (i - a) * e == l * (i - b) * e + (b - a) * (l * e)
  {
    assert l * (i - a) == l * (i - b) + (b - a) * l;
  }

  lemma WeightedByOne(q: nat, s: int, a: int, t: int)
    requires Cong(q, s, -a * t) && Cong(q, t, 1)
    ensures Cong(q, s, -a)
  {
    hide Cong;
    CongMul(q, t, 1, -a);
    CongTrans(q, s, -a * t, -a * 1);
  }

  lemma Neville(q: nat, a: int, b: int, t: int, sa: int, sb: int, ta: int, tb: int)
    requires IsPrime(q) && (b - a) % q != 0
    requires sa == sb + (b - a) * t
    requires Cong(q, sa, -a * ta) && Cong(q, sb, -b * tb) && Cong(q, ta, 1) && Cong(q, tb, 1)
    ensures Cong(q, t, 1)
  {
    hide Cong, IsPrime;
    WeightedByOne(q, sa, a, ta);
    WeightedByOne(q, sb, b, tb);
    CongSub(q, sa, -a, sb, -b);
    assert sa - sb == t * (b - a) && -a - -b == 1 * (b - a);
    Cancel(q, t, 1, b - a);
  }

  /**
   * Shamir reconstruction: any participants at least as many as the polynomial has
   * coefficients recover its value at zero from their shares.
   */
  lemma {:induction false} Interpolation(q: nat, s: set<nat>, p: seq<int>)
    requires IsPrime(q) && Identifiers(q, s) && |p| <= |s|
    ensures Cong(q, Sum(Terms(q, s, p)), Eval(p, 0))
    decreases |p|
  {
    hide Cong, IsPrime, Lambda, Terms, Shifted, Sum;
    if p == [] {
      NothingToInterpolate(q, s);
      CongRefl(q, 0);
    } else {
      var a :| a in s;
      var r := Quotient(p, a);
      assert |s - {a}| == |s| - 1;
      Interpolation(q, s - {a}, r);
      LambdasSumToOne(q, s);
      ShiftedSum(q, s, a, r);
      SplitTerms(q, s, a, p);
      Divide(p, a, 0);
      Assemble(q, a, Eval(p, a), Eval(r, 0), Sum(Terms(q, s, [1])), Sum(Shifted(q, s, a, r)),
               Sum(Terms(q, s - {a}, r)));
    }
  }

  lemma NothingToInterpolate(q: nat, s: set<nat>)
    requires IsPrime(q) && Identifiers(q, s)
    ensures Sum(Terms(q, s, [])) == 0
  {
    hide IsPrime, Lambda;
    SumScale(Terms(q, s, []), 0, Terms(q, s, []));
  }

  lemma Entries(q: nat, s: set<nat>, a: nat, p: seq<int>, r: seq<int>, f: int, i: nat)
    requires IsPrime(q) && Identifiers(q, s) && i in s
    ensures Terms(q, s, p)[i] == Lambda(q, s, i) * Eval(p, i)
    ensures Scaled(f, Terms(q, s, [1]))[i] == f * (Lambda(q, s, i) * Eval([1], i))
    ensures Shifted(q, s, a, r)[i] == Lambda(q, s, i) * (i - a) * Eval(r, i)
  {
    hide IsPrime, Lambda, Eval;
  }

  lemma SplitEntry(q: nat, s: set<nat>, a: nat, p: seq<int>, i: nat)
    requires IsPrime(q) && Identifiers(q, s) && i in s
    ensures Terms(q, s, p)[i]
      == Scaled(Eval(p, a), Terms(q, s, [1]))[i] + Shifted(q, s, a, Quotient(p, a))[i]
  {
    hide IsPrime, Lambda, Quotient, Eval, Terms, Shifted, Scaled;
    var l, e, f, d, g := Lambda(q, s, i), Eval(p, i), Eval(p, a), i - a, Eval(Quotient(p, a), i);
    Entries(q, s, a, p, Quotient(p, a), f, i);
    Divide(p, a, i);
    EvalOne(i);
    SplitTerm(l, e, f, d, g, Eval([1], i));
  }

  lemma SplitTerms(q: nat, s: set<nat>, a: nat, p: seq<int>)
    requires IsPrime(q) && Identifiers(q, s)
    ensures Sum(Terms(q, s, p)) == Eval(p, a) * Sum(Terms(q, s, [1])) + Sum(Shifted(q, s, a, Quotient(p, a)))
  {
    hide IsPrime, Lambda, Sum, Quotient, Eval, Terms, Shifted, Scaled;
    var t := Terms(q, s, [1]);
    ScaledSum(Eval(p, a), t);
    forall i | i in s {
      SplitEntry(q, s, a, p, i);
    }
    SumAdd(Scaled(Eval(p, a), t), Shifted(q, s, a, Quotient(p, a)), Terms(q, s, p));
  }

  lemma EvalOne(x: int)
    ensures Eval([1], x) == 1
  {
    assert Eval([1][1..], x) == 0;
  }

  lemma SplitTerm(l: int, e: int, f: int, d: int, g: int, one: int)
    requires e == f + d * g && one == 1
    ensures l * e == f * (l * one) + l * d * g
  {
    assert l * e == l * f + l * (d * g);
  }

  lemma Assemble(q: nat, a: int, e: int, f: int, one: int, shifted: int, t: int)
    requires Cong(q, one, 1) && Cong(q, shifted, -a * t) && Cong(q, t, f)
    ensures Cong(q, e * one + shifted, e + (0 - a) * f)
  {
    hide Cong;
    CongMul(q, one, 1, e);
    CongMul(q, t, f, -a);
    CongTrans(q, shifted, -a * t, -a * f);
    CongAdd(q, e * one, e * 1, shifted, -a * f);
  }
}
