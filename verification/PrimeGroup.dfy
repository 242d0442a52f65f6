/**
 * A group of prime order with the two coordinates of a short Weierstrass curve:
 * the x of a point and the parity of its y. Nothing else about the curve is used.
 */
module PrimeGroup {
  import opened Modular
  import opened Folds

  datatype Group<!P> = Group(
    order: nat,
    identity: P,
    generator: P,
    add: (P, P) -> P,
    neg: P -> P,
    x: P -> int,
    oddY: P -> bool)

  // Each law is a named instance, so that proofs say where they use it.
  ghost predicate Associates<P>(g: Group<P>, a: P, b: P, c: P) {
    g.add(g.add(a, b), c) == g.add(a, g.add(b, c))
  }

  ghost predicate Commutes<P>(g: Group<P>, a: P, b: P) {
    g.add(a, b) == g.add(b, a)
  }

  ghost predicate HasUnit<P>(g: Group<P>, a: P) {
    g.add(g.identity, a) == a && g.add(a, g.neg(a)) == g.identity && Mul(g, g.order, a) == g.identity
  }

  /** Negation keeps x, and flips the parity of y except at the identity, whose affine y is zero. */
  ghost predicate Mirrors<P>(g: Group<P>, a: P) {
    g.x(g.neg(a)) == g.x(a) && (a != g.identity ==> g.oddY(g.neg(a)) != g.oddY(a))
  }

  ghost predicate IsGroup<P(!new)>(g: Group<P>) {
    && IsPrime(g.order)
    && g.generator != g.identity
    && !g.oddY(g.identity)
    && (forall a, b, c :: Associates(g, a, b, c))
    && (forall a, b :: Commutes(g, a, b))
    && (forall a :: HasUnit(g, a))
    && (forall a :: Mirrors(g, a))
  }

  /** k copies of a added up. */
  function Mul<P>(g: Group<P>, k: nat, a: P): P {
    if k == 0 then g.identity else g.add(a, Mul(g, k - 1, a))
  }

  /** Multiplication by a scalar, given as any integer that represents it. */
  function Times<P>(g: Group<P>, k: int, a: P): P
    requires g.order > 0
  {
    Mul(g, k % g.order, a)
  }

  lemma Assoc<P(!new)>(g: Group<P>, a: P, b: P, c: P)
    requires IsGroup(g)
    ensures g.add(g.add(a, b), c) == g.add(a, g.add(b, c))
  {
    assert Associates(g, a, b, c);
  }

  lemma Comm<P(!new)>(g: Group<P>, a: P, b: P)
    requires IsGroup(g)
    ensures g.add(a, b) == g.add(b, a)
  {
    assert Commutes(g, a, b);
  }

  lemma Unit<P(!new)>(g: Group<P>, a: P)
    requires IsGroup(g)
    ensures g.add(g.identity, a) == a && g.add(a, g.identity) == a
    ensures g.add(a, g.neg(a)) == g.identity && Mul(g, g.order, a) == g.identity
  {
    assert HasUnit(g, a);
    Comm(g, a, g.identity);
  }

  /** Sums of pairs can be regrouped. */
  lemma Regroup<P(!new)>(g: Group<P>, a: P, b: P, c: P, d: P)
    requires IsGroup(g)
    ensures g.add(g.add(a, b), g.add(c, d)) == g.add(g.add(a, c), g.add(b, d))
  {
    hide IsGroup;
    Assoc(g, a, b, g.add(c, d));
    Assoc(g, b, c, d);
    Comm(g, b, c);
    Assoc(g, c, b, d);
    Assoc(g, a, c, g.add(b, d));
  }

  lemma OnlyInverse<P(!new)>(g: Group<P>, a: P, b: P)
    requires IsGroup(g) && g.add(a, b) == g.identity
    ensures b == g.neg(a)
  {
    hide IsGroup;
    Unit(g, a);
    Unit(g, b);
    Unit(g, g.neg(a));
    Assoc(g, g.neg(a), a, b);
    Comm(g, g.neg(a), a);
  }

  lemma NegAdd<P(!new)>(g: Group<P>, a: P, b: P)
    requires IsGroup(g)
    ensures g.neg(g.add(a, b)) == g.add(g.neg(a), g.neg(b))
  {
    hide IsGroup;
    Regroup(g, a, b, g.neg(a), g.neg(b));
    Unit(g, a);
    Unit(g, b);
    Unit(g, g.identity);
    OnlyInverse(g, g.add(a, b), g.add(g.neg(a), g.neg(b)));
  }

  lemma NegNeg<P(!new)>(g: Group<P>, a: P)
    requires IsGroup(g)
    ensures g.neg(g.neg(a)) == a
  {
    hide IsGroup;
    Unit(g, a);
    Comm(g, a, g.neg(a));
    OnlyInverse(g, g.neg(a), a);
  }

  lemma NegIdentity<P(!new)>(g: Group<P>, a: P)
    requires IsGroup(g)
    ensures g.neg(g.identity) == g.identity
    ensures g.neg(a) == g.identity <==> a == g.identity
  {
    hide IsGroup;
    Unit(g, g.identity);
    OnlyInverse(g, g.identity, g.identity);
    NegNeg(g, a);
  }

  // ---------------------------------------------------------------------
  // Multiplication by naturals
  // ---------------------------------------------------------------------

  lemma {:induction false} MulAdd<P(!new)>(g: Group<P>, k: nat, l: nat, a: P)
    requires IsGroup(g)
    ensures Mul(g, k + l, a) == g.add(Mul(g, k, a), Mul(g, l, a))
  {
    hide IsGroup;
    if k == 0 {
      Unit(g, Mul(g, l, a));
    } else {
      MulAdd(g, k - 1, l, a);
      Assoc(g, a, Mul(g, k - 1, a), Mul(g, l, a));
    }
  }

  lemma {:induction false} MulMul<P(!new)>(g: Group<P>, k: nat, l: nat, a: P)
    requires IsGroup(g)
    ensures Mul(g, k * l, a) == Mul(g, k, Mul(g, l, a))
  {
    hide IsGroup;
    if k > 0 {
      MulMul(g, k - 1, l, a);
      assert k * l == l + (k - 1) * l;
      MulAdd(g, l, (k - 1) * l, a);
    }
  }

  lemma {:induction false} MulIdentity<P(!new)>(g: Group<P>, k: nat)
    requires IsGroup(g)
    ensures Mul(g, k, g.identity) == g.identity
  {
    hide IsGroup;
    if k > 0 {
      MulIdentity(g, k - 1);
      Unit(g, g.identity);
    }
  }

  lemma MulOfMultiple<P(!new)>(g: Group<P>, k: nat, a: P)
    requires IsGroup(g)
    ensures Mul(g, k * g.order, a) == g.identity
  {
    hide IsGroup, Mul;
    MulMul(g, k, g.order, a);
    Unit(g, a);
    MulIdentity(g, k);
  }

  /** Multiples of the order can be left out. */
  lemma MulReduce<P(!new)>(g: Group<P>, k: nat, a: P)
    requires IsGroup(g)
    ensures g.order > 0 && Mul(g, k, a) == Times(g, k, a)
  {
    Positive(g);
    hide IsGroup, Mul;
    var m := DivideWithRest(g.order, k);
    SplitMultiple(g, m, k % g.order, a);
  }

  lemma SplitMultiple<P(!new)>(g: Group<P>, m: nat, r: nat, a: P)
    requires IsGroup(g)
    ensures Mul(g, m * g.order + r, a) == Mul(g, r, a)
  {
    hide IsGroup, Mul;
    MulAdd(g, m * g.order, r, a);
    MulOfMultiple(g, m, a);
    Unit(g, Mul(g, r, a));
  }

  lemma Positive<P(!new)>(g: Group<P>)
    requires IsGroup(g)
    ensures g.order > 1 && IsPrime(g.order)
  {
  }

  // ---------------------------------------------------------------------
  // Multiplication by scalars
  // ---------------------------------------------------------------------

  lemma TimesCong<P(!new)>(g: Group<P>, k: int, l: int, a: P)
    requires g.order > 0 && Cong(g.order, k, l)
    ensures Times(g, k, a) == Times(g, l, a)
  {
    CongEqual(g.order, k, l);
  }

  lemma TimesAdd<P(!new)>(g: Group<P>, k: int, l: int, a: P)
    requires IsGroup(g) && g.order > 0
    ensures Times(g, k + l, a) == g.add(Times(g, k, a), Times(g, l, a))
  {
    hide IsGroup, Mul, Cong;
    var q := g.order;
    MulAdd(g, k % q, l % q, a);
    MulReduce(g, k % q + l % q, a);
    CongMod(q, k);
    CongMod(q, l);
    CongAdd(q, k % q, k, l % q, l);
    TimesCong(g, k % q + l % q, k + l, a);
  }

  lemma TimesTimes<P(!new)>(g: Group<P>, k: int, l: int, a: P)
    requires IsGroup(g) && g.order > 0
    ensures Times(g, k * l, a) == Times(g, k, Times(g, l, a))
  {
    hide IsGroup, Mul, Cong;
    var q := g.order;
    MulMul(g, k % q, l % q, a);
    MulReduce(g, (k % q) * (l % q), a);
    CongMod(q, k);
    CongMod(q, l);
    CongMul(q, k % q, k, l % q);
    CongMul(q, l % q, l, k);
    CongTrans(q, (k % q) * (l % q), k * (l % q), k * l);
    TimesCong(g, (k % q) * (l % q), k * l, a);
  }

  lemma TimesOne<P(!new)>(g: Group<P>, a: P)
    requires IsGroup(g)
    ensures g.order > 0 && Times(g, 0, a) == g.identity && Times(g, 1, a) == a
  {
    Positive(g);
    hide IsGroup;
    Unit(g, a);
    assert 1 % g.order == 1 && 0 % g.order == 0;
    assert Mul(g, 1, a) == g.add(a, Mul(g, 0, a));
  }

  lemma TimesNeg<P(!new)>(g: Group<P>, k: int, a: P)
    requires IsGroup(g) && g.order > 0
    ensures Times(g, -k, a) == g.neg(Times(g, k, a)) == Times(g, k, g.neg(a))
  {
    hide IsGroup, Mul, Times;
    TimesAdd(g, k, -k, a);
    TimesOne(g, a);
    OnlyInverse(g, Times(g, k, a), Times(g, -k, a));
    TimesAdd(g, 1, -1, a);
    OnlyInverse(g, a, Times(g, -1, a));
    TimesTimes(g, k, -1, a);
    assert k * -1 == -k;
  }

  /** The generator has order exactly q: equal multiples come from congruent scalars. */
  lemma GeneratorIsFree<P(!new)>(g: Group<P>, k: int, l: int)
    requires IsGroup(g) && g.order > 0
    ensures Times(g, k, g.generator) == Times(g, l, g.generator) <==> Cong(g.order, k, l)
  {
    var q, b := g.order, g.generator;
    if Times(g, k, b) == Times(g, l, b) {
      TimesAdd(g, k, -l, b);
      TimesNeg(g, l, b);
      Unit(g, Times(g, l, b));
      assert Times(g, k - l, b) == g.identity;
      if (k - l) % q == 0 {
        DifferenceOfCong(q, k, l);
      } else {
        OrderOfGenerator(g, k - l);
        assert false;
      }
    } else if Cong(q, k, l) {
      TimesCong(g, k, l, b);
    }
  }

  lemma DifferenceOfCong(q: nat, k: int, l: int)
    requires q > 0 && (k - l) % q == 0
    ensures Cong(q, k, l)
  {
    assert k == l + q * ((k - l) / q);
  }

  lemma OrderOfGenerator<P(!new)>(g: Group<P>, k: int)
    requires IsGroup(g) && g.order > 0 && k % g.order != 0
    ensures Times(g, k, g.generator) != g.identity
  {
    if Times(g, k, g.generator) == g.identity {
      var i := HasInverse(g.order, k);
      TimesTimes(g, i, k, g.generator);
      MulIdentity(g, i % g.order);
      assert i * k == k * i;
      TimesCong(g, i * k, 1, g.generator);
      TimesOne(g, g.generator);
    }
  }

  // ---------------------------------------------------------------------
  // Sums of points over identifier maps
  // ---------------------------------------------------------------------

  function PointSum<P>(g: Group<P>, m: map<nat, P>): P
    decreases |m|
  {
    if m == map[] then g.identity
    else
      assert m.Keys != {};
      var k := Min(m.Keys);
      g.add(m[k], PointSum(g, m - {k}))
  }

  lemma {:induction false} PointSumAdd<P(!new)>(g: Group<P>, a: map<nat, P>, b: map<nat, P>, c: map<nat, P>)
    requires IsGroup(g)
    requires a.Keys == b.Keys == c.Keys
    requires forall k :: k in a ==> c[k] == g.add(a[k], b[k])
    ensures PointSum(g, c) == g.add(PointSum(g, a), PointSum(g, b))
    decreases |a|
  {
    hide IsGroup;
    if a == map[] {
      assert b == map[] && c == map[];
      Unit(g, g.identity);
    } else {
      var k := Min(a.Keys);
      PointSumAdd(g, a - {k}, b - {k}, c - {k});
      Regroup(g, a[k], b[k], PointSum(g, a - {k}), PointSum(g, b - {k}));
    }
  }

  lemma {:induction false} PointSumNeg<P(!new)>(g: Group<P>, a: map<nat, P>, c: map<nat, P>)
    requires IsGroup(g)
    requires a.Keys == c.Keys
    requires forall k :: k in a ==> c[k] == g.neg(a[k])
    ensures PointSum(g, c) == g.neg(PointSum(g, a))
    decreases |a|
  {
    hide IsGroup;
    if a == map[] {
      assert c == map[];
      NegIdentity(g, g.identity);
    } else {
      var k := Min(a.Keys);
      PointSumNeg(g, a - {k}, c - {k});
      NegAdd(g, a[k], PointSum(g, a - {k}));
    }
  }

  /** Multiples of one point add up to the multiple by the sum. */
  lemma {:induction false} PointSumTimes<P(!new)>(g: Group<P>, a: map<nat, int>, b: P, c: map<nat, P>)
    requires IsGroup(g) && g.order > 0
    requires a.Keys == c.Keys
    requires forall k :: k in a ==> c[k] == Times(g, a[k], b)
    ensures PointSum(g, c) == Times(g, Sum(a), b)
    decreases |a|
  {
    hide IsGroup, Times;
    if a == map[] {
      assert c == map[];
      TimesOne(g, b);
    } else {
      var k := Min(a.Keys);
      PointSumTimes(g, a - {k}, b, c - {k});
      TimesAdd(g, a[k], Sum(a - {k}), b);
    }
  }

  /** A scalar distributes over a sum of points. */
  lemma {:induction false} PointSumScale<P(!new)>(g: Group<P>, f: int, a: map<nat, P>, c: map<nat, P>)
    requires IsGroup(g) && g.order > 0
    requires a.Keys == c.Keys
    requires forall k :: k in a ==> c[k] == Times(g, f, a[k])
    ensures PointSum(g, c) == Times(g, f, PointSum(g, a))
    decreases |a|
  {
    hide IsGroup, Times;
    if a == map[] {
      assert c == map[];
      TimesIdentity(g, f);
    } else {
      var k := Min(a.Keys);
      PointSumScale(g, f, a - {k}, c - {k});
      TimesSum(g, f, a[k], PointSum(g, a - {k}));
    }
  }

  lemma TimesIdentity<P(!new)>(g: Group<P>, f: int)
    requires IsGroup(g) && g.order > 0
    ensures Times(g, f, g.identity) == g.identity
  {
    hide IsGroup;
    MulIdentity(g, f % g.order);
  }

  lemma {:induction false} MulSum<P(!new)>(g: Group<P>, k: nat, a: P, b: P)
    requires IsGroup(g)
    ensures Mul(g, k, g.add(a, b)) == g.add(Mul(g, k, a), Mul(g, k, b))
  {
    hide IsGroup;
    if k == 0 {
      Unit(g, g.identity);
    } else {
      MulSum(g, k - 1, a, b);
      Regroup(g, a, b, Mul(g, k - 1, a), Mul(g, k - 1, b));
    }
  }

  lemma TimesSum<P(!new)>(g: Group<P>, f: int, a: P, b: P)
    requires IsGroup(g) && g.order > 0
    ensures Times(g, f, g.add(a, b)) == g.add(Times(g, f, a), Times(g, f, b))
  {
    hide IsGroup, Mul;
    MulSum(g, f % g.order, a, b);
  }

  // ---------------------------------------------------------------------
  // The laws can be met
  // ---------------------------------------------------------------------

  newtype Five = k: int | 0 <= k < 5

  function Wrapped(k: int): int {
    if k < 5 then k else k - 5
  }

  /** The group of order five, with 3 and 4 in the place of the points of odd y. */
  function Smallest(): Group<Five> {
    Group(5, 0, 1,
          (a: Five, b: Five) => Wrapped(a as int + b as int) as Five,
          (a: Five) => if a == 0 then 0 else (5 - a as int) as Five,
          (a: Five) => if a == 0 then 0 else if a == 1 || a == 4 then 1 else 2,
          (a: Five) => a > 2)
  }

  lemma SmallestHasUnit(a: Five)
    ensures HasUnit(Smallest(), a)
  {
    var g := Smallest();
    assert Mul(g, 1, a) == g.add(a, Mul(g, 0, a));
    assert Mul(g, 2, a) == g.add(a, Mul(g, 1, a));
    assert Mul(g, 3, a) == g.add(a, Mul(g, 2, a));
    assert Mul(g, 4, a) == g.add(a, Mul(g, 3, a));
    assert Mul(g, 5, a) == g.add(a, Mul(g, 4, a));
  }

  lemma SmallestAssociates(a: Five, b: Five, c: Five)
    ensures Associates(Smallest(), a, b, c)
  {
  }

  lemma SmallestCommutes(a: Five, b: Five)
    ensures Commutes(Smallest(), a, b)
  {
  }

  lemma SmallestMirrors(a: Five)
    ensures Mirrors(Smallest(), a)
  {
  }

  /** With an order above three, as the signing needs it. */
  lemma LawsCanBeMet()
    ensures IsGroup(Smallest()) && Smallest().order > 3
  {
    hide Associates, Commutes, HasUnit, Mirrors;
    forall a: Five, b: Five, c: Five ensures Associates(Smallest(), a, b, c) {
      SmallestAssociates(a, b, c);
    }
    forall a: Five, b: Five ensures Commutes(Smallest(), a, b) {
      SmallestCommutes(a, b);
    }
    forall a: Five ensures HasUnit(Smallest(), a) && Mirrors(Smallest(), a) {
      SmallestHasUnit(a);
      SmallestMirrors(a);
    }
  }
}
