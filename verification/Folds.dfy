/** Sums and products over maps keyed by participant identifiers. */
module Folds {
  import opened Modular

  predicate IsMin(s: set<nat>, m: nat) {
    m in s && forall k :: k in s ==> m <= k
  }

  lemma ExtendMin(s: set<nat>, x: nat, m: nat)
    requires x in s && IsMin(s - {x}, m)
    ensures IsMin(s, if x <= m then x else m)
  {
    assert forall k :: k in s ==> k == x || k in s - {x};
  }

  lemma {:induction false} MinExists(s: set<nat>)
    requires s != {}
    ensures exists m :: IsMin(s, m)
    decreases |s|
  {
    var x :| x in s;
    if s - {x} == {} {
      assert forall k :: k in s ==> k == x || k in s - {x};
      assert IsMin(s, x);
    } else {
      MinExists(s - {x});
      var m :| IsMin(s - {x}, m);
      ExtendMin(s, x, m);
    }
  }

  /** The least identifier: the order in which a BTreeMap is walked. */
  function Min(s: set<nat>): (m: nat)
    requires s != {}
    ensures IsMin(s, m)
  {
    MinExists(s);
    var m :| m in s && IsMin(s, m);
    m
  }

  /** Taking out another identifier leaves the least one least. */
  lemma MinOfRest<T>(m: map<nat, T>, x: nat)
    requires x in m && x != Min(m.Keys)
    ensures Min(m.Keys) in m - {x} && Min((m - {x}).Keys) == Min(m.Keys)
    ensures m - {Min(m.Keys)} - {x} == m - {x} - {Min(m.Keys)}
  {
    assert Min(m.Keys) in (m - {x}).Keys;
    assert Min((m - {x}).Keys) in m.Keys;
  }

  function Sum(m: map<nat, int>): int
    decreases |m|
  {
    if m == map[] then 0
    else
      assert m.Keys != {};
      var k := Min(m.Keys);
      m[k] + Sum(m - {k})
  }

  function Product(m: map<nat, int>): int
    decreases |m|
  {
    if m == map[] then 1
    else
      assert m.Keys != {};
      var k := Min(m.Keys);
      m[k] * Product(m - {k})
  }

  /** Any entry can be taken out first. */
  lemma {:induction false} SumRemove(m: map<nat, int>, x: nat)
    requires x in m
    ensures Sum(m) == m[x] + Sum(m - {x})
    decreases |m|
  {
    var k := Min(m.Keys);
    if k != x {
      SumRemove(m - {k}, x);
      MinOfRest(m, x);
    }
  }

  lemma {:induction false} ProductRemove(m: map<nat, int>, x: nat)
    requires x in m
    ensures Product(m) == m[x] * Product(m - {x})
    decreases |m|
  {
    var k := Min(m.Keys);
    if k != x {
      ProductRemove(m - {k}, x);
      MinOfRest(m, x);
      var rest := Product(m - {k} - {x});
      assert m[k] * (m[x] * rest) == m[x] * (m[k] * rest);
    }
  }

  lemma {:induction false} SumAdd(a: map<nat, int>, b: map<nat, int>, c: map<nat, int>)
    requires a.Keys == b.Keys == c.Keys
    requires forall k :: k in a ==> c[k] == a[k] + b[k]
    ensures Sum(c) == Sum(a) + Sum(b)
    decreases |a|
  {
    if a == map[] {
      assert b == map[] && c == map[];
    } else {
      var k := Min(a.Keys);
      SumAdd(a - {k}, b - {k}, c - {k});
    }
  }

  lemma Distribute(f: int, x: int, y: int)
    ensures f * (x + y) == f * x + f * y
  {
  }

  lemma {:induction false} SumScale(a: map<nat, int>, f: int, c: map<nat, int>)
    requires a.Keys == c.Keys
    requires forall k :: k in a ==> c[k] == f * a[k]
    ensures Sum(c) == f * Sum(a)
    decreases |a|
  {
    if a == map[] {
      assert c == map[];
    } else {
      var k := Min(a.Keys);
      SumScale(a - {k}, f, c - {k});
      Distribute(f, a[k], Sum(a - {k}));
    }
  }

  function Scaled(f: int, a: map<nat, int>): (c: map<nat, int>)
    ensures c.Keys == a.Keys
  {
    map k | k in a :: f * a[k]
  }

  lemma ScaledSum(f: int, a: map<nat, int>)
    ensures Sum(Scaled(f, a)) == f * Sum(a)
  {
    SumScale(a, f, Scaled(f, a));
  }

  /** Sums of entries that are congruent one by one are congruent. */
  lemma {:induction false} SumCong(q: nat, a: map<nat, int>, b: map<nat, int>)
    requires a.Keys == b.Keys
    requires forall k :: k in a ==> Cong(q, a[k], b[k])
    ensures Cong(q, Sum(a), Sum(b))
    decreases |a|
  {
    hide Cong;
    if a == map[] {
      assert b == map[];
      CongRefl(q, 0);
    } else {
      var k := Min(a.Keys);
      SumCong(q, a - {k}, b - {k});
      CongAdd(q, a[k], b[k], Sum(a - {k}), Sum(b - {k}));
    }
  }

  lemma OneModulo(q: nat)
    requires IsPrime(q)
    ensures 1 % q == 1
  {
  }

  /** A product of factors none of which vanishes modulo a prime does not vanish. */
  lemma {:induction false} ProductNotZero(q: nat, m: map<nat, int>)
    requires IsPrime(q)
    requires forall k :: k in m ==> m[k] % q != 0
    ensures Product(m) % q != 0
    decreases |m|
  {
    hide IsPrime;
    OneModulo(q);
    if m != map[] {
      var k := Min(m.Keys);
      ProductNotZero(q, m - {k});
      ProductNonZero(q, m[k], Product(m - {k}));
    }
  }
}
