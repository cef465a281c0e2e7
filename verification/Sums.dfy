/** Sums of the values of a finite map. */
module Sums {
  import opened Arithmetic

  function Get<K>(m: map<K, int>, k: K): int {
    if k in m then m[k] else 0
  }

  ghost function Sum<K>(m: map<K, int>): int
    decreases |m|
  {
    if m == map[] then 0 else
      var k :| k in m;
      m[k] + Sum(m - {k})
  }

  ghost predicate NonNegative<K>(m: map<K, int>) {
    forall k | k in m :: 0 <= m[k]
  }

  lemma {:induction false} SumRemove<K>(m: map<K, int>, k: K)
    requires k in m
    ensures Sum(m) == m[k] + Sum(m - {k})
    decreases |m|
  {
    var c :| c in m && Sum(m) == m[c] + Sum(m - {c});
    if c != k {
      SumRemove(m - {c}, k);
      SumRemove(m - {k}, c);
      assert m - {c} - {k} == m - {k} - {c};
    }
  }

  /** Writing one entry moves the sum by the difference it makes. */
  lemma SumUpdate<K>(m: map<K, int>, k: K, v: int)
    ensures Sum(m[k := v]) == Sum(m) - Get(m, k) + v
  {
    SumRemove(m[k := v], k);
    if k in m {
      SumRemove(m, k);
      assert m[k := v] - {k} == m - {k};
    } else {
      assert m[k := v] - {k} == m;
    }
  }

  lemma {:induction false} SumNonNegative<K>(m: map<K, int>)
    requires NonNegative(m)
    ensures 0 <= Sum(m)
    ensures forall k | k in m :: m[k] <= Sum(m)
    decreases |m|
  {
    forall k | k in m
      ensures 0 <= Sum(m) && m[k] <= Sum(m)
    {
      SumRemove(m, k);
      SumNonNegative(m - {k});
    }
  }

  /** A pointwise bound a <= b + d * c carries over to the sums. */
  lemma {:induction false} SumLinearBound<K>(a: map<K, int>, b: map<K, int>, c: map<K, int>, d: int)
    requires a.Keys == b.Keys == c.Keys
    requires forall k | k in a :: a[k] <= b[k] + d * c[k]
    ensures Sum(a) <= Sum(b) + d * Sum(c)
    decreases |a|
  {
    if a != map[] {
      var k :| k in a;
      var a', b', c' := a - {k}, b - {k}, c - {k};
      SumRemove(a, k);
      SumRemove(b, k);
      SumRemove(c, k);
      SumLinearBound(a', b', c', d);
      MulDistributes(d, c[k], Sum(c'));
    } else {
      assert b == map[] && c == map[];
    }
  }

  lemma {:induction false} SumZero<K>(m: map<K, int>)
    requires forall k | k in m :: m[k] == 0
    ensures Sum(m) == 0
    decreases |m|
  {
    if m != map[] {
      var k :| k in m;
      SumRemove(m, k);
      SumZero(m - {k});
    }
  }
}
