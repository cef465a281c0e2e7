/**
 Integer arithmetic as the contracts use it: 128-bit values are unbounded integers and
 division truncates toward zero.
 */
module Arithmetic {

  function Min(a: int, b: int): int {
    if a < b then a else b
  }

  function Max(a: int, b: int): int {
    if a < b then b else a
  }

  /** Division that truncates toward zero. */
  function Quot(a: int, b: int): int
    requires b != 0
  {
    if a >= 0 then a / b else -((-a) / b)
  }

  lemma QuotFloor(a: int, b: int)
    requires b > 0 && a >= 0
    ensures 0 <= Quot(a, b) && Quot(a, b) * b <= a < Quot(a, b) * b + b
  {
    var q, r := a / b, a % b;
    assert a == q * b + r;
    if q < 0 {
      MulLe(q + 1, 0, b);
    }
  }

  lemma QuotNegativeDivisor(a: int, b: int)
    requires b < 0 && a >= 0
    ensures Quot(a, b) <= 0
  {
    var q, r := a / b, a % b;
    assert a == b * q + r;
    if q > 0 {
      MulLe(1, q, -b);
    }
  }

  /** The quotient is the only integer whose multiple brackets the dividend. */
  lemma QuotUnique(a: int, b: int, q: int)
    requires b > 0 && 0 <= a
    requires q * b <= a < q * b + b
    ensures Quot(a, b) == q
  {
    QuotFloor(a, b);
    var d := Quot(a, b);
    if d < q {
      MulLe(d + 1, q, b);
    } else if q < d {
      MulLe(q + 1, d, b);
    }
  }

  /** The floor of a / b is at least q exactly when a is at least q * b. */
  lemma QuotAtLeast(a: int, b: int, q: int)
    requires b > 0 && 0 <= a
    ensures q <= Quot(a, b) <==> q * b <= a
  {
    QuotFloor(a, b);
    var d := Quot(a, b);
    if q <= d {
      MulLe(q, d, b);
    } else {
      MulLe(d + 1, q, b);
    }
  }

  lemma MulLe(a: int, b: int, c: int)
    requires a <= b && 0 <= c
    ensures a * c <= b * c
  {
  }

  lemma MulCancel(a: int, b: int, c: int)
    requires 0 < c
    ensures a * c <= b * c <==> a <= b
  {
    if b < a {
      MulLe(b + 1, a, c);
    }
  }

  lemma MulCommutes(a: int, b: int)
    ensures a * b == b * a
  {
  }

  lemma MulDistributes(a: int, b: int, c: int)
    ensures a * (b + c) == a * b + a * c
    ensures (b + c) * a == b * a + c * a
  {
  }

  lemma MulPositive(a: int, b: int)
    requires 0 <= a && 0 <= b
    ensures 0 <= a * b
  {
  }

  /** A quotient below bound + 1 times the divisor is at most the bound. */
  lemma QuotAtMost(a: int, b: int, bound: int)
    requires b > 0 && 0 <= a < bound * b + b
    ensures Quot(a, b) <= bound
  {
    QuotFloor(a, b);
    if Quot(a, b) > bound {
      MulLe(bound + 1, Quot(a, b), b);
    }
  }

  lemma Reorder(a: int, b: int, c: int)
    ensures a * b * c == a * c * b && a * b * c == b * c * a && a * b * c == c * a * b
  {
  }

  lemma LessFromScaled(a: int, b: int, c: int)
    requires c > 0 && a * c < b * c
    ensures a < b
  {
    MulCancel(b, a, c);
  }

  /** q is the floor of a / b. */
  predicate IsFloor(q: int, a: int, b: int) {
    q * b <= a < (q + 1) * b
  }

  lemma QuotIsFloor(a: int, b: int)
    requires b > 0 && a >= 0
    ensures Quot(a, b) >= 0 && IsFloor(Quot(a, b), a, b)
  {
    QuotFloor(a, b);
    MulDistributes(b, Quot(a, b), 1);
  }

  /** For a dividend that is not negative the truncated quotient is the one floor. */
  lemma FloorIsQuot(q: int, a: int, b: int)
    requires b > 0 && a >= 0 && IsFloor(q, a, b)
    ensures q == Quot(a, b) && q >= 0
  {
    MulDistributes(b, q, 1);
    QuotUnique(a, b, q);
    QuotFloor(a, b);
  }
}
