/** The pool's integer square root. */
module IntegerSqrt {

  /** The floor of the square root, by counting up: the reference for Newton's loop. */
  function Root(n: nat): (r: nat)
    ensures r * r <= n < (r + 1) * (r + 1)
  {
    if n == 0 then 0 else
      var r := Root(n - 1);
      if (r + 1) * (r + 1) <= n then r + 1 else r
  }

  function Isqrt(n: int): int {
    if n <= 0 then 0 else Root(n)
  }

  lemma SquareMono(a: nat, b: nat)
    requires a <= b
    ensures a * a <= b * b
  {
    assert a * a <= a * b <= b * b;
  }

  lemma RootUnique(n: nat, r: nat)
    requires r * r <= n < (r + 1) * (r + 1)
    ensures r == Root(n)
  {
    var s := Root(n);
    if r < s {
      SquareMono(r + 1, s);
    } else if s < r {
      SquareMono(s + 1, r);
    }
  }

  /** The arithmetic and geometric means of two integers. */
  lemma MeanInequality(a: int, b: int)
    ensures 4 * (a * b) <= (a + b) * (a + b)
  {
    var d := a - b;
    assert (a + b) * (a + b) == 4 * (a * b) + d * d;
    assert 0 <= d * d;
  }

  /** One Newton step from any positive x lands at or above the floor of the root. */
  lemma NewtonStepAbove(n: nat, x: nat)
    requires x > 0
    ensures n < ((x + n / x) / 2 + 1) * ((x + n / x) / 2 + 1)
  {
    var q := n / x;
    var y := (x + q) / 2;
    assert n < x * (q + 1);
    MeanInequality(x, q + 1);
    SquareMono(x + q + 1, 2 * (y + 1));
    assert (2 * (y + 1)) * (2 * (y + 1)) == 4 * ((y + 1) * (y + 1));
  }

  /** When a step does not decrease x, x is at or below the root. */
  lemma NewtonFixed(n: nat, x: nat)
    requires x > 0 && x <= (x + n / x) / 2
    ensures x * x <= n
  {
    assert x * x <= x * (n / x) <= n;
  }

  /** Newton's method, started from n itself; terminates for every n. */
  method NewtonSqrt(n: int) returns (r: int)
    ensures n > 0 ==> r >= 1 && r * r <= n < (r + 1) * (r + 1)
    ensures r == Isqrt(n)
  {
    if n <= 0 {
      return 0;
    }
    var x := n;
    var y := (x + 1) / 2;
    while y < x
      invariant 1 <= x <= n
      invariant n < (x + 1) * (x + 1)
      invariant y == (x + n / x) / 2
      decreases x
    {
      NewtonStepAbove(n, x);
      x := y;
      y := (x + n / x) / 2;
    }
    NewtonFixed(n, x);
    RootUnique(n, x);
    r := x;
  }
}
