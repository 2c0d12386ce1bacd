/**
 * Python's numeric conversions, stated over exact arithmetic.
 * Python floats are modelled as `real` (exact rationals); `int(x)` on a
 * float truncates toward zero.
 */
module PyNum {

  /** `int(r)` for a float `r`: truncation toward zero. */
  function Trunc(r: real): (n: int)
    ensures r >= 0.0 ==> n >= 0 && n as real <= r < n as real + 1.0
    ensures r < 0.0 ==> n <= 0 && n as real - 1.0 < r <= n as real
  {
    if r >= 0.0 then r.Floor else -((-r).Floor)
  }

  /** Truncation never moves a value away from zero past itself, and is monotone. */
  lemma TruncMonotone(a: real, b: real)
    requires a <= b
    ensures Trunc(a) <= Trunc(b)
  {
  }

  /** An integral real truncates to itself. */
  lemma TruncOfInt(n: int)
    ensures Trunc(n as real) == n
  {
  }

  /** Dividing by a positive number keeps the order. */
  lemma DivMonotone(a: real, b: real, m: real)
    requires m > 0.0 && a <= b
    ensures a / m <= b / m
  {
    assert b / m - a / m == (b - a) / m;
  }

  /** Dividing by a positive number keeps a strict order. */
  lemma DivStrictMonotone(a: real, b: real, m: real)
    requires m > 0.0 && a < b
    ensures a / m < b / m
  {
    assert b / m - a / m == (b - a) / m;
  }

  /** Scaling a step and dividing it back out: `(a / (a/d)) * (w/d) == w`. */
  lemma StepsCancel(a: real, w: real, d: real)
    requires a != 0.0 && d != 0.0
    ensures (a / (a / d)) * (w / d) == w
  {
    assert a / (a / d) == d;
    assert d * (w / d) == w;
  }

  lemma MulNonNeg(x: int, y: int)
    requires x >= 0 && y >= 0
    ensures x * y >= 0
  {
  }

  /** Euclidean division of `a * p + b` by p, when `0 <= b < p`, gives back a and b. */
  lemma DivModOfMulAdd(a: int, p: int, b: int)
    requires 0 <= b < p
    ensures (a * p + b) / p == a && (a * p + b) % p == b
  {
    var x := a * p + b;
    var q, r := x / p, x % p;
    assert x == q * p + r;
    var m := q - a;
    assert m * p == b - r by {
      assert m * p == q * p - a * p;
    }
    if m >= 1 {
      assert m * p == (m - 1) * p + p;
      MulNonNeg(m - 1, p);
    } else if m <= -1 {
      assert (-m) * p == (-m - 1) * p + p;
      MulNonNeg(-m - 1, p);
    }
  }

  function Min(a: int, b: int): (m: int)
    ensures m <= a && m <= b && (m == a || m == b)
  {
    if a <= b then a else b
  }

  function Max(a: int, b: int): (m: int)
    ensures m >= a && m >= b && (m == a || m == b)
  {
    if a >= b then a else b
  }

  /** Python's `None` or a value. */
  datatype Option<T> = None | Some(value: T)
}
