/**
 * The parts of JavaScript's `Math` (and Python's `int`) that the core relies on,
 * stated over real numbers. Floating-point rounding is not modelled.
 */
module JsMath {

  /** Math.abs */
  function Abs(x: real): (r: real)
    ensures 0.0 <= r && (r == x || r == -x)
  {
    if x < 0.0 then -x else x
  }

  /** Math.min of two numbers */
  function Min(x: real, y: real): (r: real)
    ensures r <= x && r <= y && (r == x || r == y)
  {
    if x <= y then x else y
  }

  /** Math.max of two numbers */
  function Max(x: real, y: real): (r: real)
    ensures x <= r && y <= r && (r == x || r == y)
  {
    if x <= y then y else x
  }

  function MaxInt(x: int, y: int): (r: int)
    ensures x <= r && y <= r && (r == x || r == y)
  {
    if x <= y then y else x
  }

  /** Math.ceil: the least integer not below x */
  function Ceil(x: real): (r: int)
    ensures x <= r as real < x + 1.0
  {
    -((-x).Floor)
  }

  /** Math.sign on a number that is not NaN */
  function Sign(x: real): (r: int)
    ensures r == 0 <==> x == 0.0
    ensures r == 1 <==> x > 0.0
    ensures r == -1 <==> x < 0.0
  {
    if x > 0.0 then 1 else if x < 0.0 then -1 else 0
  }

  /** Python's int() on a float: truncation toward zero */
  function Trunc(x: real): (r: int)
    ensures 0.0 <= x ==> r == x.Floor
    ensures Abs(r as real) <= Abs(x) < Abs(r as real) + 1.0
  {
    if x >= 0.0 then x.Floor else -((-x).Floor)
  }

  /** `x` lies between `a` and `b`, in either order. */
  predicate Between(x: real, a: real, b: real)
  {
    Min(a, b) <= x <= Max(a, b)
  }

  /**
   * What the model assumes of a square-root function: on non-negative
   * arguments it returns the non-negative root.
   */
  ghost predicate IsSqrt(sqrt: real -> real)
  {
    forall x: real {:trigger sqrt(x)} :: 0.0 <= x ==> 0.0 <= sqrt(x) && sqrt(x) * sqrt(x) == x
  }

  lemma MulPos(x: real, y: real)
    requires 0.0 < x && 0.0 < y
    ensures 0.0 < x * y
  {
  }

  lemma MulNonNeg(x: real, y: real)
    requires 0.0 <= x && 0.0 <= y
    ensures 0.0 <= x * y
  {
  }

  /** Two non-negative numbers compare as their squares do. */
  lemma SquareMonotone(u: real, v: real)
    requires 0.0 <= u && 0.0 <= v
    ensures u * u <= v * v <==> u <= v
  {
    assert v * v - u * u == (v - u) * (v + u);
    if u < v {
      MulPos(v - u, v + u);
    } else if v < u {
      MulPos(u - v, u + v);
    }
  }

  /** A square root keeps the order of non-negative numbers. */
  lemma SqrtMonotone(sqrt: real -> real, x: real, y: real)
    requires IsSqrt(sqrt) && 0.0 <= x <= y
    ensures sqrt(x) <= sqrt(y)
  {
    SquareMonotone(sqrt(x), sqrt(y));
  }

  /** The non-negative root of a square is unique. */
  lemma RootUnique(u: real, v: real)
    requires 0.0 <= u && 0.0 <= v && u * u == v * v
    ensures u == v
  {
    SquareMonotone(u, v);
    SquareMonotone(v, u);
  }

  /** Multiplying and dividing by the same non-zero number cancel. */
  lemma MulDivCancel(x: real, d: real)
    requires d != 0.0
    ensures (d * x) / d == x && (x / d) * d == x
  {
  }

  /** i / n lies in [0, 1) for 0 <= i < n. */
  lemma IndexFraction(i: nat, n: nat)
    requires i < n
    ensures 0.0 <= i as real / n as real < 1.0
  {
    var q := i as real / n as real;
    assert q * n as real == i as real;
    if q < 0.0 {
      MulPos(-q, n as real);
    }
  }

  /** A quantity between 0 and k, divided by k, is a fraction in [0, 1]. */
  lemma UnitFraction(x: real, k: real)
    requires 0.0 < k && 0.0 <= x <= k
    ensures 0.0 <= x / k <= 1.0
  {
    var w := x / k;
    assert w * k == x;
    if w < 0.0 {
      MulPos(-w, k);
    }
    if 1.0 < w {
      MulPos(w - 1.0, k);
    }
  }
}
