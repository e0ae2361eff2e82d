/** The pieces of Python's numeric built-ins the renderer relies on: `int()` applied
    to a float, and `min`/`max` over two or three arguments. All arithmetic is on
    exact reals and unbounded integers; IEEE rounding is not modelled. */
module Numbers {

  /** Python's `int(r)` for a float `r`: truncation toward zero (not floor). */
  function Trunc(r: real): (i: int)
    ensures 0.0 <= r ==> 0 <= i && i as real <= r < i as real + 1.0
    ensures r < 0.0 ==> i <= 0 && i as real - 1.0 < r <= i as real
  {
    if r >= 0.0 then r.Floor else -((-r).Floor)
  }

  /** Truncation and floor part ways on negative non-integers. */
  lemma TruncIsNotFloor()
    ensures Trunc(-0.5) == 0 && (-0.5).Floor == -1
  {
  }

  /** Truncation is symmetric about zero, which floor is not. */
  lemma TruncOdd(r: real)
    ensures Trunc(-r) == -Trunc(r)
  {
  }

  /** An integer-valued float is left as it is. */
  lemma TruncOfInteger(n: int)
    ensures Trunc(n as real) == n
  {
  }

  /** Everything strictly between -1 and 1 truncates to 0. */
  lemma TruncNearZero(r: real)
    requires -1.0 < r < 1.0
    ensures Trunc(r) == 0
  {
  }

  function MinInt(a: int, b: int): (r: int)
    ensures r <= a && r <= b && (r == a || r == b)
  {
    if b < a then b else a
  }

  function MaxInt(a: int, b: int): (r: int)
    ensures a <= r && b <= r && (r == a || r == b)
  {
    if b > a then b else a
  }

  /** Python's `min(a, b, c)` on integers. */
  function Min3Int(a: int, b: int, c: int): (r: int)
    ensures r <= a && r <= b && r <= c
    ensures r == a || r == b || r == c
  {
    MinInt(MinInt(a, b), c)
  }

  /** Python's `max(a, b, c)` on integers. */
  function Max3Int(a: int, b: int, c: int): (r: int)
    ensures a <= r && b <= r && c <= r
    ensures r == a || r == b || r == c
  {
    MaxInt(MaxInt(a, b), c)
  }

  function MinReal(a: real, b: real): (r: real)
    ensures r <= a && r <= b && (r == a || r == b)
  {
    if b < a then b else a
  }

  function MaxReal(a: real, b: real): (r: real)
    ensures a <= r && b <= r && (r == a || r == b)
  {
    if b > a then b else a
  }

  function Min3Real(a: real, b: real, c: real): (r: real)
    ensures r <= a && r <= b && r <= c
    ensures r == a || r == b || r == c
  {
    MinReal(MinReal(a, b), c)
  }

  function Max3Real(a: real, b: real, c: real): (r: real)
    ensures a <= r && b <= r && c <= r
    ensures r == a || r == b || r == c
  {
    MaxReal(MaxReal(a, b), c)
  }

  /** A convex combination of three values lies between their minimum and maximum. */
  lemma ConvexBetween(a: real, b: real, c: real, w0: real, w1: real, w2: real, v: real)
    requires 0.0 <= w0 && 0.0 <= w1 && 0.0 <= w2
    requires w0 + w1 + w2 == 1.0
    requires v == a * w0 + b * w1 + c * w2
    ensures Min3Real(a, b, c) <= v <= Max3Real(a, b, c)
  {
    var m, M := Min3Real(a, b, c), Max3Real(a, b, c);
    MulNonNeg(a - m, w0);
    MulNonNeg(b - m, w1);
    MulNonNeg(c - m, w2);
    MulNonNeg(M - a, w0);
    MulNonNeg(M - b, w1);
    MulNonNeg(M - c, w2);
    assert m * w0 + m * w1 + m * w2 == m * (w0 + w1 + w2) == m;
    assert M * w0 + M * w1 + M * w2 == M * (w0 + w1 + w2) == M;
  }

  lemma MulPos(x: real, y: real)
    requires 0.0 < x && 0.0 < y
    ensures 0.0 < x * y
  {
  }

  lemma MulNonNeg(x: real, y: real)
    requires 0.0 <= x && 0.0 <= y
    ensures 0.0 <= x * y
  {
  }
}
