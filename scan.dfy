/** Scan conversion: the barycentric test `barycentric(p, a, b, c)` of a raster point
    against a projected triangle. Only the x and y components take part. */
module Scan {
  import opened Numbers
  import opened Vectors

  datatype Weights = Weights(w0: real, w1: real, w2: real)

  /** What `barycentric` returns for a triangle of zero screen area. */
  const Sentinel := Weights(-1.0, -1.0, -1.0)

  /** Twice the signed screen area of the triangle `a, b, c`. */
  function Denom(a: Vec3, b: Vec3, c: Vec3): real
  {
    (b.y - c.y) * (a.x - c.x) + (c.x - b.x) * (a.y - c.y)
  }

  /** `barycentric(p, a, b, c)`: the sentinel for a degenerate triangle; otherwise the
      affine weights of `p`, the third one completing the sum to 1. */
  function Barycentric(p: Vec3, a: Vec3, b: Vec3, c: Vec3): (w: Weights)
    ensures Denom(a, b, c) == 0.0 ==> w == Sentinel
    ensures Denom(a, b, c) != 0.0 ==> w.w0 + w.w1 + w.w2 == 1.0
  {
    var denom := Denom(a, b, c);
    if denom == 0.0 then Sentinel
    else
      var w0 := ((b.y - c.y) * (p.x - c.x) + (c.x - b.x) * (p.y - c.y)) / denom;
      var w1 := ((c.y - a.y) * (p.x - c.x) + (a.x - c.x) * (p.y - c.y)) / denom;
      Weights(w0, w1, 1.0 - w0 - w1)
  }

  /** The acceptance test of the render loop: no weight is negative. */
  predicate Inside(w: Weights)
  {
    !(w.w0 < 0.0 || w.w1 < 0.0 || w.w2 < 0.0)
  }

  /** `a * w0 + b * w1 + c * w2`: a per-vertex attribute interpolated with the weights. */
  function Interpolate(a: Vec3, b: Vec3, c: Vec3, w: Weights): Vec3
  {
    Add(Add(Scale(a, w.w0), Scale(b, w.w1)), Scale(c, w.w2))
  }

  /** The sentinel is rejected, so a degenerate triangle accepts no point at all. */
  lemma DegenerateRejectsAll(p: Vec3, a: Vec3, b: Vec3, c: Vec3)
    requires Denom(a, b, c) == 0.0
    ensures !Inside(Barycentric(p, a, b, c))
  {
  }

  /** An accepted point belongs to a non-degenerate triangle and has weights summing to 1. */
  lemma InsideIsProper(p: Vec3, a: Vec3, b: Vec3, c: Vec3)
    requires Inside(Barycentric(p, a, b, c))
    ensures Denom(a, b, c) != 0.0
    ensures var w := Barycentric(p, a, b, c);
      w.w0 >= 0.0 && w.w1 >= 0.0 && w.w2 >= 0.0 && w.w0 + w.w1 + w.w2 == 1.0
  {
  }

  /** Three collinear vertices (the third on the line through the first two) form a
      degenerate triangle: every query gets the sentinel. */
  lemma CollinearIsDegenerate(p: Vec3, a: Vec3, b: Vec3, c: Vec3, t: real)
    requires c.x == a.x + t * (b.x - a.x) && c.y == a.y + t * (b.y - a.y)
    ensures Barycentric(p, a, b, c) == Sentinel
  {
    assert Denom(a, b, c) == 0.0;
  }

  /** For instance the vertices (0, 0), (1, 1), (2, 2). */
  lemma CollinearExample(p: Vec3)
    ensures Barycentric(p, Vec3(0.0, 0.0, 0.0), Vec3(1.0, 1.0, 0.0), Vec3(2.0, 2.0, 0.0)) == Sentinel
  {
    CollinearIsDegenerate(p, Vec3(0.0, 0.0, 0.0), Vec3(1.0, 1.0, 0.0), Vec3(2.0, 2.0, 0.0), 2.0);
  }

  /** Each vertex has the weights of a unit vector. */
  lemma BarycentricAtVertices(a: Vec3, b: Vec3, c: Vec3)
    requires Denom(a, b, c) != 0.0
    ensures Barycentric(a, a, b, c) == Weights(1.0, 0.0, 0.0)
    ensures Barycentric(b, a, b, c) == Weights(0.0, 1.0, 0.0)
    ensures Barycentric(c, a, b, c) == Weights(0.0, 0.0, 1.0)
  {
    var d := Denom(a, b, c);
    assert d / d == 1.0 && 0.0 / d == 0.0;
    var n0a := (b.y - c.y) * (a.x - c.x) + (c.x - b.x) * (a.y - c.y);
    var n1a := (c.y - a.y) * (a.x - c.x) + (a.x - c.x) * (a.y - c.y);
    assert n0a == d && n1a == 0.0;
    assert Barycentric(a, a, b, c).w0 == n0a / d && Barycentric(a, a, b, c).w1 == n1a / d;
    var n0b := (b.y - c.y) * (b.x - c.x) + (c.x - b.x) * (b.y - c.y);
    var n1b := (c.y - a.y) * (b.x - c.x) + (a.x - c.x) * (b.y - c.y);
    assert n0b == 0.0 && n1b == d;
    assert Barycentric(b, a, b, c).w0 == n0b / d && Barycentric(b, a, b, c).w1 == n1b / d;
  }

  /** Interpolating the vertices with a point's weights gives the point back (in x and y). */
  lemma InterpolateBarycentric(p: Vec3, a: Vec3, b: Vec3, c: Vec3)
    requires Denom(a, b, c) != 0.0
    ensures Interpolate(a, b, c, Barycentric(p, a, b, c)).x == p.x
    ensures Interpolate(a, b, c, Barycentric(p, a, b, c)).y == p.y
  {
    var d := Denom(a, b, c);
    var w := Barycentric(p, a, b, c);
    var u0, u1 := w.w0, w.w1;
    Solve(a.x - c.x, a.y - c.y, b.x - c.x, b.y - c.y, p.x - c.x, p.y - c.y, d, u0, u1);
    var q := Interpolate(a, b, c, w);
    assert q.x == c.x + u0 * (a.x - c.x) + u1 * (b.x - c.x);
    assert q.y == c.y + u0 * (a.y - c.y) + u1 * (b.y - c.y);
  }

  /** Conversely, the weights of an affine combination of the vertices are its coefficients. */
  lemma BarycentricInterpolate(a: Vec3, b: Vec3, c: Vec3, w: Weights)
    requires Denom(a, b, c) != 0.0
    requires w.w0 + w.w1 + w.w2 == 1.0
    ensures Barycentric(Interpolate(a, b, c, w), a, b, c) == w
  {
    var p := Interpolate(a, b, c, w);
    CombinationWeights(a.x, a.y, b.x, b.y, c.x, c.y, w.w0, w.w1, w.w2, p.x, p.y, Denom(a, b, c));
  }

  /** `BarycentricInterpolate` on coordinates: the two quotients of `barycentric` at the
      combination `(px, py)` of the vertices with weights `w0, w1, w2` are `w0` and `w1`. */
  lemma CombinationWeights(ax: real, ay: real, bx: real, by_: real, cx: real, cy: real,
                           w0: real, w1: real, w2: real, px: real, py: real, d: real)
    requires d == (by_ - cy) * (ax - cx) + (cx - bx) * (ay - cy)
    requires d != 0.0
    requires w0 + w1 + w2 == 1.0
    requires px == ax * w0 + bx * w1 + cx * w2
    requires py == ay * w0 + by_ * w1 + cy * w2
    ensures ((by_ - cy) * (px - cx) + (cx - bx) * (py - cy)) / d == w0
    ensures ((cy - ay) * (px - cx) + (ax - cx) * (py - cy)) / d == w1
  {
    CombinationOffset(ax, bx, cx, w0, w1, w2, px);
    CombinationOffset(ay, by_, cy, w0, w1, w2, py);
    Numerators(by_ - cy, cx - bx, cy - ay, ax - cx, ay - cy, w0, w1, px - cx, py - cy, d);
  }

  /** The offset from the third vertex of an affine combination, in one coordinate. */
  lemma CombinationOffset(a: real, b: real, c: real, w0: real, w1: real, w2: real, v: real)
    requires w0 + w1 + w2 == 1.0
    requires v == a * w0 + b * w1 + c * w2
    ensures v - c == w0 * (a - c) - w1 * (c - b)
    ensures v - c == w1 * (b - c) - w0 * (c - a)
  {
    assert c * w2 == c - c * w0 - c * w1;
  }

  /** Cramer's rule in the direction "right-hand side to solution": the quotients
      `barycentric` computes for (px, py) recombine to (px, py). */
  lemma Solve(ex: real, ey: real, fx: real, fy: real, px: real, py: real, d: real, u0: real, u1: real)
    requires d == fy * ex + (-fx) * ey
    requires d != 0.0
    requires u0 == (fy * px + (-fx) * py) / d
    requires u1 == ((-ey) * px + ex * py) / d
    ensures u0 * ex + u1 * fx == px
    ensures u0 * ey + u1 * fy == py
  {
    var n0, n1 := fy * px + (-fx) * py, (-ey) * px + ex * py;
    assert n0 * ex + n1 * fx == px * d;
    assert n0 * ey + n1 * fy == py * d;
    assert u0 * d == n0 && u1 * d == n1;
    assert (u0 * ex + u1 * fx) * d == px * d;
    assert (u0 * ey + u1 * fy) * d == py * d;
  }

  /** The numerators of `barycentric`, written with the same coefficients as there
      (`gy = b.y - c.y`, `gx = c.x - b.x`, `hy = c.y - a.y`, `hx = a.x - c.x`,
      `k = a.y - c.y`), evaluated at the offset `(px, py)` of the affine combination
      with coefficients `u0, u1`, are `u0 * d` and `u1 * d`. */
  lemma Numerators(gy: real, gx: real, hy: real, hx: real, k: real,
                   u0: real, u1: real, px: real, py: real, d: real)
    requires k == -hy
    requires d == gy * hx + gx * k
    requires d != 0.0
    requires px == u0 * hx - u1 * gx
    requires py == u1 * gy - u0 * hy
    ensures (gy * px + gx * py) / d == u0
    ensures (hy * px + hx * py) / d == u1
  {
    assert gy * px + gx * py == u0 * d;
    assert hy * px + hx * py == u1 * d;
  }

  /** An accepted point lies in the bounding box of the triangle's vertices. */
  lemma InsideWithinBounds(p: Vec3, a: Vec3, b: Vec3, c: Vec3)
    requires Inside(Barycentric(p, a, b, c))
    ensures Min3Real(a.x, b.x, c.x) <= p.x <= Max3Real(a.x, b.x, c.x)
    ensures Min3Real(a.y, b.y, c.y) <= p.y <= Max3Real(a.y, b.y, c.y)
  {
    var w := Barycentric(p, a, b, c);
    InterpolateBarycentric(p, a, b, c);
    ConvexBetween(a.x, b.x, c.x, w.w0, w.w1, w.w2, p.x);
    ConvexBetween(a.y, b.y, c.y, w.w0, w.w1, w.w2, p.y);
  }
}
