/** The renderer's three-component `Vector`: positions, normals, colours and
    projected points all use it. Every operation returns a new value. */
module Vectors {

  datatype Vec3 = Vec3(x: real, y: real, z: real)

  const Zero := Vec3(0.0, 0.0, 0.0)

  /** `a + b`. */
  function Add(a: Vec3, b: Vec3): Vec3
  {
    Vec3(a.x + b.x, a.y + b.y, a.z + b.z)
  }

  /** `a - b`. */
  function Sub(a: Vec3, b: Vec3): Vec3
  {
    Vec3(a.x - b.x, a.y - b.y, a.z - b.z)
  }

  /** `a * k` for a scalar `k`. */
  function Scale(a: Vec3, k: real): Vec3
  {
    Vec3(a.x * k, a.y * k, a.z * k)
  }

  /** `a.dot(b)`. */
  function Dot(a: Vec3, b: Vec3): real
  {
    a.x * b.x + a.y * b.y + a.z * b.z
  }

  /** Subtraction undoes addition. */
  lemma SubUndoesAdd(a: Vec3, b: Vec3)
    ensures Sub(Add(a, b), b) == a
    ensures Add(Sub(a, b), b) == a
  {
  }

  lemma DotSymmetric(a: Vec3, b: Vec3)
    ensures Dot(a, b) == Dot(b, a)
  {
  }

  /** The dot product is linear in scaling and addition of its first argument. */
  lemma DotLinear(a: Vec3, b: Vec3, c: Vec3, k: real)
    ensures Dot(Scale(a, k), c) == k * Dot(a, c)
    ensures Dot(Add(a, b), c) == Dot(a, c) + Dot(b, c)
  {
  }

  /** Any dot product with the zero vector is zero. */
  lemma DotZero(v: Vec3)
    ensures Dot(v, Zero) == 0.0 && Dot(Zero, v) == 0.0
  {
  }

  /** The floating-point library the renderer calls: `math.sqrt` and `**`. Neither has
      a Dafny counterpart over `real`, so both are parameters of the model. */
  datatype MathLib = MathLib(sqrt: real -> real, pow: (real, real) -> real)

  /** What the model relies on from `sqrt`, at one argument `s`: it returns the
      non-negative square root of `s`. */
  ghost predicate SqrtAt(lib: MathLib, s: real)
  {
    0.0 <= lib.sqrt(s) && lib.sqrt(s) * lib.sqrt(s) == s
  }

  /** `x**2 + y**2 + z**2`. */
  function SquaredLength(v: Vec3): real
  {
    v.x * v.x + v.y * v.y + v.z * v.z
  }

  /** `v.length()`. */
  function Length(lib: MathLib, v: Vec3): real
  {
    lib.sqrt(SquaredLength(v))
  }

  /** `v.normalize()`: the zero vector for a zero length, otherwise `v * (1.0 / l)`. */
  function Normalize(lib: MathLib, v: Vec3): (r: Vec3)
    ensures Length(lib, v) == 0.0 ==> r == Zero
    ensures Length(lib, v) != 0.0 ==> Scale(r, Length(lib, v)) == v
  {
    var l := Length(lib, v);
    if l == 0.0 then Zero else Scale(v, 1.0 / l)
  }

  /** Normalising the zero vector yields the zero vector instead of dividing by zero,
      given that `sqrt(0)` is `0`. */
  lemma NormalizeZero(lib: MathLib)
    requires lib.sqrt(0.0) == 0.0
    ensures Normalize(lib, Zero) == Zero
  {
  }

  /** A vector of non-zero length normalises to one of unit length. */
  lemma NormalizeUnit(lib: MathLib, v: Vec3)
    requires SquaredLength(v) != 0.0
    requires SqrtAt(lib, SquaredLength(v))
    ensures Dot(Normalize(lib, v), Normalize(lib, v)) == 1.0
  {
    var d := SquaredLength(v);
    var l := lib.sqrt(d);
    assert l != 0.0;
    var k := 1.0 / l;
    var r := Scale(v, k);
    assert r == Normalize(lib, v);
    calc {
      Dot(r, r);
      (v.x * k) * (v.x * k) + (v.y * k) * (v.y * k) + (v.z * k) * (v.z * k);
      (k * k) * d;
      (k * k) * (l * l);
      (k * l) * (k * l);
      1.0;
    }
  }
}
