/** Three-component vectors over exact reals: the `Vec3` struct of the ray
    caster and its free operators (`+`, `-`, `*`, `dot`, `length_squared`,
    `cross`). The source works on IEEE doubles; here every operation is exact.
 */
module Vectors {

  datatype Vec3 = Vec3(x: real, y: real, z: real)

  const Zero: Vec3 := Vec3(0.0, 0.0, 0.0)

  /** Component-wise sum. */
  function Add(a: Vec3, b: Vec3): Vec3 {
    Vec3(a.x + b.x, a.y + b.y, a.z + b.z)
  }

  /** Component-wise difference; adding `b` back undoes it. */
  function Sub(a: Vec3, b: Vec3): (r: Vec3)
    ensures Add(r, b) == a
    ensures r == Zero <==> a == b
  {
    Vec3(a.x - b.x, a.y - b.y, a.z - b.z)
  }

  /** Scalar product `v * d`. */
  function Scale(v: Vec3, d: real): Vec3 {
    Vec3(v.x * d, v.y * d, v.z * d)
  }

  function Dot(a: Vec3, b: Vec3): real {
    a.x * b.x + a.y * b.y + a.z * b.z
  }

  /** `length_squared`: never negative. */
  function LengthSquared(v: Vec3): (r: real)
    ensures r >= 0.0
  {
    SquareNonNegative(v.x);
    SquareNonNegative(v.y);
    SquareNonNegative(v.z);
    Dot(v, v)
  }

  lemma SquareNonNegative(a: real)
    ensures a * a >= 0.0
    ensures a != 0.0 ==> a * a > 0.0
  {
  }

  /** The cross product is orthogonal to both of its operands. */
  function Cross(a: Vec3, b: Vec3): (r: Vec3)
    ensures Dot(r, a) == 0.0
    ensures Dot(r, b) == 0.0
  {
    Vec3(a.y * b.z - a.z * b.y,
         a.z * b.x - a.x * b.z,
         a.x * b.y - a.y * b.x)
  }

  /** `sqrt` cannot be computed over the reals; callers pass a function and
      this predicate says it returns the non-negative square root. */
  ghost predicate IsSquareRoot(sqrt: real -> real) {
    forall v :: 0.0 <= v ==> 0.0 <= sqrt(v) && sqrt(v) * sqrt(v) == v
  }

  lemma DotSymmetric(a: Vec3, b: Vec3)
    ensures Dot(a, b) == Dot(b, a)
  {
  }

  /** `dot` is linear in its first argument. */
  lemma DotAddLeft(a: Vec3, b: Vec3, c: Vec3)
    ensures Dot(Add(a, b), c) == Dot(a, c) + Dot(b, c)
  {
  }

  lemma DotSubLeft(a: Vec3, b: Vec3, c: Vec3)
    ensures Dot(Sub(a, b), c) == Dot(a, c) - Dot(b, c)
  {
  }

  lemma DotScaleLeft(v: Vec3, d: real, w: Vec3)
    ensures Dot(Scale(v, d), w) == d * Dot(v, w)
  {
  }

  /** Scaling a vector by `d` multiplies its squared length by `d²`. */
  lemma LengthSquaredScale(v: Vec3, d: real)
    ensures LengthSquared(Scale(v, d)) == d * d * LengthSquared(v)
  {
  }

  /** Pythagoras: the squared length of `u - w * s` splits into the squared
      length of `u` and that of `w * s` when `u` is orthogonal to `w`. */
  lemma {:induction false} PythagorasSub(u: Vec3, w: Vec3, s: real)
    requires Dot(u, w) == 0.0
    ensures LengthSquared(Sub(u, Scale(w, s))) == LengthSquared(u) + s * s * LengthSquared(w)
  {
    ComponentSquare(u.x, w.x, s);
    ComponentSquare(u.y, w.y, s);
    ComponentSquare(u.z, w.z, s);
    SumScaled(s, u.x * w.x, u.y * w.y, u.z * w.z);
    SumScaled(s * s, w.x * w.x, w.y * w.y, w.z * w.z);
    assert LengthSquared(Sub(u, Scale(w, s))) ==
      (u.x - w.x * s) * (u.x - w.x * s) + (u.y - w.y * s) * (u.y - w.y * s) + (u.z - w.z * s) * (u.z - w.z * s);
  }

  /** One component of the expansion: `(a − b·s)² = a² − 2·s·(a·b) + s²·b²`. */
  lemma ComponentSquare(a: real, b: real, s: real)
    ensures (a - b * s) * (a - b * s) == a * a - 2.0 * (s * (a * b)) + s * s * (b * b)
  {
  }

  lemma SumScaled(k: real, a: real, b: real, c: real)
    ensures k * a + k * b + k * c == k * (a + b + c)
  {
  }
}
