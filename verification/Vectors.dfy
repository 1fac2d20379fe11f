/** The vector and matrix algebra behind the SOFA p-vector and r-matrix routines, on values. */
module Vectors {
  import opened RealArith

  datatype Vec = Vec(x: real, y: real, z: real)

  /** A 3x3 matrix by rows. */
  datatype Mat = Mat(r0: Vec, r1: Vec, r2: Vec)

  /** Position and velocity. */
  datatype PosVel = PosVel(p: Vec, v: Vec)

  const ZERO := Vec(0.0, 0.0, 0.0)
  const IDENTITY := Mat(Vec(1.0, 0.0, 0.0), Vec(0.0, 1.0, 0.0), Vec(0.0, 0.0, 1.0))

  function Add(a: Vec, b: Vec): Vec { Vec(a.x + b.x, a.y + b.y, a.z + b.z) }

  function Sub(a: Vec, b: Vec): Vec { Vec(a.x - b.x, a.y - b.y, a.z - b.z) }

  function Scale(s: real, a: Vec): Vec { Vec(s * a.x, s * a.y, s * a.z) }

  function Dot(a: Vec, b: Vec): real { a.x * b.x + a.y * b.y + a.z * b.z }

  function Cross(a: Vec, b: Vec): Vec {
    Vec(a.y * b.z - a.z * b.y, a.z * b.x - a.x * b.z, a.x * b.y - a.y * b.x)
  }

  function Transpose(a: Mat): Mat {
    Mat(Vec(a.r0.x, a.r1.x, a.r2.x), Vec(a.r0.y, a.r1.y, a.r2.y), Vec(a.r0.z, a.r1.z, a.r2.z))
  }

  function Apply(a: Mat, v: Vec): Vec { Vec(Dot(a.r0, v), Dot(a.r1, v), Dot(a.r2, v)) }

  function Mul(a: Mat, b: Mat): Mat {
    var t := Transpose(b);
    Mat(Apply(t, a.r0), Apply(t, a.r1), Apply(t, a.r2))
  }

  predicate Unit(a: Vec) { Dot(a, a) == 1.0 }

  lemma UnitMeans(p: Vec)
    ensures Unit(p) <==> Dot(p, p) == 1.0
  {}

  /** Orthonormal rows that form a right-handed triad. */
  predicate IsRotation(a: Mat) {
    && Unit(a.r0)
    && Unit(a.r1)
    && Dot(a.r0, a.r1) == 0.0
    && a.r2 == Cross(a.r0, a.r1)
  }

  lemma DotOf(a: real, b: real, c: real, x: real, y: real, z: real)
    ensures Dot(Vec(a, b, c), Vec(x, y, z)) == a * x + b * y + c * z
  {}

  lemma CrossOf(a: real, b: real, c: real, x: real, y: real, z: real)
    ensures Cross(Vec(a, b, c), Vec(x, y, z)) == Vec(b * z - c * y, c * x - a * z, a * y - b * x)
  {}

  /** Equality component by component: the solver does not take an inequality of vectors apart by itself. */
  lemma SameVec(a: Vec, b: Vec)
    requires a.x == b.x && a.y == b.y && a.z == b.z
    ensures a == b
  {}

  lemma ScaleTwice(a: real, b: real, p: Vec)
    ensures Scale(a, Scale(b, p)) == Scale(a * b, p)
  {
    SameVec(Scale(a, Scale(b, p)), Scale(a * b, p));
  }

  lemma ScaleOne(p: Vec)
    ensures Scale(1.0, p) == p
  {}

  lemma DotScaled(s: real, p: Vec)
    ensures Dot(Scale(s, p), Scale(s, p)) == (s * s) * Dot(p, p)
  {}

  lemma DotSelf(a: Vec)
    ensures Dot(a, a) >= 0.0
    ensures Dot(a, a) == 0.0 <==> a == ZERO
  {
    SquareSign(a.x);
    SquareSign(a.y);
    SquareSign(a.z);
  }

  lemma ApplyMul(a: Mat, b: Mat, v: Vec)
    ensures Apply(Mul(a, b), v) == Apply(a, Apply(b, v))
  {
    SameVec(Apply(Mul(a, b), v), Apply(a, Apply(b, v)));
  }

  lemma TransposeMul(a: Mat, b: Mat)
    ensures Transpose(Mul(a, b)) == Mul(Transpose(b), Transpose(a))
  {}

  lemma MulAssociative(a: Mat, b: Mat, c: Mat)
    ensures Mul(Mul(a, b), c) == Mul(a, Mul(b, c))
  {
    var bt, ct := Transpose(b), Transpose(c);
    TransposeMul(b, c);
    ApplyMul(ct, bt, a.r0);
    ApplyMul(ct, bt, a.r1);
    ApplyMul(ct, bt, a.r2);
  }

  lemma MulIdentity(a: Mat)
    ensures Mul(a, IDENTITY) == a && Mul(IDENTITY, a) == a
  {}

  lemma DotApply(a: Mat, u: Vec, v: Vec)
    ensures Dot(Apply(a, u), v) == Dot(u, Apply(Transpose(a), v))
  {}

  lemma DotLinear(a: Vec, b: Vec, s: real)
    ensures Dot(a, b) == Dot(b, a)
    ensures Dot(Scale(s, a), b) == s * Dot(a, b)
  {}

  /** |a x b|^2 = |a|^2 |b|^2 - (a.b)^2, and a x b is perpendicular to both factors. */
  lemma CrossProperties(a: Vec, b: Vec)
    ensures Dot(Cross(a, b), Cross(a, b)) == Dot(a, a) * Dot(b, b) - Dot(a, b) * Dot(a, b)
    ensures Dot(Cross(a, b), a) == 0.0 && Dot(Cross(a, b), b) == 0.0
  {}

  /** One component of (a x b) x c. */
  lemma DoubleCrossComponent(a: Vec, b: Vec, c: Vec)
    ensures Cross(Cross(a, b), c).x == Dot(a, c) * b.x - Dot(b, c) * a.x
  {
    var y, z := a.z * b.x - a.x * b.z, a.x * b.y - a.y * b.x;
    assert y * c.z == a.z * b.x * c.z - a.x * b.z * c.z;
    assert z * c.y == a.x * b.y * c.y - a.y * b.x * c.y;
    assert Dot(a, c) * b.x == a.x * c.x * b.x + a.y * c.y * b.x + a.z * c.z * b.x;
    assert Dot(b, c) * a.x == b.x * c.x * a.x + b.y * c.y * a.x + b.z * c.z * a.x;
  }

  lemma DoubleCross(a: Vec, b: Vec, c: Vec)
    ensures Cross(Cross(a, b), c) == Sub(Scale(Dot(a, c), b), Scale(Dot(b, c), a))
  {
    hide Cross, Dot;
    DoubleCrossComponent(a, b, c);
    DoubleCrossComponent(Turned(a), Turned(b), Turned(c));
    DoubleCrossComponent(Turned(Turned(a)), Turned(Turned(b)), Turned(Turned(c)));
    TurnedProducts(a, b);
    TurnedProducts(Turned(a), Turned(b));
    TurnedProducts(Cross(a, b), c);
    TurnedProducts(Turned(Cross(a, b)), Turned(c));
    TurnedProducts(a, c);
    TurnedProducts(Turned(a), Turned(c));
    TurnedProducts(b, c);
    TurnedProducts(Turned(b), Turned(c));
  }

  /** The components in cyclic order, from the second on. */
  function Turned(a: Vec): Vec {
    Vec(a.y, a.z, a.x)
  }

  lemma TurnedProducts(a: Vec, b: Vec)
    ensures Cross(Turned(a), Turned(b)) == Turned(Cross(a, b)) && Dot(Turned(a), Turned(b)) == Dot(a, b)
  {}

  /** The third row of a rotation completes the triad in every cyclic order. */
  lemma RotationTriad(a: Mat)
    requires IsRotation(a)
    ensures Unit(a.r2) && Dot(a.r0, a.r2) == 0.0 && Dot(a.r1, a.r2) == 0.0
    ensures a.r1 == Cross(a.r2, a.r0) && a.r0 == Cross(a.r1, a.r2)
  {
    CrossProperties(a.r0, a.r1);
    DotLinear(a.r0, a.r1, 1.0);
    DotLinear(a.r0, a.r2, 1.0);
    DotLinear(a.r1, a.r2, 1.0);
    DoubleCross(a.r0, a.r1, a.r0);
    DoubleCross(a.r1, a.r0, a.r1);
  }

  /** The transpose of a rotation undoes it, on either side. */
  lemma RotationInverse(a: Mat)
    requires IsRotation(a)
    ensures Mul(a, Transpose(a)) == IDENTITY
  {
    RotationTriad(a);
    DotLinear(a.r0, a.r1, 1.0);
    DotLinear(a.r0, a.r2, 1.0);
    DotLinear(a.r1, a.r2, 1.0);
  }

  lemma CrossCombination(a: Mat, u: Vec, v: Vec)
    ensures Cross(Apply(Transpose(a), u), Apply(Transpose(a), v))
         == Add(Add(Scale(Cross(u, v).x, Cross(a.r1, a.r2)), Scale(Cross(u, v).y, Cross(a.r2, a.r0))),
                Scale(Cross(u, v).z, Cross(a.r0, a.r1)))
  {
    var t := Transpose(a);
    var a', a'' := TurnedRows(a), TurnedRows(TurnedRows(a));
    CrossCombinationX(a, u, v);
    CrossCombinationX(a', u, v);
    CrossCombinationX(a'', u, v);
    hide Cross, Dot;
    TurnedProducts(Apply(t, u), Apply(t, v));
    TurnedProducts(Turned(Apply(t, u)), Turned(Apply(t, v)));
    TurnedProducts(a.r1, a.r2);
    TurnedProducts(a.r2, a.r0);
    TurnedProducts(a.r0, a.r1);
    TurnedProducts(a'.r1, a'.r2);
    TurnedProducts(a'.r2, a'.r0);
    TurnedProducts(a'.r0, a'.r1);
  }

  function TurnedRows(a: Mat): Mat {
    Mat(Turned(a.r0), Turned(a.r1), Turned(a.r2))
  }

  lemma CrossCombinationX(a: Mat, u: Vec, v: Vec)
    ensures Cross(Apply(Transpose(a), u), Apply(Transpose(a), v)).x
         == Cross(u, v).x * Cross(a.r1, a.r2).x + Cross(u, v).y * Cross(a.r2, a.r0).x
          + Cross(u, v).z * Cross(a.r0, a.r1).x
  {
    var p, q := Vec(a.r0.y, a.r1.y, a.r2.y), Vec(a.r0.z, a.r1.z, a.r2.z);
    var w := Cross(u, v);
    var s, t := Dot(p, u) * Dot(q, v), Dot(q, u) * Dot(p, v);
    CombinedX(a, u, v, p, q);
    CombinationProduct(u, v, p, q, s);
    CombinationProduct(u, v, q, p, t);
    MinorProduct(u.y, u.z, v.y, v.z, a.r1, a.r2, w.x, w.x * Cross(a.r1, a.r2).x);
    MinorProduct(u.z, u.x, v.z, v.x, a.r2, a.r0, w.y, w.y * Cross(a.r2, a.r0).x);
    MinorProduct(u.x, u.y, v.x, v.y, a.r0, a.r1, w.z, w.z * Cross(a.r0, a.r1).x);
  }

  lemma CombinedX(a: Mat, u: Vec, v: Vec, p: Vec, q: Vec)
    requires p == Vec(a.r0.y, a.r1.y, a.r2.y) && q == Vec(a.r0.z, a.r1.z, a.r2.z)
    ensures Cross(Apply(Transpose(a), u), Apply(Transpose(a), v)).x == Dot(p, u) * Dot(q, v) - Dot(q, u) * Dot(p, v)
  {
    hide Dot;
  }

  lemma CombinationProduct(u: Vec, v: Vec, p: Vec, q: Vec, s: real)
    requires s == Dot(p, u) * Dot(q, v)
    ensures s
         == u.x * v.x * p.x * q.x + u.x * v.y * p.x * q.y + u.x * v.z * p.x * q.z
          + u.y * v.x * p.y * q.x + u.y * v.y * p.y * q.y + u.y * v.z * p.y * q.z
          + u.z * v.x * p.z * q.x + u.z * v.y * p.z * q.y + u.z * v.z * p.z * q.z
  {}

  lemma MinorProduct(a: real, b: real, c: real, d: real, p: Vec, q: Vec, k: real, r: real)
    requires k == a * d - b * c && r == k * Cross(p, q).x
    ensures r
         == a * d * p.y * q.z - a * d * p.z * q.y - b * c * p.y * q.z + b * c * p.z * q.y
  {}

  /** A rotation preserves scalar and vector products. */
  lemma RotationPreserves(a: Mat, u: Vec, v: Vec)
    requires IsRotation(a)
    ensures Dot(Apply(Transpose(a), u), Apply(Transpose(a), v)) == Dot(u, v)
    ensures Cross(Apply(Transpose(a), u), Apply(Transpose(a), v)) == Apply(Transpose(a), Cross(u, v))
  {
    var t := Transpose(a);
    RotationInverse(a);
    ApplyMul(a, t, v);
    DotApply(t, u, Apply(t, v));
    RotationTriad(a);
    CrossCombination(a, u, v);
  }

  lemma ProductOfRotations(a: Mat, b: Mat)
    requires IsRotation(a) && IsRotation(b)
    ensures IsRotation(Mul(a, b))
  {
    RotationPreserves(b, a.r0, a.r0);
    RotationPreserves(b, a.r1, a.r1);
    RotationPreserves(b, a.r0, a.r1);
  }

  /** The transpose is also a left inverse: the rows span the space. */
  lemma RotationUndone(a: Mat, v: Vec)
    requires IsRotation(a)
    ensures Apply(Transpose(a), Apply(a, v)) == v
  {
    var t := Transpose(a);
    var u := Apply(t, Apply(a, v));
    RotationInverse(a);
    hide Apply, Mul, Transpose, IsRotation;
    ApplyMul(a, t, Apply(a, v));
    ApplyIdentity(Apply(a, v));
    ApplySub(a, v, u);
    Nullspace(a, Sub(v, u));
  }

  lemma ApplyIdentity(v: Vec)
    ensures Apply(IDENTITY, v) == v
  {}

  lemma ApplySub(a: Mat, u: Vec, v: Vec)
    ensures Apply(a, Sub(u, v)) == Sub(Apply(a, u), Apply(a, v))
  {
    DotSub(a.r0, u, v);
    DotSub(a.r1, u, v);
    DotSub(a.r2, u, v);
    hide Dot;
  }

  lemma DotSub(a: Vec, u: Vec, v: Vec)
    ensures Dot(a, Sub(u, v)) == Dot(a, u) - Dot(a, v)
  {}

  /** Only the null vector is perpendicular to all rows. */
  lemma Nullspace(a: Mat, w: Vec)
    requires IsRotation(a) && Apply(a, w) == ZERO
    ensures w == ZERO
  {
    RotationTriad(a);
    hide Dot, Cross, Scale, Sub;
    DoubleCross(a.r0, a.r1, w);
    NullProducts(a.r0, a.r1);
    CrossWithUnit(a.r2, w);
    DotSelf(w);
  }

  lemma CrossWithUnit(a: Vec, w: Vec)
    requires Unit(a) && Dot(a, w) == 0.0
    ensures Dot(Cross(a, w), Cross(a, w)) == Dot(w, w)
  {
    CrossProperties(a, w);
  }

  lemma NullProducts(a: Vec, b: Vec)
    ensures Sub(Scale(0.0, b), Scale(0.0, a)) == ZERO && Dot(ZERO, ZERO) == 0.0
  {}

  lemma TransposeIsRotation(a: Mat)
    requires IsRotation(a)
    ensures IsRotation(Transpose(a))
  {
    RotationTriad(a);
    RotationUndone(a, Vec(1.0, 0.0, 0.0));
    RotationUndone(a, Vec(0.0, 1.0, 0.0));
  }

  /** A rotation keeps lengths and angles. */
  lemma RotationIsIsometry(a: Mat, u: Vec, v: Vec)
    requires IsRotation(a)
    ensures Dot(Apply(a, u), Apply(a, v)) == Dot(u, v)
  {
    TransposeIsRotation(a);
    RotationPreserves(Transpose(a), u, v);
  }
}
