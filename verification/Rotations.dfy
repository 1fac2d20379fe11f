/**
 Rotation matrices: the in-place SOFA routines (sofa/ir.c, sofa/rx.c, sofa/ry.c, sofa/rz.c and their
 users), each proved to multiply by the matrix that defines its axis rotation.
 */
module Rotations {
  import opened MathLibrary
  import opened RealArith
  import opened Vectors

  function RotX(m: Libm, phi: real): Mat {
    var s, c := m.sin(phi), m.cos(phi);
    Mat(Vec(1.0, 0.0, 0.0), Vec(0.0, c, s), Vec(0.0, -s, c))
  }

  function RotY(m: Libm, theta: real): Mat {
    var s, c := m.sin(theta), m.cos(theta);
    Mat(Vec(c, 0.0, -s), Vec(0.0, 1.0, 0.0), Vec(s, 0.0, c))
  }

  function RotZ(m: Libm, psi: real): Mat {
    var s, c := m.sin(psi), m.cos(psi);
    Mat(Vec(c, s, 0.0), Vec(-s, c, 0.0), Vec(0.0, 0.0, 1.0))
  }

  predicate IsSquare(r: array2<real>) {
    r.Length0 == 3 && r.Length1 == 3
  }

  function MatAt(r: array2<real>): Mat
    requires IsSquare(r)
    reads r
  {
    Mat(Vec(r[0, 0], r[0, 1], r[0, 2]), Vec(r[1, 0], r[1, 1], r[1, 2]), Vec(r[2, 0], r[2, 1], r[2, 2]))
  }

  method Ir(r: array2<real>)
    requires IsSquare(r)
    modifies r
    ensures MatAt(r) == IDENTITY
  {
    r[0, 0] := 1.0;
    r[0, 1] := 0.0;
    r[0, 2] := 0.0;
    r[1, 0] := 0.0;
    r[1, 1] := 1.0;
    r[1, 2] := 0.0;
    r[2, 0] := 0.0;
    r[2, 1] := 0.0;
    r[2, 2] := 1.0;
  }

  method Rx(m: Libm, phi: real, r: array2<real>)
    requires IsSquare(r)
    modifies r
    ensures MatAt(r) == Mul(RotX(m, phi), old(MatAt(r)))
  {
    ghost var product := Mul(RotX(m, phi), MatAt(r));
    var s, c := m.sin(phi), m.cos(phi);
    var a10 := c * r[1, 0] + s * r[2, 0];
    var a11 := c * r[1, 1] + s * r[2, 1];
    var a12 := c * r[1, 2] + s * r[2, 2];
    var a20 := -s * r[1, 0] + c * r[2, 0];
    var a21 := -s * r[1, 1] + c * r[2, 1];
    var a22 := -s * r[1, 2] + c * r[2, 2];
    assert product == Mat(MatAt(r).r0, Vec(a10, a11, a12), Vec(a20, a21, a22));
    r[1, 0] := a10;
    r[1, 1] := a11;
    r[1, 2] := a12;
    r[2, 0] := a20;
    r[2, 1] := a21;
    r[2, 2] := a22;
  }

  method Ry(m: Libm, theta: real, r: array2<real>)
    requires IsSquare(r)
    modifies r
    ensures MatAt(r) == Mul(RotY(m, theta), old(MatAt(r)))
  {
    ghost var product := Mul(RotY(m, theta), MatAt(r));
    var s, c := m.sin(theta), m.cos(theta);
    var a00 := c * r[0, 0] - s * r[2, 0];
    var a01 := c * r[0, 1] - s * r[2, 1];
    var a02 := c * r[0, 2] - s * r[2, 2];
    var a20 := s * r[0, 0] + c * r[2, 0];
    var a21 := s * r[0, 1] + c * r[2, 1];
    var a22 := s * r[0, 2] + c * r[2, 2];
    assert product == Mat(Vec(a00, a01, a02), MatAt(r).r1, Vec(a20, a21, a22));
    r[0, 0] := a00;
    r[0, 1] := a01;
    r[0, 2] := a02;
    r[2, 0] := a20;
    r[2, 1] := a21;
    r[2, 2] := a22;
  }

  method Rz(m: Libm, psi: real, r: array2<real>)
    requires IsSquare(r)
    modifies r
    ensures MatAt(r) == Mul(RotZ(m, psi), old(MatAt(r)))
  {
    ghost var product := Mul(RotZ(m, psi), MatAt(r));
    var s, c := m.sin(psi), m.cos(psi);
    var a00 := c * r[0, 0] + s * r[1, 0];
    var a01 := c * r[0, 1] + s * r[1, 1];
    var a02 := c * r[0, 2] + s * r[1, 2];
    var a10 := -s * r[0, 0] + c * r[1, 0];
    var a11 := -s * r[0, 1] + c * r[1, 1];
    var a12 := -s * r[0, 2] + c * r[1, 2];
    assert product == Mat(Vec(a00, a01, a02), Vec(a10, a11, a12), MatAt(r).r2);
    r[0, 0] := a00;
    r[0, 1] := a01;
    r[0, 2] := a02;
    r[1, 0] := a10;
    r[1, 1] := a11;
    r[1, 2] := a12;
  }

  /** iauPm and iauPn: modulus and direction; the null vector has null direction. */
  function Modulus(m: Libm, p: Vec): real {
    m.sqrt(Dot(p, p))
  }

  function Direction(m: Libm, p: Vec): Vec {
    if Modulus(m, p) == 0.0 then ZERO else Scale(1.0 / Modulus(m, p), p)
  }

  /** iauPn splits every vector into a nonnegative modulus and a unit (or null) direction. */
  lemma PnRecomposes(m: Libm, p: Vec)
    requires m.Valid()
    ensures Modulus(m, p) >= 0.0 && Modulus(m, p) * Modulus(m, p) == Dot(p, p)
    ensures Modulus(m, p) == 0.0 <==> p == ZERO
    ensures Scale(Modulus(m, p), Direction(m, p)) == p
    ensures p != ZERO ==> Unit(Direction(m, p))
  {
    var w := Modulus(m, p);
    assert m.SqrtLaw(Dot(p, p));
    DotSelf(p);
    SquareSign(w);
    if w != 0.0 {
      NormalisedVector(p, w);
    }
  }

  lemma NormalisedVector(p: Vec, w: real)
    requires w != 0.0 && w * w == Dot(p, p)
    ensures Unit(Scale(1.0 / w, p)) && Scale(w, Scale(1.0 / w, p)) == p
  {
    var s := 1.0 / w;
    assert w * s == 1.0;
    DotScaled(s, p);
    assert (s * s) * (w * w) == (s * w) * (s * w);
    ScaleTwice(w, s, p);
    ScaleOne(p);
  }

  lemma PlaneX(c: real, s: real)
    requires s * s + c * c == 1.0
    ensures IsRotation(Mat(Vec(1.0, 0.0, 0.0), Vec(0.0, c, s), Vec(0.0, -s, c)))
  {
    hide Dot, Cross;
    DotOf(1.0, 0.0, 0.0, 1.0, 0.0, 0.0);
    DotOf(0.0, c, s, 0.0, c, s);
    DotOf(1.0, 0.0, 0.0, 0.0, c, s);
    CrossOf(1.0, 0.0, 0.0, 0.0, c, s);
  }

  lemma PlaneY(c: real, s: real)
    requires s * s + c * c == 1.0
    ensures IsRotation(Mat(Vec(c, 0.0, -s), Vec(0.0, 1.0, 0.0), Vec(s, 0.0, c)))
  {
    hide Dot, Cross;
    DotOf(c, 0.0, -s, c, 0.0, -s);
    DotOf(0.0, 1.0, 0.0, 0.0, 1.0, 0.0);
    DotOf(c, 0.0, -s, 0.0, 1.0, 0.0);
    CrossOf(c, 0.0, -s, 0.0, 1.0, 0.0);
  }

  lemma PlaneZ(c: real, s: real)
    requires s * s + c * c == 1.0
    ensures IsRotation(Mat(Vec(c, s, 0.0), Vec(-s, c, 0.0), Vec(0.0, 0.0, 1.0)))
  {
    hide Dot, Cross;
    DotOf(c, s, 0.0, c, s, 0.0);
    DotOf(-s, c, 0.0, -s, c, 0.0);
    DotOf(c, s, 0.0, -s, c, 0.0);
    CrossOf(c, s, 0.0, -s, c, 0.0);
  }

  lemma RotXIsRotation(m: Libm, a: real)
    requires m.Valid()
    ensures IsRotation(RotX(m, a))
  {
    hide IsRotation, Unit, Dot, Cross;
    assert m.UnitCircle(a);
    PlaneX(m.cos(a), m.sin(a));
  }

  lemma RotYIsRotation(m: Libm, a: real)
    requires m.Valid()
    ensures IsRotation(RotY(m, a))
  {
    hide IsRotation, Unit, Dot, Cross;
    assert m.UnitCircle(a);
    PlaneY(m.cos(a), m.sin(a));
  }

  lemma RotZIsRotation(m: Libm, a: real)
    requires m.Valid()
    ensures IsRotation(RotZ(m, a))
  {
    hide IsRotation, Unit, Dot, Cross;
    assert m.UnitCircle(a);
    PlaneZ(m.cos(a), m.sin(a));
  }

  lemma RotZSum(m: Libm, a: real, b: real)
    requires m.Valid()
    ensures RotZ(m, a + b) == Mul(RotZ(m, a), RotZ(m, b))
  {
    assert m.SumLaw(a, b);
  }

  /** The pole (x, y) of a unit vector. */
  predicate InDisc(x: real, y: real) {
    x * x + y * y <= 1.0
  }

  /** iauC2ixys: the celestial-to-intermediate matrix of a pole (x, y) and locator s. */
  function C2ixysMatrix(m: Libm, x: real, y: real, s: real): Mat
    requires InDisc(x, y)
  {
    C2ixysProduct(m, PoleAzimuth(m, x, y, x * x + y * y), PoleDistance(m, x * x + y * y), s)
  }

  function PoleAzimuth(m: Libm, x: real, y: real, r2: real): real {
    if r2 > 0.0 then m.atan2(y, x) else 0.0
  }

  /** On the unit circle the quotient is infinite in floating point, and its arc tangent a quarter turn. */
  function PoleDistance(m: Libm, r2: real): real
    requires r2 <= 1.0
  {
    if r2 == 1.0 then m.pi / 2.0 else m.atan(m.sqrt(r2 / (1.0 - r2)))
  }

  function C2ixysProduct(m: Libm, e: real, d: real, s: real): Mat {
    Mul(RotZ(m, -(e + s)), Mul(RotY(m, d), RotZ(m, e)))
  }

  method C2ixys(m: Libm, x: real, y: real, s: real, rc2i: array2<real>)
    requires IsSquare(rc2i) && InDisc(x, y)
    modifies rc2i
    ensures MatAt(rc2i) == C2ixysMatrix(m, x, y, s)
  {
    hide Mul, RotX, RotY, RotZ, MatAt;
    var r2 := x * x + y * y;
    var e := if r2 > 0.0 then m.atan2(y, x) else 0.0;
    var d := if r2 == 1.0 then m.pi / 2.0 else m.atan(m.sqrt(r2 / (1.0 - r2)));
    assert e == PoleAzimuth(m, x, y, r2) && d == PoleDistance(m, r2);
    Ir(rc2i);
    Rz(m, e, rc2i);
    MulIdentity(RotZ(m, e));
    Ry(m, d, rc2i);
    Rz(m, -(e + s), rc2i);
  }
}
