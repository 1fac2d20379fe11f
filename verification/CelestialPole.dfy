/** The celestial-to-intermediate matrix of sofa/c2ixys.c has the pole it was asked for. */
module CelestialPole {
  import opened MathLibrary
  import opened RealArith
  import opened Vectors
  import opened Rotations

  lemma MatrixIsRotation(m: Libm, e: real, d: real, s: real)
    requires m.Valid()
    ensures IsRotation(C2ixysProduct(m, e, d, s))
  {
    hide IsRotation, Mul, RotY, RotZ;
    RotZIsRotation(m, e);
    RotYIsRotation(m, d);
    RotZIsRotation(m, -(e + s));
    ProductOfRotations(RotY(m, d), RotZ(m, e));
    ProductOfRotations(RotZ(m, -(e + s)), Mul(RotY(m, d), RotZ(m, e)));
  }

  lemma ThirdRow(m: Libm, e: real, d: real, s: real)
    ensures C2ixysProduct(m, e, d, s).r2 == Vec(m.sin(d) * m.cos(e), m.sin(d) * m.sin(e), m.cos(d))
  {
    ProductThirdRow(m.cos(-(e + s)), m.sin(-(e + s)), m.cos(d), m.sin(d), m.cos(e), m.sin(e));
  }

  lemma LastRowKept(c: real, s: real, a: Mat)
    ensures Mul(Mat(Vec(c, s, 0.0), Vec(-s, c, 0.0), Vec(0.0, 0.0, 1.0)), a).r2 == a.r2
  {}

  lemma ProductThirdRow(c: real, s: real, cd: real, sd: real, ce: real, se: real)
    ensures Mul(Mat(Vec(c, s, 0.0), Vec(-s, c, 0.0), Vec(0.0, 0.0, 1.0)),
                Mul(Mat(Vec(cd, 0.0, -sd), Vec(0.0, 1.0, 0.0), Vec(sd, 0.0, cd)),
                    Mat(Vec(ce, se, 0.0), Vec(-se, ce, 0.0), Vec(0.0, 0.0, 1.0)))).r2
         == Vec(sd * ce, sd * se, cd)
  {
    var a := Mat(Vec(ce, se, 0.0), Vec(-se, ce, 0.0), Vec(0.0, 0.0, 1.0));
    var b := Mat(Vec(cd, 0.0, -sd), Vec(0.0, 1.0, 0.0), Vec(sd, 0.0, cd));
    DotOf(ce, -se, 0.0, sd, 0.0, cd);
    DotOf(se, ce, 0.0, sd, 0.0, cd);
    DotOf(0.0, 0.0, 1.0, sd, 0.0, cd);
    assert Mul(b, a).r2 == Vec(sd * ce, sd * se, cd);
    LastRowKept(c, s, Mul(b, a));
  }

  /** sin d is the length of (x, y) and cos d what completes it. */
  lemma DistanceEncodes(m: Libm, r2: real)
    requires m.Valid() && 0.0 <= r2 <= 1.0
    ensures var d := PoleDistance(m, r2);
            m.sin(d) == m.sqrt(r2) && m.cos(d) == m.sqrt(1.0 - r2)
  {
    if r2 == 1.0 {
      QuarterTurn(m);
      m.SqrtUnique(1.0, 1.0);
      m.SqrtUnique(0.0, 0.0);
    } else {
      TangentEncodes(m, r2);
    }
  }

  lemma QuarterTurn(m: Libm)
    requires m.Valid()
    ensures m.sin(m.pi / 2.0) == 1.0 && m.cos(m.pi / 2.0) == 0.0
  {
    var c := m.cos(m.pi / 2.0);
    assert m.UnitCircle(m.pi / 2.0) && m.QuarterLaw(m.pi / 2.0);
    SquareSign(c);
  }

  lemma TangentEncodes(m: Libm, r2: real)
    requires m.Valid() && 0.0 <= r2 < 1.0
    ensures var d := PoleDistance(m, r2);
            m.sin(d) == m.sqrt(r2) && m.cos(d) == m.sqrt(1.0 - r2)
  {
    var q := r2 / (1.0 - r2);
    var d, t := PoleDistance(m, r2), m.sqrt(q);
    var s, c := m.sin(d), m.cos(d);
    assert q * (1.0 - r2) == r2;
    QuotientSign(q, 1.0 - r2, r2);
    assert m.SqrtLaw(q) && m.AtanLaw(t) && m.UnitCircle(d);
    assert s * s == q * (c * c) by {
      assert s * s == (t * c) * (t * c) == (t * t) * (c * c);
    }
    TangentSquares(s * s, c * c, q, r2);
    NonnegativeProduct(t, c, s);
    m.SqrtUnique(r2, s);
    m.SqrtUnique(1.0 - r2, c);
  }

  lemma QuotientSign(q: real, k: real, r: real)
    requires k > 0.0 && q * k == r && r >= 0.0
    ensures q >= 0.0
  {
    ProductSign(q, k);
  }

  lemma TangentSquares(s2: real, c2: real, q: real, r2: real)
    requires r2 < 1.0 && q * (1.0 - r2) == r2 && s2 == q * c2 && s2 + c2 == 1.0
    ensures s2 == r2 && c2 == 1.0 - r2
  {
    assert s2 * (1.0 - r2) == q * (1.0 - r2) * c2 == r2 * (1.0 - s2);
    assert s2 == r2;
  }

  /**
   iauC2ixys forms a rotation whose third row is the requested pole: the components x and y and
   the third component that makes it a unit vector.
   */
  lemma PoleIsThirdRow(m: Libm, x: real, y: real, s: real)
    requires m.Valid() && InDisc(x, y)
    ensures IsRotation(C2ixysMatrix(m, x, y, s))
    ensures C2ixysMatrix(m, x, y, s).r2 == Vec(x, y, m.sqrt(1.0 - (x * x + y * y)))
  {
    hide IsRotation, C2ixysProduct, PoleDistance;
    var r2 := x * x + y * y;
    var e, d := PoleAzimuth(m, x, y, r2), PoleDistance(m, r2);
    MatrixIsRotation(m, e, d, s);
    ThirdRow(m, e, d, s);
    SquaresSumToZero(x, y);
    DistanceEncodes(m, r2);
    var h := m.sqrt(r2);
    assert m.SqrtLaw(r2);
    SquareSign(h);
    if r2 > 0.0 {
      m.PolarPoint(y, x, h);
    }
  }
}
