/** What the astrometry context means: the matrix behind its angles, and the fast update. */
module ContextLaws {
  import opened MathLibrary
  import opened RealArith
  import opened Angles
  import opened Vectors
  import opened Rotations
  import opened Astrometry

  lemma LocalMatrixIsRotation(m: Libm, theta: real, site: Site)
    requires m.Valid()
    ensures IsRotation(LocalMatrix(m, theta, site))
  {
    hide IsRotation, Mul, RotX, RotY, RotZ;
    var a, b, c, d := RotZ(m, site.elong), RotX(m, -site.yp), RotY(m, -site.xp), RotZ(m, theta + site.sp);
    RotZIsRotation(m, site.elong);
    RotXIsRotation(m, -site.yp);
    RotYIsRotation(m, -site.xp);
    RotZIsRotation(m, theta + site.sp);
    ProductOfRotations(c, d);
    ProductOfRotations(b, Mul(c, d));
    ProductOfRotations(a, Mul(b, Mul(c, d)));
  }

  /** Turning the Earth multiplies the matrix on the right. */
  lemma EarthTurns(m: Libm, theta0: real, theta1: real, site: Site)
    requires m.Valid()
    ensures LocalMatrix(m, theta1, site) == Mul(LocalMatrix(m, theta0, site), RotZ(m, theta1 - theta0))
  {
    hide Mul, RotX, RotY, RotZ;
    var a, b, c, d := RotZ(m, site.elong), RotX(m, -site.yp), RotY(m, -site.xp), RotZ(m, theta0 + site.sp);
    var e := RotZ(m, theta1 - theta0);
    RotZSum(m, theta0 + site.sp, theta1 - theta0);
    assert (theta0 + site.sp) + (theta1 - theta0) == theta1 + site.sp;
    MulAssociative(c, d, e);
    MulAssociative(b, Mul(c, d), e);
    MulAssociative(a, Mul(b, Mul(c, d)), e);
  }

  /** The rows after a turn: the first two columns rotate, the third stays. */
  lemma TurnedRow(m: Libm, delta: real, row: Vec)
    ensures Apply(Transpose(RotZ(m, delta)), row)
         == Vec(row.x * m.cos(delta) - row.y * m.sin(delta), row.x * m.sin(delta) + row.y * m.cos(delta), row.z)
  {
    var s, c := m.sin(delta), m.cos(delta);
    DotOf(c, -s, 0.0, row.x, row.y, row.z);
    DotOf(s, c, 0.0, row.x, row.y, row.z);
    DotOf(0.0, 0.0, 1.0, row.x, row.y, row.z);
  }

  /** The guarded atan2 of the source, at any point. */
  function GuardedAngle(m: Libm, y: real, x: real): real {
    if x != 0.0 || y != 0.0 then m.atan2(y, x) else 0.0
  }

  lemma GuardedAngleEncodes(m: Libm, y: real, x: real, h: real)
    requires m.Valid() && h >= 0.0 && h * h == x * x + y * y
    ensures h > 0.0 <==> x != 0.0 || y != 0.0
    ensures x == h * m.cos(GuardedAngle(m, y, x)) && y == h * m.sin(GuardedAngle(m, y, x))
  {
    SquaresSumToZero(x, y);
    SquareSign(h);
    if h > 0.0 {
      m.PolarPoint(y, x, h);
    }
  }

  lemma ColumnNorm(r: Mat)
    requires IsRotation(r)
    ensures r.r0.x * r.r0.x + r.r0.y * r.r0.y == 1.0 - r.r0.z * r.r0.z
    ensures r.r2.z * r.r2.z + r.r1.z * r.r1.z == 1.0 - r.r0.z * r.r0.z
  {
    TransposeIsRotation(r);
    RotationTriad(Transpose(r));
  }

  lemma HypotSquare(m: Libm, a: real, b: real)
    requires m.Valid()
    ensures Hypot(m, a, b) >= 0.0 && Hypot(m, a, b) * Hypot(m, a, b) == a * a + b * b
  {
    SquaresSumToZero(a, b);
    assert m.SqrtLaw(a * a + b * b);
  }

  lemma XpEncodes(m: Libm, a: real, b: real, c: real)
    requires m.Valid() && a * a + b * b == 1.0 - c * c
    ensures m.cos(m.atan2(c, Hypot(m, a, b))) == Hypot(m, a, b) && m.sin(m.atan2(c, Hypot(m, a, b))) == c
  {
    HypotSquare(m, a, b);
    m.PolarPoint(c, Hypot(m, a, b), 1.0);
  }

  /** The three stored angles encode the first row and the last column of the matrix. */
  lemma SolvedAngles(m: Libm, r: Mat, h: real)
    requires m.Valid() && IsRotation(r)
    requires h == Hypot(m, r.r0.x, r.r0.y)
    ensures h >= 0.0 && h * h == 1.0 - r.r0.z * r.r0.z
    ensures h > 0.0 <==> r.r0.x != 0.0 || r.r0.y != 0.0
    ensures m.sin(LocalXp(m, r)) == r.r0.z && m.cos(LocalXp(m, r)) == h
    ensures r.r0.x == h * m.cos(LocalEra(m, r)) && r.r0.y == h * m.sin(LocalEra(m, r))
    ensures r.r2.z == h * m.cos(LocalYp(m, r)) && r.r1.z == -(h * m.sin(LocalYp(m, r)))
  {
    hide IsRotation, Hypot, Libm.Valid, LocalXp, LocalEra, LocalYp;
    ColumnNorm(r);
    HypotSquare(m, r.r0.x, r.r0.y);
    SolvedXp(m, r);
    SolvedEraYp(m, r, h);
  }

  lemma SolvedXp(m: Libm, r: Mat)
    requires m.Valid() && r.r0.x * r.r0.x + r.r0.y * r.r0.y == 1.0 - r.r0.z * r.r0.z
    ensures m.sin(LocalXp(m, r)) == r.r0.z && m.cos(LocalXp(m, r)) == Hypot(m, r.r0.x, r.r0.y)
  {
    hide Hypot, Libm.Valid;
    XpEncodes(m, r.r0.x, r.r0.y, r.r0.z);
  }

  lemma SolvedEraYp(m: Libm, r: Mat, h: real)
    requires m.Valid() && h >= 0.0 && h * h == r.r0.x * r.r0.x + r.r0.y * r.r0.y
    requires h * h == r.r2.z * r.r2.z + r.r1.z * r.r1.z
    ensures h > 0.0 <==> r.r0.x != 0.0 || r.r0.y != 0.0
    ensures r.r0.x == h * m.cos(LocalEra(m, r)) && r.r0.y == h * m.sin(LocalEra(m, r))
    ensures r.r2.z == h * m.cos(LocalYp(m, r)) && r.r1.z == -(h * m.sin(LocalYp(m, r)))
  {
    hide Libm.Valid;
    GuardedAngleEncodes(m, r.r0.y, r.r0.x, h);
    YpEncodes(m, r.r1.z, r.r2.z, h);
  }

  lemma YpEncodes(m: Libm, y: real, x: real, h: real)
    requires m.Valid() && h >= 0.0 && h * h == x * x + y * y
    ensures var t := if y != 0.0 || x != 0.0 then -m.atan2(y, x) else 0.0;
            x == h * m.cos(t) && y == -(h * m.sin(t))
  {
    GuardedAngleEncodes(m, y, x, h);
    if h > 0.0 {
      m.Negated(m.atan2(y, x));
    }
  }

  // ---------- Decomposition and recomposition ----------

  /** The matrix that iauAtioq rebuilds from the stored angles. */
  function Recomposed(m: Libm, eral: real, xpl: real, ypl: real): Mat {
    Mul(RotX(m, -ypl), Mul(RotY(m, -xpl), RotZ(m, eral)))
  }

  /** The rebuilt matrix, entry by entry. */
  lemma RecomposedEntries(m: Libm, eral: real, xpl: real, ypl: real)
    requires m.Valid()
    ensures var se, ce, sx, cx, sy, cy := m.sin(eral), m.cos(eral), m.sin(xpl), m.cos(xpl), m.sin(ypl), m.cos(ypl);
            Recomposed(m, eral, xpl, ypl) ==
            Mat(Vec(cx * ce, cx * se, sx),
                Vec(sy * sx * ce - cy * se, cy * ce + sy * sx * se, -(sy * cx)),
                Vec(-(sy * se) - cy * sx * ce, sy * ce - cy * sx * se, cy * cx))
  {
    hide Mul;
    var se, ce, sx, cx, sy, cy := m.sin(eral), m.cos(eral), m.sin(xpl), m.cos(xpl), m.sin(ypl), m.cos(ypl);
    m.Negated(xpl);
    m.Negated(ypl);
    RecomposedProduct(se, ce, sx, cx, sy, cy);
    assert RotX(m, -ypl) == Mat(Vec(1.0, 0.0, 0.0), Vec(0.0, cy, -sy), Vec(0.0, sy, cy));
    assert RotY(m, -xpl) == Mat(Vec(cx, 0.0, sx), Vec(0.0, 1.0, 0.0), Vec(-sx, 0.0, cx));
  }

  lemma RecomposedProduct(se: real, ce: real, sx: real, cx: real, sy: real, cy: real)
    ensures Mul(Mat(Vec(1.0, 0.0, 0.0), Vec(0.0, cy, -sy), Vec(0.0, sy, cy)),
                Mul(Mat(Vec(cx, 0.0, sx), Vec(0.0, 1.0, 0.0), Vec(-sx, 0.0, cx)),
                    Mat(Vec(ce, se, 0.0), Vec(-se, ce, 0.0), Vec(0.0, 0.0, 1.0))))
         == Mat(Vec(cx * ce, cx * se, sx),
                Vec(sy * sx * ce - cy * se, cy * ce + sy * sx * se, -(sy * cx)),
                Vec(-(sy * se) - cy * sx * ce, sy * ce - cy * sx * se, cy * cx))
  {
    hide Mul;
    MulRotY(cx, -sx, Mat(Vec(ce, se, 0.0), Vec(-se, ce, 0.0), Vec(0.0, 0.0, 1.0)));
    MulRotX(cy, -sy, Mat(Vec(cx * ce, cx * se, sx), Vec(-se, ce, 0.0), Vec(-(sx * ce), -(sx * se), cx)));
    assert Mul(Mat(Vec(cx, 0.0, sx), Vec(0.0, 1.0, 0.0), Vec(-sx, 0.0, cx)),
               Mat(Vec(ce, se, 0.0), Vec(-se, ce, 0.0), Vec(0.0, 0.0, 1.0)))
        == Mat(Vec(cx * ce, cx * se, sx), Vec(-se, ce, 0.0), Vec(-(sx * ce), -(sx * se), cx));
    var a := Mat(Vec(cx * ce, cx * se, sx), Vec(-se, ce, 0.0), Vec(-(sx * ce), -(sx * se), cx));
    var p := Mul(Mat(Vec(1.0, 0.0, 0.0), Vec(0.0, cy, -sy), Vec(0.0, sy, cy)), a);
    assert cy * -se + -sy * -(sx * ce) == sy * sx * ce - cy * se;
    assert cy * ce + -sy * -(sx * se) == cy * ce + sy * sx * se;
    assert cy * -(sx * ce) - -sy * -se == -(sy * se) - cy * sx * ce;
    assert cy * -(sx * se) - -sy * ce == sy * ce - cy * sx * se;
    SameVec(p.r1, Vec(sy * sx * ce - cy * se, cy * ce + sy * sx * se, -(sy * cx)));
    SameVec(p.r2, Vec(-(sy * se) - cy * sx * ce, sy * ce - cy * sx * se, cy * cx));
  }

  lemma MulRotX(c: real, s: real, a: Mat)
    ensures Mul(Mat(Vec(1.0, 0.0, 0.0), Vec(0.0, c, s), Vec(0.0, -s, c)), a)
         == Mat(a.r0, Vec(c * a.r1.x + s * a.r2.x, c * a.r1.y + s * a.r2.y, c * a.r1.z + s * a.r2.z),
                Vec(c * a.r2.x - s * a.r1.x, c * a.r2.y - s * a.r1.y, c * a.r2.z - s * a.r1.z))
  {}

  lemma MulRotY(c: real, s: real, a: Mat)
    ensures Mul(Mat(Vec(c, 0.0, -s), Vec(0.0, 1.0, 0.0), Vec(s, 0.0, c)), a)
         == Mat(Vec(c * a.r0.x - s * a.r2.x, c * a.r0.y - s * a.r2.y, c * a.r0.z - s * a.r2.z), a.r1,
                Vec(s * a.r0.x + c * a.r2.x, s * a.r0.y + c * a.r2.y, s * a.r0.z + c * a.r2.z))
  {}

  /** A rotation with a regular first row is fixed by that row and its last column. */
  lemma RotationFromBorder(r: Mat, h: real, se: real, ce: real, sy: real, cy: real)
    requires IsRotation(r) && h > 0.0 && h * h == 1.0 - r.r0.z * r.r0.z
    requires r.r0.x == h * ce && r.r0.y == h * se
    requires r.r2.z == h * cy && r.r1.z == -(h * sy)
    ensures r.r1.x == sy * r.r0.z * ce - cy * se && r.r1.y == cy * ce + sy * r.r0.z * se
    ensures r.r2.x == -(sy * se) - cy * r.r0.z * ce && r.r2.y == sy * ce - cy * r.r0.z * se
  {
    RotationCofactors(r);
    hide IsRotation;
    BorderOuter(r.r0.x, r.r0.y, r.r0.z, r.r1.x, r.r1.z, r.r2.y, r.r2.z, h, se, ce, sy, cy);
    BorderInner(r.r0.x, r.r0.y, r.r0.z, r.r1.y, r.r1.z, r.r2.x, r.r2.z, h, se, ce, sy, cy);
  }

  /** Entries of a rotation as cofactors of the others. */
  lemma RotationCofactors(r: Mat)
    requires IsRotation(r)
    ensures r.r1.x == r.r2.y * r.r0.z - r.r2.z * r.r0.y && r.r1.y == r.r2.z * r.r0.x - r.r2.x * r.r0.z
    ensures r.r2.x == r.r0.y * r.r1.z - r.r0.z * r.r1.y && r.r2.y == r.r0.z * r.r1.x - r.r0.x * r.r1.z
  {
    RotationTriad(r);
    hide Dot, Unit;
  }

  lemma BorderOuter(a: real, b: real, c: real, d: real, f: real, i: real, j: real,
                    h: real, se: real, ce: real, sy: real, cy: real)
    requires d == i * c - j * b && i == c * d - a * f
    requires h > 0.0 && h * h == 1.0 - c * c
    requires a == h * ce && b == h * se && j == h * cy && f == -(h * sy)
    ensures d == sy * c * ce - cy * se && i == sy * ce - cy * c * se
  {
    BorderEntry(d, i, c, h, se, ce, sy, cy, b, a, -f, j);
    BorderEntry(i, d, c, h, -ce, -se, cy, sy, -a, -b, j, -f);
  }

  lemma BorderInner(a: real, b: real, c: real, e: real, f: real, g: real, j: real,
                    h: real, se: real, ce: real, sy: real, cy: real)
    requires e == j * a - g * c && g == b * f - c * e
    requires h > 0.0 && h * h == 1.0 - c * c
    requires a == h * ce && b == h * se && j == h * cy && f == -(h * sy)
    ensures e == cy * ce + sy * c * se && g == -(sy * se) - cy * c * ce
  {
    BorderEntry(e, g, -c, h, -ce, -se, sy, cy, -a, -b, -f, j);
    BorderEntry(g, e, -c, h, se, ce, cy, sy, b, a, j, -f);
  }

  /** Two mutually dependent entries are solved by eliminating one of them. */
  lemma BorderEntry(u: real, v: real, c: real, h: real, se: real, ce: real, sy: real, cy: real,
                    b: real, a: real, f: real, j: real)
    requires h > 0.0 && h * h == 1.0 - c * c
    requires b == h * se && a == h * ce && f == h * sy && j == h * cy
    requires u == v * c - j * b && v == u * c + a * f
    ensures u == (ce * sy) * c - cy * se
  {
    var k, m, n := 1.0 - c * c, j * b, a * f;
    PositiveProduct(h, h, k);
    assert m == (h * h) * (cy * se) == k * (cy * se);
    assert n == (h * h) * (ce * sy) == k * (ce * sy);
    Eliminate(u, v, c, ce * sy, cy * se, k, n, m);
  }

  lemma Eliminate(u: real, v: real, c: real, p: real, q: real, k: real, kp: real, kq: real)
    requires k == 1.0 - c * c && k > 0.0 && kp == k * p && kq == k * q
    requires u == v * c - kq && v == u * c + kp
    ensures u == p * c - q
  {
    assert v * c == u * (c * c) + kp * c;
    assert u * k == (p * c - q) * k;
    CancelFactor(u, p * c - q, k);
  }

  /** The first row has a horizontal part: the guard of the source's first atan2. */
  predicate Regular(r: Mat) {
    r.r0.x != 0.0 || r.r0.y != 0.0
  }

  lemma RecomposesWhenRegular(m: Libm, r: Mat)
    requires m.Valid() && IsRotation(r) && Regular(r)
    ensures Recomposed(m, LocalEra(m, r), LocalXp(m, r), LocalYp(m, r)) == r
  {
    hide IsRotation, Hypot, LocalEra, LocalXp, LocalYp, Recomposed, Libm.Valid;
    var h := Hypot(m, r.r0.x, r.r0.y);
    var era, xp, yp := LocalEra(m, r), LocalXp(m, r), LocalYp(m, r);
    SolvedAngles(m, r, h);
    RotationFromBorder(r, h, m.sin(era), m.cos(era), m.sin(yp), m.cos(yp));
    RecomposedEntries(m, era, xp, yp);
  }

  lemma RecomposedWhenSingular(m: Libm, r: Mat)
    requires m.Valid() && IsRotation(r) && !Regular(r)
    ensures Recomposed(m, LocalEra(m, r), LocalXp(m, r), LocalYp(m, r))
         == Mat(Vec(0.0, 0.0, r.r0.z), Vec(0.0, 1.0, 0.0), Vec(-r.r0.z, 0.0, 0.0))
    ensures LocalEra(m, r) == 0.0
  {
    hide IsRotation, Hypot, LocalXp, Recomposed, Libm.Valid;
    var h := Hypot(m, r.r0.x, r.r0.y);
    var era, xp, yp := LocalEra(m, r), LocalXp(m, r), LocalYp(m, r);
    SolvedAngles(m, r, h);
    assert h == 0.0;
    assert era == 0.0 && yp == 0.0;
    m.AtZero();
    RecomposedEntries(m, era, xp, yp);
  }

  /**
   The stored eral, xpl and ypl rebuild the rotation matrix, entry by entry, exactly when the guard
   of sofa/apio.c:148 holds or the matrix happens to leave the second axis alone.
   */
  lemma AnglesRebuildMatrix(m: Libm, r: Mat)
    requires m.Valid() && IsRotation(r)
    ensures Recomposed(m, LocalEra(m, r), LocalXp(m, r), LocalYp(m, r)) == r
       <==> Regular(r) || r.r1 == Vec(0.0, 1.0, 0.0)
  {
    hide Recomposed, LocalEra, LocalXp, LocalYp, Libm.Valid;
    if Regular(r) {
      RecomposesWhenRegular(m, r);
    } else {
      RecomposedWhenSingular(m, r);
      if r.r1 == Vec(0.0, 1.0, 0.0) {
        CrossOf(0.0, 0.0, r.r0.z, 0.0, 1.0, 0.0);
      }
    }
  }

  /** Whether a site is regular depends on longitude and polar motion only, never on the time. */
  lemma RegularSite(m: Libm, theta: real, site: Site)
    requires m.Valid()
    ensures var tilt := m.cos(site.elong) * m.sin(site.xp) - m.sin(site.elong) * m.sin(site.yp) * m.cos(site.xp);
            LocalMatrix(m, theta, site).r0.z == tilt
            && (Regular(LocalMatrix(m, theta, site)) <==> -1.0 < tilt < 1.0)
  {
    hide IsRotation, Mul, RotX, RotY, Hypot, Recomposed, Libm.Valid;
    var r := LocalMatrix(m, theta, site);
    var inner := Recomposed(m, theta + site.sp, site.xp, site.yp);
    assert r == Mul(RotZ(m, site.elong), inner) by {
      InnerIsRecomposed(m, theta, site);
    }
    RecomposedEntries(m, theta + site.sp, site.xp, site.yp);
    MulRotZ(m.cos(site.elong), m.sin(site.elong), inner);
    assert r.r0.z == m.cos(site.elong) * inner.r0.z + m.sin(site.elong) * inner.r1.z;
    var sx, cs := m.sin(site.xp), m.sin(site.yp) * m.cos(site.xp);
    assert inner.r0.z == sx && inner.r1.z == -cs;
    assert m.sin(site.elong) * -cs == -(m.sin(site.elong) * cs);
    LocalMatrixIsRotation(m, theta, site);
    var h := Hypot(m, r.r0.x, r.r0.y);
    SolvedAngles(m, r, h);
    UnitLeg(h, r.r0.z);
  }

  lemma InnerIsRecomposed(m: Libm, theta: real, site: Site)
    ensures LocalMatrix(m, theta, site) == Mul(RotZ(m, site.elong), Recomposed(m, theta + site.sp, site.xp, site.yp))
  {
    hide Mul, RotX, RotY, RotZ;
  }

  lemma MulRotZ(c: real, s: real, a: Mat)
    ensures Mul(Mat(Vec(c, s, 0.0), Vec(-s, c, 0.0), Vec(0.0, 0.0, 1.0)), a).r0
         == Vec(c * a.r0.x + s * a.r1.x, c * a.r0.y + s * a.r1.y, c * a.r0.z + s * a.r1.z)
  {}

  lemma UnitLeg(h: real, z: real)
    requires h >= 0.0 && h * h == 1.0 - z * z
    ensures -1.0 <= z <= 1.0 && (h > 0.0 <==> -1.0 < z < 1.0)
  {
    NonnegativeSquare(h, 1.0 - z * z);
    SquareOrder(z, 1.0);
    SquareSign(h);
    if h > 0.0 {
      PositiveProduct(h, h, 1.0 - z * z);
    } else {
      EqualSquares(Abs(z), 1.0);
    }
  }

  // ---------- The fast update refines the full rebuild ----------

  /** Equal, with the two Earth rotation angles taken modulo whole turns. */
  ghost predicate SameFrame(m: Libm, a: Local, b: Local) {
    && a.(eral := b.eral, along := b.along) == b
    && Congruent(a.eral, b.eral, m.Turn())
    && Congruent(a.along, b.along, m.Turn())
  }

  lemma SpeedIndependentOfTheta(m: Libm, theta: real, site: Site)
    requires m.Valid()
    ensures var v := StationPosVel(m, theta, site).v;
            var w := Station(m, site);
            v.x * v.x + v.y * v.y == EarthRate(m) * EarthRate(m) * (w.x * w.x + w.y * w.y)
  {
    hide EarthRate, Station;
    var s, c, om, w := m.sin(theta), m.cos(theta), EarthRate(m), Station(m, site);
    StationClosedForm(m, theta, w);
    assert m.UnitCircle(theta);
    RotatedSquare(s, c, w.x, w.y, om);
  }

  lemma RotatedSquare(s: real, c: real, x: real, y: real, om: real)
    requires s * s + c * c == 1.0
    ensures (om * (-s * x - c * y)) * (om * (-s * x - c * y)) + (om * (c * x - s * y)) * (om * (c * x - s * y))
         == om * om * (x * x + y * y)
  {
    var p, q := -s * x - c * y, c * x - s * y;
    assert p * p + q * q == (s * s + c * c) * (x * x + y * y) == x * x + y * y;
    assert (om * p) * (om * p) + (om * q) * (om * q) == om * om * (p * p + q * q);
  }

  lemma DiurabIndependentOfTheta(m: Libm, theta0: real, theta1: real, site: Site)
    requires m.Valid()
    ensures Diurab(m, StationPosVel(m, theta0, site).v) == Diurab(m, StationPosVel(m, theta1, site).v)
  {
    hide StationPosVel, Libm.Valid, EarthRate, Station;
    var v, w := StationPosVel(m, theta0, site).v, StationPosVel(m, theta1, site).v;
    SpeedIndependentOfTheta(m, theta0, site);
    SpeedIndependentOfTheta(m, theta1, site);
    SameHypot(m, v.x, v.y, w.x, w.y);
  }

  lemma SameHypot(m: Libm, a: real, b: real, c: real, d: real)
    requires m.Valid() && a * a + b * b == c * c + d * d
    ensures Hypot(m, a, b) == Hypot(m, c, d)
  {
    HypotSquare(m, a, b);
    HypotSquare(m, c, d);
    EqualSquares(Hypot(m, a, b), Hypot(m, c, d));
  }

  /** Turning the Earth by `delta` keeps the polar motion angles and advances the rotation angle. */
  lemma TurnedAngles(m: Libm, r: Mat, delta: real, t: Mat)
    requires m.Valid() && IsRotation(r) && IsRotation(t) && t == Mul(r, RotZ(m, delta))
    ensures LocalXp(m, t) == LocalXp(m, r) && LocalYp(m, t) == LocalYp(m, r)
    ensures Regular(t) <==> Regular(r)
    ensures Regular(r) ==> Congruent(LocalEra(m, t), LocalEra(m, r) + delta, m.Turn())
    ensures !Regular(r) ==> LocalEra(m, t) == LocalEra(m, r) == 0.0
  {
    hide IsRotation, Libm.Valid, LocalEra, LocalXp, LocalYp, RotZ, Hypot;
    var g, h := Hypot(m, r.r0.x, r.r0.y), Hypot(m, t.r0.x, t.r0.y);
    TurnedRow(m, delta, r.r0);
    TurnedRow(m, delta, r.r1);
    TurnedRow(m, delta, r.r2);
    assert t.r0.z == r.r0.z && t.r1.z == r.r1.z && t.r2.z == r.r2.z;
    SolvedAngles(m, r, g);
    SolvedAngles(m, t, h);
    EqualSquares(g, h);
    SameThirdColumn(m, r, t);
    if Regular(r) {
      EraAdvances(m, LocalEra(m, r), LocalEra(m, t), delta, h, r.r0, t.r0);
    } else {
      EraWhenSingular(m, r);
      EraWhenSingular(m, t);
    }
  }

  lemma SameThirdColumn(m: Libm, r: Mat, t: Mat)
    requires t.r0.z == r.r0.z && t.r1.z == r.r1.z && t.r2.z == r.r2.z
    requires Hypot(m, r.r0.x, r.r0.y) == Hypot(m, t.r0.x, t.r0.y)
    ensures LocalXp(m, t) == LocalXp(m, r) && LocalYp(m, t) == LocalYp(m, r)
  {
    hide Hypot;
  }

  lemma EraWhenSingular(m: Libm, r: Mat)
    requires !Regular(r)
    ensures LocalEra(m, r) == 0.0
  {}

  lemma EraAdvances(m: Libm, a: real, b: real, delta: real, h: real, p: Vec, q: Vec)
    requires m.Valid() && h > 0.0
    requires p.x == h * m.cos(a) && p.y == h * m.sin(a)
    requires q.x == h * m.cos(b) && q.y == h * m.sin(b)
    requires q.x == p.x * m.cos(delta) - p.y * m.sin(delta) && q.y == p.x * m.sin(delta) + p.y * m.cos(delta)
    ensures Congruent(b, a + delta, m.Turn())
  {
    assert m.SumLaw(a, delta) && m.TurnLaw(b, a + delta);
    FactorRow(h, m.cos(a), m.sin(a), m.cos(delta), m.sin(delta));
    CancelFactor(m.cos(b), m.cos(a + delta), h);
    CancelFactor(m.sin(b), m.sin(a + delta), h);
  }

  lemma FactorRow(h: real, c: real, s: real, d: real, e: real)
    ensures (h * c) * d - (h * s) * e == (c * d - s * e) * h
    ensures (h * c) * e + (h * s) * d == (s * d + c * e) * h
  {}

  /**
   iauApio at theta0 followed by iauAper to theta1 leaves the context that iauApio at theta1 would
   leave, angles modulo whole turns, exactly when the site is regular or the two angles agree.
   */
  lemma AperRefinesApio(m: Libm, theta0: real, theta1: real, site: Site, refa: real, refb: real)
    requires m.Valid()
    ensures SameFrame(m, AperResult(theta1, ApioResult(m, theta0, site, refa, refb)), ApioResult(m, theta1, site, refa, refb))
       <==> Regular(LocalMatrix(m, theta0, site)) || Congruent(theta0, theta1, m.Turn())
  {
    hide LocalMatrix, StationPosVel, Diurab, LocalEra, LocalXp, LocalYp, Anpm, IsRotation, Mul, RotZ, Libm.Valid;
    PiPositive(m);
    var r, t := LocalMatrix(m, theta0, site), LocalMatrix(m, theta1, site);
    var delta := theta1 - theta0;
    var slow0, slow1 := ApioResult(m, theta0, site, refa, refb), ApioResult(m, theta1, site, refa, refb);
    var fast := AperResult(theta1, slow0);
    LocalMatrixIsRotation(m, theta0, site);
    LocalMatrixIsRotation(m, theta1, site);
    EarthTurns(m, theta0, theta1, site);
    TurnedAngles(m, r, delta, t);
    DiurabIndependentOfTheta(m, theta0, theta1, site);
    UpdatedAngles(m, theta0, theta1, LocalEra(m, r), LocalEra(m, t), Regular(r));
  }

  lemma PiPositive(m: Libm)
    requires m.Valid()
    ensures m.pi > 0.0
  {}

  /** The congruences behind the fast update, on the angles alone. */
  lemma UpdatedAngles(m: Libm, theta0: real, theta1: real, era0: real, era1: real, regular: bool)
    requires m.pi > 0.0
    requires regular ==> Congruent(era1, era0 + (theta1 - theta0), m.Turn())
    requires !regular ==> era0 == era1 == 0.0
    ensures var along0, along1 := Anpm(era0 - theta0, m.pi), Anpm(era1 - theta1, m.pi);
            (Congruent(theta1 + along0, era1, m.Turn()) && Congruent(along0, along1, m.Turn())
             <==> regular || Congruent(theta0, theta1, m.Turn()))
  {
    hide Congruent, Anpm;
    var turn, along0, along1 := m.Turn(), Anpm(era0 - theta0, m.pi), Anpm(era1 - theta1, m.pi);
    AnpmRepresents(era0 - theta0, m.pi);
    AnpmRepresents(era1 - theta1, m.pi);
    CongruentReflexive(theta1, turn);
    CongruentReflexive(theta0, turn);
    CongruentReflexive(era0, turn);
    CongruentSum(theta1, theta1, along0, era0 - theta0, turn);
    assert theta1 + (era0 - theta0) == era0 + (theta1 - theta0);
    CongruentSymmetric(theta1 + along0, era0 + (theta1 - theta0), turn);
    CongruentSymmetric(along1, era1 - theta1, turn);
    if regular {
      CongruentSymmetric(era1, era0 + (theta1 - theta0), turn);
      CongruentTransitive(theta1 + along0, era0 + (theta1 - theta0), era1, turn);
      CongruentSum(era0 + (theta1 - theta0), era1, theta1, theta1, turn);
      CongruentReflexive(theta1, turn);
      assert era0 + (theta1 - theta0) - theta1 == era0 - theta0;
      CongruentTransitive(along0, era0 - theta0, era1 - theta1, turn);
      CongruentTransitive(along0, era1 - theta1, along1, turn);
    } else if Congruent(theta0, theta1, turn) {
      CongruentReflexive(0.0, turn);
      CongruentSum(0.0, 0.0, theta0, theta1, turn);
      CongruentTransitive(along0, era0 - theta0, era1 - theta1, turn);
      CongruentTransitive(along0, era1 - theta1, along1, turn);
      CongruentSymmetric(theta0, theta1, turn);
      CongruentSum(theta1, theta0, theta0, theta0, turn);
      CongruentTransitive(theta1 + along0, theta1 - theta0, 0.0, turn);
    } else if Congruent(theta1 + along0, era1, turn) {
      CongruentTransitive(theta1 - theta0, theta1 + along0, 0.0, turn);
      CongruentSum(theta1 - theta0, 0.0, theta0, theta0, turn);
      CongruentSymmetric(theta1, theta0, turn);
    }
  }

  // ---------- The parts of a context ----------

  /**
   iauApio and iauApcs share no field, so their order makes no difference. iauApco, for the observer that
   it places in the GCRS, leaves what the two leave, but for the diurnal aberration and the matrix.
   */
  method SetUpThreeWays(m: Libm, date1: real, date2: real, ebpv: PosVel, ehp: Vec, x: real, y: real, s: real,
                        theta: real, site: Site, refa: real, refb: real, a: Astrom, b: Astrom, c: Astrom)
    requires m.Valid() && InDisc(x, y) && a != b && b != c && c != a
    modifies a, b, c
    ensures a.Bary() == b.Bary() && a.LocalFrame() == b.LocalFrame()
    ensures c.Bary() == a.Bary().(bpn := C2ixysMatrix(m, x, y, s)) && c.LocalFrame() == a.LocalFrame().(diurab := 0.0)
  {
    hide C2ixysMatrix, ApcsResult, ApioResult, ObserverInGcrs, InDisc, Libm.Valid;
    var pv := ObserverInGcrs(m, theta, site, C2ixysMatrix(m, x, y, s));
    a.Apio(m, theta, site, refa, refb);
    a.Apcs(m, date1, date2, pv, ebpv, ehp);
    b.Apcs(m, date1, date2, pv, ebpv, ehp);
    b.Apio(m, theta, site, refa, refb);
    c.Apco(m, date1, date2, ebpv, ehp, x, y, s, theta, site, refa, refb);
  }
}
