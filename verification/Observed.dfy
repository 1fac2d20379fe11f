/** CIRS to observed place and back (sofa/atioq.c, sofa/atoiq.c), the consumers of the local frame. */
module Observed {
  import opened MathLibrary
  import opened Angles
  import opened Vectors
  import opened Rotations
  import opened Astrometry
  import opened ContextLaws
  import opened StarPipeline

  const CELMIN := 0.000001
  const SELMIN := 0.05

  /** Observed azimuth, zenith distance, hour angle, declination and right ascension. */
  datatype Place = Place(aob: real, zob: real, hob: real, dob: real, rob: real)

  /** The polar motion step, with the sines and cosines of xpl and ypl. */
  function PolarRows(sx: real, cx: real, sy: real, cy: real, v: Vec): Vec {
    Vec(cx * v.x + sx * v.z,
        sx * sy * v.x + cy * v.y - cx * sy * v.z,
        -sx * cy * v.x + sy * v.y + cx * cy * v.z)
  }

  /** Cartesian -HA, Dec: the CIRS direction through Earth rotation and polar motion. */
  function LocalDirection(m: Libm, ri: real, di: real, l: Local): Vec {
    PolarRows(m.sin(l.xpl), m.cos(l.xpl), m.sin(l.ypl), m.cos(l.ypl), S2c(m, ri - l.eral, di))
  }

  function DiurnalAberration(diurab: real, v: Vec): Vec {
    var f := 1.0 - diurab * v.y;
    Vec(f * v.x, f * (v.y + diurab), f * v.z)
  }

  /** Cartesian -HA, Dec to Cartesian Az, El (S=0, E=90), and back. */
  function ToHorizon(sphi: real, cphi: real, v: Vec): Vec {
    Vec(sphi * v.x - cphi * v.z, v.y, cphi * v.x + sphi * v.z)
  }

  function FromHorizon(sphi: real, cphi: real, v: Vec): Vec {
    Vec(sphi * v.x + cphi * v.z, v.y, -cphi * v.x + sphi * v.z)
  }

  function AtLeast(x: real, low: real): real {
    if x > low then x else low
  }

  /** Tangent of the zenith distance for the refraction model. */
  function ZenithTangent(m: Libm, v: Vec): real {
    AtLeast(Hypot(m, v.x, v.y), CELMIN) / AtLeast(v.z, SELMIN)
  }

  /** The divisor of the Newton-Raphson correction. */
  function RefractionDivisor(m: Libm, refa: real, refb: real, v: Vec): real {
    var tz, z := ZenithTangent(m, v), AtLeast(v.z, SELMIN);
    1.0 + (refa + 3.0 * (refb * tz * tz)) / (z * z)
  }

  /** Refraction with the A tan z + B tan^3 z model. */
  function Refracted(m: Libm, refa: real, refb: real, v: Vec): Vec
    requires RefractionDivisor(m, refa, refb, v) != 0.0
  {
    var r, z, tz := AtLeast(Hypot(m, v.x, v.y), CELMIN), AtLeast(v.z, SELMIN), ZenithTangent(m, v);
    var del := (refa + refb * tz * tz) * tz / RefractionDivisor(m, refa, refb, v);
    var cosdel := 1.0 - del * del / 2.0;
    var f := cosdel - del * z / r;
    Vec(v.x * f, v.y * f, cosdel * v.z + del * r)
  }

  /** The apparent direction in the horizon frame, before refraction. */
  function Topocentric(m: Libm, ri: real, di: real, l: Local): Vec {
    ToHorizon(l.sphi, l.cphi, DiurnalAberration(l.diurab, LocalDirection(m, ri, di, l)))
  }

  /** iauAtioq. */
  function Atioq(m: Libm, ri: real, di: real, l: Local): Place
    requires m.pi > 0.0 && RefractionDivisor(m, l.refa, l.refb, Topocentric(m, ri, di, l)) != 0.0
  {
    var t := Topocentric(m, ri, di, l);
    var azobs := GuardedAngle(m, t.y, -t.x);
    var o := Refracted(m, l.refa, l.refb, t);
    var v := FromHorizon(l.sphi, l.cphi, o);
    var hmobs := C2sTheta(m, v);
    Place(Anp(azobs, m.pi), m.atan2(Hypot(m, o.x, o.y), o.z), -hmobs, C2sPhi(m, v), Anp(l.eral + hmobs, m.pi))
  }

  // ---------- The local frame is the matrix it was solved from ----------

  lemma PolarMotionMatrix(m: Libm, l: Local, v: Vec)
    requires m.Valid()
    ensures var sx, cx, sy, cy := m.sin(l.xpl), m.cos(l.xpl), m.sin(l.ypl), m.cos(l.ypl);
            Apply(Recomposed(m, 0.0, l.xpl, l.ypl), v) == PolarRows(sx, cx, sy, cy, v)
  {
    hide Recomposed, Apply, PolarRows;
    var sx, cx, sy, cy := m.sin(l.xpl), m.cos(l.xpl), m.sin(l.ypl), m.cos(l.ypl);
    m.AtZero();
    RecomposedEntries(m, 0.0, l.xpl, l.ypl);
    PolarRowsApply(sx, cx, sy, cy, v);
    assert Recomposed(m, 0.0, l.xpl, l.ypl)
        == Mat(Vec(cx, 0.0, sx), Vec(sy * sx, cy, -(sy * cx)), Vec(-(cy * sx), sy, cy * cx));
  }

  lemma PolarRowsApply(sx: real, cx: real, sy: real, cy: real, v: Vec)
    ensures Apply(Mat(Vec(cx, 0.0, sx), Vec(sy * sx, cy, -(sy * cx)), Vec(-(cy * sx), sy, cy * cx)), v)
         == PolarRows(sx, cx, sy, cy, v)
  {
    DotOf(cx, 0.0, sx, v.x, v.y, v.z);
    DotOf(sy * sx, cy, -(sy * cx), v.x, v.y, v.z);
    DotOf(-(cy * sx), sy, cy * cx, v.x, v.y, v.z);
  }

  /** Subtracting the Earth rotation angle from the right ascension is a rotation about the pole. */
  lemma EraAsRotation(m: Libm, ri: real, di: real, eral: real)
    requires m.Valid()
    ensures S2c(m, ri - eral, di) == Apply(RotZ(m, eral), S2c(m, ri, di))
  {
    var c, s, d, z := m.cos(ri), m.sin(ri), m.cos(di), m.sin(di);
    m.Difference(ri, eral);
    DotOf(m.cos(eral), m.sin(eral), 0.0, c * d, s * d, z);
    DotOf(-m.sin(eral), m.cos(eral), 0.0, c * d, s * d, z);
    DotOf(0.0, 0.0, 1.0, c * d, s * d, z);
  }

  lemma RecomposedSplits(m: Libm, l: Local)
    requires m.Valid()
    ensures Recomposed(m, l.eral, l.xpl, l.ypl) == Mul(Recomposed(m, 0.0, l.xpl, l.ypl), RotZ(m, l.eral))
  {
    hide Mul, RotX, RotY, RotZ;
    var a, b, z, e := RotX(m, -l.ypl), RotY(m, -l.xpl), RotZ(m, 0.0), RotZ(m, l.eral);
    RotZSum(m, 0.0, l.eral);
    MulAssociative(b, z, e);
    MulAssociative(a, Mul(b, z), e);
  }

  /** The code of iauAtioq applies the matrix that the three stored angles recompose. */
  lemma LocalDirectionIsRecomposed(m: Libm, ri: real, di: real, l: Local)
    requires m.Valid()
    ensures LocalDirection(m, ri, di, l) == Apply(Recomposed(m, l.eral, l.xpl, l.ypl), S2c(m, ri, di))
  {
    hide Recomposed, Mul, RotZ, Apply, S2c, PolarRows, Libm.Valid;
    var u := S2c(m, ri, di);
    EraAsRotation(m, ri, di, l.eral);
    PolarMotionMatrix(m, l, S2c(m, ri - l.eral, di));
    RecomposedSplits(m, l);
    ApplyMul(Recomposed(m, 0.0, l.xpl, l.ypl), RotZ(m, l.eral), u);
  }

  /**
   With the context of iauApio at a regular site, iauAtioq turns every CIRS direction by exactly the
   matrix of Earth rotation, polar motion and longitude that iauApio formed and threw away.
   */
  lemma AtioqAppliesLocalMatrix(m: Libm, ri: real, di: real, theta: real, site: Site, refa: real, refb: real)
    requires m.Valid() && Regular(LocalMatrix(m, theta, site))
    ensures LocalDirection(m, ri, di, ApioResult(m, theta, site, refa, refb))
         == Apply(LocalMatrix(m, theta, site), S2c(m, ri, di))
  {
    hide LocalDirection, LocalMatrix, Recomposed, Apply, S2c, LocalEra;
    hide LocalXp, LocalYp, Regular, IsRotation, Anpm, Diurab;
    var l, r := ApioResult(m, theta, site, refa, refb), LocalMatrix(m, theta, site);
    LocalMatrixIsRotation(m, theta, site);
    AnglesRebuildMatrix(m, r);
    LocalDirectionIsRecomposed(m, ri, di, l);
  }

  // ---------- Whole turns are invisible ----------

  lemma SameDirection(m: Libm, ri: real, di: real, a: Local, b: Local)
    requires m.Valid() && SameFrame(m, a, b)
    ensures LocalDirection(m, ri, di, a) == LocalDirection(m, ri, di, b)
  {
    hide Libm.Valid, S2c, PolarRows;
    assert S2c(m, ri - a.eral, di) == S2c(m, ri - b.eral, di) by {
      CongruentReflexive(ri, m.Turn());
      CongruentSum(ri, ri, a.eral, b.eral, m.Turn());
      SameS2c(m, ri - a.eral, ri - b.eral, di);
    }
  }

  /** Contexts that differ by whole turns give the same observed place, all five coordinates. */
  lemma AtioqSameFrame(m: Libm, ri: real, di: real, a: Local, b: Local)
    requires m.Valid() && SameFrame(m, a, b)
    requires RefractionDivisor(m, a.refa, a.refb, Topocentric(m, ri, di, a)) != 0.0
    ensures RefractionDivisor(m, b.refa, b.refb, Topocentric(m, ri, di, b)) != 0.0
    ensures Atioq(m, ri, di, a) == Atioq(m, ri, di, b)
  {
    SameDirection(m, ri, di, a, b);
    hide LocalDirection, DiurnalAberration, ToHorizon, FromHorizon, RefractionDivisor, Refracted, Hypot;
    hide Libm.Valid, Anp, C2sTheta, C2sPhi, GuardedAngle, Congruent;
    var t := Topocentric(m, ri, di, a);
    assert t == Topocentric(m, ri, di, b);
    var hm := C2sTheta(m, FromHorizon(a.sphi, a.cphi, Refracted(m, a.refa, a.refb, t)));
    CongruentReflexive(hm, m.Turn());
    CongruentSum(a.eral, b.eral, hm, hm, m.Turn());
    AnpCanonical(a.eral + hm, b.eral + hm, m.pi);
  }
}
