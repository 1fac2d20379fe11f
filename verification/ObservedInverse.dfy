/** Observed place to CIRS (sofa/atoiq.c), and its round trip with iauAtioq. */
module ObservedInverse {
  import opened MathLibrary
  import opened RealArith
  import opened Angles
  import opened Vectors
  import opened Rotations
  import opened Astrometry
  import opened ContextLaws
  import opened StarPipeline
  import opened Observed

  /** The coordinate types of iauAtoiq; every other letter means azimuth and zenith distance. */
  datatype Kind = RaDec | HaDec | AzZd

  function KindOf(letter: char): Kind {
    if letter == 'r' || letter == 'R' then RaDec
    else if letter == 'h' || letter == 'H' then HaDec
    else AzZd
  }

  /** Cartesian Az, El (S=0, E=90) of the observed coordinates. */
  function ObservedVector(m: Libm, letter: char, ob1: real, ob2: real, l: Local): Vec {
    match KindOf(letter)
    case AzZd => Vec(-m.cos(ob1) * m.sin(ob2), m.sin(ob1) * m.sin(ob2), m.cos(ob2))
    case RaDec => ToHorizon(l.sphi, l.cphi, S2c(m, -(l.eral - ob1), ob2))
    case HaDec => ToHorizon(l.sphi, l.cphi, S2c(m, -ob1, ob2))
  }

  /** The fast refraction removal with the two-constant model. */
  function Unrefracted(m: Libm, refa: real, refb: real, o: Vec): Vec {
    var az := GuardedAngle(m, o.y, o.x);
    var sz := Hypot(m, o.x, o.y);
    var tz := sz / AtLeast(o.z, SELMIN);
    var zdt := m.atan2(sz, o.z) + (refa + refb * tz * tz) * tz;
    Vec(m.cos(az) * m.sin(zdt), m.sin(az) * m.sin(zdt), m.cos(zdt))
  }

  function DiurnalUndone(diurab: real, v: Vec): Vec {
    var f := 1.0 + diurab * v.y;
    Vec(f * v.x, f * (v.y - diurab), f * v.z)
  }

  function PolarUndone(sx: real, cx: real, sy: real, cy: real, v: Vec): Vec {
    Vec(cx * v.x + sx * sy * v.y - sx * cy * v.z,
        cy * v.y + sy * v.z,
        sx * v.x - cx * sy * v.y + cx * cy * v.z)
  }

  /** The CIRS vector at -HA, Dec that iauAtoiq converts to spherical. */
  function CirsVector(m: Libm, letter: char, ob1: real, ob2: real, l: Local): Vec {
    var t := Unrefracted(m, l.refa, l.refb, ObservedVector(m, letter, ob1, ob2, l));
    var u := DiurnalUndone(l.diurab, FromHorizon(l.sphi, l.cphi, t));
    PolarUndone(m.sin(l.xpl), m.cos(l.xpl), m.sin(l.ypl), m.cos(l.ypl), u)
  }

  /** iauAtoiq: (ri, di). */
  function Atoiq(m: Libm, letter: char, ob1: real, ob2: real, l: Local): (real, real)
    requires m.pi > 0.0
  {
    var v := CirsVector(m, letter, ob1, ob2, l);
    (Anp(l.eral + C2sTheta(m, v), m.pi), C2sPhi(m, v))
  }

  // ---------- Whole turns are invisible ----------

  /** Contexts that differ by whole turns give the same CIRS place, for every coordinate type. */
  lemma AtoiqSameFrame(m: Libm, letter: char, ob1: real, ob2: real, a: Local, b: Local)
    requires m.Valid() && SameFrame(m, a, b)
    ensures Atoiq(m, letter, ob1, ob2, a) == Atoiq(m, letter, ob1, ob2, b)
  {
    hide Unrefracted, ToHorizon, FromHorizon, DiurnalUndone, PolarUndone;
    hide S2c, C2sTheta, C2sPhi, Anp, Libm.Valid, Congruent;
    PiPositive(m);
    CongruentReflexive(ob1, m.Turn());
    CongruentSum(a.eral, b.eral, ob1, ob1, m.Turn());
    CongruentReflexive(0.0, m.Turn());
    CongruentSum(0.0, 0.0, a.eral - ob1, b.eral - ob1, m.Turn());
    assert 0.0 - (a.eral - ob1) == -(a.eral - ob1) && 0.0 - (b.eral - ob1) == -(b.eral - ob1);
    SameS2c(m, -(a.eral - ob1), -(b.eral - ob1), ob2);
    var v := CirsVector(m, letter, ob1, ob2, a);
    assert v == CirsVector(m, letter, ob1, ob2, b);
    CongruentReflexive(C2sTheta(m, v), m.Turn());
    CongruentSum(a.eral, b.eral, C2sTheta(m, v), C2sTheta(m, v), m.Turn());
    AnpCanonical(a.eral + C2sTheta(m, v), b.eral + C2sTheta(m, v), m.pi);
  }

  /**
   The purpose of iauAper: at a regular site, observing with the quickly updated context gives
   exactly what observing with a fully rebuilt context gives, in both directions.
   */
  lemma FastUpdateObservesTheSame(m: Libm, theta0: real, theta1: real, site: Site, refa: real, refb: real)
    requires m.Valid() && Regular(LocalMatrix(m, theta0, site))
    ensures var fast := AperResult(theta1, ApioResult(m, theta0, site, refa, refb));
            var slow := ApioResult(m, theta1, site, refa, refb);
            && (forall ri, di | RefractionDivisor(m, fast.refa, fast.refb, Topocentric(m, ri, di, fast)) != 0.0 ::
                  RefractionDivisor(m, slow.refa, slow.refb, Topocentric(m, ri, di, slow)) != 0.0
                  && Atioq(m, ri, di, fast) == Atioq(m, ri, di, slow))
            && (forall letter, ob1, ob2 :: Atoiq(m, letter, ob1, ob2, fast) == Atoiq(m, letter, ob1, ob2, slow))
  {
    hide Libm.Valid, ApioResult, AperResult, LocalMatrix, Atioq, Atoiq, Topocentric, RefractionDivisor, SameFrame;
    PiPositive(m);
    var fast, slow := AperResult(theta1, ApioResult(m, theta0, site, refa, refb)), ApioResult(m, theta1, site, refa, refb);
    AperRefinesApio(m, theta0, theta1, site, refa, refb);
    forall ri, di | RefractionDivisor(m, fast.refa, fast.refb, Topocentric(m, ri, di, fast)) != 0.0
      ensures RefractionDivisor(m, slow.refa, slow.refb, Topocentric(m, ri, di, slow)) != 0.0
      ensures Atioq(m, ri, di, fast) == Atioq(m, ri, di, slow)
    {
      AtioqSameFrame(m, ri, di, fast, slow);
    }
    forall letter, ob1, ob2
      ensures Atoiq(m, letter, ob1, ob2, fast) == Atoiq(m, letter, ob1, ob2, slow)
    {
      AtoiqSameFrame(m, letter, ob1, ob2, fast, slow);
    }
  }

  // ---------- Round trip without atmosphere ----------

  /** No atmosphere, no diurnal aberration, and functions of a latitude. */
  predicate Vacuum(l: Local) {
    l.refa == 0.0 && l.refb == 0.0 && l.diurab == 0.0 && l.sphi * l.sphi + l.cphi * l.cphi == 1.0
  }

  lemma NoRefraction(m: Libm, v: Vec)
    ensures RefractionDivisor(m, 0.0, 0.0, v) == 1.0 && Refracted(m, 0.0, 0.0, v) == v
  {
    hide Hypot, ZenithTangent;
    var r, z, tz := AtLeast(Hypot(m, v.x, v.y), CELMIN), AtLeast(v.z, SELMIN), ZenithTangent(m, v);
    PositiveProduct(z, z, z * z);
    NoCorrection(z * z, tz);
  }

  lemma NoCorrection(z2: real, tz: real)
    requires z2 > 0.0
    ensures (0.0 + 3.0 * (0.0 * tz * tz)) / z2 == 0.0 && (0.0 + 0.0 * tz * tz) * tz == 0.0
  {}

  lemma HorizonTurned(s: real, c: real, v: Vec)
    requires s * s + c * c == 1.0
    ensures FromHorizon(s, c, ToHorizon(s, c, v)) == v
    ensures Dot(ToHorizon(s, c, v), ToHorizon(s, c, v)) == Dot(v, v)
  {
    var x, z := s * v.x - c * v.z, c * v.x + s * v.z;
    assert s * x + c * z == (s * s + c * c) * v.x;
    assert -c * x + s * z == (s * s + c * c) * v.z;
    DotOf(x, v.y, z, x, v.y, z);
    DotOf(v.x, v.y, v.z, v.x, v.y, v.z);
    assert x * x + z * z == (s * s + c * c) * (v.x * v.x + v.z * v.z);
  }

  lemma PolarMotionUndone(m: Libm, xpl: real, ypl: real, v: Vec)
    requires m.Valid()
    ensures var sx, cx, sy, cy := m.sin(xpl), m.cos(xpl), m.sin(ypl), m.cos(ypl);
            && PolarUndone(sx, cx, sy, cy, PolarRows(sx, cx, sy, cy, v)) == v
            && Dot(PolarRows(sx, cx, sy, cy, v), PolarRows(sx, cx, sy, cy, v)) == Dot(v, v)
  {
    hide PolarRows, PolarUndone, Apply, Dot, IsRotation, Recomposed;
    var sx, cx, sy, cy := m.sin(xpl), m.cos(xpl), m.sin(ypl), m.cos(ypl);
    var p := Mat(Vec(cx, 0.0, sx), Vec(sy * sx, cy, -(sy * cx)), Vec(-(cy * sx), sy, cy * cx));
    RecomposedIsRotation(m, 0.0, xpl, ypl);
    RecomposedEntries(m, 0.0, xpl, ypl);
    m.AtZero();
    assert p == Recomposed(m, 0.0, xpl, ypl);
    PolarRowsApply(sx, cx, sy, cy, v);
    PolarUndoneApply(sx, cx, sy, cy, PolarRows(sx, cx, sy, cy, v));
    RotationUndone(p, v);
    RotationIsIsometry(p, v, v);
  }

  lemma RecomposedIsRotation(m: Libm, eral: real, xpl: real, ypl: real)
    requires m.Valid()
    ensures IsRotation(Recomposed(m, eral, xpl, ypl))
  {
    hide IsRotation, Mul, RotX, RotY, RotZ;
    RotZIsRotation(m, eral);
    RotYIsRotation(m, -xpl);
    RotXIsRotation(m, -ypl);
    ProductOfRotations(RotY(m, -xpl), RotZ(m, eral));
    ProductOfRotations(RotX(m, -ypl), Mul(RotY(m, -xpl), RotZ(m, eral)));
  }

  lemma PolarUndoneApply(sx: real, cx: real, sy: real, cy: real, v: Vec)
    ensures Apply(Transpose(Mat(Vec(cx, 0.0, sx), Vec(sy * sx, cy, -(sy * cx)), Vec(-(cy * sx), sy, cy * cx))), v)
         == PolarUndone(sx, cx, sy, cy, v)
  {
    DotOf(cx, sy * sx, -(cy * sx), v.x, v.y, v.z);
    DotOf(0.0, cy, sy, v.x, v.y, v.z);
    DotOf(sx, -(sy * cx), cy * cx, v.x, v.y, v.z);
  }

  /** The azimuth and zenith distance of a unit horizon vector give the vector back. */
  lemma AzimuthRoundTrip(m: Libm, t: Vec)
    requires m.Valid() && Dot(t, t) == 1.0
    ensures var az, zd := GuardedAngle(m, t.y, -t.x), m.atan2(Hypot(m, t.x, t.y), t.z);
            Vec(-m.cos(az) * m.sin(zd), m.sin(az) * m.sin(zd), m.cos(zd)) == t
    ensures var az, zd := GuardedAngle(m, t.y, t.x), m.atan2(Hypot(m, t.x, t.y), t.z);
            Vec(m.cos(az) * m.sin(zd), m.sin(az) * m.sin(zd), m.cos(zd)) == t
  {
    hide Hypot, GuardedAngle, Libm.Valid;
    var h := Hypot(m, t.x, t.y);
    HypotSquare(m, t.x, t.y);
    DotOf(t.x, t.y, t.z, t.x, t.y, t.z);
    assert t.z * t.z + h * h == 1.0 * 1.0;
    m.PolarPoint(h, t.z, 1.0);
    GuardedAngleEncodes(m, t.y, t.x, h);
    GuardedAngleEncodes(m, t.y, -t.x, h);
  }

  lemma NoUnrefraction(m: Libm, t: Vec)
    requires m.Valid() && Dot(t, t) == 1.0
    ensures Unrefracted(m, 0.0, 0.0, t) == t
  {
    hide Hypot, GuardedAngle, Dot, AtLeast;
    AzimuthRoundTrip(m, t);
  }

  /** In a vacuum the observed place is the spherical form of the local direction. */
  lemma VacuumPlace(m: Libm, ri: real, di: real, l: Local)
    requires m.Valid() && Vacuum(l)
    ensures var u := LocalDirection(m, ri, di, l);
            var t := ToHorizon(l.sphi, l.cphi, u);
            && Dot(u, u) == 1.0 && Dot(t, t) == 1.0
            && Topocentric(m, ri, di, l) == t
            && RefractionDivisor(m, l.refa, l.refb, t) != 0.0
            && Atioq(m, ri, di, l)
            == Place(Anp(GuardedAngle(m, t.y, -t.x), m.pi), m.atan2(Hypot(m, t.x, t.y), t.z),
                     -C2sTheta(m, u), C2sPhi(m, u), Anp(l.eral + C2sTheta(m, u), m.pi))
  {
    hide GuardedAngle, Hypot, C2sTheta, C2sPhi, Anp, ToHorizon;
    hide FromHorizon, PolarRows, S2c, Dot, RefractionDivisor, Refracted;
    var w, u := S2c(m, ri - l.eral, di), LocalDirection(m, ri, di, l);
    S2cUnit(m, ri - l.eral, di);
    PolarMotionUndone(m, l.xpl, l.ypl, w);
    NoDiurnalAberration(u);
    HorizonTurned(l.sphi, l.cphi, u);
    NoRefraction(m, ToHorizon(l.sphi, l.cphi, u));
  }

  lemma NoDiurnalAberration(v: Vec)
    ensures DiurnalAberration(0.0, v) == v && DiurnalUndone(0.0, v) == v
  {}

  /** The pair of observed coordinates of the given type. */
  function Coordinates(letter: char, o: Place): (real, real) {
    match KindOf(letter)
    case AzZd => (o.aob, o.zob)
    case HaDec => (o.hob, o.dob)
    case RaDec => (o.rob, o.dob)
  }

  /** Each type of observed coordinates encodes the same horizon vector. */
  lemma CoordinatesEncode(m: Libm, letter: char, l: Local, u: Vec, t: Vec)
    requires m.Valid() && Unit(u) && Dot(t, t) == 1.0 && t == ToHorizon(l.sphi, l.cphi, u)
    ensures var o := Place(Anp(GuardedAngle(m, t.y, -t.x), m.pi), m.atan2(Hypot(m, t.x, t.y), t.z),
                           -C2sTheta(m, u), C2sPhi(m, u), Anp(l.eral + C2sTheta(m, u), m.pi));
            ObservedVector(m, letter, Coordinates(letter, o).0, Coordinates(letter, o).1, l) == t
  {
    hide GuardedAngle, Hypot, C2sTheta, C2sPhi, Anp, ToHorizon, S2c, Dot, Unit;
    var hm := C2sTheta(m, u);
    match KindOf(letter)
    case AzZd =>
      AzimuthRoundTrip(m, t);
      AnpRepresents(GuardedAngle(m, t.y, -t.x), m.pi);
      assert m.TurnLaw(Anp(GuardedAngle(m, t.y, -t.x), m.pi), GuardedAngle(m, t.y, -t.x));
    case HaDec =>
      SphericalRoundTrip(m, u);
      assert -(-hm) == hm;
    case RaDec =>
      SphericalRoundTrip(m, u);
      HourAngleFromRa(m, l.eral, hm, C2sPhi(m, u));
  }

  lemma HourAngleFromRa(m: Libm, eral: real, hm: real, phi: real)
    requires m.Valid()
    ensures S2c(m, -(eral - Anp(eral + hm, m.pi)), phi) == S2c(m, hm, phi)
  {
    hide S2c, Anp, Congruent;
    var r := Anp(eral + hm, m.pi);
    AnpRepresents(eral + hm, m.pi);
    CongruentReflexive(eral, m.Turn());
    CongruentSum(r, eral + hm, eral, eral, m.Turn());
    assert -(eral - r) == r - eral && (eral + hm) - eral == hm;
    SameS2c(m, -(eral - r), hm, phi);
  }

  /** Two places with the same direction, one of them normalised, have the same coordinates away from the poles. */
  lemma SamePlace(m: Libm, ri: real, di: real, ri': real, di': real)
    requires m.Valid() && S2c(m, ri', di') == S2c(m, ri, di)
    requires 0.0 <= ri' < m.Turn() && -m.pi / 2.0 <= di' <= m.pi / 2.0 && -m.pi / 2.0 <= di <= m.pi / 2.0
    ensures di' == di
    ensures m.cos(di) != 0.0 ==> ri' == Anp(ri, m.pi)
  {
    hide Congruent, Anp;
    m.SineInjective(di', di);
    if m.cos(di) != 0.0 {
      CancelFactor(m.cos(ri'), m.cos(ri), m.cos(di));
      CancelFactor(m.sin(ri'), m.sin(ri), m.cos(di));
      assert m.TurnLaw(ri', ri);
      AnpRepresents(ri, m.pi);
    }
  }

  /**
   Without atmosphere and diurnal aberration iauAtoiq undoes iauAtioq for every coordinate type:
   the direction always, the declination always, and the right ascension away from the poles.
   */
  lemma AtoiqUndoesAtioq(m: Libm, letter: char, ri: real, di: real, l: Local)
    requires m.Valid() && Vacuum(l)
    ensures RefractionDivisor(m, l.refa, l.refb, Topocentric(m, ri, di, l)) != 0.0
    ensures var o := Coordinates(letter, Atioq(m, ri, di, l));
            var back := Atoiq(m, letter, o.0, o.1, l);
            && S2c(m, back.0, back.1) == S2c(m, ri, di)
            && (-m.pi / 2.0 <= di <= m.pi / 2.0 ==>
                  back.1 == di && (m.cos(di) != 0.0 ==> back.0 == Anp(ri, m.pi)))
  {
    hide LocalDirection, Atioq, Anp, C2sTheta, C2sPhi, S2c, ToHorizon, FromHorizon, Topocentric, RefractionDivisor;
    hide GuardedAngle, Hypot, Dot, Unrefracted, DiurnalUndone, PolarUndone, ObservedVector;
    var u := LocalDirection(m, ri, di, l);
    var t := ToHorizon(l.sphi, l.cphi, u);
    VacuumPlace(m, ri, di, l);
    UnitMeans(u);
    CoordinatesEncode(m, letter, l, u, t);
    NoUnrefraction(m, t);
    HorizonTurned(l.sphi, l.cphi, u);
    NoDiurnalAberration(u);
    var o := Coordinates(letter, Atioq(m, ri, di, l));
    assert CirsVector(m, letter, o.0, o.1, l) == PolarUndone(m.sin(l.xpl), m.cos(l.xpl), m.sin(l.ypl), m.cos(l.ypl), u);
    var w := S2c(m, ri - l.eral, di);
    UndoneIsShifted(m, ri, di, l);
    ShiftedBack(m, ri, di, l.eral);
    var back := Atoiq(m, letter, o.0, o.1, l);
    AnpRepresents(l.eral + C2sTheta(m, w), m.pi);
    S2cUnit(m, ri - l.eral, di);
    SphericalRoundTrip(m, w);
    if -m.pi / 2.0 <= di <= m.pi / 2.0 {
      SamePlace(m, ri, di, back.0, back.1);
    }
  }

  lemma UndoneIsShifted(m: Libm, ri: real, di: real, l: Local)
    requires m.Valid()
    ensures PolarUndone(m.sin(l.xpl), m.cos(l.xpl), m.sin(l.ypl), m.cos(l.ypl), LocalDirection(m, ri, di, l))
         == S2c(m, ri - l.eral, di)
  {
    hide PolarUndone, PolarRows, S2c, Dot;
    PolarMotionUndone(m, l.xpl, l.ypl, S2c(m, ri - l.eral, di));
  }

  /** Spherical form, plus the Earth rotation angle, normalised: the CIRS direction again. */
  lemma ShiftedBack(m: Libm, ri: real, di: real, eral: real)
    requires m.Valid()
    ensures var w := S2c(m, ri - eral, di);
            S2c(m, Anp(eral + C2sTheta(m, w), m.pi), C2sPhi(m, w)) == S2c(m, ri, di)
  {
    hide Anp, C2sTheta, C2sPhi, S2c, Apply, RotZ, IsRotation, Unit;
    var w := S2c(m, ri - eral, di);
    var hm, phi := C2sTheta(m, w), C2sPhi(m, w);
    S2cUnit(m, ri - eral, di);
    SphericalRoundTrip(m, w);
    AnpKeepsDirection(m, eral + hm, phi);
    EraAsRotation(m, eral + hm, phi, eral);
    EraAsRotation(m, ri, di, eral);
    assert (eral + hm) - eral == hm;
    RotZIsRotation(m, eral);
    RotationUndone(RotZ(m, eral), S2c(m, eral + hm, phi));
    RotationUndone(RotZ(m, eral), S2c(m, ri, di));
  }
}
