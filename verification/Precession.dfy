/** IAU 1976 precession in the ASCOM driver (ascom/ConversionHelper.cs). */
module Precession {
  import opened MathLibrary
  import opened RealArith
  import opened Vectors
  import opened Rotations
  import opened Astrometry
  import opened ContextLaws
  import opened StarPipeline
  import opened Observed
  import opened Horizon

  /** The precession angles in degrees. */
  datatype PrecessionAngles = PrecessionAngles(zeta: real, z: real, theta: real)

  function RaRadians(m: Libm, hours: real): real {
    hours * 15.0 * m.pi / 180.0
  }

  predicate IsLatitude(m: Libm, b: real) {
    -m.pi / 2.0 <= b <= m.pi / 2.0
  }

  /** The vector (B, A, C) of Precess. */
  function Precessed(m: Libm, a: real, dec0: real, theta: real): Vec {
    Vec(m.cos(theta) * m.cos(dec0) * m.cos(a) - m.sin(theta) * m.sin(dec0),
        m.cos(dec0) * m.sin(a),
        m.sin(theta) * m.cos(dec0) * m.cos(a) + m.cos(theta) * m.sin(dec0))
  }

  /** Precess, in radians. */
  function PrecessRadians(m: Libm, ra0: real, dec0: real, zeta: real, z: real, theta: real): (real, real) {
    var p := Precessed(m, ra0 + zeta, dec0, theta);
    (m.atan2(p.y, p.x) + z, m.asin(Clamp(p.z, -1.0, 1.0)))
  }

  /** Precess: (RA in hours, Dec in degrees). */
  function Precess(m: Libm, raHours: real, decDegrees: real, g: PrecessionAngles): (real, real)
    requires m.pi > 0.0
  {
    var (ra, dec) := PrecessRadians(m, RaRadians(m, raHours), DegreesToRadians(m, decDegrees),
                                    DegreesToRadians(m, g.zeta), DegreesToRadians(m, g.z), DegreesToRadians(m, g.theta));
    (HoursOut(m, ra), RadiansToDegrees(m, dec))
  }

  /** Radians to hours, wrapped into [0, 24). */
  function HoursOut(m: Libm, ra: real): real
    requires m.pi > 0.0
  {
    Wrap(ra * 12.0 / m.pi, 24.0)
  }

  function J2000ToJNow(m: Libm, raHours: real, decDegrees: real, g: PrecessionAngles): (real, real)
    requires m.pi > 0.0
  {
    Precess(m, raHours, decDegrees, g)
  }

  /** The inverse: the rotation angles swapped and negated. */
  function JNowToJ2000(m: Libm, raHours: real, decDegrees: real, g: PrecessionAngles): (real, real)
    requires m.pi > 0.0
  {
    Precess(m, raHours, decDegrees, PrecessionAngles(-g.z, -g.zeta, -g.theta))
  }

  /** The precession matrix of the three angles, in radians. */
  function PrecessionMatrix(m: Libm, zeta: real, z: real, theta: real): Mat {
    Mul(RotZ(m, -z), Mul(RotY(m, theta), RotZ(m, -zeta)))
  }

  /** The direction that an RA in hours and a Dec in degrees name. */
  function SkyDirection(m: Libm, raHours: real, decDegrees: real): Vec {
    S2c(m, RaRadians(m, raHours), DegreesToRadians(m, decDegrees))
  }

  lemma PrecessedIsTilted(m: Libm, a: real, dec0: real, theta: real)
    requires m.Valid()
    ensures Precessed(m, a, dec0, theta) == Apply(RotY(m, theta), S2c(m, a, dec0))
    ensures Dot(Precessed(m, a, dec0, theta), Precessed(m, a, dec0, theta)) == 1.0
  {
    var s, c, u := m.sin(theta), m.cos(theta), S2c(m, a, dec0);
    DotOf(c, 0.0, -s, u.x, u.y, u.z);
    DotOf(0.0, 1.0, 0.0, u.x, u.y, u.z);
    DotOf(s, 0.0, c, u.x, u.y, u.z);
    SameVec(Precessed(m, a, dec0, theta), Apply(RotY(m, theta), u));
    hide Apply, RotY, S2c, Dot, IsRotation, Precessed;
    RotYIsRotation(m, theta);
    S2cUnit(m, a, dec0);
    UnitMeans(u);
    RotationIsIsometry(RotY(m, theta), u, u);
  }

  /** asin and atan2 of a unit vector's components: its spherical form, with the clamp idle. */
  lemma SphericalOfUnit(m: Libm, p: Vec)
    requires m.Valid() && Dot(p, p) == 1.0
    ensures Clamp(p.z, -1.0, 1.0) == p.z
    ensures var dec := m.asin(Clamp(p.z, -1.0, 1.0));
            S2c(m, m.atan2(p.y, p.x), dec) == p && IsLatitude(m, dec)
  {
    hide Dot, Hypot;
    var h, dec := Hypot(m, p.x, p.y), m.asin(Clamp(p.z, -1.0, 1.0));
    AltitudeParts(m, p);
    HypotSquare(m, p.x, p.y);
    EqualSquares(h, m.cos(dec));
    PolarAlways(m, p.y, p.x);
  }

  /** The sine of the declination is in range, so the clamp of Precess never fires. */
  lemma ClampNeverFires(m: Libm, a: real, dec0: real, theta: real)
    requires m.Valid()
    ensures -1.0 <= Precessed(m, a, dec0, theta).z <= 1.0
  {
    PrecessedIsTilted(m, a, dec0, theta);
    hide Precessed, Dot, Apply, RotY, S2c;
    AltitudeParts(m, Precessed(m, a, dec0, theta));
  }

  /** Precess turns every direction by the precession matrix. */
  lemma PrecessIsRotation(m: Libm, ra0: real, dec0: real, zeta: real, z: real, theta: real)
    requires m.Valid()
    ensures var (ra, dec) := PrecessRadians(m, ra0, dec0, zeta, z, theta);
            && S2c(m, ra, dec) == Apply(PrecessionMatrix(m, zeta, z, theta), S2c(m, ra0, dec0))
            && IsLatitude(m, dec)
  {
    hide Precessed, Apply, RotY, RotZ, Mul, S2c, Dot, Clamp, Libm.Valid;
    var u := S2c(m, ra0, dec0);
    var p := Precessed(m, ra0 + zeta, dec0, theta);
    PrecessedIsTilted(m, ra0 + zeta, dec0, theta);
    SphericalOfUnit(m, p);
    EraAsRotation(m, ra0, dec0, -zeta);
    assert ra0 - -zeta == ra0 + zeta;
    var a, dec := m.atan2(p.y, p.x), m.asin(Clamp(p.z, -1.0, 1.0));
    EraAsRotation(m, a, dec, -z);
    assert a - -z == a + z;
    ApplyMul(RotY(m, theta), RotZ(m, -zeta), u);
    ApplyMul(RotZ(m, -z), Mul(RotY(m, theta), RotZ(m, -zeta)), u);
  }

  lemma MatrixIsRotation(m: Libm, zeta: real, z: real, theta: real)
    requires m.Valid()
    ensures IsRotation(PrecessionMatrix(m, zeta, z, theta))
  {
    hide IsRotation, Mul, RotY, RotZ;
    RotZIsRotation(m, -z);
    RotYIsRotation(m, theta);
    RotZIsRotation(m, -zeta);
    ProductOfRotations(RotY(m, theta), RotZ(m, -zeta));
    ProductOfRotations(RotZ(m, -z), Mul(RotY(m, theta), RotZ(m, -zeta)));
  }

  /** Swapping and negating the angles transposes the matrix. */
  lemma SwappedAnglesTranspose(m: Libm, zeta: real, z: real, theta: real)
    requires m.Valid()
    ensures PrecessionMatrix(m, -z, -zeta, -theta) == Transpose(PrecessionMatrix(m, zeta, z, theta))
  {
    NegatedAxes(m, z);
    NegatedAxes(m, zeta);
    NegatedAxes(m, theta);
    assert -(-z) == z && -(-zeta) == zeta;
    hide Mul, Transpose, RotY, RotZ;
    TransposeMul(RotZ(m, -z), Mul(RotY(m, theta), RotZ(m, -zeta)));
    TransposeMul(RotY(m, theta), RotZ(m, -zeta));
    MulAssociative(RotZ(m, zeta), RotY(m, -theta), RotZ(m, z));
  }

  lemma NegatedAxes(m: Libm, a: real)
    requires m.Valid()
    ensures RotZ(m, a) == Transpose(RotZ(m, -a)) && RotY(m, -a) == Transpose(RotY(m, a))
  {
    m.Negated(a);
  }

  lemma RadiansRoundTripRa(m: Libm, ra: real)
    requires m.pi > 0.0
    ensures Congruent(RaRadians(m, HoursOut(m, ra)), ra, m.Turn())
    ensures 0.0 <= HoursOut(m, ra) < 24.0
  {
    hide Congruent, Wrap;
    var h, f := ra * 12.0 / m.pi, m.pi / 12.0;
    var w := Wrap(h, 24.0);
    WrapProperties(h, 24.0);
    ScaledCongruence(w, h, 24.0, f);
    var wf, hf, turn := w * f, h * f, 24.0 * f;
    assert h * m.pi == ra * 12.0;
    assert wf == RaRadians(m, w) && hf == ra && turn == m.Turn();
  }

  /** Precess on sky coordinates: the named direction is rotated, RA in [0, 24), Dec in [-90, 90]. */
  lemma PrecessMovesDirection(m: Libm, raHours: real, decDegrees: real, g: PrecessionAngles)
    requires m.Valid()
    ensures var (ra, dec) := Precess(m, raHours, decDegrees, g);
            && SkyDirection(m, ra, dec) == Apply(PrecessionMatrix(m, DegreesToRadians(m, g.zeta), DegreesToRadians(m, g.z),
                                                                  DegreesToRadians(m, g.theta)),
                                                 SkyDirection(m, raHours, decDegrees))
            && 0.0 <= ra < 24.0 && IsLatitude(m, DegreesToRadians(m, dec))
  {
    hide PrecessRadians, PrecessionMatrix, Apply, S2c, HoursOut;
    hide Congruent, DegreesToRadians, RadiansToDegrees, RaRadians, Libm.Valid;
    PiPositive(m);
    var ra0, dec0 := RaRadians(m, raHours), DegreesToRadians(m, decDegrees);
    var zeta, z, theta := DegreesToRadians(m, g.zeta), DegreesToRadians(m, g.z), DegreesToRadians(m, g.theta);
    PrecessIsRotation(m, ra0, dec0, zeta, z, theta);
    var (ra, dec) := PrecessRadians(m, ra0, dec0, zeta, z, theta);
    RadiansRoundTripRa(m, ra);
    DegreesRoundTrip(m, dec);
    SameS2c(m, RaRadians(m, HoursOut(m, ra)), ra, dec);
  }

  /** Precession preserves the scalar product, hence the angle, between any two positions. */
  lemma PrecessPreservesSeparation(m: Libm, ra1: real, dec1: real, ra2: real, dec2: real, g: PrecessionAngles)
    requires m.Valid()
    ensures var (a, b) := Precess(m, ra1, dec1, g);
            var (c, d) := Precess(m, ra2, dec2, g);
            Dot(SkyDirection(m, a, b), SkyDirection(m, c, d)) == Dot(SkyDirection(m, ra1, dec1), SkyDirection(m, ra2, dec2))
  {
    hide Precess, PrecessionMatrix, Apply, Dot, SkyDirection, IsRotation, DegreesToRadians, Libm.Valid;
    PiPositive(m);
    PrecessMovesDirection(m, ra1, dec1, g);
    PrecessMovesDirection(m, ra2, dec2, g);
    MatrixIsRotation(m, DegreesToRadians(m, g.zeta), DegreesToRadians(m, g.z), DegreesToRadians(m, g.theta));
    RotationIsIsometry(PrecessionMatrix(m, DegreesToRadians(m, g.zeta), DegreesToRadians(m, g.z), DegreesToRadians(m, g.theta)),
                       SkyDirection(m, ra1, dec1), SkyDirection(m, ra2, dec2));
  }

  /** There and back again, every direction returns, at the poles too. */
  lemma DirectionRoundTrip(m: Libm, raHours: real, decDegrees: real, g: PrecessionAngles)
    requires m.Valid()
    ensures var (a, b) := J2000ToJNow(m, raHours, decDegrees, g);
            var (ra, dec) := JNowToJ2000(m, a, b, g);
            && SkyDirection(m, ra, dec) == SkyDirection(m, raHours, decDegrees)
            && 0.0 <= ra < 24.0 && IsLatitude(m, DegreesToRadians(m, dec))
  {
    hide Libm.Valid, Precess, PrecessionMatrix, Apply, SkyDirection, IsRotation, DegreesToRadians, IsLatitude;
    PiPositive(m);
    NegatedDegrees(m, g);
    var (a, b) := J2000ToJNow(m, raHours, decDegrees, g);
    PrecessMovesDirection(m, raHours, decDegrees, g);
    PrecessMovesDirection(m, a, b, PrecessionAngles(-g.z, -g.zeta, -g.theta));
    MatrixUndone(m, DegreesToRadians(m, g.zeta), DegreesToRadians(m, g.z), DegreesToRadians(m, g.theta),
                 SkyDirection(m, raHours, decDegrees));
  }

  /**
   JNowToJ2000 undoes J2000ToJNow for every set of angles and every |Dec| < 90: the declination
   exactly and the right ascension modulo 24 h, in [0, 24).
   */
  lemma PrecessionRoundTrip(m: Libm, raHours: real, decDegrees: real, g: PrecessionAngles)
    requires m.Valid() && -90.0 < decDegrees < 90.0
    ensures var (a, b) := J2000ToJNow(m, raHours, decDegrees, g);
            var (ra, dec) := JNowToJ2000(m, a, b, g);
            dec == decDegrees && 0.0 <= ra < 24.0 && Congruent(ra, raHours, 24.0)
  {
    hide Libm.Valid, J2000ToJNow, JNowToJ2000, SkyDirection, DegreesToRadians, IsLatitude, Congruent;
    PiPositive(m);
    var (a, b) := J2000ToJNow(m, raHours, decDegrees, g);
    var (ra, dec) := JNowToJ2000(m, a, b, g);
    DirectionRoundTrip(m, raHours, decDegrees, g);
    SameSkyPlace(m, ra, dec, raHours, decDegrees);
  }

  lemma MatrixUndone(m: Libm, zeta: real, z: real, theta: real, u: Vec)
    requires m.Valid()
    ensures Apply(PrecessionMatrix(m, -z, -zeta, -theta), Apply(PrecessionMatrix(m, zeta, z, theta), u)) == u
  {
    hide PrecessionMatrix, Apply, Transpose, IsRotation;
    SwappedAnglesTranspose(m, zeta, z, theta);
    MatrixIsRotation(m, zeta, z, theta);
    RotationUndone(PrecessionMatrix(m, zeta, z, theta), u);
  }

  lemma NegatedDegrees(m: Libm, g: PrecessionAngles)
    ensures DegreesToRadians(m, -g.zeta) == -DegreesToRadians(m, g.zeta)
    ensures DegreesToRadians(m, -g.z) == -DegreesToRadians(m, g.z)
    ensures DegreesToRadians(m, -g.theta) == -DegreesToRadians(m, g.theta)
  {}

  lemma SameSkyPlace(m: Libm, ra: real, dec: real, ra0: real, dec0: real)
    requires m.Valid() && SkyDirection(m, ra, dec) == SkyDirection(m, ra0, dec0) && -90.0 < dec0 < 90.0
    requires IsLatitude(m, DegreesToRadians(m, dec))
    ensures dec == dec0 && Congruent(ra, ra0, 24.0)
  {
    hide S2c, Congruent, RaRadians, DegreesToRadians, Libm.Valid;
    PiPositive(m);
    OpenQuarter(m, dec0);
    SameAngles(m, RaRadians(m, ra), DegreesToRadians(m, dec), RaRadians(m, ra0), DegreesToRadians(m, dec0));
    DegreesInjective(m, dec, dec0);
    HoursCongruent(m, ra, ra0);
  }

  lemma DegreesInjective(m: Libm, a: real, b: real)
    requires m.pi > 0.0 && DegreesToRadians(m, a) == DegreesToRadians(m, b)
    ensures a == b
  {
    CancelFactor(a, b, m.pi);
  }

  lemma HoursCongruent(m: Libm, a: real, b: real)
    requires m.pi > 0.0 && Congruent(RaRadians(m, a), RaRadians(m, b), m.Turn())
    ensures Congruent(a, b, 24.0)
  {
    hide Congruent, RaRadians;
    var f := 12.0 / m.pi;
    assert f * m.pi == 12.0;
    var ra, rb, turn := RaRadians(m, a), RaRadians(m, b), m.Turn();
    var fa, fb, day := ra * f, rb * f, turn * f;
    ScaledCongruence(ra, rb, turn, f);
    HoursFromRadians(m, a, f);
    HoursFromRadians(m, b, f);
    assert fa == a && fb == b && day == 24.0;
  }

  lemma HoursFromRadians(m: Libm, hours: real, f: real)
    requires f * m.pi == 12.0
    ensures RaRadians(m, hours) * f == hours
  {
    assert RaRadians(m, hours) * f == hours * 15.0 * (f * m.pi) / 180.0;
  }
}
