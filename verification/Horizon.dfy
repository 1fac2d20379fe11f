/**
 Horizon and equatorial coordinates: sofa/ae2hd.c and the conversions of ascom/ConversionHelper.cs
 between RA/Dec and Alt/Az.
 */
module Horizon {
  import opened MathLibrary
  import opened RealArith
  import opened Angles
  import opened Vectors
  import opened Astrometry
  import opened ContextLaws
  import opened StarPipeline

  /** The vector map written out in iauAe2hd, for a latitude with sine `sp` and cosine `cp`. */
  function Swing(sp: real, cp: real, v: Vec): Vec {
    Vec(-v.x * sp + v.z * cp, -v.y, v.x * cp + v.z * sp)
  }

  /** iauAe2hd: (hour angle, declination) of an azimuth and altitude. */
  function Ae2hd(m: Libm, az: real, el: real, phi: real): (real, real) {
    var e := Swing(m.sin(phi), m.cos(phi), S2c(m, az, el));
    var r := Hypot(m, e.x, e.y);
    (if r != 0.0 then m.atan2(e.y, e.x) else 0.0, m.atan2(e.z, r))
  }

  /** The map of iauAe2hd is an involution that preserves scalar products. */
  lemma SwingInvolution(sp: real, cp: real, u: Vec, v: Vec)
    requires sp * sp + cp * cp == 1.0
    ensures Swing(sp, cp, Swing(sp, cp, v)) == v
    ensures Dot(Swing(sp, cp, u), Swing(sp, cp, v)) == Dot(u, v)
  {
    SwingTwice(sp, cp, v.x, v.z);
    SwingDot(sp, cp, u.x, u.z, v.x, v.z);
  }

  lemma SwingTwice(s: real, c: real, x: real, z: real)
    requires s * s + c * c == 1.0
    ensures -(-x * s + z * c) * s + (x * c + z * s) * c == x
    ensures (-x * s + z * c) * c + (x * c + z * s) * s == z
  {
    assert -(-x * s + z * c) * s + (x * c + z * s) * c == (s * s + c * c) * x;
    assert (-x * s + z * c) * c + (x * c + z * s) * s == (s * s + c * c) * z;
  }

  lemma SwingDot(s: real, c: real, x: real, z: real, u: real, w: real)
    requires s * s + c * c == 1.0
    ensures (-x * s + z * c) * (-u * s + w * c) + (x * c + z * s) * (u * c + w * s) == x * u + z * w
  {
    assert (-x * s + z * c) * (-u * s + w * c) + (x * c + z * s) * (u * c + w * s)
        == (s * s + c * c) * (x * u) + (s * s + c * c) * (z * w);
  }

  /** iauAe2hd returns the spherical form of the swung vector, at the pole too. */
  lemma Ae2hdDirection(m: Libm, az: real, el: real, phi: real)
    requires m.Valid()
    ensures var (ha, dec) := Ae2hd(m, az, el, phi);
            && S2c(m, ha, dec) == Swing(m.sin(phi), m.cos(phi), S2c(m, az, el))
            && -m.pi / 2.0 <= dec <= m.pi / 2.0
  {
    hide Swing, Dot, Hypot;
    var e := Swing(m.sin(phi), m.cos(phi), S2c(m, az, el));
    S2cUnit(m, az, el);
    assert m.UnitCircle(phi);
    SwingInvolution(m.sin(phi), m.cos(phi), S2c(m, az, el), S2c(m, az, el));
    PolarForm(m, e);
  }

  lemma PolarForm(m: Libm, e: Vec)
    requires m.Valid() && Dot(e, e) == 1.0
    ensures var r := Hypot(m, e.x, e.y);
            var ha, dec := if r != 0.0 then m.atan2(e.y, e.x) else 0.0, m.atan2(e.z, r);
            S2c(m, ha, dec) == e && -m.pi / 2.0 <= dec <= m.pi / 2.0
  {
    var r := Hypot(m, e.x, e.y);
    HypotSquare(m, e.x, e.y);
    DotOf(e.x, e.y, e.z, e.x, e.y, e.z);
    assert r * r + e.z * e.z == 1.0 * 1.0;
    m.PolarPoint(e.z, r, 1.0);
    assert m.CosSign(m.atan2(e.z, r)) && m.PolarLaw(e.z, r);
    SquareSign(r);
    SquaresSumToZero(e.x, e.y);
    if r != 0.0 {
      m.PolarPoint(e.y, e.x, r);
    }
  }

  // ---------- Units ----------

  function HoursToRadians(m: Libm, hours: real): real {
    hours * m.pi / 12.0
  }

  function DegreesToRadians(m: Libm, degrees: real): real {
    degrees * m.pi / 180.0
  }

  function RadiansToDegrees(m: Libm, radians: real): real
    requires m.pi != 0.0
  {
    radians * 180.0 / m.pi
  }

  function Clamp(value: real, min: real, max: real): real {
    if value < min then min else if value > max then max else value
  }

  /** ((x % p) + p) % p, with the truncating remainder of C#. */
  function Wrap(x: real, p: real): real
    requires p > 0.0
  {
    FMod(FMod(x, p) + p, p)
  }

  lemma WrapProperties(x: real, p: real)
    requires p > 0.0
    ensures 0.0 <= Wrap(x, p) < p && Congruent(Wrap(x, p), x, p)
  {
    hide FMod, Congruent;
    FModProperties(x, p);
    FModProperties(FMod(x, p) + p, p);
    AddPeriods(FMod(x, p), x, p, 1);
    assert 1 as real * p == p;
    CongruentTransitive(Wrap(x, p), FMod(x, p) + p, x, p);
  }

  /** Scaling an angle scales its congruences. */
  lemma ScaledCongruence(a: real, b: real, p: real, f: real)
    requires Congruent(a, b, p)
    ensures Congruent(a * f, b * f, p * f)
  {
    var k: int :| DiffersBy(a, b, p, k);
    assert a * f == b * f + k as real * (p * f);
    assert DiffersBy(a * f, b * f, p * f, k);
  }

  lemma DegreesCongruent(m: Libm, a: real, b: real)
    requires Congruent(a, b, 360.0)
    ensures Congruent(DegreesToRadians(m, a), DegreesToRadians(m, b), m.Turn())
  {
    hide Congruent;
    var f := m.pi / 180.0;
    var fa, fb, turn := a * f, b * f, 360.0 * f;
    ScaledCongruence(a, b, 360.0, f);
    assert fa == DegreesToRadians(m, a) && fb == DegreesToRadians(m, b) && turn == m.Turn();
  }

  lemma DegreesRoundTrip(m: Libm, a: real)
    requires m.pi > 0.0
    ensures DegreesToRadians(m, RadiansToDegrees(m, a)) == a
    ensures DegreesToRadians(m, RadiansToDegrees(m, a) + 180.0) == a + m.pi
  {
    var d := RadiansToDegrees(m, a);
    assert d * m.pi == a * 180.0;
    assert (d + 180.0) * m.pi == a * 180.0 + 180.0 * m.pi;
  }

  // ---------- RA/Dec to Alt/Az ----------

  /** RaDecToHorizontal on hour angle and angles in radians: (altitude, azimuth from south). */
  function HorizontalRadians(m: Libm, ha: real, dec: real, lat: real): (real, real) {
    (m.asin(Clamp(SinAltitude(m, ha, dec, lat), -1.0, 1.0)),
     m.atan2(m.sin(ha), SouthComponent(m, ha, dec, lat)))
  }

  function SinAltitude(m: Libm, ha: real, dec: real, lat: real): real {
    m.sin(dec) * m.sin(lat) + m.cos(dec) * m.cos(lat) * m.cos(ha)
  }

  function SouthComponent(m: Libm, ha: real, dec: real, lat: real): real {
    m.cos(ha) * m.sin(lat) - m.tan(dec) * m.cos(lat)
  }

  /** RaDecToHorizontal: (altitude, azimuth) in degrees. */
  function RaDecToHorizontal(m: Libm, latitude: real, raHours: real, decDegrees: real, lstHours: real): (real, real)
    requires m.pi > 0.0
  {
    var (alt, az) := HorizontalRadians(m, HoursToRadians(m, lstHours - raHours),
                                       DegreesToRadians(m, decDegrees), DegreesToRadians(m, latitude));
    (RadiansToDegrees(m, alt), Wrap(RadiansToDegrees(m, az) + 180.0, 360.0))
  }

  lemma CosPositive(m: Libm, a: real)
    requires m.Valid() && -m.pi / 2.0 < a < m.pi / 2.0
    ensures m.cos(a) > 0.0
  {
    var b := if a >= 0.0 then m.pi - a else -(m.pi + a);
    m.AtHalfTurn();
    if a >= 0.0 {
      m.Difference(m.pi, a);
    } else {
      m.Negated(m.pi + a);
      assert m.SumLaw(m.pi, a);
    }
    assert m.cos(b) == -m.cos(a);
    assert m.CosSign(a) && m.CosSign(b);
  }

  /** Azimuth from south, pushed half a turn: the horizon direction is the swung equatorial one. */
  lemma HorizontalDirection(m: Libm, ha: real, dec: real, lat: real)
    requires m.Valid() && -m.pi / 2.0 < dec < m.pi / 2.0
    ensures var (alt, az) := HorizontalRadians(m, ha, dec, lat);
            && S2c(m, az + m.pi, alt) == Swing(m.sin(lat), m.cos(lat), S2c(m, ha, dec))
            && -m.pi / 2.0 <= alt <= m.pi / 2.0
  {
    hide Dot, Swing, S2c, SinAltitude, SouthComponent, Libm.Valid;
    var t := Swing(m.sin(lat), m.cos(lat), S2c(m, ha, dec));
    var (alt, az) := HorizontalRadians(m, ha, dec, lat);
    CosPositive(m, dec);
    HorizonVectorUnit(m, ha, dec, lat);
    AltitudeParts(m, t);
    SwungComponents(m, ha, dec, lat);
    SouthAzimuth(m, m.cos(dec), m.sin(ha), SouthComponent(m, ha, dec, lat), m.cos(alt), t);
    HalfTurnOn(m, az);
    TurnedS2c(m, az + m.pi, alt, t);
  }

  lemma TurnedS2c(m: Libm, a: real, b: real, t: Vec)
    requires t.x == m.cos(b) * m.cos(a) && t.y == m.cos(b) * m.sin(a) && t.z == m.sin(b)
    ensures S2c(m, a, b) == t
  {}

  /** The components of the swung vector in the terms of the C# code. */
  lemma SwungComponents(m: Libm, ha: real, dec: real, lat: real)
    requires m.Valid() && m.cos(dec) != 0.0
    ensures var t := Swing(m.sin(lat), m.cos(lat), S2c(m, ha, dec));
            && t.z == SinAltitude(m, ha, dec, lat)
            && t.x == -(m.cos(dec) * SouthComponent(m, ha, dec, lat))
            && t.y == -(m.cos(dec) * m.sin(ha))
  {
    assert m.TanLaw(dec);
    var d, tn, sp, cp := m.cos(dec), m.tan(dec), m.sin(lat), m.cos(lat);
    assert d * (m.cos(ha) * sp - tn * cp) == d * m.cos(ha) * sp - (tn * d) * cp;
  }

  lemma HorizonVectorUnit(m: Libm, ha: real, dec: real, lat: real)
    requires m.Valid()
    ensures var t := Swing(m.sin(lat), m.cos(lat), S2c(m, ha, dec)); Dot(t, t) == 1.0
  {
    hide Swing, S2c, Dot;
    S2cUnit(m, ha, dec);
    UnitMeans(S2c(m, ha, dec));
    assert m.UnitCircle(lat);
    SwingInvolution(m.sin(lat), m.cos(lat), S2c(m, ha, dec), S2c(m, ha, dec));
  }

  /** The clamp of the sine of the altitude never fires. */
  lemma AltitudeParts(m: Libm, t: Vec)
    requires m.Valid() && Dot(t, t) == 1.0
    ensures var alt := m.asin(Clamp(t.z, -1.0, 1.0));
            && Clamp(t.z, -1.0, 1.0) == t.z && m.sin(alt) == t.z && -m.pi / 2.0 <= alt <= m.pi / 2.0
            && m.cos(alt) >= 0.0 && m.cos(alt) * m.cos(alt) == t.x * t.x + t.y * t.y
  {
    DotOf(t.x, t.y, t.z, t.x, t.y, t.z);
    SquaresSumToZero(t.x, t.y);
    SquareOrder(t.z, 1.0);
    var alt := m.asin(t.z);
    assert m.AsinLaw(t.z) && m.UnitCircle(alt) && m.CosSign(alt);
  }

  /** atan2 of the divided-out components carries the horizontal part of the vector, reversed. */
  lemma SouthAzimuth(m: Libm, d: real, y: real, x: real, h: real, t: Vec)
    requires m.Valid() && d > 0.0 && h >= 0.0 && h * h == t.x * t.x + t.y * t.y
    requires t.x == -(d * x) && t.y == -(d * y)
    ensures t.x == h * -m.cos(m.atan2(y, x)) && t.y == h * -m.sin(m.atan2(y, x))
  {
    hide Hypot, Libm.Valid;
    var a, q := m.atan2(y, x), Hypot(m, x, y);
    HypotSquare(m, x, y);
    ScaledHypot(d, q, x, y, h, t.x, t.y);
    PolarAlways(m, y, x);
    assert d * (q * m.cos(a)) == (d * q) * m.cos(a) && d * (q * m.sin(a)) == (d * q) * m.sin(a);
  }

  lemma PolarAlways(m: Libm, y: real, x: real)
    requires m.Valid()
    ensures x == Hypot(m, x, y) * m.cos(m.atan2(y, x)) && y == Hypot(m, x, y) * m.sin(m.atan2(y, x))
  {
    var q := Hypot(m, x, y);
    HypotSquare(m, x, y);
    SquaresSumToZero(x, y);
    SquareSign(q);
    if q != 0.0 {
      m.PolarPoint(y, x, q);
    }
  }

  lemma ScaledHypot(d: real, q: real, x: real, y: real, h: real, tx: real, ty: real)
    requires d > 0.0 && q >= 0.0 && h >= 0.0 && q * q == x * x + y * y && h * h == tx * tx + ty * ty
    requires tx == -(d * x) && ty == -(d * y)
    ensures h == d * q
  {
    assert (d * q) * (d * q) == d * d * (x * x + y * y) == h * h;
    NonnegativeProduct(d, q, d * q);
    EqualSquares(h, d * q);
  }

  lemma HalfTurnOn(m: Libm, a: real)
    requires m.Valid()
    ensures m.cos(a + m.pi) == -m.cos(a) && m.sin(a + m.pi) == -m.sin(a)
  {
    m.AtHalfTurn();
    assert m.SumLaw(a, m.pi);
  }

  /**
   iauAe2hd recovers the hour angle (modulo whole turns) and the declination from the altitude and
   azimuth that RaDecToHorizontal computes, for every latitude and |Dec| < 90, at the zenith too.
   */
  lemma Ae2hdUndoesHorizontal(m: Libm, latitude: real, raHours: real, decDegrees: real, lstHours: real)
    requires m.Valid() && -90.0 < decDegrees < 90.0
    ensures var (alt, az) := RaDecToHorizontal(m, latitude, raHours, decDegrees, lstHours);
            var (ha, dec) := Ae2hd(m, DegreesToRadians(m, az), DegreesToRadians(m, alt), DegreesToRadians(m, latitude));
            && 0.0 <= az < 360.0
            && Congruent(ha, HoursToRadians(m, lstHours - raHours), m.Turn())
            && dec == DegreesToRadians(m, decDegrees)
  {
    hide Libm.Valid, Congruent, Wrap, Swing, S2c;
    hide Dot, HorizontalRadians, Ae2hd, HoursToRadians, DegreesToRadians, RadiansToDegrees;
    PiPositive(m);
    var h, d, lat := HoursToRadians(m, lstHours - raHours), DegreesToRadians(m, decDegrees), DegreesToRadians(m, latitude);
    var sp, cp := m.sin(lat), m.cos(lat);
    OpenQuarter(m, decDegrees);
    var (altR, azR) := HorizontalRadians(m, h, d, lat);
    var (alt, az) := RaDecToHorizontal(m, latitude, raHours, decDegrees, lstHours);
    HorizontalDirection(m, h, d, lat);
    DegreesRoundTrip(m, altR);
    DegreesRoundTrip(m, azR);
    WrapProperties(RadiansToDegrees(m, azR) + 180.0, 360.0);
    DegreesCongruent(m, az, RadiansToDegrees(m, azR) + 180.0);
    SameS2c(m, DegreesToRadians(m, az), azR + m.pi, altR);
    Ae2hdDirection(m, DegreesToRadians(m, az), altR, lat);
    CircleAt(m, lat);
    SwingInvolution(sp, cp, S2c(m, h, d), S2c(m, h, d));
    var (ha, dec) := Ae2hd(m, DegreesToRadians(m, az), DegreesToRadians(m, alt), lat);
    assert S2c(m, ha, dec) == S2c(m, h, d);
    SameAngles(m, ha, dec, h, d);
  }

  lemma CircleAt(m: Libm, a: real)
    requires m.Valid()
    ensures m.sin(a) * m.sin(a) + m.cos(a) * m.cos(a) == 1.0
  {
    assert m.UnitCircle(a);
  }

  lemma OpenQuarter(m: Libm, degrees: real)
    requires m.pi > 0.0 && -90.0 < degrees < 90.0
    ensures -m.pi / 2.0 < DegreesToRadians(m, degrees) < m.pi / 2.0
  {
    var x := degrees * m.pi;
    PositiveProduct(90.0 - degrees, m.pi, 90.0 * m.pi - x);
    PositiveProduct(90.0 + degrees, m.pi, 90.0 * m.pi + x);
    assert DegreesToRadians(m, degrees) == x / 180.0;
  }

  /** Equal directions away from the poles have equal latitudes and congruent longitudes. */
  lemma SameAngles(m: Libm, a: real, b: real, c: real, d: real)
    requires m.Valid() && S2c(m, a, b) == S2c(m, c, d)
    requires -m.pi / 2.0 <= b <= m.pi / 2.0 && -m.pi / 2.0 < d < m.pi / 2.0
    ensures b == d && Congruent(a, c, m.Turn())
  {
    m.SineInjective(b, d);
    CosPositive(m, d);
    CancelFactor(m.cos(a), m.cos(c), m.cos(d));
    CancelFactor(m.sin(a), m.sin(c), m.cos(d));
    assert m.TurnLaw(a, c);
  }

  // ---------- Alt/Az mount axes to RA/Dec ----------

  /** The hour angle and declination inside AltAzMountToRaDec, in radians. */
  function AltAzRadians(m: Libm, az: real, alt: real, lat: real): (real, real) {
    var c := AltAzComponents(m, az, alt, lat);
    (m.atan2(c.y, c.x), m.asin(c.z))
  }

  /** The three expressions that AltAzMountToRaDec passes to atan2 and asin. */
  function AltAzComponents(m: Libm, az: real, alt: real, lat: real): Vec {
    Vec(m.cos(alt) * m.cos(az) * m.sin(lat) - m.sin(alt) * m.cos(lat),
        -m.sin(az) * m.cos(alt),
        m.sin(alt) * m.sin(lat) + m.cos(alt) * m.cos(az) * m.cos(lat))
  }

  /** Against the vector of sofa/ae2hd.c, the first component has the opposite sign. */
  lemma AltAzMirrored(m: Libm, az: real, alt: real, lat: real)
    ensures var e := Swing(m.sin(lat), m.cos(lat), S2c(m, az, alt));
            AltAzComponents(m, az, alt, lat) == Vec(-e.x, e.y, e.z)
  {}

  lemma MirroredAngle(m: Libm, y: real, x: real, r: real)
    requires m.Valid() && r > 0.0 && r * r == x * x + y * y
    ensures Congruent(m.atan2(y, -x), m.pi - m.atan2(y, x), m.Turn())
    ensures Congruent(m.atan2(y, -x), m.atan2(y, x), m.Turn()) <==> x == 0.0
  {
    var a, b := m.atan2(y, -x), m.atan2(y, x);
    m.PolarPoint(y, x, r);
    m.PolarPoint(y, -x, r);
    m.AtHalfTurn();
    m.Difference(m.pi, b);
    assert m.TurnLaw(a, m.pi - b) && m.TurnLaw(a, b);
    CancelFactor(m.cos(a), -m.cos(b), r);
    CancelFactor(m.sin(a), m.sin(b), r);
    if x == 0.0 {
      ZeroProduct(r, m.cos(b));
    }
  }

  /**
   AltAzMountToRaDec against iauAe2hd, off the celestial poles: the declinations agree, but the C#
   hour angle is pi - HA, so the two hour angles agree exactly when the x component is zero.
   */
  lemma AltAzHourAngleMirrored(m: Libm, az: real, alt: real, lat: real)
    requires m.Valid()
    ensures var e := Swing(m.sin(lat), m.cos(lat), S2c(m, az, alt));
            var (ha, dec) := Ae2hd(m, az, alt, lat);
            var (csHa, csDec) := AltAzRadians(m, az, alt, lat);
            && csDec == dec
            && (e.x != 0.0 || e.y != 0.0 ==>
                  && Congruent(csHa, m.pi - ha, m.Turn())
                  && (Congruent(csHa, ha, m.Turn()) <==> e.x == 0.0))
  {
    hide Libm.Valid, Congruent, Swing, S2c, Dot, Hypot, AltAzComponents;
    var e := Swing(m.sin(lat), m.cos(lat), S2c(m, az, alt));
    var r := Hypot(m, e.x, e.y);
    AltAzMirrored(m, az, alt, lat);
    HorizonVectorUnit(m, az, alt, lat);
    SameDeclination(m, e);
    HypotSquare(m, e.x, e.y);
    SquaresSumToZero(e.x, e.y);
    SquareSign(r);
    if r != 0.0 {
      MirroredAngle(m, e.y, e.x, r);
    }
  }

  lemma SameDeclination(m: Libm, e: Vec)
    requires m.Valid() && Dot(e, e) == 1.0
    ensures m.asin(e.z) == m.atan2(e.z, Hypot(m, e.x, e.y))
  {
    hide S2c;
    var r := Hypot(m, e.x, e.y);
    PolarForm(m, e);
    HypotSquare(m, e.x, e.y);
    DotOf(e.x, e.y, e.z, e.x, e.y, e.z);
    SquaresSumToZero(e.x, e.y);
    SquareOrder(e.z, 1.0);
    assert m.AsinLaw(e.z);
    LatitudeSine(m, e, r);
    m.SineInjective(m.asin(e.z), m.atan2(e.z, r));
  }

  lemma LatitudeSine(m: Libm, e: Vec, r: real)
    requires m.Valid() && r >= 0.0 && r * r == e.x * e.x + e.y * e.y && Dot(e, e) == 1.0
    ensures m.sin(m.atan2(e.z, r)) == e.z
  {
    DotOf(e.x, e.y, e.z, e.x, e.y, e.z);
    assert r * r + e.z * e.z == 1.0 * 1.0;
    m.PolarPoint(e.z, r, 1.0);
  }
}
