/** The ConversionHelper class of the ASCOM driver (ascom/ConversionHelper.cs): mount axes to RA/Dec. */
module MountConversion {
  import opened MathLibrary
  import opened RealArith
  import opened Vectors
  import opened ContextLaws
  import opened StarPipeline
  import opened Horizon
  import opened MountMapping

  datatype MountType = Unknown | Equatorial | AltAz | Casual

  function RadiansToHours(m: Libm, radians: real): real
    requires m.pi != 0.0
  {
    radians * 12.0 / m.pi
  }

  /** AltAzMountToRaDec for an observer at `latitude` degrees. */
  function AltAzMountToRaDec(m: Libm, latitude: real, azDegrees: real, altDegrees: real, lstHours: real): (real, real)
    requires m.pi > 0.0
  {
    var (ha, dec) := AltAzRadians(m, DegreesToRadians(m, azDegrees), DegreesToRadians(m, altDegrees),
                                  DegreesToRadians(m, latitude));
    (Normalized(lstHours - RadiansToHours(m, ha), 24.0), RadiansToDegrees(m, dec))
  }

  /** MountPositionToRaDec: a casual mount is treated as an equatorial one, an unknown mount gives (0, 0). */
  function MountToRaDec(m: Libm, latitude: real, axis1: real, axis2: real, mount: MountType, lstHours: real): (real, real)
    requires m.pi > 0.0
  {
    match mount
    case Equatorial => EquatorialMountToRaDec(axis1, axis2, lstHours)
    case AltAz => AltAzMountToRaDec(m, latitude, axis1, axis2, lstHours)
    case Casual => EquatorialMountToRaDec(axis1, axis2, lstHours)
    case Unknown => (0.0, 0.0)
  }

  class ConversionHelper {
    var latitude: real

    constructor (latitude: real)
      ensures this.latitude == latitude
    {
      this.latitude := latitude;
    }

    method SetLatitude(latitude: real)
      modifies this
      ensures this.latitude == latitude
    {
      this.latitude := latitude;
    }

    method EquatorialRaDec(haDegrees: real, decDegrees: real, lstHours: real) returns (ra: real, dec: real)
      ensures (ra, dec) == EquatorialMountToRaDec(haDegrees, decDegrees, lstHours)
    {
      var haHours := haDegrees / 15.0;
      haHours := NormalizeHours(haHours, 12.0);
      var raHours := lstHours - haHours;
      raHours := NormalizeHours(raHours, 24.0);
      dec := decDegrees;
      dec := Clamp(dec, -90.0, 90.0);
      ra := raHours;
    }

    method AltAzRaDec(m: Libm, azDegrees: real, altDegrees: real, lstHours: real) returns (ra: real, dec: real)
      requires m.Valid()
      ensures (ra, dec) == AltAzMountToRaDec(m, latitude, azDegrees, altDegrees, lstHours)
    {
      var (haRad, decRad) := AltAzRadians(m, DegreesToRadians(m, azDegrees), DegreesToRadians(m, altDegrees),
                                          DegreesToRadians(m, latitude));
      var haHours := RadiansToHours(m, haRad);
      var raHours := lstHours - haHours;
      ra := NormalizeHours(raHours, 24.0);
      dec := RadiansToDegrees(m, decRad);
    }

    /** The dispatch on the mount geometry, at the latitude last set. */
    method MountPositionToRaDec(m: Libm, axis1: real, axis2: real, mount: MountType, lstHours: real)
      returns (ra: real, dec: real)
      requires m.Valid()
      ensures (ra, dec) == MountToRaDec(m, latitude, axis1, axis2, mount, lstHours)
    {
      match mount {
        case Equatorial => ra, dec := EquatorialRaDec(axis1, axis2, lstHours);
        case AltAz => ra, dec := AltAzRaDec(m, axis1, axis2, lstHours);
        case Casual => ra, dec := EquatorialRaDec(axis1, axis2, lstHours);
        case Unknown => ra, dec := 0.0, 0.0;
      }
    }
  }

  /** Radians congruent modulo a turn are hours congruent modulo a day. */
  lemma HoursOfCongruent(m: Libm, a: real, b: real)
    requires m.pi > 0.0 && Congruent(a, b, m.Turn())
    ensures Congruent(RadiansToHours(m, a), RadiansToHours(m, b), 24.0)
  {
    hide Congruent;
    var f := 12.0 / m.pi;
    assert f * m.pi == 12.0;
    RescaledCongruence(a, b, m.Turn(), f, RadiansToHours(m, a), RadiansToHours(m, b), 24.0);
  }

  lemma RescaledCongruence(a: real, b: real, p: real, f: real, fa: real, fb: real, fp: real)
    requires Congruent(a, b, p) && fa == a * f && fb == b * f && fp == p * f
    ensures Congruent(fa, fb, fp)
  {
    ScaledCongruence(a, b, p, f);
  }

  lemma HoursAndBack(m: Libm, hours: real)
    requires m.pi > 0.0
    ensures RadiansToHours(m, m.pi - HoursToRadians(m, hours)) == 12.0 - hours
  {
    var r := m.pi - HoursToRadians(m, hours);
    var q := RadiansToHours(m, r);
    assert q * m.pi == r * 12.0 == (12.0 - hours) * m.pi;
    CancelFactor(q, 12.0 - hours, m.pi);
  }

  lemma OffThePole(m: Libm, ha: real, dec: real, e: Vec)
    requires m.Valid() && m.cos(dec) > 0.0 && S2c(m, ha, dec) == e
    ensures e.x != 0.0 || e.y != 0.0
  {
    assert m.UnitCircle(ha);
    if m.cos(dec) * m.cos(ha) == 0.0 && m.cos(dec) * m.sin(ha) == 0.0 {
      ZeroProduct(m.cos(dec), m.cos(ha));
      ZeroProduct(m.cos(dec), m.sin(ha));
    }
  }

  /** The hour angle AltAzMountToRaDec finds at the azimuth and altitude of a position: 12 h minus the true one. */
  lemma MirroredHourAngle(m: Libm, latitude: real, raHours: real, decDegrees: real, lstHours: real)
    requires m.Valid() && -90.0 < decDegrees < 90.0
    ensures var (alt, az) := RaDecToHorizontal(m, latitude, raHours, decDegrees, lstHours);
            var (ha, dec) := AltAzRadians(m, DegreesToRadians(m, az), DegreesToRadians(m, alt), DegreesToRadians(m, latitude));
            && dec == DegreesToRadians(m, decDegrees)
            && Congruent(RadiansToHours(m, ha), 12.0 - (lstHours - raHours), 24.0)
  {
    hide Libm.Valid, Congruent, Swing, S2c, Ae2hd;
    hide AltAzRadians, RaDecToHorizontal, HoursToRadians, DegreesToRadians, RadiansToHours;
    PiPositive(m);
    var (alt, az) := RaDecToHorizontal(m, latitude, raHours, decDegrees, lstHours);
    var azR, altR, latR := DegreesToRadians(m, az), DegreesToRadians(m, alt), DegreesToRadians(m, latitude);
    var (ha, dec) := Ae2hd(m, azR, altR, latR);
    var (csHa, csDec) := AltAzRadians(m, azR, altR, latR);
    Ae2hdUndoesHorizontal(m, latitude, raHours, decDegrees, lstHours);
    Ae2hdDirection(m, azR, altR, latR);
    OpenQuarter(m, decDegrees);
    CosPositive(m, dec);
    OffThePole(m, ha, dec, Swing(m.sin(latR), m.cos(latR), S2c(m, azR, altR)));
    AltAzHourAngleMirrored(m, azR, altR, latR);
    var h := HoursToRadians(m, lstHours - raHours);
    CongruentReflexive(m.pi, m.Turn());
    CongruentSum(m.pi, m.pi, ha, h, m.Turn());
    CongruentTransitive(csHa, m.pi - ha, m.pi - h, m.Turn());
    HoursOfCongruent(m, csHa, m.pi - h);
    HoursAndBack(m, lstHours - raHours);
  }

  /**
   Alt/Az axes of a position, fed back through AltAzMountToRaDec. The declination returns; the right
   ascension comes back as 2 LST - 12 h - RA, which is the same modulo 24 h exactly when the hour
   angle is six hours from the meridian, east or west.
   */
  lemma AltAzRoundTrip(m: Libm, latitude: real, raHours: real, decDegrees: real, lstHours: real)
    requires m.Valid() && -90.0 < decDegrees < 90.0
    ensures var (alt, az) := RaDecToHorizontal(m, latitude, raHours, decDegrees, lstHours);
            var (ra, dec) := AltAzMountToRaDec(m, latitude, az, alt, lstHours);
            && dec == decDegrees
            && Congruent(ra, 2.0 * lstHours - 12.0 - raHours, 24.0)
            && (Congruent(ra, raHours, 24.0) <==> Congruent(lstHours - raHours, 6.0, 12.0))
  {
    hide Libm.Valid, Congruent, Normalized, AltAzRadians, RaDecToHorizontal, DegreesToRadians, RadiansToHours;
    PiPositive(m);
    var (alt, az) := RaDecToHorizontal(m, latitude, raHours, decDegrees, lstHours);
    var (ha, decR) := AltAzRadians(m, DegreesToRadians(m, az), DegreesToRadians(m, alt), DegreesToRadians(m, latitude));
    var h := RadiansToHours(m, ha);
    MirroredHourAngle(m, latitude, raHours, decDegrees, lstHours);
    DegreesBack(m, decDegrees);
    var ra := Normalized(lstHours - h, 24.0);
    NormalizedProperties(lstHours - h, 24.0);
    CongruentReflexive(lstHours, 24.0);
    CongruentSum(lstHours, lstHours, h, 12.0 - (lstHours - raHours), 24.0);
    var mirrored := 2.0 * lstHours - 12.0 - raHours;
    assert lstHours - (12.0 - (lstHours - raHours)) == mirrored;
    CongruentTransitive(ra, lstHours - h, mirrored, 24.0);
    MirrorFixed(ra, raHours, lstHours);
  }

  lemma DegreesBack(m: Libm, degrees: real)
    requires m.pi > 0.0
    ensures RadiansToDegrees(m, DegreesToRadians(m, degrees)) == degrees
  {}

  /** A right ascension is its own mirror image exactly at hour angles 6 h and 18 h. */
  lemma MirrorFixed(ra: real, ra0: real, lst: real)
    requires Congruent(ra, 2.0 * lst - 12.0 - ra0, 24.0)
    ensures Congruent(ra, ra0, 24.0) <==> Congruent(lst - ra0, 6.0, 12.0)
  {
    var j: int :| DiffersBy(ra, 2.0 * lst - 12.0 - ra0, 24.0, j);
    if Congruent(ra, ra0, 24.0) {
      var k: int :| DiffersBy(ra, ra0, 24.0, k);
      assert (k - j) as real == k as real - j as real;
      assert DiffersBy(lst - ra0, 6.0, 12.0, k - j);
    }
    if Congruent(lst - ra0, 6.0, 12.0) {
      var k: int :| DiffersBy(lst - ra0, 6.0, 12.0, k);
      assert (k + j) as real == k as real + j as real;
      assert DiffersBy(ra, ra0, 24.0, k + j);
    }
  }
}
