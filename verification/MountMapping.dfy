/**
 From controller state and mount axes to RA/Dec: indi/IndiPropertyMapper.cpp, the helper
 GetCurrentRaDec of ascom/AstroMountTelescope.cs and the mount conversions of
 ascom/ConversionHelper.cs.
 */
module MountMapping {
  import opened MathLibrary
  import opened Angles
  import opened Horizon
  import opened Options

  /** The fields of the controller's state message that the two drivers read. */
  datatype ControllerState = ControllerState(currentRa: real, currentDec: real, axis1: real, axis2: real)

  // ---------- The two drivers ----------

  predicate HasSkyPosition(s: ControllerState) {
    s.currentRa != 0.0 || s.currentDec != 0.0
  }

  /** fmod(x, 24), moved up by a day when negative. */
  function ToDay(x: real): real {
    var r := FMod(x, 24.0);
    if r < 0.0 then r + 24.0 else r
  }

  /** An hour angle in hours, folded once. */
  function FoldOnce(hours: real): real {
    if hours > 12.0 then hours - 24.0 else if hours < -12.0 then hours + 24.0 else hours
  }

  /** GetCurrentRaDec of the ASCOM driver; the state may be null. */
  function GetCurrentRaDec(state: Option<ControllerState>, lst: real): (real, real) {
    match state
    case None => (0.0, 0.0)
    case Some(s) =>
      if HasSkyPosition(s) then
        (ToDay(s.currentRa), s.currentDec)
      else
        (Wrap(lst - FoldOnce(s.axis1 / 15.0), 24.0), if s.axis2 > 180.0 then s.axis2 - 360.0 else s.axis2)
  }

  /** toIndiRaDec of the INDI driver returns what the ASCOM driver computes from the same state and LST. */
  method ToIndiRaDec(state: ControllerState, lstHours: real) returns (ok: bool, raHours: real, decDegrees: real)
    ensures ok && (raHours, decDegrees) == GetCurrentRaDec(Some(state), lstHours)
  {
    if state.currentRa != 0.0 || state.currentDec != 0.0 {
      raHours := state.currentRa;
      decDegrees := state.currentDec;
      raHours := FMod(raHours, 24.0);
      if raHours < 0.0 {
        raHours := raHours + 24.0;
      }
      return true, raHours, decDegrees;
    }

    var axis1Deg := state.axis1;
    var axis2Deg := state.axis2;

    var haHours := axis1Deg / 15.0;
    if haHours > 12.0 {
      haHours := haHours - 24.0;
    } else if haHours < -12.0 {
      haHours := haHours + 24.0;
    }

    raHours := lstHours - haHours;
    WrapIsToDay(raHours);
    raHours := FMod(raHours, 24.0);
    if raHours < 0.0 {
      raHours := raHours + 24.0;
    }

    decDegrees := axis2Deg;
    if decDegrees > 180.0 {
      decDegrees := decDegrees - 360.0;
    }
    ok := true;
  }

  lemma ToDayProperties(x: real)
    ensures 0.0 <= ToDay(x) < 24.0 && Congruent(ToDay(x), x, 24.0)
  {
    hide FMod, Congruent;
    FModProperties(x, 24.0);
    AddPeriods(FMod(x, 24.0), x, 24.0, 1);
    assert 1 as real * 24.0 == 24.0;
  }

  /** Two representatives in [0, 24) of congruent hours are equal. */
  lemma SameHour(a: real, b: real, x: real, y: real)
    requires 0.0 <= a < 24.0 && 0.0 <= b < 24.0
    requires Congruent(a, x, 24.0) && Congruent(b, y, 24.0) && Congruent(x, y, 24.0)
    ensures a == b
  {
    CongruentTransitive(a, x, y, 24.0);
    CongruentSymmetric(b, y, 24.0);
    CongruentTransitive(a, y, b, 24.0);
    var k: int :| DiffersBy(a, b, 24.0, k);
    CloseCongruent(a, b, 24.0, k);
  }

  /** The two ways of reducing to [0, 24) agree. */
  lemma WrapIsToDay(x: real)
    ensures Wrap(x, 24.0) == ToDay(x)
  {
    hide Wrap, ToDay, Congruent;
    WrapProperties(x, 24.0);
    ToDayProperties(x);
    CongruentReflexive(x, 24.0);
    SameHour(Wrap(x, 24.0), ToDay(x), x, x);
  }

  lemma FoldOnceCongruent(h: real)
    ensures Congruent(FoldOnce(h), h, 24.0)
  {
    assert 1 as real * 24.0 == 24.0 && (-1) as real * 24.0 == -24.0;
    assert DiffersBy(h, h, 24.0, 0);
    assert DiffersBy(h - 24.0, h, 24.0, -1);
    assert DiffersBy(h + 24.0, h, 24.0, 1);
  }

  /** Without an on-sky position: RA is the hour of [0, 24) congruent to LST - axis1 / 15. */
  lemma FallbackPosition(s: ControllerState, lst: real)
    requires !HasSkyPosition(s)
    ensures var (ra, dec) := GetCurrentRaDec(Some(s), lst);
            && 0.0 <= ra < 24.0
            && Congruent(ra, lst - s.axis1 / 15.0, 24.0)
            && (dec == s.axis2 || dec == s.axis2 - 360.0)
            && (0.0 <= s.axis2 < 360.0 ==> -180.0 < dec <= 180.0)
  {
    hide Wrap, FoldOnce, Congruent;
    var h := s.axis1 / 15.0;
    WrapProperties(lst - FoldOnce(h), 24.0);
    FoldOnceCongruent(h);
    CongruentReflexive(lst, 24.0);
    CongruentSum(lst, lst, FoldOnce(h), h, 24.0);
    CongruentTransitive(Wrap(lst - FoldOnce(h), 24.0), lst - FoldOnce(h), lst - h, 24.0);
  }

  /** The fallback position does not depend on how many whole turns axis 1 has made. */
  lemma WholeTurnsIgnored(s: ControllerState, turns: int, lst: real)
    requires !HasSkyPosition(s)
    ensures GetCurrentRaDec(Some(s.(axis1 := s.axis1 + 360.0 * turns as real)), lst) == GetCurrentRaDec(Some(s), lst)
  {
    hide Wrap, FoldOnce, Congruent, GetCurrentRaDec;
    var t := s.(axis1 := s.axis1 + 360.0 * turns as real);
    FallbackPosition(s, lst);
    FallbackPosition(t, lst);
    var x, y := lst - t.axis1 / 15.0, lst - s.axis1 / 15.0;
    assert (-turns) as real == -(turns as real);
    assert DiffersBy(x, y, 24.0, -turns);
    CongruentFrom(x, y, 24.0, -turns);
    SameHour(GetCurrentRaDec(Some(t), lst).0, GetCurrentRaDec(Some(s), lst).0, x, y);
    FallbackDec(s, lst);
    FallbackDec(t, lst);
  }

  lemma CongruentFrom(a: real, b: real, period: real, k: int)
    requires DiffersBy(a, b, period, k)
    ensures Congruent(a, b, period)
  {}

  lemma FallbackDec(s: ControllerState, lst: real)
    requires !HasSkyPosition(s)
    ensures GetCurrentRaDec(Some(s), lst).1 == if s.axis2 > 180.0 then s.axis2 - 360.0 else s.axis2
  {
    hide Wrap, FoldOnce;
  }

  /**
   A state whose on-sky position is exactly RA 0, Dec 0 is taken for one without a position. The
   reported position is then (0, 0) exactly when the raw axes say so as well.
   */
  lemma OriginTakenForMissing(s: ControllerState, lst: real)
    requires s.currentRa == 0.0 && s.currentDec == 0.0
    ensures GetCurrentRaDec(Some(s), lst) == (0.0, 0.0) <==>
            Congruent(lst, s.axis1 / 15.0, 24.0) && (s.axis2 == 0.0 || s.axis2 == 360.0)
  {
    hide Wrap, FoldOnce, Congruent, GetCurrentRaDec;
    var (ra, dec) := GetCurrentRaDec(Some(s), lst);
    var h := s.axis1 / 15.0;
    FallbackPosition(s, lst);
    FallbackDec(s, lst);
    CongruentReflexive(h, 24.0);
    CongruentReflexive(0.0, 24.0);
    if ra == 0.0 {
      CongruentSum(0.0, lst - h, h, h, 24.0);
      assert 0.0 + h == h && (lst - h) + h == lst;
      CongruentSymmetric(h, lst, 24.0);
    }
    if Congruent(lst, h, 24.0) {
      CongruentSum(lst, h, h, h, 24.0);
      assert h - h == 0.0;
      SameHour(ra, 0.0, lst - h, 0.0);
    }
  }

  // ---------- NormalizeHours ----------

  /** What NormalizeHours leaves: the remainder moved by at most one period into the closed half range. */
  function Normalized(hours: real, range: real): real
    requires range >= 0.0
  {
    if range == 0.0 then hours else
    var f := FMod(hours, range);
    if f < -range / 2.0 then f + range else if f > range / 2.0 then f - range else f
  }

  method NormalizeHours(hours: real, range: real) returns (r: real)
    requires range >= 0.0
    ensures r == Normalized(hours, range)
    ensures range == 0.0 ==> r == hours
    ensures range > 0.0 ==> Congruent(r, hours, range) && -range / 2.0 <= r <= range / 2.0
  {
    if range == 0.0 {
      return hours;
    }
    NormalizedProperties(hours, range);
    r := FMod(hours, range);
    if r < -range / 2.0 {
      r := r + range;
    } else if r > range / 2.0 {
      r := r - range;
    }
  }

  /**
   The comment offers [0, range) or [-range/2, range/2]; the code always does the second. The first
   is met exactly when the remainder lies in the first half range or below minus half a range.
   */
  lemma NormalizedProperties(hours: real, range: real)
    requires range > 0.0
    ensures Congruent(Normalized(hours, range), hours, range)
    ensures -range / 2.0 <= Normalized(hours, range) <= range / 2.0
    ensures 0.0 <= Normalized(hours, range) < range <==>
            0.0 <= FMod(hours, range) <= range / 2.0 || FMod(hours, range) < -range / 2.0
  {
    hide Congruent, FMod;
    FModProperties(hours, range);
    AddPeriods(FMod(hours, range), hours, range, 1);
    AddPeriods(FMod(hours, range), hours, range, -1);
    assert 1 as real * range == range && (-1) as real * range == -range;
  }

  // ---------- Mount axes to RA/Dec ----------

  /** EquatorialMountToRaDec: (RA in hours, Dec in degrees). */
  function EquatorialMountToRaDec(haDegrees: real, decDegrees: real, lstHours: real): (real, real) {
    (Normalized(lstHours - Normalized(haDegrees / 15.0, 12.0), 24.0), Clamp(decDegrees, -90.0, 90.0))
  }

  /** Half a day of hour angle is folded away unless it lies within six hours of the meridian. */
  predicate NearMeridian(haDegrees: real) {
    var f := FMod(haDegrees / 15.0, 24.0);
    -6.0 <= f <= 6.0 || f > 18.0 || f < -18.0
  }

  lemma HalfDayFold(h: real)
    ensures var f := FMod(h, 24.0);
            Congruent(Normalized(h, 12.0), h, 24.0) <==> -6.0 <= f <= 6.0 || f > 18.0 || f < -18.0
  {
    var f, n := FMod(h, 24.0), Normalized(h, 12.0);
    FModProperties(h, 24.0);
    var j := Trunc(h / 24.0);
    FModTwelve(h, f, j);
    assert n == FoldTwelve(f);
    CongruentSymmetric(f, h, 24.0);
    if Congruent(n, h, 24.0) {
      CongruentTransitive(n, h, f, 24.0);
    }
    if Congruent(n, f, 24.0) {
      CongruentTransitive(n, f, h, 24.0);
    }
    FoldTwelveCongruent(f);
  }

  function FoldTwelve(f: real): real {
    var g := if f >= 12.0 then f - 12.0 else if f <= -12.0 then f + 12.0 else f;
    if g < -6.0 then g + 12.0 else if g > 6.0 then g - 12.0 else g
  }

  /** The remainder modulo 12, through the remainder modulo 24. */
  lemma FModTwelve(h: real, f: real, j: int)
    requires f == FMod(h, 24.0) && DiffersBy(h, f, 24.0, j)
    ensures FMod(h, 12.0) == if f >= 12.0 then f - 12.0 else if f <= -12.0 then f + 12.0 else f
  {
    FModProperties(h, 24.0);
    FModProperties(h, 12.0);
    hide FMod, Congruent, Trunc;
    var g := FMod(h, 12.0);
    var k := Trunc(h / 12.0);
    var d := 2 * j - k;
    assert d as real == 2.0 * j as real - k as real;
    TwelveApart(f, g, d);
  }

  /** Remainders of the same sign, modulo 24 and 12, that differ by twelves. */
  lemma TwelveApart(f: real, g: real, d: int)
    requires g - f == 12.0 * d as real
    requires (0.0 <= f < 24.0 && 0.0 <= g < 12.0) || (-24.0 < f <= 0.0 && -12.0 < g <= 0.0)
    ensures g == if f >= 12.0 then f - 12.0 else if f <= -12.0 then f + 12.0 else f
  {
    assert -2 < d < 2;
  }

  lemma FoldTwelveCongruent(f: real)
    requires -24.0 < f < 24.0
    ensures Congruent(FoldTwelve(f), f, 24.0) <==> -6.0 <= f <= 6.0 || f > 18.0 || f < -18.0
  {
    var n := FoldTwelve(f);
    assert 1 as real * 24.0 == 24.0 && (-1) as real * 24.0 == -24.0 && 0 as real * 24.0 == 0.0;
    if -6.0 <= f <= 6.0 || f > 18.0 || f < -18.0 {
      assert DiffersBy(n, f, 24.0, 0) || DiffersBy(n, f, 24.0, -1) || DiffersBy(n, f, 24.0, 1);
    } else if Congruent(n, f, 24.0) {
      var k: int :| DiffersBy(n, f, 24.0, k);
      assert n - f == 12.0 || n - f == -12.0;
      CloseCongruent(n, f, 24.0, k);
    }
  }

  /**
   An equatorial mount's hour angle is folded with a period of 12 h, so RA is right modulo 12 h
   always, and modulo 24 h exactly within six hours of the meridian. It lies in [-12, 12].
   */
  lemma EquatorialMountRa(haDegrees: real, decDegrees: real, lstHours: real)
    ensures var (ra, dec) := EquatorialMountToRaDec(haDegrees, decDegrees, lstHours);
            && Congruent(ra, lstHours - haDegrees / 15.0, 12.0)
            && (Congruent(ra, lstHours - haDegrees / 15.0, 24.0) <==> NearMeridian(haDegrees))
            && -12.0 <= ra <= 12.0 && -90.0 <= dec <= 90.0
            && (-90.0 <= decDegrees <= 90.0 ==> dec == decDegrees)
  {
    var h := haDegrees / 15.0;
    var n := Normalized(h, 12.0);
    HalfDayFold(h);
    NormalizedProperties(h, 12.0);
    hide Normalized, Congruent, FMod;
    var x, y := lstHours - n, lstHours - h;
    var ra := Normalized(x, 24.0);
    NormalizedProperties(x, 24.0);
    HalvedPeriod(ra, x);
    CongruentReflexive(lstHours, 12.0);
    CongruentSum(lstHours, lstHours, n, h, 12.0);
    CongruentTransitive(ra, x, y, 12.0);
    CongruentReflexive(lstHours, 24.0);
    if Congruent(n, h, 24.0) {
      CongruentSum(lstHours, lstHours, n, h, 24.0);
      CongruentTransitive(ra, x, y, 24.0);
    }
    if Congruent(ra, y, 24.0) {
      CongruentSymmetric(ra, x, 24.0);
      CongruentTransitive(x, ra, y, 24.0);
      CongruentSum(lstHours, lstHours, x, y, 24.0);
      assert lstHours - x == n && lstHours - y == h;
    }
  }

  lemma HalvedPeriod(a: real, b: real)
    requires Congruent(a, b, 24.0)
    ensures Congruent(a, b, 12.0)
  {
    var k: int :| DiffersBy(a, b, 24.0, k);
    assert (2 * k) as real == 2.0 * k as real;
    assert DiffersBy(a, b, 12.0, 2 * k);
  }

  /** On the lower meridian the reported right ascension is half a day off. */
  lemma LowerMeridianWrong(lstHours: real)
    ensures !NearMeridian(180.0)
    ensures !Congruent(EquatorialMountToRaDec(180.0, 0.0, lstHours).0, lstHours - 12.0, 24.0)
  {
    FModSmall(12.0, 24.0);
    EquatorialMountRa(180.0, 0.0, lstHours);
  }
}
