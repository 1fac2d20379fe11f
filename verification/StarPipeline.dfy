/** ICRS to CIRS for a star (sofa/atciq.c, sofa/atciqz.c, sofa/pmpx.c, sofa/c2s.c, sofa/s2c.c). */
module StarPipeline {
  import opened MathLibrary
  import opened RealArith
  import opened Angles
  import opened Vectors
  import opened Rotations
  import opened Astrometry
  import opened ContextLaws
  import opened Aberration
  import opened AberrationLaws
  import opened Deflection

  const DAS2R := 0.000004848136811095359935899141
  const DJM := 365250.0

  /** iauS2c: spherical to unit vector. */
  function S2c(m: Libm, theta: real, phi: real): Vec {
    Vec(m.cos(theta) * m.cos(phi), m.sin(theta) * m.cos(phi), m.sin(phi))
  }

  /** iauC2s: longitude and latitude of a vector. */
  function C2sTheta(m: Libm, p: Vec): real {
    if p.x * p.x + p.y * p.y == 0.0 then 0.0 else m.atan2(p.y, p.x)
  }

  function C2sPhi(m: Libm, p: Vec): real {
    if p.z == 0.0 then 0.0 else m.atan2(p.z, Hypot(m, p.x, p.y))
  }

  /** A star: ICRS position, proper motions, parallax and radial velocity. */
  datatype Star = Star(rc: real, dc: real, pr: real, pd: real, px: real, rv: real)

  /** iauPmpx before normalisation: the star moved to the epoch and seen from the observer. */
  function Moved(m: Libm, s: Star, pmt: real, pob: Vec): Vec {
    var sr, cr, sd, cd := m.sin(s.rc), m.cos(s.rc), m.sin(s.dc), m.cos(s.dc);
    var p := Vec(cr * cd, sr * cd, sd);
    var dt := pmt + Dot(p, pob) * (DAU / CMPS / DAYSEC / DJY);
    var pxr := s.px * DAS2R;
    var w := DAYSEC * DJM / DAU * s.rv * pxr;
    var pdz := s.pd * p.z;
    var pm := Vec(-s.pr * p.y - pdz * cr + w * p.x, s.pr * p.x - pdz * sr + w * p.y, s.pd * cd + w * p.z);
    Add(p, Sub(Scale(dt, pm), Scale(pxr, pob)))
  }

  /** iauPmpx. */
  function Pmpx(m: Libm, s: Star, pmt: real, pob: Vec): Vec {
    Direction(m, Moved(m, s, pmt, pob))
  }

  /** The natural direction reaches iauAb with a raw vector it can divide by. */
  predicate Computable(m: Libm, pco: Vec, b: Barycentric) {
    && b.em != 0.0 && b.bm1 != -1.0
    && Modulus(m, RawDirection(Ldsun(pco, b.eh, b.em), b.v, SRS / b.em, b.bm1)) != 0.0
  }

  /** The vector part that iauAtciq and iauAtciqz share: deflection, aberration, precession-nutation. */
  function ToCirs(m: Libm, pco: Vec, b: Barycentric): Vec
    requires Computable(m, pco, b)
  {
    var pnat := Ldsun(pco, b.eh, b.em);
    var ppr := Aberrated(m, pnat, b.v, SRS / b.em, b.bm1);
    Apply(b.bpn, ppr)
  }

  /** iauAtciq: (ri, di). */
  function Atciq(m: Libm, s: Star, b: Barycentric): (real, real)
    requires m.pi > 0.0 && Computable(m, Pmpx(m, s, b.pmt, b.eb), b)
  {
    var pi := ToCirs(m, Pmpx(m, s, b.pmt, b.eb), b);
    (Anp(C2sTheta(m, pi), m.pi), C2sPhi(m, pi))
  }

  /** iauAtciqz: a star with neither parallax nor proper motion. */
  function Atciqz(m: Libm, rc: real, dc: real, b: Barycentric): (real, real)
    requires m.pi > 0.0 && Computable(m, S2c(m, rc, dc), b)
  {
    var pi := ToCirs(m, S2c(m, rc, dc), b);
    (Anp(C2sTheta(m, pi), m.pi), C2sPhi(m, pi))
  }

  lemma S2cUnit(m: Libm, theta: real, phi: real)
    requires m.Valid()
    ensures Unit(S2c(m, theta, phi))
  {
    var s, c, d, z := m.sin(theta), m.cos(theta), m.cos(phi), m.sin(phi);
    assert m.UnitCircle(theta) && m.UnitCircle(phi);
    DotOf(c * d, s * d, z, c * d, s * d, z);
    assert (c * d) * (c * d) + (s * d) * (s * d) == (s * s + c * c) * (d * d);
  }

  /** The pair of angles that iauC2s returns recomposes the unit vector, poles included. */
  lemma SphericalRoundTrip(m: Libm, p: Vec)
    requires m.Valid() && Unit(p)
    ensures S2c(m, C2sTheta(m, p), C2sPhi(m, p)) == p
    ensures -m.pi / 2.0 <= C2sPhi(m, p) <= m.pi / 2.0
  {
    var h, t, f := Hypot(m, p.x, p.y), C2sTheta(m, p), C2sPhi(m, p);
    UnitParts(p);
    HypotSquare(m, p.x, p.y);
    LatitudeParts(m, p.z, h);
    assert m.CosSign(f) && m.PolarLaw(p.z, h);
    SquareSign(h);
    SquaresSumToZero(p.x, p.y);
    if h != 0.0 {
      m.PolarPoint(p.y, p.x, h);
    }
  }

  lemma UnitParts(p: Vec)
    ensures Unit(p) <==> p.x * p.x + p.y * p.y == 1.0 - p.z * p.z
  {}

  lemma LatitudeParts(m: Libm, z: real, h: real)
    requires m.Valid() && h >= 0.0 && h * h == 1.0 - z * z
    ensures var f := if z == 0.0 then 0.0 else m.atan2(z, h); m.sin(f) == z && m.cos(f) == h
  {
    if z == 0.0 {
      m.AtZero();
      EqualSquares(h, 1.0);
    } else {
      m.PolarPoint(z, h, 1.0);
    }
  }

  /** Normalising the longitude does not move the direction. */
  lemma AnpKeepsDirection(m: Libm, theta: real, phi: real)
    requires m.Valid()
    ensures S2c(m, Anp(theta, m.pi), phi) == S2c(m, theta, phi)
  {
    AnpRepresents(theta, m.pi);
    assert m.TurnLaw(Anp(theta, m.pi), theta);
  }

  lemma SameS2c(m: Libm, a: real, b: real, phi: real)
    requires m.Valid() && Congruent(a, b, m.Turn())
    ensures S2c(m, a, phi) == S2c(m, b, phi)
  {
    assert m.TurnLaw(a, b);
  }

  /** An observer slower than light, away from the Sun's centre, with a rotation for bpn. */
  predicate GoodObserver(b: Barycentric) {
    Subluminal(b.v, b.bm1) && b.em > 0.0 && Unit(b.eh) && IsRotation(b.bpn)
  }

  /** The motion is along the deflected line of sight `n` and the potential term cancels it. */
  predicate Cancelled(n: Vec, b: Barycentric)
    requires b.em != 0.0
  {
    Cross(n, b.v) == ZERO && Dot(n, n) + Dot(n, b.v) + SRS / b.em * Dot(n, b.v) * (1.0 - Dot(n, n)) == 0.0
  }

  /**
   From any unit coordinate direction the chain divides by a nonzero length, except when motion and
   potential term cancel exactly; that cannot happen outside the Sun.
   */
  lemma ChainComputable(m: Libm, pco: Vec, b: Barycentric)
    requires m.Valid() && Unit(pco) && GoodObserver(b)
    ensures Computable(m, pco, b) <==> !Cancelled(Ldsun(pco, b.eh, b.em), b)
    ensures b.em >= 0.0001 ==> Computable(m, pco, b)
  {
    hide Ldsun, RawDirection, Modulus, Dot, Unit, IsRotation, Cross, Libm.Valid;
    var pnat, w2 := Ldsun(pco, b.eh, b.em), SRS / b.em;
    DepartureNegligible(pco, b.eh, b.em);
    assert w2 * b.em == SRS;
    PositiveFactor(w2, b.em, SRS);
    PnRecomposes(m, RawDirection(pnat, b.v, w2, b.bm1));
    RawVanishesExactly(pnat, b.v, w2, b.bm1);
    if b.em >= 0.0001 {
      RawNeverVanishes(pnat, b.v, w2, b.bm1);
    }
  }

  /** An observer inside the Sun, seen along x, and moving along (2, 1, 0). */
  function Diver(bm1: real): Barycentric {
    Barycentric(0.0, ZERO, Vec(1.0, 0.0, 0.0), SRS / 2.0, Vec(2.0 / 7.0, 1.0 / 7.0, 0.0), bm1, IDENTITY)
  }

  lemma DiverIsGood(bm1: real)
    requires bm1 > 0.0 && bm1 * bm1 == 44.0 / 49.0
    ensures GoodObserver(Diver(bm1))
  {
    hide Dot, Cross;
    DotOf(2.0 / 7.0, 1.0 / 7.0, 0.0, 2.0 / 7.0, 1.0 / 7.0, 0.0);
    DotOf(1.0, 0.0, 0.0, 1.0, 0.0, 0.0);
    DotOf(0.0, 1.0, 0.0, 0.0, 1.0, 0.0);
    DotOf(1.0, 0.0, 0.0, 0.0, 1.0, 0.0);
    CrossOf(1.0, 0.0, 0.0, 0.0, 1.0, 0.0);
  }

  lemma DiverPotential(em: real)
    requires em == SRS / 2.0
    ensures em > 0.0 && SRS / em == 2.0 && Limiter(em) == 0.000001
  {
    SquareOrder(em, 1.0);
  }

  lemma DiverStrength(p: Vec, e: Vec, em: real, g: real)
    requires p == Vec(0.0, 1.0, 0.0) && e == Vec(1.0, 0.0, 0.0)
    requires em != 0.0 && g == SRS / em == 2.0 && Limiter(em) == 0.000001
    ensures Strength(p, e, em, Limiter(em)) == 2.0
  {
    hide Dot, Limiter, Strength, Add, Max;
    DiverLimited(p, e, Limiter(em));
    StrengthOf(p, e, em, Limiter(em), g, 1.0);
  }

  lemma DiverLimited(p: Vec, e: Vec, dlim: real)
    requires p == Vec(0.0, 1.0, 0.0) && e == Vec(1.0, 0.0, 0.0) && dlim <= 1.0
    ensures Max(Dot(p, Add(p, e)), dlim) == 1.0
  {
    hide Dot, Add;
    DotSum(p, e);
    DotOf(0.0, 1.0, 0.0, 0.0, 1.0, 0.0);
    DotOf(0.0, 1.0, 0.0, 1.0, 0.0, 0.0);
  }

  lemma StrengthOf(p: Vec, e: Vec, em: real, dlim: real, g: real, x: real)
    requires em != 0.0 && dlim > 0.0 && g == SRS / em && x == Max(Dot(p, Add(p, e)), dlim)
    ensures Strength(p, e, em, dlim) == g / x
  {
    hide Dot, Add;
  }

  lemma DiverBend(p: Vec, e: Vec)
    requires p == Vec(0.0, 1.0, 0.0) && e == Vec(1.0, 0.0, 0.0)
    ensures Cross(p, Cross(e, p)) == e
  {
    hide Cross;
    CrossOf(1.0, 0.0, 0.0, 0.0, 1.0, 0.0);
    CrossOf(0.0, 1.0, 0.0, 0.0, 0.0, 1.0);
    SameVec(Cross(e, p), Vec(0.0, 0.0, 1.0));
    SameVec(Cross(p, Vec(0.0, 0.0, 1.0)), e);
  }

  lemma DiverDeflects(p: Vec, e: Vec, em: real)
    requires p == Vec(0.0, 1.0, 0.0) && e == Vec(1.0, 0.0, 0.0)
    requires em > 0.0 && Strength(p, e, em, Limiter(em)) == 2.0
    ensures Ldsun(p, e, em) == Vec(2.0, 1.0, 0.0)
  {
    hide Strength, Limiter, Cross;
    DiverBend(p, e);
    assert Ldsun(p, e, em) == Add(p, Scale(2.0, e));
    hide Ldsun;
    SameVec(Scale(2.0, e), Vec(2.0, 0.0, 0.0));
    SameVec(Add(p, Vec(2.0, 0.0, 0.0)), Vec(2.0, 1.0, 0.0));
  }

  lemma DiverCancels(b: Barycentric)
    requires b.v == Vec(2.0 / 7.0, 1.0 / 7.0, 0.0) && b.em != 0.0 && SRS / b.em == 2.0
    ensures Cancelled(Vec(2.0, 1.0, 0.0), b)
  {
    hide Dot, Cross;
    CrossOf(2.0, 1.0, 0.0, 2.0 / 7.0, 1.0 / 7.0, 0.0);
    DotOf(2.0, 1.0, 0.0, 2.0, 1.0, 0.0);
    DotOf(2.0, 1.0, 0.0, 2.0 / 7.0, 1.0 / 7.0, 0.0);
  }

  lemma DiverMeetsCancellation(b: Barycentric, pco: Vec)
    requires b == Diver(b.bm1) && pco == Vec(0.0, 1.0, 0.0)
    ensures b.em != 0.0 && Cancelled(Ldsun(pco, b.eh, b.em), b)
  {
    hide Ldsun, Cancelled, Strength, Limiter;
    DiverPotential(b.em);
    DiverStrength(pco, b.eh, b.em, SRS / b.em);
    DiverDeflects(pco, b.eh, b.em);
    DiverCancels(b);
  }

  lemma RootOf(m: Libm, x: real)
    requires m.Valid() && x > 0.0
    ensures m.sqrt(x) > 0.0 && m.sqrt(x) * m.sqrt(x) == x
  {
    assert m.SqrtLaw(x);
    SquareSign(m.sqrt(x));
  }

  /** The cancellation does occur: there is an observer inside the Sun for whom iauAb divides by zero. */
  lemma CancellationOccurs(m: Libm)
    requires m.Valid()
    ensures exists b, pco :: GoodObserver(b) && Unit(pco) && Cancelled(Ldsun(pco, b.eh, b.em), b) && !Computable(m, pco, b)
  {
    hide Ldsun, Computable, Dot, Cross, Cancelled, Subluminal, IsRotation, Libm.Valid;
    var bm1 := m.sqrt(44.0 / 49.0);
    RootOf(m, 44.0 / 49.0);
    var b, pco := Diver(bm1), Vec(0.0, 1.0, 0.0);
    DiverIsGood(bm1);
    DiverMeetsCancellation(b, pco);
    DotOf(0.0, 1.0, 0.0, 0.0, 1.0, 0.0);
    ChainComputable(m, pco, b);
  }

  /** Wherever the chain is computable its proper direction and its result are unit vectors. */
  lemma ChainDirections(m: Libm, pco: Vec, b: Barycentric)
    requires m.Valid() && IsRotation(b.bpn) && Computable(m, pco, b)
    ensures Unit(Aberrated(m, Ldsun(pco, b.eh, b.em), b.v, SRS / b.em, b.bm1))
    ensures Unit(ToCirs(m, pco, b))
  {
    hide Ldsun, RawDirection, Modulus, Dot, Unit, IsRotation, Apply, Scale, Libm.Valid;
    var pnat, w2 := Ldsun(pco, b.eh, b.em), SRS / b.em;
    var raw := RawDirection(pnat, b.v, w2, b.bm1);
    PnRecomposes(m, raw);
    NormalisedVector(raw, Modulus(m, raw));
    var ppr := Aberrated(m, pnat, b.v, w2, b.bm1);
    RotationIsIsometry(b.bpn, ppr, ppr);
    UnitMeans(ppr);
    UnitMeans(Apply(b.bpn, ppr));
  }

  /** A null direction passes the deflection, and iauAb then normalises a multiple of the velocity. */
  lemma NullDirection(m: Libm, b: Barycentric)
    requires m.Valid() && b.em > 0.0 && b.bm1 > 0.0
    ensures Computable(m, ZERO, b) <==> b.v != ZERO
  {
    hide Ldsun, RawDirection, Modulus, Limiter, Libm.Valid;
    var w2 := SRS / b.em;
    assert w2 * b.em == SRS;
    PositiveFactor(w2, b.em, SRS);
    NullDeflected(b.eh, b.em);
    NullAberrated(b.v, w2, b.bm1);
    PnRecomposes(m, RawDirection(ZERO, b.v, w2, b.bm1));
    NullMultiple(1.0 + w2, b.v);
  }

  lemma NullDeflected(e: Vec, em: real)
    requires em != 0.0
    ensures Ldsun(ZERO, e, em) == ZERO
  {
    var w, t := Strength(ZERO, e, em, Limiter(em)), Cross(ZERO, Cross(e, ZERO));
    assert Ldsun(ZERO, e, em) == Add(ZERO, Scale(w, t));
    hide Ldsun, Strength, Limiter;
    SameVec(t, ZERO);
    SameVec(Scale(w, ZERO), ZERO);
  }

  lemma NullAberrated(v: Vec, w2: real, bm1: real)
    requires bm1 > 0.0
    ensures RawDirection(ZERO, v, w2, bm1) == Scale(1.0 + w2, v)
  {
    var pdv := Dot(ZERO, v);
    assert pdv == 0.0;
    var w1 := 1.0 + pdv / (1.0 + bm1);
    assert w1 == 1.0;
    assert RawDirection(ZERO, v, w2, bm1)
        == Add(Add(Scale(bm1, ZERO), Scale(w1, v)), Scale(w2, Sub(v, Scale(pdv, ZERO))));
    hide RawDirection, Dot, Add, Sub, Scale;
    NullSum(v, w2, bm1);
  }

  lemma NullSum(v: Vec, w2: real, bm1: real)
    ensures Add(Add(Scale(bm1, ZERO), Scale(1.0, v)), Scale(w2, Sub(v, Scale(0.0, ZERO)))) == Scale(1.0 + w2, v)
  {
    SameVec(Scale(bm1, ZERO), ZERO);
    SameVec(Scale(0.0, ZERO), ZERO);
    SameVec(Sub(v, ZERO), v);
    SameVec(Add(ZERO, v), v);
    ScaleOne(v);
    WeightedSum(v, w2);
  }

  lemma WeightedSum(v: Vec, w: real)
    ensures Add(v, Scale(w, v)) == Scale(1.0 + w, v)
  {
    SameVec(Add(v, Scale(w, v)), Scale(1.0 + w, v));
  }

  lemma NullMultiple(k: real, v: Vec)
    requires k > 0.0
    ensures Scale(k, v) == ZERO <==> v == ZERO
  {
    if Scale(k, v) == ZERO {
      ZeroProduct(k, v.x);
      ZeroProduct(k, v.y);
      ZeroProduct(k, v.z);
    }
  }

  /**
   iauAtciq, for every star: exactly when its chain is computable, and then the right ascension lies in
   [0, 2 pi), the declination in [-pi/2, pi/2], and together they are exactly the spherical form of the CIRS
   direction. For a star whose moved vector is null the observer has to move.
   */
  lemma AtciqSound(m: Libm, s: Star, b: Barycentric)
    requires m.Valid() && GoodObserver(b)
    ensures var pco := Pmpx(m, s, b.pmt, b.eb);
            && (Computable(m, pco, b) <==> if pco == ZERO then b.v != ZERO else !Cancelled(Ldsun(pco, b.eh, b.em), b))
            && (pco == ZERO <==> Moved(m, s, b.pmt, b.eb) == ZERO) && (pco != ZERO ==> Unit(pco))
            && (pco != ZERO && b.em >= 0.0001 ==> Computable(m, pco, b))
    ensures Computable(m, Pmpx(m, s, b.pmt, b.eb), b) ==>
              var (ri, di) := Atciq(m, s, b);
              && 0.0 <= ri < m.Turn() && -m.pi / 2.0 <= di <= m.pi / 2.0
              && S2c(m, ri, di) == ToCirs(m, Pmpx(m, s, b.pmt, b.eb), b)
  {
    hide Moved, Unit, Computable, Cancelled, Ldsun, Atciq, S2c, ToCirs;
    PnRecomposes(m, Moved(m, s, b.pmt, b.eb));
    NullIsNoUnit();
    var pco := Pmpx(m, s, b.pmt, b.eb);
    if pco == ZERO {
      NullDirection(m, b);
    } else {
      ChainComputable(m, pco, b);
    }
    if Computable(m, pco, b) {
      AtciqPlace(m, s, b);
    }
  }

  lemma AtciqPlace(m: Libm, s: Star, b: Barycentric)
    requires m.Valid() && IsRotation(b.bpn) && Computable(m, Pmpx(m, s, b.pmt, b.eb), b)
    ensures var (ri, di) := Atciq(m, s, b);
            && 0.0 <= ri < m.Turn() && -m.pi / 2.0 <= di <= m.pi / 2.0
            && S2c(m, ri, di) == ToCirs(m, Pmpx(m, s, b.pmt, b.eb), b)
  {
    hide Pmpx, ToCirs, Unit, Computable, S2c, C2sTheta, C2sPhi, Anp, IsRotation;
    var pco := Pmpx(m, s, b.pmt, b.eb);
    ChainDirections(m, pco, b);
    var pi := ToCirs(m, pco, b);
    SphericalRoundTrip(m, pi);
    AnpKeepsDirection(m, C2sTheta(m, pi), C2sPhi(m, pi));
    AnpRepresents(C2sTheta(m, pi), m.pi);
  }

  lemma NullIsNoUnit()
    ensures !Unit(ZERO)
  {}

  /** sofa/atciq.c:20-21: with zero parallax and proper motions iauAtciqz returns the same place. */
  lemma AtciqzAgrees(m: Libm, rc: real, dc: real, rv: real, b: Barycentric)
    requires m.Valid() && Computable(m, S2c(m, rc, dc), b)
    ensures Pmpx(m, Star(rc, dc, 0.0, 0.0, 0.0, rv), b.pmt, b.eb) == S2c(m, rc, dc)
    ensures Atciq(m, Star(rc, dc, 0.0, 0.0, 0.0, rv), b) == Atciqz(m, rc, dc, b)
  {
    hide ToCirs, Computable, Libm.Valid, C2sTheta, C2sPhi, Anp;
    S2cUnit(m, rc, dc);
    UnmovedStar(m, rc, dc, rv, b.pmt, b.eb);
    UnitDirection(m, S2c(m, rc, dc));
  }

  lemma UnmovedStar(m: Libm, rc: real, dc: real, rv: real, pmt: real, pob: Vec)
    ensures Moved(m, Star(rc, dc, 0.0, 0.0, 0.0, rv), pmt, pob) == S2c(m, rc, dc)
  {
    hide Dot;
  }

  lemma UnitDirection(m: Libm, p: Vec)
    requires m.Valid() && Unit(p)
    ensures Direction(m, p) == p
  {
    m.SqrtUnique(Dot(p, p), 1.0);
    ScaleOne(p);
  }

  /**
   From the observer to the star: the context that iauApcs leaves, with any rotation stored as bpn, is
   good for the chain above exactly when the observer is slower than light and not at the Sun's centre.
   */
  lemma ContextFeedsPipeline(m: Libm, date1: real, date2: real, pv: PosVel, ebpv: PosVel, ehp: Vec, bpn: Mat)
    requires m.Valid() && IsRotation(bpn)
    ensures var b := ApcsResult(m, date1, date2, pv, ebpv, ehp).(bpn := bpn);
            (Dot(b.v, b.v) < 1.0 && Add(ehp, InAu(pv.p)) != ZERO <==> GoodObserver(b))
  {
    hide InAu, IsRotation, Dot, Unit, Add, Libm.Valid, ApcsResult, ZERO;
    var b := ApcsResult(m, date1, date2, pv, ebpv, ehp);
    var ph := Add(ehp, InAu(pv.p));
    ObserverStateConsistent(m, date1, date2, pv, ebpv, ehp);
    EmSquared(m, date1, date2, pv, ebpv, ehp);
    DotSelf(ph);
    if b.em > 0.0 {
      PositiveProduct(b.em, b.em, Dot(ph, ph));
    }
    if Subluminal(b.v, b.bm1) {
      PositiveProduct(b.bm1, b.bm1, 1.0 - Dot(b.v, b.v));
    }
  }

  lemma EmSquared(m: Libm, date1: real, date2: real, pv: PosVel, ebpv: PosVel, ehp: Vec)
    requires m.Valid()
    ensures var em, ph := ApcsResult(m, date1, date2, pv, ebpv, ehp).em, Add(ehp, InAu(pv.p));
            em >= 0.0 && em * em == Dot(ph, ph)
  {
    PnRecomposes(m, Add(ehp, InAu(pv.p)));
  }
}
