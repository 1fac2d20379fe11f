/** Light deflection by the Sun (sofa/ld.c, sofa/ldsun.c) and how far its result is from a unit vector. */
module Deflection {
  import opened RealArith
  import opened Vectors
  import opened Aberration

  function Max(a: real, b: real): real {
    if a > b then a else b
  }

  /** iauLd with p = q, as iauLdsun calls it for a body of one solar mass. */
  function Strength(p: Vec, e: Vec, em: real, dlim: real): real
    requires em != 0.0 && dlim > 0.0
  {
    SRS / em / Max(Dot(p, Add(p, e)), dlim)
  }

  /** The deflection limiter, smaller for distant observers. */
  function Limiter(em: real): (dlim: real)
    ensures dlim > 0.0
  {
    var em2 := if em * em < 1.0 then 1.0 else em * em;
    0.000001 / em2
  }

  /** iauLdsun. */
  function Ldsun(p: Vec, e: Vec, em: real): Vec
    requires em != 0.0
  {
    Add(p, Scale(Strength(p, e, em, Limiter(em)), Cross(p, Cross(e, p))))
  }

  /** For unit p and e, p x (e x p) is perpendicular to p, with squared length 1 - (p.e)^2. */
  lemma DeflectionVector(p: Vec, e: Vec)
    requires Unit(p) && Unit(e)
    ensures var t := Cross(p, Cross(e, p));
            Dot(t, p) == 0.0 && Dot(t, t) == 1.0 - Dot(p, e) * Dot(p, e)
  {
    hide Cross;
    CrossProperties(e, p);
    CrossProperties(p, Cross(e, p));
    DotLinear(p, e, 1.0);
    DotLinear(p, Cross(e, p), 1.0);
  }

  /** |p + w t|^2 for t perpendicular to p. */
  lemma PerpendicularSum(p: Vec, t: Vec, w: real)
    requires Unit(p) && Dot(t, p) == 0.0
    ensures Dot(Add(p, Scale(w, t)), Add(p, Scale(w, t))) == 1.0 + w * w * Dot(t, t)
  {
    var u := Scale(w, t);
    DotScaled(w, t);
    DotLinear(t, p, w);
    SumSquare(p, u);
  }

  lemma SumSquare(p: Vec, u: Vec)
    ensures Dot(Add(p, u), Add(p, u)) == Dot(p, p) + 2.0 * Dot(u, p) + Dot(u, u)
  {}

  /**
   The deflected direction that sofa/ldsun.c calls a unit vector has squared length
   1 + w^2 (1 - (p.e)^2): it is one exactly when the source lies on the line through the Sun.
   */
  lemma DeflectedLength(p: Vec, e: Vec, em: real)
    requires Unit(p) && Unit(e) && em > 0.0
    ensures var w, c := Strength(p, e, em, Limiter(em)), Dot(p, e);
            && w > 0.0
            && Dot(Ldsun(p, e, em), Ldsun(p, e, em)) == 1.0 + w * w * (1.0 - c * c)
            && c * c <= 1.0
            && (Unit(Ldsun(p, e, em)) <==> c * c == 1.0)
  {
    hide Cross, Limiter, Add, Scale, Strength, Dot;
    var w, c := Strength(p, e, em, Limiter(em)), Dot(p, e);
    var t := Cross(p, Cross(e, p));
    StrengthPositive(p, e, em, Limiter(em));
    DeflectionVector(p, e);
    PerpendicularSum(p, t, w);
    DotSelf(t);
    ZeroExcess(w, 1.0 - c * c);
  }

  lemma ZeroExcess(w: real, x: real)
    requires w > 0.0
    ensures w * w * x == 0.0 <==> x == 0.0
  {
    if w * w * x == 0.0 {
      assert w * (w * x) == 0.0;
      ZeroProduct(w, w * x);
      ZeroProduct(w, x);
    }
  }

  lemma StrengthPositive(p: Vec, e: Vec, em: real, dlim: real)
    requires em > 0.0 && dlim > 0.0
    ensures Strength(p, e, em, dlim) > 0.0
    ensures Strength(p, e, em, dlim) * Max(Dot(p, Add(p, e)), dlim) * em == SRS
  {
    hide Dot, Add;
    var x, g := Max(Dot(p, Add(p, e)), dlim), SRS / em;
    var w := g / x;
    assert g * em == SRS && w * x == g;
    PositiveFactor(g, em, SRS);
    PositiveFactor(w, x, g);
  }

  lemma PositiveFactor(a: real, b: real, p: real)
    requires b > 0.0 && a * b == p && p > 0.0
    ensures a > 0.0
  {
    ProductSign(a, b);
    ProductSign(-a, b);
  }

  lemma DotSum(p: Vec, e: Vec)
    ensures Dot(p, Add(p, e)) == Dot(p, p) + Dot(p, e)
  {}

  /** w^2 (1 - c^2) <= 2 g^2 / dlim, because max(1 + c, dlim)^2 >= (1 + c) dlim. */
  lemma ExcessBound(w: real, c: real, g: real, dlim: real)
    requires w > 0.0 && g > 0.0 && dlim > 0.0 && -1.0 <= c <= 1.0
    requires w * Max(1.0 + c, dlim) == g
    ensures w * w * (1.0 - c * c) * dlim <= 2.0 * (g * g)
  {
    var x, y := 1.0 + c, Max(1.0 + c, dlim);
    assert 1.0 - c * c == x * (2.0 - x);
    ScaleOrDrop(x, dlim, y);
    NonnegativeProduct(x, x, x * x);
    assert x * (2.0 - x) * dlim <= 2.0 * (y * y) by {
      assert x * (2.0 - x) * dlim == 2.0 * (x * dlim) - (x * x) * dlim;
      NonnegativeProduct(x * x, dlim, (x * x) * dlim);
    }
    PositiveProduct(w, w, w * w);
    if x * (2.0 - x) * dlim < 2.0 * (y * y) {
      ScaleOrder(x * (2.0 - x) * dlim, 2.0 * (y * y), w * w);
    }
    assert w * w * (x * (2.0 - x)) * dlim == (x * (2.0 - x) * dlim) * (w * w);
    assert (2.0 * (y * y)) * (w * w) == 2.0 * ((w * y) * (w * y));
  }

  lemma ScaleOrDrop(x: real, dlim: real, y: real)
    requires x >= 0.0 && dlim > 0.0 && y == Max(x, dlim)
    ensures x * dlim <= y * y
  {
    NonnegativeProduct(y - x, dlim, (y - x) * dlim);
    NonnegativeProduct(y, y - dlim, y * (y - dlim));
  }

  /** The squared length in excess of 1, for an observer at distance `em` from the Sun. */
  lemma DeflectedExcess(p: Vec, e: Vec, em: real)
    requires Unit(p) && Unit(e) && em > 0.0
    ensures var x := Dot(Ldsun(p, e, em), Ldsun(p, e, em)) - 1.0;
            && x >= 0.0
            && x * Limiter(em) <= 2.0 * ((SRS / em) * (SRS / em))
  {
    hide Limiter, Ldsun, Strength, Dot, Unit, Add;
    var w, c, dlim, g := Strength(p, e, em, Limiter(em)), Dot(p, e), Limiter(em), SRS / em;
    DeflectedLength(p, e, em);
    StrengthPositive(p, e, em, dlim);
    DotSum(p, e);
    UnitMeans(p);
    assert g * em == SRS;
    PositiveFactor(g, em, SRS);
    assert w * Max(1.0 + c, dlim) == g by {
      CancelFactor(w * Max(1.0 + c, dlim), g, em);
    }
    SquareOrder(c, 1.0);
    ExcessBound(w, c, g, dlim);
    PositiveProduct(w, w, w * w);
    NonnegativeProduct(w * w, 1.0 - c * c, w * w * (1.0 - c * c));
  }

  /**
   Note 5 of sofa/ld.c calls the departure from unit magnitude negligible. At 1 au or beyond it is
   below 1e-9, and outside the Sun it never endangers the division in iauAb.
   */
  lemma DepartureNegligible(p: Vec, e: Vec, em: real)
    requires Unit(p) && Unit(e) && em > 0.0
    ensures var l := Dot(Ldsun(p, e, em), Ldsun(p, e, em));
            && l >= 1.0
            && (em >= 1.0 ==> l <= 1.000000001)
            && (em >= 0.0001 ==> SRS / em * (l - 1.0) <= 2.0)
  {
    hide Ldsun, Dot, Unit, Limiter;
    var x, g := Dot(Ldsun(p, e, em), Ldsun(p, e, em)) - 1.0, SRS / em;
    DeflectedExcess(p, e, em);
    assert g * em == SRS;
    PositiveFactor(g, em, SRS);
    LimiterValue(em);
    if em >= 1.0 {
      FarFromSun(em, x, g, Limiter(em));
    } else if em >= 0.0001 {
      NearSun(em, x, g, Limiter(em));
    }
  }

  lemma LimiterValue(em: real)
    requires em > 0.0
    ensures em >= 1.0 ==> Limiter(em) * (em * em) == 0.000001
    ensures em < 1.0 ==> Limiter(em) == 0.000001
  {
    SquareOrder(em, 1.0);
    SquareOrder(1.0, em);
  }

  lemma FarFromSun(em: real, x: real, g: real, dlim: real)
    requires em >= 1.0 && x >= 0.0 && g > 0.0 && g * em == SRS && dlim * (em * em) == 0.000001
    requires x * dlim <= 2.0 * (g * g)
    ensures x <= 0.000000001 && g * x <= 2.0
  {
    PositiveProduct(em, em, em * em);
    if x * dlim < 2.0 * (g * g) {
      ScaleOrder(x * dlim, 2.0 * (g * g), em * em);
    }
    assert x * dlim * (em * em) == x * 0.000001;
    assert 2.0 * (g * g) * (em * em) == 2.0 * (SRS * SRS);
    assert x <= 0.000000001;
    NonnegativeProduct(g, em - 1.0, g * (em - 1.0));
    assert g <= SRS;
    NonnegativeProduct(g, 1.0 - x, g * (1.0 - x));
  }

  lemma NearSun(em: real, x: real, g: real, dlim: real)
    requires 0.0001 <= em < 1.0 && x >= 0.0 && g > 0.0 && g * em == SRS && dlim == 0.000001
    requires x * dlim <= 2.0 * (g * g)
    ensures g * x <= 2.0
  {
    NonnegativeProduct(g, em - 0.0001, g * (em - 0.0001));
    assert g <= 0.0002;
    NonnegativeProduct(g, 0.0002 - g, g * (0.0002 - g));
    assert x <= 1.0;
    NonnegativeProduct(g, 1.0 - x, g * (1.0 - x));
  }
}
