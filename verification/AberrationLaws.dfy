/** Properties of the aberration formula, Expr. (7.40) of the Explanatory Supplement. */
module AberrationLaws {
  import opened MathLibrary
  import opened RealArith
  import opened Vectors
  import opened Rotations
  import opened Aberration

  /** An observer slower than light with its reciprocal Lorentz factor. */
  predicate Subluminal(v: Vec, bm1: real) {
    bm1 > 0.0 && bm1 * bm1 + Dot(v, v) == 1.0
  }

  /** The two coefficients of the raw direction along `p` and along `v`. */
  function AlongP(p: Vec, v: Vec, w2: real, bm1: real): real {
    bm1 - w2 * Dot(p, v)
  }

  function AlongV(p: Vec, v: Vec, w2: real, bm1: real): real
    requires bm1 != -1.0
  {
    1.0 + Dot(p, v) / (1.0 + bm1) + w2
  }

  lemma RawInSpan(p: Vec, v: Vec, w2: real, bm1: real)
    requires bm1 != -1.0
    ensures RawDirection(p, v, w2, bm1)
         == Add(Scale(AlongP(p, v, w2, bm1), p), Scale(AlongV(p, v, w2, bm1), v))
  {
    hide Dot, Add, Sub, Scale;
    var d := Dot(p, v);
    var w1 := 1.0 + d / (1.0 + bm1);
    Regroup(bm1, w1, w2, d, p, v);
    assert AlongP(p, v, w2, bm1) == bm1 - w2 * d && AlongV(p, v, w2, bm1) == w1 + w2;
  }

  lemma Regroup(b: real, w1: real, w2: real, d: real, p: Vec, v: Vec)
    ensures Add(Add(Scale(b, p), Scale(w1, v)), Scale(w2, Sub(v, Scale(d, p))))
         == Add(Scale(b - w2 * d, p), Scale(w1 + w2, v))
  {
    RegroupX(b, w1, w2, d, p, v);
    RegroupX(b, w1, w2, d, Turned(p), Turned(v));
    RegroupX(b, w1, w2, d, Turned(Turned(p)), Turned(Turned(v)));
    SameVec(Add(Add(Scale(b, p), Scale(w1, v)), Scale(w2, Sub(v, Scale(d, p)))),
            Add(Scale(b - w2 * d, p), Scale(w1 + w2, v)));
  }

  lemma RegroupX(b: real, w1: real, w2: real, d: real, p: Vec, v: Vec)
    ensures Add(Add(Scale(b, p), Scale(w1, v)), Scale(w2, Sub(v, Scale(d, p)))).x
         == Add(Scale(b - w2 * d, p), Scale(w1 + w2, v)).x
  {
    SpanComponent(b, w1, w2, d, p.x, v.x);
  }

  lemma SpanComponent(b: real, w1: real, w2: real, d: real, p: real, v: real)
    ensures b * p + w1 * v + w2 * (v - d * p) == (b - w2 * d) * p + (w1 + w2) * v
  {}

  lemma CombinationDots(a: real, b: real, p: Vec, v: Vec)
    ensures var r := Add(Scale(a, p), Scale(b, v));
            && Dot(r, r) == a * a * Dot(p, p) + 2.0 * a * b * Dot(p, v) + b * b * Dot(v, v)
            && Dot(r, v) == a * Dot(p, v) + b * Dot(v, v)
            && Dot(r, p) == a * Dot(p, p) + b * Dot(p, v)
  {
    var r := Add(Scale(a, p), Scale(b, v));
    DotCombination(a, b, p, v, v);
    DotCombination(a, b, p, v, p);
    DotCombination(a, b, p, v, r);
    DotLinear(v, p, 1.0);
    DotLinear(r, p, 1.0);
    DotLinear(r, v, 1.0);
    assert Dot(r, r) == a * Dot(p, r) + b * Dot(v, r);
    assert a * (a * Dot(p, p) + b * Dot(p, v)) == a * a * Dot(p, p) + a * b * Dot(p, v);
    assert b * (a * Dot(p, v) + b * Dot(v, v)) == a * b * Dot(p, v) + b * b * Dot(v, v);
  }

  lemma DotCombination(a: real, b: real, p: Vec, v: Vec, u: Vec)
    ensures Dot(Add(Scale(a, p), Scale(b, v)), u) == a * Dot(p, u) + b * Dot(v, u)
  {}

  lemma CauchySchwarz(a: Vec, b: Vec)
    ensures Dot(a, b) * Dot(a, b) <= Dot(a, a) * Dot(b, b)
  {
    CrossProperties(a, b);
    DotSelf(Cross(a, b));
  }

  /** The component of a subluminal velocity along a unit vector exceeds -1, and the weight of v is positive. */
  lemma WeightPositive(d: real, v2: real, b: real)
    requires b > 0.0 && b * b + v2 == 1.0 && d * d <= v2
    ensures -1.0 < d < 1.0 && d / (1.0 + b) > -1.0
  {
    PositiveProduct(b, b, 1.0 - v2);
    StrictSquare(d);
    var q := d / (1.0 + b);
    assert q * (1.0 + b) == d;
    ScaleOrder(-1.0, q, 1.0 + b);
  }

  lemma StrictSquare(d: real)
    requires d * d < 1.0
    ensures -1.0 < d < 1.0
  {
    SquareOrder(d, 1.0);
  }

  // ---------- Without the potential term ----------

  lemma NormIdentity(b: real, q: real)
    ensures b * b + 2.0 * b * (1.0 + q) * (q * (1.0 + b)) + (1.0 + q) * (1.0 + q) * (1.0 - b * b)
         == (1.0 + q * (1.0 + b)) * (1.0 + q * (1.0 + b))
  {}

  /** Without the potential term the raw vector has length exactly 1 + p.v. */
  lemma RawLength(p: Vec, v: Vec, bm1: real)
    requires Unit(p) && Subluminal(v, bm1)
    ensures var raw, d := RawDirection(p, v, 0.0, bm1), Dot(p, v);
            -1.0 < d < 1.0 && Dot(raw, raw) == (1.0 + d) * (1.0 + d) && Dot(raw, v) == d + Dot(v, v)
  {
    hide Dot, RawDirection, Add, Scale;
    var b, d, v2 := bm1, Dot(p, v), Dot(v, v);
    var q := d / (1.0 + b);
    assert q * (1.0 + b) == d;
    CauchySchwarz(p, v);
    WeightPositive(d, v2, b);
    RawWithoutPotential(p, v, b, 1.0 + q);
    var w := 1.0 + q;
    var raw := Add(Scale(b, p), Scale(w, v));
    UnitCombination(b, w, p, v, d, v2);
    SquaredLength(b, q, w, d, v2, Dot(raw, raw));
    RawLengthScalars(b, q, d, v2);
  }

  lemma SquaredLength(b: real, q: real, w: real, d: real, v2: real, r2: real)
    requires d == q * (1.0 + b) && v2 == 1.0 - b * b && w == 1.0 + q
    requires r2 == b * b + 2.0 * b * w * d + w * w * v2
    ensures r2 == (1.0 + d) * (1.0 + d)
  {
    RawLengthScalars(b, q, d, v2);
  }

  lemma UnitCombination(a: real, b: real, p: Vec, v: Vec, d: real, v2: real)
    requires Unit(p) && d == Dot(p, v) && v2 == Dot(v, v)
    ensures var r := Add(Scale(a, p), Scale(b, v));
            && Dot(r, r) == a * a + 2.0 * a * b * d + b * b * v2
            && Dot(r, v) == a * d + b * v2
  {
    CombinationDots(a, b, p, v);
    hide Dot, Add, Scale;
    TimesOne(a * a, Dot(p, p));
  }

  lemma TimesOne(x: real, one: real)
    requires one == 1.0
    ensures x * one == x
  {}

  lemma RawWithoutPotential(p: Vec, v: Vec, b: real, w: real)
    requires b > 0.0 && w == 1.0 + Dot(p, v) / (1.0 + b)
    ensures RawDirection(p, v, 0.0, b) == Add(Scale(b, p), Scale(w, v))
  {
    RawInSpan(p, v, 0.0, b);
    hide Dot, RawDirection, Add, Scale;
    assert AlongP(p, v, 0.0, b) == b && AlongV(p, v, 0.0, b) == w;
  }

  lemma RawLengthScalars(b: real, q: real, d: real, v2: real)
    requires d == q * (1.0 + b) && v2 == 1.0 - b * b
    ensures b * b + 2.0 * b * (1.0 + q) * d + (1.0 + q) * (1.0 + q) * v2 == (1.0 + d) * (1.0 + d)
    ensures b * d + (1.0 + q) * v2 == d + v2
  {
    NormIdentity(b, q);
    assert q * v2 == d * (1.0 - b);
  }

  lemma ModulusIs(m: Libm, r: Vec, h: real)
    requires m.Valid() && h >= 0.0 && Dot(r, r) == h * h
    ensures Modulus(m, r) == h
  {
    m.SqrtUnique(Dot(r, r), h);
  }

  /**
   Without the potential term iauAb returns a unit vector whose component along the velocity never
   decreases: (p.v + |v|^2) / (1 + p.v).
   */
  lemma AberrationWithoutPotential(m: Libm, p: Vec, v: Vec, bm1: real)
    requires m.Valid() && Unit(p) && Subluminal(v, bm1)
    ensures Modulus(m, RawDirection(p, v, 0.0, bm1)) == 1.0 + Dot(p, v) > 0.0
    ensures var a := Aberrated(m, p, v, 0.0, bm1);
            && Unit(a)
            && Dot(a, v) == (Dot(p, v) + Dot(v, v)) / (1.0 + Dot(p, v))
            && Dot(a, v) >= Dot(p, v)
  {
    hide Unit, RawDirection, Modulus, Scale, Dot, Libm.Valid;
    var raw, d := RawDirection(p, v, 0.0, bm1), Dot(p, v);
    RawLength(p, v, bm1);
    ModulusIs(m, raw, 1.0 + d);
    NormalisedVector(raw, 1.0 + d);
    DotLinear(raw, v, 1.0 / (1.0 + d));
    CauchyFor(p, v);
    ApexComponent(d, Dot(v, v), Dot(Scale(1.0 / (1.0 + d), raw), v));
  }

  lemma CauchyFor(p: Vec, v: Vec)
    requires Unit(p)
    ensures Dot(p, v) * Dot(p, v) <= Dot(v, v)
  {
    CauchySchwarz(p, v);
  }

  lemma ApexComponent(d: real, v2: real, a: real)
    requires d > -1.0 && d * d <= v2 && a == (1.0 / (1.0 + d)) * (d + v2)
    ensures a == (d + v2) / (1.0 + d) && a >= d
  {
    assert a * (1.0 + d) == d + v2;
    CancelFactor(a, (d + v2) / (1.0 + d), 1.0 + d);
    ScaleOrder(d, a, 1.0 + d);
  }

  /** Aberration by -v undoes aberration by v. */
  lemma AberrationInverse(m: Libm, p: Vec, v: Vec, bm1: real)
    requires m.Valid() && Unit(p) && Subluminal(v, bm1)
    ensures Modulus(m, RawDirection(p, v, 0.0, bm1)) != 0.0
    ensures var a, u := Aberrated(m, p, v, 0.0, bm1), Scale(-1.0, v);
            Modulus(m, RawDirection(a, u, 0.0, bm1)) != 0.0 && Aberrated(m, a, u, 0.0, bm1) == p
  {
    hide Unit, RawDirection, Modulus, Scale, Add, Dot, Libm.Valid;
    AberrationWithoutPotential(m, p, v, bm1);
    var a, u := Aberrated(m, p, v, 0.0, bm1), Scale(-1.0, v);
    Reversed(v, a);
    assert Subluminal(u, bm1);
    AberrationWithoutPotential(m, a, u, bm1);
    var b, d := bm1, Dot(p, v);
    var q, e := d / (1.0 + b), Dot(a, u);
    RawInSpan(p, v, 0.0, b);
    RawInSpan(a, u, 0.0, b);
    CauchyFor(p, v);
    WeightPositive(d, Dot(v, v), b);
    assert AlongP(p, v, 0.0, b) == b && AlongV(p, v, 0.0, b) == 1.0 + q;
    assert AlongP(a, u, 0.0, b) == b && AlongV(a, u, 0.0, b) == 1.0 + e / (1.0 + b);
    InverseWeights(b, d, Dot(v, v), e);
    Undo(p, v, 1.0 / (1.0 + d), 1.0 / (1.0 + e), b, 1.0 + q, 1.0 + e / (1.0 + b));
  }

  lemma Reversed(v: Vec, a: Vec)
    ensures Dot(Scale(-1.0, v), Scale(-1.0, v)) == Dot(v, v) && Dot(a, Scale(-1.0, v)) == -Dot(a, v)
  {}

  /** With e = -(d + v^2)/(1 + d) the second set of weights cancels the first. */
  lemma InverseWeights(b: real, d: real, v2: real, e: real)
    requires b > 0.0 && d > -1.0 && v2 == 1.0 - b * b && e == -((d + v2) / (1.0 + d)) && e > -1.0
    ensures var w, x := 1.0 + d / (1.0 + b), 1.0 + e / (1.0 + b);
            var f, g := 1.0 / (1.0 + d), 1.0 / (1.0 + e);
            g * b * f * b == 1.0 && g * (b * f * w - x) == 0.0
  {
    var w, x := 1.0 + d / (1.0 + b), 1.0 + e / (1.0 + b);
    var f, g := 1.0 / (1.0 + d), 1.0 / (1.0 + e);
    assert w * (1.0 + b) == 1.0 + b + d && x * (1.0 + b) == 1.0 + b + e;
    assert f * (1.0 + d) == 1.0 && g * (1.0 + e) == 1.0;
    assert e * (1.0 + d) == -(d + v2);
    assert (1.0 + e) * (1.0 + d) == b * b;
    FirstWeight(b, 1.0 + d, 1.0 + e, f, g);
    SecondWeight(b, d, e, w, x, f);
  }

  lemma FirstWeight(b: real, dd: real, ee: real, f: real, g: real)
    requires ee * dd == b * b && f * dd == 1.0 && g * ee == 1.0
    ensures g * b * f * b == 1.0
  {
    assert g * b * f * b == g * f * (b * b) == g * f * (ee * dd) == (g * ee) * (f * dd);
  }

  lemma SecondWeight(b: real, d: real, e: real, w: real, x: real, f: real)
    requires b > 0.0 && (1.0 + e) * (1.0 + d) == b * b && f * (1.0 + d) == 1.0
    requires w * (1.0 + b) == 1.0 + b + d && x * (1.0 + b) == 1.0 + b + e
    ensures b * f * w - x == 0.0
  {
    var dd := 1.0 + d;
    assert (x * dd - b * w) * (1.0 + b) == 0.0 by {
      assert (1.0 + b + e) * dd == b * (1.0 + b + d);
      assert (x * dd) * (1.0 + b) == (x * (1.0 + b)) * dd;
      assert (b * w) * (1.0 + b) == b * (w * (1.0 + b));
    }
    ZeroProduct(x * dd - b * w, 1.0 + b);
    var y := b * w;
    Divided(f, dd, x, y);
    assert b * f * w == f * y;
  }

  lemma Divided(f: real, dd: real, x: real, y: real)
    requires f * dd == 1.0 && x * dd == y
    ensures f * y == x
  {
    assert f * y == (f * dd) * x;
  }

  lemma Undo(p: Vec, v: Vec, f: real, g: real, b: real, w: real, x: real)
    requires g * b * f * b == 1.0 && g * (b * f * w - x) == 0.0
    ensures var a := Scale(f, Add(Scale(b, p), Scale(w, v)));
            Scale(g, Add(Scale(b, a), Scale(x, Scale(-1.0, v)))) == p
  {
    hide Scale, Add;
    var fb, fw := f * b, f * w;
    var bb, bw := b * fb, b * fw;
    ScaleCombination(f, b, w, p, v);
    ScaleCombination(b, fb, fw, p, v);
    var k := bw - x;
    CombinationMinus(bb, bw, x, p, v);
    ScaleCombination(g, bb, k, p, v);
    assert g * bb == 1.0 && g * k == 0.0 by {
      assert g * bb == g * b * f * b && k == b * f * w - x;
    }
    CombinationOne(p, v);
  }

  lemma ScaleCombination(s: real, a: real, b: real, p: Vec, v: Vec)
    ensures Scale(s, Add(Scale(a, p), Scale(b, v))) == Add(Scale(s * a, p), Scale(s * b, v))
  {}

  lemma CombinationMinus(a: real, b: real, c: real, p: Vec, v: Vec)
    ensures Add(Add(Scale(a, p), Scale(b, v)), Scale(c, Scale(-1.0, v))) == Add(Scale(a, p), Scale(b - c, v))
  {}

  lemma CombinationOne(p: Vec, v: Vec)
    ensures Add(Scale(1.0, p), Scale(0.0, v)) == p
  {}

  // ---------- With the potential term ----------

  /** d q = |p|^2 (1 - b) when p and v are parallel. */
  lemma ParallelProduct(b: real, q: real, d: real, l: real, v2: real)
    requires b > 0.0 && b * b + v2 == 1.0 && q * (1.0 + b) == d && d * d == l * v2
    ensures d * q == l * (1.0 - b)
  {
    assert (d * q) * (1.0 + b) == d * d;
    assert (l * (1.0 - b)) * (1.0 + b) == l * (1.0 - b * b) == l * v2;
    CancelFactor(d * q, l * (1.0 - b), 1.0 + b);
  }

  /** The scalar core of the vanishing condition: two linear equations in the two weights. */
  lemma WeightsVanish(b: real, q: real, d: real, l: real, v2: real, w2: real)
    requires b > 0.0 && b * b + v2 == 1.0 && q * (1.0 + b) == d && w2 >= 0.0
    requires (b - w2 * d) * l + (1.0 + q + w2) * d == 0.0
    requires (b - w2 * d) * d + (1.0 + q + w2) * v2 == 0.0
    ensures l * v2 == d * d && l + d + w2 * d * (1.0 - l) == 0.0
  {
    var a, c, g := b - w2 * d, 1.0 + q + w2, l * v2 - d * d;
    assert a * g == 0.0 by {
      assert a * g == (a * l + c * d) * v2 - (a * d + c * v2) * d;
    }
    assert c * g == 0.0 by {
      assert c * g == (a * d + c * v2) * l - (a * l + c * d) * d;
    }
    ZeroProduct(a, g);
    ZeroProduct(c, g);
    if a == 0.0 && c == 0.0 {
      WeightsNotBothZero(b, q, d, w2);
    }
    ParallelProduct(b, q, d, l, v2);
    assert a * l + c * d == l + d + w2 * d * (1.0 - l) by {
      assert a * l == b * l - w2 * d * l && c * d == d + d * q + w2 * d;
    }
  }

  lemma WeightsNotBothZero(b: real, q: real, d: real, w2: real)
    requires b > 0.0 && q * (1.0 + b) == d && w2 >= 0.0
    ensures b - w2 * d != 0.0 || 1.0 + q + w2 != 0.0
  {
    if b == w2 * d {
      if d <= 0.0 {
        NonnegativeProduct(w2, -d, -b);
      } else if q <= 0.0 {
        NonnegativeProduct(-q, 1.0 + b, -d);
      }
    }
  }

  /**
   For any direction at least as long as a unit vector, the vector that iauAb divides by its length
   vanishes exactly when the motion is along the line of sight and the potential term cancels it.
   */
  lemma RawVanishesExactly(p: Vec, v: Vec, w2: real, bm1: real)
    requires Dot(p, p) >= 1.0 && Subluminal(v, bm1) && w2 >= 0.0
    ensures RawDirection(p, v, w2, bm1) == ZERO
       <==> Cross(p, v) == ZERO && Dot(p, p) + Dot(p, v) + w2 * Dot(p, v) * (1.0 - Dot(p, p)) == 0.0
  {
    hide Dot, RawDirection, Cross;
    var b, d, l, v2 := bm1, Dot(p, v), Dot(p, p), Dot(v, v);
    var raw, q := RawDirection(p, v, w2, b), d / (1.0 + b);
    assert q * (1.0 + b) == d;
    RawDots(p, v, w2, b, q);
    CrossProperties(p, v);
    DotSelf(Cross(p, v));
    DotSelf(raw);
    if raw == ZERO {
      DotZero(v);
      DotZero(p);
      WeightsVanish(b, q, d, l, v2, w2);
    } else if Cross(p, v) == ZERO && l + d + w2 * d * (1.0 - l) == 0.0 {
      VanishingLength(b, q, d, l, v2, w2);
    }
  }

  lemma RawDots(p: Vec, v: Vec, w2: real, b: real, q: real)
    requires b > 0.0 && q == Dot(p, v) / (1.0 + b)
    ensures var raw, a, c := RawDirection(p, v, w2, b), b - w2 * Dot(p, v), 1.0 + q + w2;
            && Dot(raw, raw) == a * a * Dot(p, p) + 2.0 * a * c * Dot(p, v) + c * c * Dot(v, v)
            && Dot(raw, v) == a * Dot(p, v) + c * Dot(v, v)
            && Dot(raw, p) == a * Dot(p, p) + c * Dot(p, v)
  {
    hide Dot, Add, Scale, RawDirection;
    var a, c := b - w2 * Dot(p, v), 1.0 + q + w2;
    assert AlongP(p, v, w2, b) == a && AlongV(p, v, w2, b) == c;
    RawInSpan(p, v, w2, b);
    CombinationDots(a, c, p, v);
  }

  lemma DotZero(v: Vec)
    ensures Dot(ZERO, v) == 0.0
  {}

  lemma VanishingLength(b: real, q: real, d: real, l: real, v2: real, w2: real)
    requires b > 0.0 && b * b + v2 == 1.0 && q * (1.0 + b) == d && l >= 1.0
    requires l * v2 == d * d && l + d + w2 * d * (1.0 - l) == 0.0
    ensures var a, c := b - w2 * d, 1.0 + q + w2;
            a * a * l + 2.0 * a * c * d + c * c * v2 == 0.0
  {
    var a, c := b - w2 * d, 1.0 + q + w2;
    ParallelProduct(b, q, d, l, v2);
    assert a * l + c * d == 0.0 by {
      assert a * l == b * l - w2 * d * l && c * d == d + d * q + w2 * d;
    }
    var r := a * a * l + 2.0 * a * c * d + c * c * v2;
    assert r * l == (a * l + c * d) * (a * l + c * d) + c * c * (l * v2 - d * d);
    ZeroProduct(r, l);
  }

  /** The division in iauAb is safe whenever the potential term times the excess length is at most 2. */
  lemma RawNeverVanishes(p: Vec, v: Vec, w2: real, bm1: real)
    requires Dot(p, p) >= 1.0 && Subluminal(v, bm1) && w2 >= 0.0 && w2 * (Dot(p, p) - 1.0) <= 2.0
    ensures RawDirection(p, v, w2, bm1) != ZERO
  {
    hide Dot, RawDirection;
    RawVanishesExactly(p, v, w2, bm1);
    if RawDirection(p, v, w2, bm1) == ZERO {
      CrossProperties(p, v);
      DotZero(ZERO);
      TooLong(bm1, Dot(p, v), Dot(p, p), Dot(v, v), w2);
    }
  }

  lemma TooLong(b: real, d: real, l: real, v2: real, w2: real)
    requires b > 0.0 && b * b + v2 == 1.0 && l >= 1.0 && w2 >= 0.0 && w2 * (l - 1.0) <= 2.0
    requires l * v2 == d * d
    ensures l + d + w2 * d * (1.0 - l) != 0.0
  {
    var t := w2 * (l - 1.0) - 1.0;
    NonnegativeProduct(w2, l - 1.0, t + 1.0);
    assert w2 * d * (1.0 - l) == -(d * (t + 1.0));
    if l == d * t {
      SquareOrder(t, 1.0);
      NonnegativeSquare(d, d * d);
      if d * d > 0.0 {
        ScaleOrder(t * t, 1.0, d * d);
      }
      assert l * l == (d * d) * (t * t) <= l * v2;
      ScaleOrder(l, v2, l);
      PositiveProduct(b, b, 1.0 - v2);
    }
  }

  /** Without parallel motion or excess length: |raw|^2 = (1 + p.v)^2 + (w2^2 + 2 w1 w2)(|v|^2 - (p.v)^2). */
  lemma RawLengthWithPotential(p: Vec, v: Vec, w2: real, bm1: real)
    requires Unit(p) && Subluminal(v, bm1) && w2 >= 0.0
    ensures var raw, d := RawDirection(p, v, w2, bm1), Dot(p, v);
            && Dot(raw, raw) == (1.0 + d) * (1.0 + d)
                 + (w2 * w2 + 2.0 * (1.0 + d / (1.0 + bm1)) * w2) * (Dot(v, v) - d * d)
            && Dot(raw, raw) >= (1.0 + d) * (1.0 + d)
  {
    hide Dot, Add, Scale, RawDirection;
    var b, d, v2 := bm1, Dot(p, v), Dot(v, v);
    var q := d / (1.0 + b);
    assert q * (1.0 + b) == d;
    var a, c := b - w2 * d, 1.0 + q + w2;
    RawAsCombination(p, v, w2, b, a, c);
    UnitCombination(a, c, p, v, d, v2);
    UnitMeans(p);
    CauchyFor(p, v);
    WeightPositive(d, v2, b);
    var k, raw := w2 * w2 + 2.0 * (1.0 + q) * w2, Add(Scale(a, p), Scale(c, v));
    PotentialIdentity(b, q, d, v2, w2, a, c, k, Dot(raw, raw));
    NonnegativeProduct(w2, w2 + 2.0 * (1.0 + q), k);
    NonnegativeProduct(k, v2 - d * d, k * (v2 - d * d));
  }

  lemma RawAsCombination(p: Vec, v: Vec, w2: real, b: real, a: real, c: real)
    requires b > 0.0 && a == b - w2 * Dot(p, v) && c == 1.0 + Dot(p, v) / (1.0 + b) + w2
    ensures RawDirection(p, v, w2, b) == Add(Scale(a, p), Scale(c, v))
  {
    hide Dot, Add, Scale, RawDirection;
    RawInSpan(p, v, w2, b);
    assert AlongP(p, v, w2, b) == a && AlongV(p, v, w2, b) == c;
  }

  lemma PotentialIdentity(b: real, q: real, d: real, v2: real, w2: real, a: real, c: real, k: real, r2: real)
    requires d == q * (1.0 + b) && v2 == 1.0 - b * b
    requires a == b - w2 * d && c == 1.0 + q + w2 && k == w2 * w2 + 2.0 * (1.0 + q) * w2
    requires r2 == a * a + 2.0 * a * c * d + c * c * v2
    ensures r2 == (1.0 + d) * (1.0 + d) + k * (v2 - d * d)
  {
    var w1 := 1.0 + q;
    SquaredLength(b, q, w1, d, v2, b * b + 2.0 * b * w1 * d + w1 * w1 * v2);
    PotentialExpansion(b, w1, w2, d, v2, a, c, k);
  }

  lemma PotentialExpansion(b: real, w1: real, w2: real, d: real, v2: real, a: real, c: real, k: real)
    requires a == b - w2 * d && c == w1 + w2 && k == w2 * w2 + 2.0 * w1 * w2
    ensures a * a + 2.0 * a * c * d + c * c * v2 == (b * b + 2.0 * b * w1 * d + w1 * w1 * v2) + k * (v2 - d * d)
  {
    assert a * a == b * b - 2.0 * b * w2 * d + w2 * w2 * (d * d);
    assert a * c * d == b * w1 * d + b * w2 * d - w2 * w1 * (d * d) - w2 * w2 * (d * d);
    assert c * c * v2 == w1 * w1 * v2 + 2.0 * w1 * w2 * v2 + w2 * w2 * v2;
  }

  /**
   iauAb as called: for a unit natural direction, a subluminal observer and any distance s > 0 from
   the Sun, the length it divides by is positive and the result is a unit vector, displaced from the
   natural direction towards the apex of the motion.
   */
  lemma ProperDirection(m: Libm, p: Vec, v: Vec, s: real, bm1: real)
    requires m.Valid() && Unit(p) && Subluminal(v, bm1) && s > 0.0
    ensures Modulus(m, RawDirection(p, v, SRS / s, bm1)) > 0.0
    ensures var a := Aberrated(m, p, v, SRS / s, bm1);
            && Unit(a)
            && exists k: real :: k > 0.0 && Cross(p, a) == Scale(k, Cross(p, v))
  {
    hide Dot, Add, Scale, RawDirection, Cross, Unit, Modulus, Libm.Valid;
    var w2 := SRS / s;
    var raw, d := RawDirection(p, v, w2, bm1), Dot(p, v);
    assert w2 * s == SRS;
    if w2 < 0.0 {
      ProductSign(w2, s);
    }
    UnitMeans(p);
    RawNeverVanishes(p, v, w2, bm1);
    PnRecomposes(m, raw);
    NormalisedVector(raw, Modulus(m, raw));
    WeightOfVelocity(p, v, w2, bm1);
    RawInSpan(p, v, w2, bm1);
    hide AlongP, AlongV;
    var f, e, c := 1.0 / Modulus(m, raw), AlongP(p, v, w2, bm1), AlongV(p, v, w2, bm1);
    assert f * Modulus(m, raw) == 1.0;
    InversePositive(f, Modulus(m, raw));
    PositiveProduct(f, c, f * c);
    ScaleCombination(f, e, c, p, v);
    CrossCombinationWith(p, v, f * e, f * c);
    assert Cross(p, Aberrated(m, p, v, w2, bm1)) == Scale(f * c, Cross(p, v));
  }

  lemma WeightOfVelocity(p: Vec, v: Vec, w2: real, bm1: real)
    requires Unit(p) && Subluminal(v, bm1) && w2 >= 0.0
    ensures AlongV(p, v, w2, bm1) > 0.0
  {
    hide Dot, Unit;
    CauchyFor(p, v);
    WeightPositive(Dot(p, v), Dot(v, v), bm1);
  }

  lemma InversePositive(f: real, x: real)
    requires f * x == 1.0 && x > 0.0
    ensures f > 0.0
  {
    ProductSign(f, x);
  }

  lemma CrossCombinationWith(p: Vec, v: Vec, a: real, b: real)
    ensures Cross(p, Add(Scale(a, p), Scale(b, v))) == Scale(b, Cross(p, v))
  {
    hide Cross, Add, Scale;
    CrossLinear(p, Scale(a, p), Scale(b, v));
    CrossScaled(p, p, a);
    CrossScaled(p, v, b);
    CrossSelf(p, a, Scale(b, Cross(p, v)));
  }

  lemma CrossLinear(p: Vec, u: Vec, v: Vec)
    ensures Cross(p, Add(u, v)) == Add(Cross(p, u), Cross(p, v))
  {
    SameVec(Cross(p, Add(u, v)), Add(Cross(p, u), Cross(p, v)));
  }

  lemma CrossScaled(p: Vec, v: Vec, b: real)
    ensures Cross(p, Scale(b, v)) == Scale(b, Cross(p, v))
  {
    var u, c := Scale(b, v), Cross(p, v);
    ScaledMinor(p.y, p.z, v.y, v.z, b, u.y, u.z, c.x);
    ScaledMinor(p.z, p.x, v.z, v.x, b, u.z, u.x, c.y);
    ScaledMinor(p.x, p.y, v.x, v.y, b, u.x, u.y, c.z);
    SameVec(Cross(p, u), Scale(b, c));
  }

  lemma ScaledMinor(a: real, b: real, c: real, d: real, s: real, c': real, d': real, e: real)
    requires c' == s * c && d' == s * d && e == a * d - b * c
    ensures a * d' - b * c' == s * e
  {}

  lemma CrossSelf(p: Vec, a: real, u: Vec)
    ensures Add(Scale(a, Cross(p, p)), u) == u
  {
    SameVec(Cross(p, p), ZERO);
    SameVec(Scale(a, ZERO), ZERO);
  }
}
