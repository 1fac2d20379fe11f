/** Stellar aberration (sofa/ab.c) and the observer state it is given (sofa/apcs.c). */
module Aberration {
  import opened MathLibrary
  import opened RealArith
  import opened Vectors
  import opened Rotations
  import opened Astrometry

  /** Schwarzschild radius of the Sun in au. */
  const SRS := 0.0000000197412574336

  // ---------- The observer state ----------

  /** In SI units the observer's velocity is the Earth's plus the station's. */
  lemma VelocityInMetresPerSecond(m: Libm, date1: real, date2: real, pv: PosVel, ebpv: PosVel, ehp: Vec)
    ensures Scale(CMPS, ApcsResult(m, date1, date2, pv, ebpv, ehp).v) == Add(Scale(DAU / DAYSEC, ebpv.v), pv.v)
    ensures Scale(DAU, Sub(ApcsResult(m, date1, date2, pv, ebpv, ehp).eb, ebpv.p)) == pv.p
  {
    hide Modulus, Direction, Dot;
  }

  /**
   For every observer slower than light, iauApcs leaves the reciprocal Lorentz factor of the
   velocity it stores, and a distance and direction that recompose the heliocentric position.
   */
  lemma ObserverStateConsistent(m: Libm, date1: real, date2: real, pv: PosVel, ebpv: PosVel, ehp: Vec)
    requires m.Valid()
    ensures var b := ApcsResult(m, date1, date2, pv, ebpv, ehp);
            && b.em >= 0.0
            && Scale(b.em, b.eh) == Add(ehp, InAu(pv.p))
            && (Add(ehp, InAu(pv.p)) != ZERO ==> b.em > 0.0 && Unit(b.eh))
            && (Dot(b.v, b.v) <= 1.0 ==> b.bm1 >= 0.0 && b.bm1 * b.bm1 + Dot(b.v, b.v) == 1.0)
            && (Dot(b.v, b.v) < 1.0 ==> b.bm1 > 0.0)
  {
    hide InAu, InAuPerDay, Scale, Dot, Unit, Modulus, Direction, Libm.Valid;
    var b := ApcsResult(m, date1, date2, pv, ebpv, ehp);
    PnRecomposes(m, Add(ehp, InAu(pv.p)));
    Lorentz(m, Dot(b.v, b.v));
  }

  lemma Lorentz(m: Libm, v2: real)
    requires m.Valid()
    ensures v2 <= 1.0 ==> m.sqrt(1.0 - v2) >= 0.0 && m.sqrt(1.0 - v2) * m.sqrt(1.0 - v2) + v2 == 1.0
    ensures v2 < 1.0 ==> m.sqrt(1.0 - v2) > 0.0
  {
    assert m.SqrtLaw(1.0 - v2);
    SquareSign(m.sqrt(1.0 - v2));
  }

  // ---------- The aberrated direction ----------

  /** The vector that iauAb normalises, with `w2` the Sun's potential term. */
  function RawDirection(p: Vec, v: Vec, w2: real, bm1: real): Vec
    requires bm1 != -1.0
  {
    var pdv := Dot(p, v);
    var w1 := 1.0 + pdv / (1.0 + bm1);
    Add(Add(Scale(bm1, p), Scale(w1, v)), Scale(w2, Sub(v, Scale(pdv, p))))
  }

  function Aberrated(m: Libm, p: Vec, v: Vec, w2: real, bm1: real): Vec
    requires bm1 != -1.0 && Modulus(m, RawDirection(p, v, w2, bm1)) != 0.0
  {
    Scale(1.0 / Modulus(m, RawDirection(p, v, w2, bm1)), RawDirection(p, v, w2, bm1))
  }

  /** iauAb, with its two loops. The proper direction overwrites `ppr`, which may be `pnat` itself. */
  method Ab(m: Libm, pnat: array<real>, v: array<real>, s: real, bm1: real, ppr: array<real>)
    requires pnat.Length == 3 && v.Length == 3 && ppr.Length == 3
    requires s != 0.0 && bm1 != -1.0
    requires Modulus(m, RawDirection(VecAt(pnat), VecAt(v), SRS / s, bm1)) != 0.0
    modifies ppr
    ensures VecAt(ppr) == old(Aberrated(m, VecAt(pnat), VecAt(v), SRS / s, bm1))
  {
    hide Dot, At, PartialDot, Component, RawDirection, Aberrated;
    ghost var n, u := VecAt(pnat), VecAt(v);
    ghost var raw := RawDirection(n, u, SRS / s, bm1);
    var pdv := Dot(VecAt(pnat), VecAt(v));
    var w1 := 1.0 + pdv / (1.0 + bm1);
    var w2 := SRS / s;
    var r2 := 0.0;
    PartialDotStep(raw, 0);
    var p := new real[3];
    for i := 0 to 3
      modifies p
      invariant forall k: nat :: k < i ==> p[k] == At(raw, k)
      invariant r2 == PartialDot(raw, i)
    {
      var w := pnat[i] * bm1 + w1 * v[i] + w2 * (v[i] - pdv * pnat[i]);
      ComponentForm(pnat[i], v[i], pdv, w1, w2, bm1);
      ArrayComponent(pnat, i);
      ArrayComponent(v, i);
      RawComponent(n, u, w2, bm1, i);
      PartialDotStep(raw, i);
      p[i] := w;
      r2 := r2 + w * w;
    }
    var r := m.sqrt(r2);
    ghost var result := Aberrated(m, n, u, SRS / s, bm1);
    AberratedForm(m, n, u, w2, bm1);
    for i := 0 to 3
      modifies ppr
      invariant forall k: nat :: k < 3 ==> p[k] == At(raw, k)
      invariant forall k: nat :: k < i ==> ppr[k] == At(result, k)
    {
      ScaledComponent(raw, r, i);
      ppr[i] := p[i] / r;
    }
    ArrayComponents(ppr, result);
  }

  /** One component of the unnormalised direction, as the loop of sofa/ab.c computes it. */
  function Component(p: real, v: real, pdv: real, w1: real, w2: real, bm1: real): real {
    p * bm1 + w1 * v + w2 * (v - pdv * p)
  }

  lemma ComponentForm(p: real, v: real, pdv: real, w1: real, w2: real, bm1: real)
    ensures Component(p, v, pdv, w1, w2, bm1) == p * bm1 + w1 * v + w2 * (v - pdv * p)
  {}

  lemma ArrayComponent(p: array<real>, i: nat)
    requires p.Length == 3 && i < 3
    ensures p[i] == At(VecAt(p), i)
  {}

  lemma ArrayComponents(p: array<real>, r: Vec)
    requires p.Length == 3 && forall k: nat :: k < 3 ==> p[k] == At(r, k)
    ensures VecAt(p) == r
  {
    assert p[0] == At(r, 0) && p[1] == At(r, 1) && p[2] == At(r, 2);
  }

  function VecAt(p: array<real>): Vec
    requires p.Length == 3
    reads p
  {
    Vec(p[0], p[1], p[2])
  }

  lemma RawComponent(p: Vec, v: Vec, w2: real, bm1: real, i: nat)
    requires i < 3 && bm1 != -1.0
    ensures At(RawDirection(p, v, w2, bm1), i)
         == Component(At(p, i), At(v, i), Dot(p, v), 1.0 + Dot(p, v) / (1.0 + bm1), w2, bm1)
  {
    hide Dot;
  }

  lemma ScaledComponent(p: Vec, r: real, i: nat)
    requires i < 3 && r != 0.0
    ensures At(Scale(1.0 / r, p), i) == At(p, i) / r
  {}

  lemma AberratedForm(m: Libm, p: Vec, v: Vec, w2: real, bm1: real)
    requires bm1 != -1.0 && Modulus(m, RawDirection(p, v, w2, bm1)) != 0.0
    ensures var raw := RawDirection(p, v, w2, bm1);
            Aberrated(m, p, v, w2, bm1) == Scale(1.0 / m.sqrt(Dot(raw, raw)), raw)
  {}
}
