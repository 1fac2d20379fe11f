/** Angle normalisation: iauAnp, iauAnpm and the C library's fmod (sofa/anp.c, sofa/anpm.c). */
module Angles {
  import opened MathLibrary
  import opened RealArith

  /** Truncation towards zero. */
  function Trunc(x: real): int {
    if x >= 0.0 then x.Floor else -(-x).Floor
  }

  /** The C fmod: the remainder has the sign of the dividend. */
  function FMod(a: real, p: real): (r: real)
    requires p > 0.0
  {
    a - Trunc(a / p) as real * p
  }

  lemma FModProperties(a: real, p: real)
    requires p > 0.0
    ensures DiffersBy(a, FMod(a, p), p, Trunc(a / p)) && Congruent(FMod(a, p), a, p)
    ensures a >= 0.0 ==> 0.0 <= FMod(a, p) < p
    ensures a <= 0.0 ==> -p < FMod(a, p) <= 0.0
  {
    var x, k := a / p, Trunc(a / p);
    assert x * p == a;
    ScaleOrder(0.0, x, p);
    ScaleOrder(x, 0.0, p);
    TruncRange(x);
    var f, r := x - k as real, FMod(a, p);
    FractionScaled(f, p, r);
    assert DiffersBy(a, r, p, k);
    CongruentSymmetric(a, r, p);
  }

  lemma TruncRange(x: real)
    ensures x >= 0.0 ==> 0.0 <= x - Trunc(x) as real < 1.0
    ensures x <= 0.0 ==> -1.0 < x - Trunc(x) as real <= 0.0
  {
    var n := (-x).Floor;
    assert (-n) as real == -(n as real) && n as real <= -x < n as real + 1.0;
  }

  lemma FractionScaled(f: real, p: real, r: real)
    requires p > 0.0 && r == f * p
    ensures 0.0 <= f < 1.0 ==> 0.0 <= r < p
    ensures -1.0 < f <= 0.0 ==> -p < r <= 0.0
  {
    if 0.0 <= f < 1.0 {
      NonnegativeProduct(f, p, r);
      PositiveProduct(1.0 - f, p, p - r);
    }
    if -1.0 < f <= 0.0 {
      NonnegativeProduct(-f, p, -r);
      PositiveProduct(1.0 + f, p, p + r);
    }
  }

  /** iauAnp, with `pi` standing for DPI and 2 pi for D2PI. */
  function Anp(a: real, pi: real): real
    requires pi > 0.0
  {
    var w := FMod(a, 2.0 * pi);
    if w < 0.0 then w + 2.0 * pi else w
  }

  /** dsign(A,B): the magnitude of A with the sign of B. */
  function Dsign(a: real, b: real): real {
    if b < 0.0 then -Abs(a) else Abs(a)
  }

  /** iauAnpm. */
  function Anpm(a: real, pi: real): real
    requires pi > 0.0
  {
    var w := FMod(a, 2.0 * pi);
    if Abs(w) >= pi then w - Dsign(2.0 * pi, a) else w
  }

  lemma AddPeriods(a: real, b: real, p: real, k: int)
    requires Congruent(a, b, p)
    ensures Congruent(a + k as real * p, b, p)
  {
    var j: int :| DiffersBy(a, b, p, j);
    assert (j + k) as real == j as real + k as real;
    assert (j + k) as real * p == j as real * p + k as real * p;
    assert DiffersBy(a + k as real * p, b, p, j + k);
  }

  /** iauAnp returns the only representative of its argument in [0, 2 pi). */
  lemma AnpRepresents(a: real, pi: real)
    requires pi > 0.0
    ensures 0.0 <= Anp(a, pi) < 2.0 * pi
    ensures Congruent(Anp(a, pi), a, 2.0 * pi)
    ensures forall r {:trigger Congruent(r, a, 2.0 * pi)} ::
              0.0 <= r < 2.0 * pi && Congruent(r, a, 2.0 * pi) ==> r == Anp(a, pi)
  {
    var p, w := 2.0 * pi, FMod(a, 2.0 * pi);
    FModProperties(a, p);
    AddPeriods(w, a, p, 1);
    assert 1 as real * p == p;
    forall r | 0.0 <= r < p && Congruent(r, a, p)
      ensures r == Anp(a, pi)
    {
      CongruentSymmetric(Anp(a, pi), a, p);
      CongruentTransitive(r, a, Anp(a, pi), p);
      var k: int :| DiffersBy(r, Anp(a, pi), p, k);
      CloseCongruent(r, Anp(a, pi), p, k);
    }
  }

  /** Congruent angles have the same iauAnp, so it is a canonical form. */
  lemma AnpCanonical(a: real, b: real, pi: real)
    requires pi > 0.0
    ensures Anp(a, pi) == Anp(b, pi) <==> Congruent(a, b, 2.0 * pi)
  {
    var p := 2.0 * pi;
    AnpRepresents(a, pi);
    AnpRepresents(b, pi);
    if Congruent(a, b, p) {
      CongruentTransitive(Anp(a, pi), a, b, p);
    }
    if Anp(a, pi) == Anp(b, pi) {
      CongruentSymmetric(Anp(a, pi), a, p);
      CongruentTransitive(a, Anp(a, pi), b, p);
    }
  }

  /** iauAnpm returns a representative in the closed interval [-pi, pi]. */
  lemma AnpmRepresents(a: real, pi: real)
    requires pi > 0.0
    ensures -pi <= Anpm(a, pi) <= pi
    ensures Congruent(Anpm(a, pi), a, 2.0 * pi)
  {
    var p, w := 2.0 * pi, FMod(a, 2.0 * pi);
    FModProperties(a, p);
    AddPeriods(w, a, p, 1);
    AddPeriods(w, a, p, -1);
    assert 1 as real * p == p && (-1) as real * p == -p;
  }

  /**
   The header of sofa/anpm.c promises -pi <= result < +pi. That holds except when the C remainder
   is exactly -pi, where the result is +pi.
   */
  lemma AnpmDocumentedRange(a: real, pi: real)
    requires pi > 0.0
    ensures -pi <= Anpm(a, pi) < pi <==> FMod(a, 2.0 * pi) != -pi
    ensures FMod(a, 2.0 * pi) == -pi ==> Anpm(a, pi) == pi
    ensures Anpm(-pi, pi) == pi
  {
    FModProperties(a, 2.0 * pi);
    AnpmRepresents(a, pi);
    FModSmall(-pi, 2.0 * pi);
  }

  lemma FModSmall(a: real, p: real)
    requires p > 0.0 && -p < a < p
    ensures FMod(a, p) == a
  {
    FModProperties(a, p);
    CloseCongruent(a, FMod(a, p), p, Trunc(a / p));
  }

  /** Both normalisations are idempotent, except that iauAnpm swaps -pi and +pi. */
  lemma NormalisationsIdempotent(a: real, pi: real)
    requires pi > 0.0
    ensures Anp(Anp(a, pi), pi) == Anp(a, pi)
    ensures Anpm(Anpm(a, pi), pi) == Anpm(a, pi) <==> -pi < Anpm(a, pi) < pi
    ensures Anpm(pi, pi) == -pi && Anpm(-pi, pi) == pi
    ensures Anp(Anpm(a, pi), pi) == Anp(a, pi)
  {
    AnpRepresents(a, pi);
    AnpCanonical(Anp(a, pi), a, pi);
    AnpmRepresents(a, pi);
    AnpCanonical(Anpm(a, pi), a, pi);
    FModSmall(Anpm(a, pi), 2.0 * pi);
    FModSmall(pi, 2.0 * pi);
    FModSmall(-pi, 2.0 * pi);
  }
}
