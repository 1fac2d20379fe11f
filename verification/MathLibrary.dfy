/**
 The C and .NET mathematics library, as a parameter.

 The repository calls sin, cos, tan, asin, atan, atan2 and sqrt from a foreign library. `Libm`
 carries them as function values on exact reals and `Valid` lists the textbook laws that the
 rest of the project relies on. Each law is a named predicate, so that a proof instantiates
 exactly the instances it mentions.
 */
module MathLibrary {
  import opened RealArith

  /** `a` and `b` differ by `k` periods. */
  predicate DiffersBy(a: real, b: real, period: real, k: int) {
    a == b + k as real * period
  }

  /** `a` and `b` differ by a whole number of periods. */
  ghost predicate Congruent(a: real, b: real, period: real) {
    exists k: int :: DiffersBy(a, b, period, k)
  }

  datatype Libm = Libm(
    pi: real,
    sin: real -> real,
    cos: real -> real,
    tan: real -> real,
    asin: real -> real,
    atan: real -> real,
    atan2: (real, real) -> real,
    sqrt: real -> real)
  {
    function Turn(): real { 2.0 * pi }

    ghost predicate UnitCircle(a: real) {
      sin(a) * sin(a) + cos(a) * cos(a) == 1.0
    }

    ghost predicate SumLaw(a: real, b: real) {
      && sin(a + b) == sin(a) * cos(b) + cos(a) * sin(b)
      && cos(a + b) == cos(a) * cos(b) - sin(a) * sin(b)
    }

    /** Two angles share sine and cosine exactly when they differ by whole turns. */
    ghost predicate TurnLaw(a: real, b: real) {
      sin(a) == sin(b) && cos(a) == cos(b) <==> Congruent(a, b, Turn())
    }

    ghost predicate CosSign(a: real) {
      -pi <= a <= pi ==> (cos(a) >= 0.0 <==> -pi / 2.0 <= a <= pi / 2.0)
    }

    ghost predicate SqrtLaw(x: real) {
      x >= 0.0 ==> sqrt(x) >= 0.0 && sqrt(x) * sqrt(x) == x
    }

    /** atan2 is the polar angle, in the closed interval [-pi, pi]. */
    ghost predicate PolarLaw(y: real, x: real) {
      && -pi <= atan2(y, x) <= pi
      && (x != 0.0 || y != 0.0 ==>
            var h := sqrt(x * x + y * y);
            x == h * cos(atan2(y, x)) && y == h * sin(atan2(y, x)))
    }

    ghost predicate AsinLaw(x: real) {
      -1.0 <= x <= 1.0 ==> sin(asin(x)) == x && -pi / 2.0 <= asin(x) <= pi / 2.0
    }

    ghost predicate TanLaw(a: real) {
      cos(a) != 0.0 ==> tan(a) * cos(a) == sin(a)
    }

    ghost predicate AtanLaw(t: real) {
      cos(atan(t)) > 0.0 && sin(atan(t)) == t * cos(atan(t))
    }

    /** At a quarter turn. */
    ghost predicate QuarterLaw(a: real) {
      a + a == pi ==> sin(a) == 1.0
    }

    ghost predicate CircleLaws() { forall a :: UnitCircle(a) }

    ghost predicate SumLaws() { forall a, b :: SumLaw(a, b) }

    ghost predicate TurnLaws() { forall a, b :: TurnLaw(a, b) }

    ghost predicate CosSigns() { forall a :: CosSign(a) }

    ghost predicate SqrtLaws() { forall x :: SqrtLaw(x) }

    ghost predicate PolarLaws() { forall y, x :: PolarLaw(y, x) }

    ghost predicate AsinLaws() { forall x :: AsinLaw(x) }

    ghost predicate TanLaws() { forall a :: TanLaw(a) }

    ghost predicate AtanLaws() { forall t :: AtanLaw(t) }

    ghost predicate QuarterLaws() { forall a :: QuarterLaw(a) }

    ghost predicate Valid() {
      && pi > 0.0
      && CircleLaws() && SumLaws() && TurnLaws() && CosSigns()
      && SqrtLaws() && PolarLaws() && AsinLaws() && TanLaws() && AtanLaws() && QuarterLaws()
    }

    lemma AtZero()
      requires Valid()
      ensures sin(0.0) == 0.0 && cos(0.0) == 1.0
    {
      var s, c := sin(0.0), cos(0.0);
      assert UnitCircle(0.0) && SumLaw(0.0, 0.0);
      assert 0.0 + 0.0 == 0.0;
      assert s == 2.0 * (s * c);
      assert c == c * c - s * s == 2.0 * (c * c) - 1.0;
      assert (c - 1.0) * (2.0 * c + 1.0) == 0.0;
      ZeroProduct(c - 1.0, 2.0 * c + 1.0);
      assert s * (2.0 * c - 1.0) == 0.0;
      ZeroProduct(s, 2.0 * c - 1.0);
    }

    lemma Negated(a: real)
      requires Valid()
      ensures sin(-a) == -sin(a) && cos(-a) == cos(a)
    {
      var s, c, s', c' := sin(a), cos(a), sin(-a), cos(-a);
      AtZero();
      assert SumLaw(a, -a) && UnitCircle(a) && a + (-a) == 0.0;
      assert s * c' + c * s' == 0.0 && c * c' - s * s' == 1.0;
      assert c' == c' * (s * s + c * c) == s * (s * c') + c * (c * c') == s * (-(c * s')) + c * (1.0 + s * s') == c;
      assert s' == s' * (s * s + c * c) == s * (s * s') + c * (c * s') == s * (c * c' - 1.0) + c * (-(s * c')) == -s;
    }

    lemma Difference(a: real, b: real)
      requires Valid()
      ensures sin(a - b) == sin(a) * cos(b) - cos(a) * sin(b)
      ensures cos(a - b) == cos(a) * cos(b) + sin(a) * sin(b)
    {
      Negated(b);
      assert SumLaw(a, -b) && a + (-b) == a - b;
    }

    lemma AtHalfTurn()
      requires Valid()
      ensures sin(pi) == 0.0 && cos(pi) == -1.0
    {
      var s, c := sin(pi), cos(pi);
      AtZero();
      assert DiffersBy(Turn(), 0.0, Turn(), 1);
      assert TurnLaw(Turn(), 0.0) && SumLaw(pi, pi) && UnitCircle(pi) && pi + pi == Turn();
      assert c * c - s * s == 1.0;
      assert s * s == 0.0 && c * c == 1.0;
      SquareSign(s);
      assert (c - 1.0) * (c + 1.0) == 0.0;
      ZeroProduct(c - 1.0, c + 1.0);
      assert TurnLaw(pi, 0.0);
      if Congruent(pi, 0.0, Turn()) {
        var k: int :| DiffersBy(pi, 0.0, Turn(), k);
        CloseCongruent(pi, 0.0, Turn(), k);
      }
    }

    /** The one nonnegative number whose square is `x` is what sqrt returns. */
    lemma SqrtUnique(x: real, h: real)
      requires Valid() && h >= 0.0 && h * h == x
      ensures sqrt(x) == h
    {
      assert SqrtLaw(x);
      SquareSign(h);
      EqualSquares(sqrt(x), h);
    }

    /** The cosine and sine that atan2 encodes, for a point at distance `h` from the origin. */
    lemma PolarPoint(y: real, x: real, h: real)
      requires Valid() && h > 0.0 && x * x + y * y == h * h
      ensures x == h * cos(atan2(y, x)) && y == h * sin(atan2(y, x))
    {
      assert PolarLaw(y, x);
      SqrtUnique(x * x + y * y, h);
      SquareSign(h);
      SquaresSumToZero(x, y);
    }

    /** Angles in [-pi/2, pi/2] with equal sines are equal. */
    lemma SineInjective(a: real, b: real)
      requires Valid() && sin(a) == sin(b)
      requires -pi / 2.0 <= a <= pi / 2.0 && -pi / 2.0 <= b <= pi / 2.0
      ensures a == b
    {
      assert UnitCircle(a) && UnitCircle(b) && CosSign(a) && CosSign(b) && TurnLaw(a, b);
      EqualSquares(cos(a), cos(b));
      var k: int :| DiffersBy(a, b, Turn(), k);
      CloseCongruent(a, b, Turn(), k);
    }
  }

  lemma CloseCongruent(a: real, b: real, period: real, k: int)
    requires period > 0.0 && DiffersBy(a, b, period, k) && -period < a - b < period
    ensures k == 0 && a == b
  {
    SmallMultiple(k as real, period, a - b);
  }

  lemma SmallMultiple(t: real, period: real, d: real)
    requires period > 0.0 && d == t * period && -period < d < period
    ensures -1.0 < t < 1.0
  {
    ScaleOrder(-1.0, t, period);
    ScaleOrder(t, 1.0, period);
  }

  lemma CongruentReflexive(a: real, period: real)
    ensures Congruent(a, a, period)
  {
    assert DiffersBy(a, a, period, 0);
  }

  lemma CongruentSymmetric(a: real, b: real, period: real)
    requires Congruent(a, b, period)
    ensures Congruent(b, a, period)
  {
    var k: int :| DiffersBy(a, b, period, k);
    assert (-k) as real == -(k as real);
    assert DiffersBy(b, a, period, -k);
  }

  lemma MultiplesAdd(j: int, k: int, period: real)
    ensures (j + k) as real * period == j as real * period + k as real * period
  {
    var a, b := j as real, k as real;
    assert (j + k) as real == a + b;
    Distribute(a, b, period);
  }

  lemma CongruentTransitive(a: real, b: real, c: real, period: real)
    requires Congruent(a, b, period) && Congruent(b, c, period)
    ensures Congruent(a, c, period)
  {
    var j: int :| DiffersBy(a, b, period, j);
    var k: int :| DiffersBy(b, c, period, k);
    MultiplesAdd(j, k, period);
    assert DiffersBy(a, c, period, j + k);
  }

  lemma CongruentSum(a: real, b: real, c: real, d: real, period: real)
    requires Congruent(a, b, period) && Congruent(c, d, period)
    ensures Congruent(a + c, b + d, period)
    ensures Congruent(a - c, b - d, period)
  {
    var j: int :| DiffersBy(a, b, period, j);
    var k: int :| DiffersBy(c, d, period, k);
    MultiplesAdd(j, k, period);
    MultiplesAdd(j - k, k, period);
    assert DiffersBy(a + c, b + d, period, j + k);
    assert DiffersBy(a - c, b - d, period, j - k);
  }
}
