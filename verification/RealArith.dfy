/** Small facts about real multiplication, each of which the solver needs in isolation. */
module RealArith {

  function Abs(x: real): real {
    if x < 0.0 then -x else x
  }

  lemma Distribute(a: real, b: real, f: real)
    ensures (a + b) * f == a * f + b * f
  {}

  lemma ZeroProduct(a: real, b: real)
    requires a * b == 0.0
    ensures a == 0.0 || b == 0.0
  {}

  lemma SquareSign(a: real)
    ensures a * a >= 0.0
    ensures a * a == 0.0 <==> a == 0.0
  {
    if a * a == 0.0 {
      ZeroProduct(a, a);
    }
  }

  lemma SquaresSumToZero(a: real, b: real)
    ensures a * a + b * b >= 0.0
    ensures a * a + b * b == 0.0 <==> a == 0.0 && b == 0.0
  {
    SquareSign(a);
    SquareSign(b);
  }

  lemma ProductSign(a: real, b: real)
    ensures a > 0.0 && b > 0.0 ==> a * b > 0.0
    ensures a >= 0.0 && b >= 0.0 ==> a * b >= 0.0
    ensures a < 0.0 && b > 0.0 ==> a * b < 0.0
  {}

  lemma EqualSquares(a: real, b: real)
    requires a * a == b * b && a >= 0.0 && b >= 0.0
    ensures a == b
  {
    assert (a - b) * (a + b) == 0.0;
    ZeroProduct(a - b, a + b);
  }

  lemma CancelFactor(a: real, b: real, f: real)
    requires f != 0.0 && a * f == b * f
    ensures a == b
  {
    assert (a - b) * f == 0.0;
    ZeroProduct(a - b, f);
  }

  /** The product is named apart from its factors, so that the sign survives when they are equal. */
  lemma PositiveProduct(a: real, b: real, p: real)
    requires a > 0.0 && b > 0.0 && p == a * b
    ensures p > 0.0
  {}

  lemma NonnegativeProduct(a: real, b: real, p: real)
    requires a >= 0.0 && b >= 0.0 && p == a * b
    ensures p >= 0.0
  {}

  lemma NonnegativeSquare(a: real, p: real)
    requires p == a * a
    ensures p >= 0.0
  {
    if a >= 0.0 {
      NonnegativeProduct(a, a, p);
    } else {
      NonnegativeProduct(-a, -a, p);
    }
  }

  lemma ScaleOrder(a: real, b: real, f: real)
    requires f > 0.0
    ensures a <= b <==> a * f <= b * f
    ensures a < b <==> a * f < b * f
  {
    var q := b * f - a * f;
    assert q == (b - a) * f;
    if a < b {
      PositiveProduct(b - a, f, q);
    } else if a > b {
      PositiveProduct(a - b, f, -q);
    }
  }

  lemma SquareOrder(a: real, b: real)
    requires b >= 0.0
    ensures a * a <= b * b <==> -b <= a <= b
  {
    var q := b * b - a * a;
    assert q == (b - a) * (b + a);
    if -b <= a <= b {
      NonnegativeProduct(b - a, b + a, q);
    } else if a > b {
      PositiveProduct(a - b, a + b, -q);
    } else {
      PositiveProduct(b - a, -(b + a), -q);
    }
  }
}
