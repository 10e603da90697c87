/** Facts about products and quotients of reals that the solver does not find by itself. */
module RealArith {
  function Lesser(a: real, b: real): real {
    if a <= b then a else b
  }

  function Greater(a: real, b: real): real {
    if a >= b then a else b
  }

  lemma Monotone(d: real, x: real, y: real)
    requires d > 0.0
    ensures d * x <= d * y <==> x <= y
  {
    assert d * (y - x) == d * y - d * x;
  }

  lemma Cancel(d: real, x: real, y: real)
    requires d > 0.0 && d * x == d * y
    ensures x == y
  {
    Monotone(d, x, y);
    Monotone(d, y, x);
  }

  lemma PositiveProduct(x: real, y: real)
    requires x > 0.0 && y > 0.0
    ensures x * y > 0.0
  {
    Monotone(x, y, 0.0);
    assert x * 0.0 == 0.0;
  }

  lemma DifferenceOfSquares(x: real, y: real)
    ensures (y - x) * (y + x) == y * y - x * x
  {
  }

  lemma SquareMonotone(x: real, y: real)
    requires x >= 0.0 && y >= 0.0
    ensures x * x <= y * y <==> x <= y
  {
    DifferenceOfSquares(x, y);
    DifferenceOfSquares(y, x);
    if x < y {
      PositiveProduct(y - x, y + x);
    } else if y < x {
      PositiveProduct(x - y, x + y);
    }
  }

  lemma SquareInjective(x: real, y: real)
    requires x >= 0.0 && y >= 0.0 && x * x == y * y
    ensures x == y
  {
    SquareMonotone(x, y);
    SquareMonotone(y, x);
  }

  lemma NoZeroDivisors(x: real, y: real)
    requires x != 0.0 && y != 0.0
    ensures x * y != 0.0
  {
    var p := if x > 0.0 then x else -x;
    Monotone(p, 0.0, y);
    Monotone(p, y, 0.0);
    assert p * 0.0 == 0.0 && (p * y == x * y || p * y == -(x * y));
  }

  lemma Divided(a: real, d: real, x: real)
    requires d != 0.0 && a == d * x
    ensures a / d == x
  {
  }

  lemma DividedBack(x: real, d: real)
    requires d != 0.0
    ensures d * (x / d) == x
  {
  }

  /** A product of two pairs, by name. */
  function Quad(a: real, b: real, x: real, y: real): real {
    a * b * (x * y)
  }

  lemma QuadOf(a: real, x: real, b: real, y: real)
    ensures a * x * (b * y) == Quad(a, b, x, y)
    ensures Quad(a, b, x, y) == Quad(b, a, x, y) && Quad(a, b, x, y) == Quad(a, b, y, x)
  {
    assert a * x * (b * y) == a * b * (x * y);
    assert a * b == b * a && x * y == y * x;
  }

  lemma Differences(a: real, b: real, c: real, d: real)
    ensures (a - b) * (c - d) == a * c - a * d - b * c + b * d
    ensures (a + b) * (c + d) == a * c + a * d + b * c + b * d
  {
  }
}
