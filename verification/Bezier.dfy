/** Inverting a cubic Bezier easing curve (`solveCubicBezier`, src/core/animation.cpp), over the reals. */
module Bezier {
  import opened Reals

  const RESIDUAL: real := 0.0000001
  const FLAT: real := 0.000001

  /** One coordinate of the curve from 0 to 1 with the given control coordinates. */
  function Coordinate(c1: real, c2: real, t: real): real {
    var c := 3.0 * c1;
    var b := 3.0 * (c2 - c1) - c;
    var a := 1.0 - c - b;
    ((a * t + b) * t + c) * t
  }

  function Slope(c1: real, c2: real, t: real): real {
    var c := 3.0 * c1;
    var b := 3.0 * (c2 - c1) - c;
    var a := 1.0 - c - b;
    (3.0 * a * t + 2.0 * b) * t + c
  }

  function Cubic(cube: real, square: real, line: real, t: real): real {
    cube * (t * t * t) + square * (t * t) + line * t
  }

  function CubicSlope(cube: real, square: real, line: real, t: real): real {
    (3.0 * cube * t + 2.0 * square) * t + line
  }

  /** The slope is the curve's: what is left of a small step beyond it is of second order. */
  lemma SlopeIsTheCurves(c1: real, c2: real, t: real, step: real)
    ensures var cube, square := 1.0 + 3.0 * c1 - 3.0 * c2, 3.0 * c2 - 6.0 * c1;
      Coordinate(c1, c2, t + step) - Coordinate(c1, c2, t)
      == step * Slope(c1, c2, t) + step * step * (3.0 * cube * t + square + cube * step)
  {
    InPowers(c1, c2, t);
    InPowers(c1, c2, t + step);
    CubicStep(1.0 + 3.0 * c1 - 3.0 * c2, 3.0 * c2 - 6.0 * c1, 3.0 * c1, t, step);
    hide Coordinate, Slope, Cubic, CubicSlope;
  }

  lemma CubicStep(cube: real, square: real, line: real, t: real, step: real)
    ensures Cubic(cube, square, line, t + step) - Cubic(cube, square, line, t)
         == step * CubicSlope(cube, square, line, t) + step * step * (3.0 * cube * t + square + cube * step)
  {
    var u := t + step;
    assert u * u == t * t + 2.0 * t * step + step * step;
    assert u * u * u == t * t * t + 3.0 * t * t * step + 3.0 * t * (step * step) + step * step * step;
  }

  lemma InPowers(c1: real, c2: real, t: real)
    ensures Coordinate(c1, c2, t) == Cubic(1.0 + 3.0 * c1 - 3.0 * c2, 3.0 * c2 - 6.0 * c1, 3.0 * c1, t)
    ensures Slope(c1, c2, t) == CubicSlope(1.0 + 3.0 * c1 - 3.0 * c2, 3.0 * c2 - 6.0 * c1, 3.0 * c1, t)
  {
  }

  // ---------------------------------------------------------------- the abscissa is monotonic

  /** An affine function that is not negative at the corners of the unit square is not negative inside. */
  lemma AffineOnSquare(base: real, u: real, v: real, c1: real, c2: real)
    requires base >= 0.0 && base + u >= 0.0 && base + v >= 0.0 && base + u + v >= 0.0
    requires 0.0 <= c1 <= 1.0 && 0.0 <= c2 <= 1.0
    ensures base + u * c1 + v * c2 >= 0.0
  {
    AffineOnInterval(base, v, c2);
    AffineOnInterval(base + u, v, c2);
    AffineOnInterval(base + v * c2, u, c1);
  }

  lemma AffineOnInterval(base: real, u: real, c: real)
    requires base >= 0.0 && base + u >= 0.0 && 0.0 <= c <= 1.0
    ensures base + u * c >= 0.0
  {
    Product(base, 1.0 - c);
    Product(base + u, c);
    assert base * (1.0 - c) + (base + u) * c == base + u * c;
  }

  /** The curve is affine in its control coordinates. */
  lemma AsAffine(c1: real, c2: real, t: real)
    ensures Coordinate(c1, c2, t)
         == t * t * t + (3.0 * (1.0 - t) * (1.0 - t) * t) * c1 + (3.0 * (1.0 - t) * t * t) * c2
  {
    var s := t * t;
    var r := s * t;
    assert 3.0 * (1.0 - t) * (1.0 - t) * t == 3.0 * t - 6.0 * s + 3.0 * r;
    assert 3.0 * (1.0 - t) * t * t == 3.0 * s - 3.0 * r;
  }

  lemma Cubes(a: real, b: real)
    requires 0.0 <= a <= b <= 1.0
    ensures b * b * b - a * a * a >= 0.0
  {
    var p, q, r := a * a, a * b, b * b;
    Product(a, b);
    Product(b - a, p + q + r);
    assert (b - a) * (p + q + r) == b * b * b - a * a * a;
  }

  lemma SmoothSteps(a: real, b: real)
    requires 0.0 <= a <= b <= 1.0
    ensures (3.0 * b * b - 2.0 * b * b * b) - (3.0 * a * a - 2.0 * a * a * a) >= 0.0
  {
    var p, q, r := a * a, a * b, b * b;
    Product(a, 1.0 - a);
    Product(b, 1.0 - b);
    Product(b - a, b - a);
    Product(b - a, 3.0 * (a + b) - 2.0 * (p + q + r));
    assert (b - a) * (3.0 * (a + b) - 2.0 * (p + q + r))
        == (3.0 * b * b - 2.0 * b * b * b) - (3.0 * a * a - 2.0 * a * a * a);
  }

  lemma Overshoots(a: real, b: real)
    requires 0.0 <= a <= b <= 1.0
    ensures (4.0 * b * b * b - 6.0 * b * b + 3.0 * b) - (4.0 * a * a * a - 6.0 * a * a + 3.0 * a) >= 0.0
  {
    var p, q, r := a * a, a * b, b * b;
    Product(b - a, b - a);
    Square(a + b - 1.0);
    Product(b - a, 4.0 * (p + q + r) - 6.0 * (a + b) + 3.0);
    assert (b - a) * (4.0 * (p + q + r) - 6.0 * (a + b) + 3.0)
        == (4.0 * b * b * b - 6.0 * b * b + 3.0 * b) - (4.0 * a * a * a - 6.0 * a * a + 3.0 * a);
  }

  lemma MirroredCubes(a: real, b: real)
    requires 0.0 <= a <= b <= 1.0
    ensures (3.0 * b - 3.0 * b * b + b * b * b) - (3.0 * a - 3.0 * a * a + a * a * a) >= 0.0
  {
    var p, q, r := a * a, a * b, b * b;
    Product(1.0 - a, 1.0 - b);
    Square(1.0 - a);
    Square(1.0 - b);
    Product(b - a, 3.0 - 3.0 * (a + b) + (p + q + r));
    assert (b - a) * (3.0 - 3.0 * (a + b) + (p + q + r))
        == (3.0 * b - 3.0 * b * b + b * b * b) - (3.0 * a - 3.0 * a * a + a * a * a);
  }

  /** With control abscissas in [0, 1] the curve never runs backwards. */
  lemma AbscissaIsMonotonic(c1: real, c2: real, a: real, b: real)
    requires 0.0 <= c1 <= 1.0 && 0.0 <= c2 <= 1.0 && 0.0 <= a <= b <= 1.0
    ensures Coordinate(c1, c2, a) <= Coordinate(c1, c2, b)
  {
    AsAffine(c1, c2, a);
    AsAffine(c1, c2, b);
    Cubes(a, b);
    SmoothSteps(a, b);
    Overshoots(a, b);
    MirroredCubes(a, b);
    var base := b * b * b - a * a * a;
    var u := 3.0 * (1.0 - b) * (1.0 - b) * b - 3.0 * (1.0 - a) * (1.0 - a) * a;
    var v := 3.0 * (1.0 - b) * b * b - 3.0 * (1.0 - a) * a * a;
    assert base + u == (4.0 * b * b * b - 6.0 * b * b + 3.0 * b) - (4.0 * a * a * a - 6.0 * a * a + 3.0 * a);
    assert base + v == (3.0 * b * b - 2.0 * b * b * b) - (3.0 * a * a - 2.0 * a * a * a);
    assert base + u + v == (3.0 * b - 3.0 * b * b + b * b * b) - (3.0 * a - 3.0 * a * a + a * a * a);
    AffineOnSquare(base, u, v, c1, c2);
    assert Coordinate(c1, c2, b) - Coordinate(c1, c2, a) == base + u * c1 + v * c2;
  }

  lemma Ends(c1: real, c2: real)
    ensures Coordinate(c1, c2, 0.0) == 0.0 && Coordinate(c1, c2, 1.0) == 1.0
  {
  }

  // ---------------------------------------------------------------- the search

  lemma RootsLieBetween(c1: real, c2: real, x: real, low: real, high: real)
    requires 0.0 <= c1 <= 1.0 && 0.0 <= c2 <= 1.0 && 0.0 <= low <= high <= 1.0
    requires Coordinate(c1, c2, low) < x < Coordinate(c1, c2, high)
    ensures forall s | 0.0 <= s <= 1.0 && Coordinate(c1, c2, s) == x :: low < s < high
  {
    forall s | 0.0 <= s <= 1.0 && Coordinate(c1, c2, s) == x ensures low < s < high {
      if s <= low {
        AbscissaIsMonotonic(c1, c2, s, low);
      }
      if high <= s {
        AbscissaIsMonotonic(c1, c2, high, s);
      }
    }
  }

  /** `t` is the midpoint of an interval of width at most 2^-11 over which the curve passes `x`. */
  ghost predicate Bracketed(c1: real, c2: real, x: real, t: real) {
    exists low, high ::
      && 0.0 <= low <= high <= 1.0
      && Coordinate(c1, c2, low) < x < Coordinate(c1, c2, high)
      && high - low <= HalfToThe(11)
      && t == (low + high) / 2.0
  }

  /** What the answer promises: a parameter that reaches `x` closely, or sits in the middle of a tiny bracket. */
  ghost predicate Solves(c1: real, c2: real, x: real, t: real) {
    && 0.0 <= t <= 1.0
    && (Abs(Coordinate(c1, c2, t) - x) < RESIDUAL || Bracketed(c1, c2, x, t))
  }

  lemma HalvedElevenTimes()
    ensures HalfToThe(11) == 1.0 / 2048.0
  {
    assert HalfToThe(3) == 1.0 / 8.0;
    assert HalfToThe(6) == HalfToThe(3) / 8.0;
    assert HalfToThe(9) == HalfToThe(6) / 8.0;
    assert HalfToThe(11) == HalfToThe(9) / 4.0;
  }

  /** An answer that does not reach `x` closely is still within 2^-12 of every parameter that reaches it. */
  lemma NearEveryRoot(c1: real, c2: real, x: real, t: real, s: real)
    requires 0.0 <= c1 <= 1.0 && 0.0 <= c2 <= 1.0 && 0.0 <= s <= 1.0
    requires Solves(c1, c2, x, t) && Coordinate(c1, c2, s) == x
    ensures Abs(Coordinate(c1, c2, t) - x) < 0.0000001 || Abs(s - t) < 1.0 / 4096.0
  {
    if Bracketed(c1, c2, x, t) {
      var low, high :|
        && 0.0 <= low <= high <= 1.0
        && Coordinate(c1, c2, low) < x < Coordinate(c1, c2, high)
        && high - low <= HalfToThe(11)
        && t == (low + high) / 2.0;
      RootsLieBetween(c1, c2, x, low, high);
      HalvedElevenTimes();
    }
  }

  method SolveCubicBezier(x1: real, y1: real, x2: real, y2: real, x: real) returns (y: real)
    ensures x <= 0.0 ==> y == 0.0
    ensures x >= 1.0 ==> y == 1.0
    ensures 0.0 < x < 1.0 ==>
      exists t :: Solves(Clamp(x1, 0.0, 1.0), Clamp(x2, 0.0, 1.0), x, t) && y == Coordinate(y1, y2, t)
  {
    if x <= 0.0 {
      return 0.0;
    }
    if x >= 1.0 {
      return 1.0;
    }
    var c1, c2 := Clamp(x1, 0.0, 1.0), Clamp(x2, 0.0, 1.0);
    var t := x;
    for i := 0 to 8
      invariant 0.0 <= t <= 1.0
    {
      var currentX := Coordinate(c1, c2, t) - x;
      if Abs(currentX) < RESIDUAL {
        assert Solves(c1, c2, x, t);
        return Coordinate(y1, y2, t);
      }
      var dX := Slope(c1, c2, t);
      if Abs(dX) < FLAT {
        break;
      }
      var nextT := t - currentX / dX;
      if nextT < 0.0 || nextT > 1.0 {
        break;
      }
      t := nextT;
    }
    t := Bisect(c1, c2, x);
    y := Coordinate(y1, y2, t);
  }

  method Bisect(c1: real, c2: real, x: real) returns (t: real)
    requires 0.0 <= c1 <= 1.0 && 0.0 <= c2 <= 1.0 && 0.0 < x < 1.0
    ensures Solves(c1, c2, x, t)
  {
    var minT, maxT := 0.0, 1.0;
    t := x;
    Ends(c1, c2);
    for i := 0 to 12
      invariant 0.0 <= minT <= t <= maxT <= 1.0
      invariant Coordinate(c1, c2, minT) < x < Coordinate(c1, c2, maxT)
      invariant i > 0 ==> t == (minT + maxT) / 2.0 && maxT - minT <= HalfToThe(i - 1)
    {
      var guessX := Coordinate(c1, c2, t);
      if Abs(guessX - x) < RESIDUAL {
        return;
      }
      if x > guessX {
        minT := t;
      } else {
        maxT := t;
      }
      t := 0.5 * (minT + maxT);
    }
    assert Bracketed(c1, c2, x, t);
  }
}
