/** Cubic-bezier easing by bisection (`src/animation/bezier.rs`), over the reals.

    The curve runs from (0, 0) to (1, 1) with control points (x1, y1) and (x2, y2). Easing inverts the
    horizontal coordinate approximately and evaluates the vertical one.
  */
module Bezier {
  import opened Arithmetic

  datatype CubicBezier = CubicBezier(x1: real, y1: real, x2: real, y2: real)

  predicate InUnit(v: real) {
    0.0 <= v <= 1.0
  }

  /** One coordinate of the curve at parameter `t`. */
  function Coordinate(p1: real, p2: real, t: real): real {
    var omt := 1.0 - t;
    3.0 * omt * omt * t * p1 + 3.0 * omt * t * t * p2 + t * t * t
  }

  // ----- The curve rises, with slope at most 3

  /** The difference quotient of a coordinate between `a` and `b`, in terms of a + b and a^2 + ab + b^2. */
  function Slope(p1: real, p2: real, sum: real, square: real): real {
    square + p1 * (3.0 - 6.0 * sum + 3.0 * square) + p2 * (3.0 * sum - 3.0 * square)
  }

  lemma Cubes(a: real, b: real)
    ensures b * b - a * a == (b - a) * (a + b)
    ensures b * b * b - a * a * a == (b - a) * (a * a + a * b + b * b)
  {}

  /** A coordinate in powers of its parameter. */
  lemma Expanded(p1: real, p2: real, t: real)
    ensures Coordinate(p1, p2, t) ==
            t * t * t + p1 * (3.0 * t - 6.0 * (t * t) + 3.0 * (t * t * t)) + p2 * (3.0 * (t * t) - 3.0 * (t * t * t))
  {
    var omt := 1.0 - t;
    assert omt * omt * t == t - 2.0 * (t * t) + t * t * t;
    assert omt * t * t == t * t - t * t * t;
    assert 3.0 * omt * omt * t * p1 == p1 * (3.0 * (omt * omt * t));
    assert 3.0 * omt * t * t * p2 == p2 * (3.0 * (omt * t * t));
  }

  lemma Increment(p1: real, p2: real, a: real, b: real)
    ensures Coordinate(p1, p2, b) - Coordinate(p1, p2, a) ==
            (b - a) * Slope(p1, p2, a + b, a * a + a * b + b * b)
  {
    Expanded(p1, p2, a);
    Expanded(p1, p2, b);
    Cubes(a, b);
    var d, sum, square := b - a, a + b, a * a + a * b + b * b;
    var d2, d3 := b * b - a * a, b * b * b - a * a * a;
    assert Coordinate(p1, p2, b) - Coordinate(p1, p2, a) ==
           d3 + p1 * (3.0 * d - 6.0 * d2 + 3.0 * d3) + p2 * (3.0 * d2 - 3.0 * d3);
    Collect(p1, p2, d, sum, square);
  }

  lemma Collect(p1: real, p2: real, d: real, sum: real, square: real)
    ensures d * square + p1 * (3.0 * d - 6.0 * (d * sum) + 3.0 * (d * square)) + p2 * (3.0 * (d * sum) - 3.0 * (d * square)) ==
            d * Slope(p1, p2, sum, square)
  {}

  lemma Steepest(d: real, slope: real)
    requires 0.0 <= d && 0.0 <= slope <= 3.0
    ensures 0.0 <= d * slope <= 3.0 * d
  {
    Product(d, slope);
    Product(d, 3.0 - slope);
    assert d * (3.0 - slope) == 3.0 * d - d * slope;
  }

  /** An affine function of a weight in [0, 1] lies between its end values. */
  lemma Between(base: real, gain: real, p: real, low: real, high: real)
    requires InUnit(p) && low <= base <= high && low <= base + gain <= high
    ensures low <= base + p * gain <= high
  {
    Above(base - low, gain, p);
    Above(high - base, -gain, p);
    assert p * -gain == -(p * gain);
  }

  lemma Above(base: real, gain: real, p: real)
    requires InUnit(p) && 0.0 <= base && 0.0 <= base + gain
    ensures 0.0 <= base + p * gain
  {
    Product(1.0 - p, base);
    Product(p, base + gain);
    assert (1.0 - p) * base == base - p * base;
    assert p * (base + gain) == p * base + p * gain;
  }

  /** The same for two weights: the corners bound everything inside. */
  lemma BetweenCorners(base: real, gain1: real, gain2: real, p1: real, p2: real, low: real, high: real)
    requires InUnit(p1) && InUnit(p2)
    requires low <= base <= high && low <= base + gain1 <= high
    requires low <= base + gain2 <= high && low <= base + gain1 + gain2 <= high
    ensures low <= base + p1 * gain1 + p2 * gain2 <= high
  {
    Between(base, gain1, p1, low, high);
    Between(base + gain2, gain1, p1, low, high);
    Between(base + p1 * gain1, gain2, p2, low, high);
  }

  lemma Square(v: real)
    ensures 0.0 <= v * v
  {
    if 0.0 <= v {
      Product(v, v);
    } else {
      Product(-v, -v);
    }
  }

  /** What bounds the slope about the products of two numbers in [0, 1]. */
  predicate Bounded(a: real, b: real, aa: real, ab: real, bb: real) {
    && 0.0 <= aa <= a <= 1.0 && 0.0 <= bb <= b <= 1.0 && 0.0 <= ab && 2.0 * ab <= aa + bb
    && a + b - 1.0 <= ab && 2.0 * a - 1.0 <= aa && 2.0 * b - 1.0 <= bb
    && 2.0 * (a + b) - 1.0 <= aa + 2.0 * ab + bb
  }

  lemma UnitSquare(a: real)
    requires InUnit(a)
    ensures 0.0 <= a * a <= a && 2.0 * a - 1.0 <= a * a
  {
    Product(a, a);
    Product(a, 1.0 - a);
    assert a * (1.0 - a) == a - a * a;
    Square(1.0 - a);
    assert (1.0 - a) * (1.0 - a) == 1.0 - 2.0 * a + a * a;
  }

  lemma UnitProduct(a: real, b: real)
    requires InUnit(a) && InUnit(b)
    ensures 0.0 <= a * b && a + b - 1.0 <= a * b
  {
    Product(a, b);
    Product(1.0 - a, 1.0 - b);
    assert (1.0 - a) * (1.0 - b) == 1.0 - a - b + a * b;
  }

  lemma Products(a: real, b: real)
    requires InUnit(a) && InUnit(b)
    ensures Bounded(a, b, a * a, a * b, b * b)
  {
    UnitSquare(a);
    UnitSquare(b);
    UnitProduct(a, b);
    Square(a - b);
    assert (a - b) * (a - b) == a * a - 2.0 * (a * b) + b * b;
    Square(1.0 - (a + b));
    assert (1.0 - (a + b)) * (1.0 - (a + b)) == 1.0 - 2.0 * (a + b) + (a * a + 2.0 * (a * b) + b * b);
  }

  lemma SlopeBounds(p1: real, p2: real, a: real, b: real)
    requires InUnit(p1) && InUnit(p2) && InUnit(a) && InUnit(b)
    ensures 0.0 <= Slope(p1, p2, a + b, a * a + a * b + b * b) <= 3.0
  {
    Products(a, b);
    SlopeInside(p1, p2, a, b, a * a, a * b, b * b);
  }

  /** The slope is bounded at the four corners of the control-point square, hence inside it. */
  lemma SlopeInside(p1: real, p2: real, a: real, b: real, aa: real, ab: real, bb: real)
    requires InUnit(p1) && InUnit(p2) && Bounded(a, b, aa, ab, bb)
    ensures 0.0 <= Slope(p1, p2, a + b, aa + ab + bb) <= 3.0
  {
    var sum, square := a + b, aa + ab + bb;
    BetweenCorners(square, 3.0 - 6.0 * sum + 3.0 * square, 3.0 * sum - 3.0 * square, p1, p2, 0.0, 3.0);
  }

  /** Both coordinates rise, at most three times as fast as the parameter. */
  lemma Rises(p1: real, p2: real, a: real, b: real)
    requires InUnit(p1) && InUnit(p2) && 0.0 <= a <= b <= 1.0
    ensures 0.0 <= Coordinate(p1, p2, b) - Coordinate(p1, p2, a) <= 3.0 * (b - a)
  {
    Increment(p1, p2, a, b);
    SlopeBounds(p1, p2, a, b);
    Steepest(b - a, Slope(p1, p2, a + b, a * a + a * b + b * b));
  }

  lemma EndPoints(p1: real, p2: real)
    ensures Coordinate(p1, p2, 0.0) == 0.0 && Coordinate(p1, p2, 1.0) == 1.0
  {}

  lemma CoordinateInUnit(p1: real, p2: real, t: real)
    requires InUnit(p1) && InUnit(p2) && InUnit(t)
    ensures InUnit(Coordinate(p1, p2, t))
  {
    EndPoints(p1, p2);
    Rises(p1, p2, 0.0, t);
    Rises(p1, p2, t, 1.0);
  }

  // ----- Bisection

  const STEPS: nat := 31

  /** `n` bisection steps on `[lo, hi]`, then the middle. */
  function Bisect(c: CubicBezier, x: real, lo: real, hi: real, n: nat): real
    decreases n
  {
    var guess := (lo + hi) / 2.0;
    if n == 0 then guess
    else if x < Coordinate(c.x1, c.x2, guess) then Bisect(c, x, lo, guess, n - 1)
    else Bisect(c, x, guess, hi, n - 1)
  }

  /** The width of an interval after `n` halvings. */
  function Halved(width: real, n: nat): real
    decreases n
  {
    if n == 0 then width else Halved(width / 2.0, n - 1)
  }

  lemma {:induction false} BisectRange(c: CubicBezier, x: real, lo: real, hi: real, n: nat)
    requires lo <= hi
    ensures lo <= Bisect(c, x, lo, hi, n) <= hi
    decreases n
  {
    var guess := (lo + hi) / 2.0;
    if n == 0 {
    } else {
      if x < Coordinate(c.x1, c.x2, guess) {
        BisectRange(c, x, lo, guess, n - 1);
      } else {
        BisectRange(c, x, guess, hi, n - 1);
      }
    }
  }

  /** A larger `x` never gives a smaller parameter, for any curve and any number of steps. */
  lemma {:induction false} BisectMonotone(c: CubicBezier, x: real, x': real, lo: real, hi: real, n: nat)
    requires lo <= hi && x <= x'
    ensures Bisect(c, x, lo, hi, n) <= Bisect(c, x', lo, hi, n)
    decreases n
  {
    var guess := (lo + hi) / 2.0;
    if n == 0 {
    } else {
      if x' < Coordinate(c.x1, c.x2, guess) {
        BisectMonotone(c, x, x', lo, guess, n - 1);
      } else if x < Coordinate(c.x1, c.x2, guess) {
        BisectRange(c, x, lo, guess, n - 1);
        BisectRange(c, x', guess, hi, n - 1);
      } else {
        BisectMonotone(c, x, x', guess, hi, n - 1);
      }
    }
  }

  function Distance(a: real, b: real): real {
    if a <= b then b - a else a - b
  }

  /** While the curve encloses `x`, the result misses it by at most three half-widths of the last interval. */
  lemma {:induction false} BisectAccurate(c: CubicBezier, x: real, lo: real, hi: real, n: nat)
    requires InUnit(c.x1) && InUnit(c.x2) && 0.0 <= lo <= hi <= 1.0
    requires Coordinate(c.x1, c.x2, lo) <= x < Coordinate(c.x1, c.x2, hi)
    ensures Distance(Coordinate(c.x1, c.x2, Bisect(c, x, lo, hi, n)), x) <= 3.0 * Halved(hi - lo, n + 1)
    decreases n
  {
    var guess := (lo + hi) / 2.0;
    if n == 0 {
      Rises(c.x1, c.x2, lo, guess);
      Rises(c.x1, c.x2, guess, hi);
      assert Halved(hi - lo, 1) == (hi - lo) / 2.0;
    } else if x < Coordinate(c.x1, c.x2, guess) {
      BisectAccurate(c, x, lo, guess, n - 1);
      assert guess - lo == (hi - lo) / 2.0;
    } else {
      BisectAccurate(c, x, guess, hi, n - 1);
      assert hi - guess == (hi - lo) / 2.0;
    }
  }

  lemma {:induction false} HalvedIsQuotient(width: real, n: nat)
    ensures Halved(width, n) * Power(n) == width
    decreases n
  {
    if n == 0 {
    } else {
      HalvedIsQuotient(width / 2.0, n - 1);
    }
  }

  function Power(n: nat): real {
    if n == 0 then 1.0 else 2.0 * Power(n - 1)
  }

  /** The loop: after 31 steps the enclosing interval and the result are those of `Bisect`. */
  method TForX(c: CubicBezier, x: real) returns (t: real)
    ensures t == Bisect(c, x, 0.0, 1.0, STEPS)
  {
    var minT, maxT := 0.0, 1.0;
    for i := 0 to STEPS
      invariant 0.0 <= minT <= maxT <= 1.0
      invariant Bisect(c, x, minT, maxT, STEPS - i) == Bisect(c, x, 0.0, 1.0, STEPS)
    {
      var guessT := (minT + maxT) / 2.0;
      var guessX := Coordinate(c.x1, c.x2, guessT);
      if x < guessX {
        maxT := guessT;
      } else {
        minT := guessT;
      }
    }
    t := (minT + maxT) / 2.0;
  }

  /** For every `x` in [0, 1) the inverse is accurate to 3 / 2^32. */
  lemma InverseAccurate(c: CubicBezier, x: real)
    requires InUnit(c.x1) && InUnit(c.x2) && 0.0 <= x < 1.0
    ensures Distance(Coordinate(c.x1, c.x2, Bisect(c, x, 0.0, 1.0, STEPS)), x) * Power(STEPS + 1) <= 3.0
  {
    EndPoints(c.x1, c.x2);
    BisectAccurate(c, x, 0.0, 1.0, STEPS);
    HalvedIsQuotient(1.0, STEPS + 1);
    PowerPositive(STEPS + 1);
    Scale(Distance(Coordinate(c.x1, c.x2, Bisect(c, x, 0.0, 1.0, STEPS)), x), Halved(1.0, STEPS + 1), Power(STEPS + 1));
  }

  lemma {:induction false} PowerPositive(n: nat)
    ensures 0.0 < Power(n)
  {
    if n == 0 {
    } else {
      PowerPositive(n - 1);
    }
  }

  lemma Scale(error: real, half: real, power: real)
    requires error <= 3.0 * half && 0.0 < power && half * power == 1.0
    ensures error * power <= 3.0
  {
    assert error * power <= 3.0 * half * power;
    assert 3.0 * half * power == 3.0 * (half * power);
  }

  // ----- Easing

  const EPSILON: real := 1.0 / 4503599627370496.0

  function Ease(c: CubicBezier, x: real): real {
    if x <= EPSILON then 0.0
    else if 1.0 - EPSILON <= x then 1.0
    else Coordinate(c.y1, c.y2, Bisect(c, x, 0.0, 1.0, STEPS))
  }

  lemma {:induction false} PowerSum(a: nat, b: nat)
    ensures Power(a + b) == Power(a) * Power(b)
  {
    if a == 0 {
    } else {
      PowerSum(a - 1, b);
      assert 2.0 * (Power(a - 1) * Power(b)) == 2.0 * Power(a - 1) * Power(b);
    }
  }

  lemma TwoTo32()
    ensures Power(32) == 4294967296.0
  {
    assert Power(2) == 4.0;
    PowerSum(2, 2);
    PowerSum(4, 4);
    PowerSum(8, 8);
    PowerSum(16, 16);
  }

  /** The Bernstein form of the cubic with control values 0, p1, p2 and 1. */
  function Bernstein(p1: real, p2: real, t: real): real {
    3.0 * ((1.0 - t) * (1.0 - t) * t) * p1 + 3.0 * ((1.0 - t) * t * t) * p2 + t * t * t
  }

  lemma CoordinateIsBernstein(p1: real, p2: real, t: real)
    ensures Coordinate(p1, p2, t) == Bernstein(p1, p2, t)
  {
    var s := 1.0 - t;
    assert 3.0 * s * s * t == 3.0 * (s * s * t);
    assert 3.0 * s * t * t == 3.0 * (s * t * t);
  }

  /** At the cutoffs the easing is an end of the curve. */
  lemma EaseAtCutoffs(c: CubicBezier, x: real)
    ensures x <= 1.0 / 4503599627370496.0 ==> Ease(c, x) == 0.0
    ensures 1.0 - 1.0 / 4503599627370496.0 <= x ==> Ease(c, x) == 1.0
  {}

  /** Between them it is the vertical coordinate of a point of the curve whose horizontal coordinate is within
      3 / 2^32 of `x`. */
  lemma EaseOnCurve(c: CubicBezier, x: real) returns (t: real)
    requires InUnit(c.x1) && InUnit(c.x2)
    requires 1.0 / 4503599627370496.0 < x < 1.0 - 1.0 / 4503599627370496.0
    ensures 0.0 <= t <= 1.0
    ensures Distance(Bernstein(c.x1, c.x2, t), x) * 4294967296.0 <= 3.0
    ensures Ease(c, x) == Bernstein(c.y1, c.y2, t)
  {
    t := Bisect(c, x, 0.0, 1.0, STEPS);
    BisectRange(c, x, 0.0, 1.0, STEPS);
    InverseWithin(c, x);
    CoordinateIsBernstein(c.x1, c.x2, t);
    CoordinateIsBernstein(c.y1, c.y2, t);
  }

  lemma InverseWithin(c: CubicBezier, x: real)
    requires InUnit(c.x1) && InUnit(c.x2) && 0.0 <= x < 1.0
    ensures Distance(Coordinate(c.x1, c.x2, Bisect(c, x, 0.0, 1.0, STEPS)), x) * 4294967296.0 <= 3.0
  {
    InverseAccurate(c, x);
    TwoTo32();
  }

  /** With each control point on the diagonal the easing is the identity, up to the accuracy of the inverse. */
  lemma DiagonalIsIdentity(c: CubicBezier, x: real)
    requires InUnit(c.x1) && InUnit(c.x2) && c.y1 == c.x1 && c.y2 == c.x2 && InUnit(x)
    ensures Distance(Ease(c, x), x) * 4294967296.0 <= 3.0
  {
    EaseAtCutoffs(c, x);
    if 1.0 / 4503599627370496.0 < x < 1.0 - 1.0 / 4503599627370496.0 {
      var t := EaseOnCurve(c, x);
    }
  }

  lemma EaseInUnit(c: CubicBezier, x: real)
    requires InUnit(c.y1) && InUnit(c.y2)
    ensures InUnit(Ease(c, x))
  {
    BisectRange(c, x, 0.0, 1.0, STEPS);
    CoordinateInUnit(c.y1, c.y2, Bisect(c, x, 0.0, 1.0, STEPS));
  }

  /** Easing never goes backwards, across its cutoffs too. */
  lemma EaseMonotone(c: CubicBezier, x: real, x': real)
    requires InUnit(c.y1) && InUnit(c.y2) && x <= x'
    ensures Ease(c, x) <= Ease(c, x')
  {
    EaseInUnit(c, x);
    EaseInUnit(c, x');
    BisectMonotone(c, x, x', 0.0, 1.0, STEPS);
    BisectRange(c, x, 0.0, 1.0, STEPS);
    BisectRange(c, x', 0.0, 1.0, STEPS);
    Rises(c.y1, c.y2, Bisect(c, x, 0.0, 1.0, STEPS), Bisect(c, x', 0.0, 1.0, STEPS));
  }

  method EaseAt(c: CubicBezier, x: real) returns (y: real)
    ensures y == Ease(c, x)
  {
    if x <= EPSILON {
      return 0.0;
    }
    if 1.0 - EPSILON <= x {
      return 1.0;
    }
    var t := TForX(c, x);
    y := Coordinate(c.y1, c.y2, t);
  }
}
