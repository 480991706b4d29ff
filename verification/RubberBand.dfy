/** Rubber-banding past the ends of a range (`src/rubber_band.rs`), over the reals. */
module RubberBand {
  import opened Arithmetic

  datatype RubberBand = RubberBand(stiffness: real, limit: real)

  predicate Positive(r: RubberBand) {
    0.0 < r.stiffness && 0.0 < r.limit
  }

  lemma StrictProduct(a: real, b: real)
    requires 0.0 < a && 0.0 < b
    ensures 0.0 < a * b
  {}

  lemma Quotient(n: real, p: real, q: real)
    requires 0.0 < p && q * p == n
    ensures n / p == q
  {}

  /** How far the band gives way when pulled by `x`. */
  function Band(r: RubberBand, x: real): real
    requires Positive(r) && 0.0 <= x
  {
    Stretched(r.stiffness, r.limit, x);
    (1.0 - 1.0 / (x * r.stiffness / r.limit + 1.0)) * r.limit
  }

  lemma Stretched(c: real, d: real, x: real)
    requires 0.0 < c && 0.0 < d && 0.0 <= x
    ensures 1.0 <= x * c / d + 1.0 && (x * c / d + 1.0) * d == c * x + d
  {
    Product(x, c);
    var cx := x * c;
    NonNegativeQuotient(cx, d);
    assert cx / d * d == cx;
  }

  lemma NonNegativeQuotient(n: real, d: real)
    requires 0.0 <= n && 0.0 < d
    ensures 0.0 <= n / d
  {
    var q := n / d;
    assert q * d == n;
    if q < 0.0 {
      StrictProduct(-q, d);
      assert false;
    }
  }

  /** The slope for a given denominator `m`. */
  function Slope(c: real, d: real, m: real): real
    requires 0.0 < m
  {
    StrictProduct(m, m);
    c * d * d / (m * m)
  }

  function Derivative(r: RubberBand, x: real): real
    requires Positive(r) && 0.0 <= x
  {
    Product(r.stiffness, x);
    Slope(r.stiffness, r.limit, r.stiffness * x + r.limit)
  }

  // ----- The remaining give

  /** `w` is the share of the limit that is still left at `x`. */
  predicate IsGive(r: RubberBand, x: real, w: real) {
    0.0 < w && w * (r.stiffness * x + r.limit) == r.limit
  }

  lemma Give(r: RubberBand, x: real) returns (w: real)
    requires Positive(r) && 0.0 <= x
    ensures IsGive(r, x, w)
  {
    Product(r.stiffness, x);
    w := Share(r.limit, r.stiffness * x + r.limit);
  }

  lemma Share(d: real, m: real) returns (w: real)
    requires 0.0 < d <= m
    ensures 0.0 < w && w * m == d
  {
    w := d / m;
    NonNegativeQuotient(d, m);
  }

  lemma Shrink(a: real, b: real, m: real, n: real)
    requires 0.0 < a && 0.0 < b && 0.0 < m <= n && a * m == b * n
    ensures b <= a
  {
    Product(b, n - m);
    assert b * (n - m) == b * n - b * m;
    assert (b - a) * m == b * m - a * m;
    if a < b {
      StrictProduct(b - a, m);
      assert false;
    }
  }

  /** The give shrinks as the band is stretched. */
  lemma GiveShrinks(r: RubberBand, a: real, b: real, v: real, w: real)
    requires Positive(r) && 0.0 <= a <= b && IsGive(r, a, v) && IsGive(r, b, w)
    ensures w <= v <= 1.0
  {
    var ma, mb := r.stiffness * a + r.limit, r.stiffness * b + r.limit;
    Product(r.stiffness, a);
    Product(r.stiffness, b - a);
    assert r.stiffness * (b - a) == mb - ma;
    Shrink(v, w, ma, mb);
    Shrink(1.0, v, r.limit, ma);
  }

  /** The band is the limit minus the give that is left. */
  lemma BandByGive(r: RubberBand, x: real, w: real)
    requires Positive(r) && 0.0 <= x && IsGive(r, x, w)
    ensures Band(r, x) == r.limit * (1.0 - w)
  {
    Stretched(r.stiffness, r.limit, x);
    Cancel(w, x * r.stiffness / r.limit + 1.0, r.stiffness * x + r.limit, r.limit);
  }

  lemma Cancel(w: real, s: real, m: real, d: real)
    requires 0.0 < d && 1.0 <= s && s * d == m && w * m == d
    ensures 1.0 / s == w
  {
    assert w * (s * d) == w * s * d;
    assert w * s == 1.0;
    Quotient(1.0, s, w);
  }

  lemma SlopeByGive(c: real, d: real, m: real, w: real)
    requires 0.0 < m && w * m == d
    ensures Slope(c, d, m) == c * (w * w)
  {
    var mm := Squared(m);
    SquareQuotient(c, d, m, w, mm, w * w);
  }

  lemma Squared(m: real) returns (mm: real)
    requires 0.0 < m
    ensures mm == m * m && 0.0 < mm
  {
    mm := m * m;
    Scales(m, m, mm);
  }

  lemma Scales(a: real, b: real, ab: real)
    requires 0.0 < a && 0.0 < b && ab == a * b
    ensures 0.0 < ab
  {
    StrictProduct(a, b);
  }

  lemma SquareQuotient(c: real, d: real, m: real, w: real, mm: real, ww: real)
    requires w * m == d && mm == m * m && ww == w * w && 0.0 < mm
    ensures c * d * d / mm == c * ww
  {
    assert (w * m) * (w * m) == (w * w) * (m * m);
    ScaledQuotient(c, d, ww, mm);
  }

  lemma ScaledQuotient(c: real, d: real, ww: real, mm: real)
    requires 0.0 < mm && d * d == ww * mm
    ensures c * d * d / mm == c * ww
  {
    assert c * ww * mm == c * (ww * mm);
    assert c * d * d == c * (d * d);
    Quotient(c * d * d, mm, c * ww);
  }

  lemma DerivativeByGive(r: RubberBand, x: real, w: real)
    requires Positive(r) && 0.0 <= x && IsGive(r, x, w)
    ensures Derivative(r, x) == r.stiffness * (w * w)
  {
    Product(r.stiffness, x);
    SlopeByGive(r.stiffness, r.limit, r.stiffness * x + r.limit, w);
  }

  // ----- Between two points

  lemma SecantAlgebra(c: real, d: real, a: real, b: real, v: real, w: real)
    requires v * (c * a + d) == d && w * (c * b + d) == d
    ensures d * (1.0 - w) - d * (1.0 - v) == c * (v * w) * (b - a)
  {
    assert d * v == w * (c * b + d) * v;
    assert d * w == v * (c * a + d) * w;
    assert w * (c * b + d) * v - v * (c * a + d) * w == v * w * (c * b - c * a);
    assert c * (v * w) * (b - a) == v * w * (c * b - c * a);
  }

  /** The exact difference between two points of the band. */
  lemma Secant(r: RubberBand, a: real, b: real, v: real, w: real)
    requires Positive(r) && 0.0 <= a && 0.0 <= b && IsGive(r, a, v) && IsGive(r, b, w)
    ensures Band(r, b) - Band(r, a) == r.stiffness * (v * w) * (b - a)
  {
    BandByGive(r, a, v);
    BandByGive(r, b, w);
    SecantAlgebra(r.stiffness, r.limit, a, b, v, w);
  }

  lemma Products(v: real, w: real)
    requires 0.0 < w <= v
    ensures w * w <= v * w <= v * v
  {
    Product(v - w, w);
    Product(v - w, v);
    assert (v - w) * w == v * w - w * w && (v - w) * v == v * v - v * w;
  }

  lemma Weighted(c: real, p: real, q: real, d: real)
    requires 0.0 < c && 0.0 <= d && p <= q
    ensures c * p * d <= c * q * d
  {
    Product(c, q - p);
    assert c * (q - p) == c * q - c * p;
    Product(c * q - c * p, d);
    assert (c * q - c * p) * d == c * q * d - c * p * d;
  }

  /** The difference quotient `difference / step` lies between two slopes. */
  predicate Encloses(flat: real, steep: real, difference: real, step: real) {
    flat * step <= difference <= steep * step
  }

  lemma Sandwich(c: real, v: real, w: real, d: real, difference: real, steep: real, flat: real)
    requires 0.0 < c && 0.0 < w <= v && 0.0 <= d
    requires difference == c * (v * w) * d && steep == c * (v * v) && flat == c * (w * w)
    ensures Encloses(flat, steep, difference, d)
  {
    Products(v, w);
    Weighted(c, w * w, v * w, d);
    Weighted(c, v * w, v * v, d);
  }

  /** Every difference quotient lies between the derivatives at its two ends. */
  lemma QuotientBetweenDerivatives(r: RubberBand, a: real, b: real)
    requires Positive(r) && 0.0 <= a <= b
    ensures Encloses(Derivative(r, b), Derivative(r, a), Band(r, b) - Band(r, a), b - a)
  {
    var v := Give(r, a);
    var w := Give(r, b);
    GiveShrinks(r, a, b, v, w);
    Secant(r, a, b, v, w);
    DerivativeByGive(r, a, v);
    DerivativeByGive(r, b, w);
    Sandwich(r.stiffness, v, w, b - a, Band(r, b) - Band(r, a), Derivative(r, a), Derivative(r, b));
  }

  lemma Complement(d: real, v: real, w: real)
    requires 0.0 < d && 0.0 < w <= v <= 1.0
    ensures 0.0 <= d * (1.0 - v) <= d * (1.0 - w) < d
  {
    Product(d, 1.0 - v);
    Product(d, v - w);
    StrictProduct(d, w);
    assert d * (1.0 - w) == d * (1.0 - v) + d * (v - w);
    assert d * (1.0 - w) == d - d * w;
  }

  /** The band never shrinks and never reaches its limit. */
  lemma BandRange(r: RubberBand, a: real, b: real)
    requires Positive(r) && 0.0 <= a <= b
    ensures 0.0 <= Band(r, a) <= Band(r, b) < r.limit
  {
    var v := Give(r, a);
    var w := Give(r, b);
    GiveShrinks(r, a, b, v, w);
    BandByGive(r, a, v);
    BandByGive(r, b, w);
    Complement(r.limit, v, w);
  }

  lemma BandStartsAtZero(r: RubberBand)
    requires Positive(r)
    ensures Band(r, 0.0) == 0.0
  {
    BandByGive(r, 0.0, 1.0);
  }

  // ----- Clamping

  function ClampTo(low: real, high: real, x: real): real
    requires low <= high
  {
    if x < low then low else if high < x then high else x
  }

  function Overshoot(low: real, high: real, x: real): (o: real)
    requires low <= high
    ensures 0.0 <= o
  {
    var clamped := ClampTo(low, high, x);
    if x < clamped then clamped - x else x - clamped
  }

  function Clamp(r: RubberBand, low: real, high: real, x: real): real
    requires Positive(r) && low <= high
  {
    var clamped := ClampTo(low, high, x);
    var sign := if x < clamped then -1.0 else 1.0;
    clamped + sign * Band(r, Overshoot(low, high, x))
  }

  /** Inside the range nothing changes; outside, the result lies less than the limit beyond the end. */
  lemma ClampRange(r: RubberBand, low: real, high: real, x: real)
    requires Positive(r) && low <= high
    ensures low <= x <= high ==> Clamp(r, low, high, x) == x
    ensures low - r.limit < Clamp(r, low, high, x) < high + r.limit
    ensures x < low ==> Clamp(r, low, high, x) <= low
    ensures high < x ==> high <= Clamp(r, low, high, x)
  {
    var o := Overshoot(low, high, x);
    BandRange(r, o, o);
    BandStartsAtZero(r);
  }

  /** Rubber-banding keeps order. */
  lemma ClampMonotone(r: RubberBand, low: real, high: real, x: real, x': real)
    requires Positive(r) && low <= high && x <= x'
    ensures Clamp(r, low, high, x) <= Clamp(r, low, high, x')
  {
    ClampRange(r, low, high, x);
    ClampRange(r, low, high, x');
    if x' < low {
      BandRange(r, low - x', low - x);
    } else if high < x {
      BandRange(r, x - high, x' - high);
    }
  }

  function ClampDerivative(r: RubberBand, low: real, high: real, x: real): real
    requires Positive(r) && low <= high
  {
    if low <= x <= high then 1.0 else Derivative(r, Overshoot(low, high, x))
  }

  lemma Above(r: RubberBand, low: real, high: real, x: real)
    requires Positive(r) && low <= high < x
    ensures Clamp(r, low, high, x) == high + Band(r, x - high)
    ensures ClampDerivative(r, low, high, x) == Derivative(r, x - high)
  {}

  lemma Below(r: RubberBand, low: real, high: real, x: real)
    requires Positive(r) && x < low <= high
    ensures Clamp(r, low, high, x) == low - Band(r, low - x)
    ensures ClampDerivative(r, low, high, x) == Derivative(r, low - x)
  {}

  /** Inside the range the clamp is the identity and its derivative is one. */
  lemma ClampSlopeInside(r: RubberBand, low: real, high: real, x: real, x': real)
    requires Positive(r) && low <= x <= x' <= high
    ensures Clamp(r, low, high, x') - Clamp(r, low, high, x) == x' - x
    ensures ClampDerivative(r, low, high, x) == 1.0 && ClampDerivative(r, low, high, x') == 1.0
  {
    ClampRange(r, low, high, x);
    ClampRange(r, low, high, x');
  }

  /** On each side of the range, `clamp_derivative` at two points encloses the difference quotient of `clamp`
      between them. */
  lemma ClampSlope(r: RubberBand, low: real, high: real, x: real, x': real)
    requires Positive(r) && low <= high && x <= x' && (high < x || x' < low)
    ensures var difference := Clamp(r, low, high, x') - Clamp(r, low, high, x);
            var d, d' := ClampDerivative(r, low, high, x), ClampDerivative(r, low, high, x');
            if high < x then Encloses(d', d, difference, x' - x) else Encloses(d, d', difference, x' - x)
  {
    if high < x {
      Above(r, low, high, x);
      Above(r, low, high, x');
      QuotientBetweenDerivatives(r, x - high, x' - high);
    } else {
      Below(r, low, high, x);
      Below(r, low, high, x');
      QuotientBetweenDerivatives(r, low - x', low - x);
    }
  }
}
