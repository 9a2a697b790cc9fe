/**
 The Wilson score interval, over the reals. The square root is taken as an argument: the
 nonnegative number whose square is the radicand.
*/
module WilsonIntervals {
  const Z: real := 1.96

  datatype Interval = Interval(lower: real, upper: real)

  function Rate(closed: nat, total: nat): real
    requires total > 0
  {
    closed as real / total as real
  }

  function Radicand(closed: nat, total: nat): real
    requires total > 0
  {
    var n, p := total as real, Rate(closed, total);
    p * (1.0 - p) / n + Z * Z / (4.0 * n * n)
  }

  predicate IsRoot(root: real, x: real) {
    root >= 0.0 && root * root == x
  }

  function Max(a: real, b: real): real {
    if a >= b then a else b
  }

  function Min(a: real, b: real): real {
    if a <= b then a else b
  }

  function Denom(total: nat): real
    requires total > 0
  {
    1.0 + Z * Z / total as real
  }

  function Center(closed: nat, total: nat): real
    requires total > 0
  {
    (Rate(closed, total) + Z * Z / (2.0 * total as real)) / Denom(total)
  }

  function HalfWidth(total: nat, root: real): real
    requires total > 0
  {
    Z * root / Denom(total)
  }

  /** wilsonInterval, with root the square root it takes. */
  function Wilson(closed: nat, total: nat, root: real): Interval {
    if total == 0 then Interval(0.0, 0.0)
    else
      var center, halfWidth := Center(closed, total), HalfWidth(total, root);
      Interval(Max(0.0, center - halfWidth), Min(1.0, center + halfWidth))
  }

  /** The score test accepts x: the observed rate p is within Z standard errors of x. */
  predicate Accepts(total: nat, p: real, x: real) {
    total as real * ((p - x) * (p - x)) <= Z * Z * (x * (1.0 - x))
  }

  /** The normal quantile of the test is 1.96. */
  lemma AcceptsWithin(total: nat, p: real, x: real)
    ensures Accepts(total, p, x) <==> total as real * ((p - x) * (p - x)) <= 3.8416 * (x * (1.0 - x))
  {
    assert Z * Z == 3.8416;
  }

  // ---- Algebra, in a = 1/n ----

  /** Both sides of the test as a quadratic in x, scaled by d = 1 + z*a. */
  lemma Quadratic(a: real, p: real, x: real, z: real, d: real, dd: real, c: real, r: real)
    requires d == 1.0 + z * a && dd == d * d
    requires c * d == p + z * a / 2.0
    requires r == p * (1.0 - p) * a + z * a * a / 4.0
    ensures dd * ((x - c) * (x - c)) - z * r == d * ((p - x) * (p - x) - z * a * (x * (1.0 - x)))
  {
    var m := p + z * a / 2.0;
    assert dd * ((x - c) * (x - c)) == (d * x - c * d) * (d * x - c * d) by {
      assert d * (x - c) == d * x - c * d;
      assert dd * ((x - c) * (x - c)) == (d * (x - c)) * (d * (x - c));
    }
    assert (d * x - m) * (d * x - m) == d * d * x * x - 2.0 * d * x * m + m * m;
    Expand(a, p, x, z, d, m, r);
  }

  lemma Expand(a: real, p: real, x: real, z: real, d: real, m: real, r: real)
    requires d == 1.0 + z * a && m == p + z * a / 2.0
    requires r == p * (1.0 - p) * a + z * a * a / 4.0
    ensures d * d * x * x - 2.0 * d * x * m + m * m - z * r == d * ((p - x) * (p - x) - z * a * (x * (1.0 - x)))
  {
    // m*m - z*r == p*p*d
    assert m * m == p * p + p * z * a + z * a * z * a / 4.0;
    assert z * r == z * p * a - z * p * p * a + z * z * a * a / 4.0;
    assert m * m - z * r == p * p + z * p * p * a;
    assert p * p * d == p * p + z * p * p * a;
    // the bracket is d*x*x - 2*m*x + p*p
    assert (p - x) * (p - x) == p * p - 2.0 * p * x + x * x;
    assert z * a * (x * (1.0 - x)) == z * a * x - z * a * x * x;
    assert 2.0 * m * x == 2.0 * p * x + z * a * x;
    var k := (p - x) * (p - x) - z * a * (x * (1.0 - x));
    assert k == d * x * x - 2.0 * m * x + p * p;
    assert d * k == d * (d * x * x) - d * (2.0 * m * x) + d * (p * p);
  }

  lemma Positive(x: real, y: real)
    requires x > 0.0 && y > 0.0
    ensures x * y > 0.0
  {
  }

  lemma SquareGreater(u: real, h: real)
    requires u > h >= 0.0
    ensures u * u > h * h
  {
    Positive(u - h, u + h);
    assert u * u - h * h == (u - h) * (u + h);
  }

  lemma SquareOrder(u: real, h: real)
    requires h >= 0.0
    ensures u * u <= h * h <==> -h <= u <= h
  {
    if u > h {
      SquareGreater(u, h);
    } else if u < -h {
      SquareGreater(-u, h);
      assert (-u) * (-u) == u * u;
    } else {
      assert h * h - u * u == (h - u) * (h + u);
    }
  }

  /** Scaling by a positive factor keeps a comparison. */
  lemma Scale(x: real, y: real, k: real)
    requires k > 0.0
    ensures x <= y <==> k * x <= k * y
  {
    if x > y {
      Positive(k, x - y);
      assert k * (x - y) == k * x - k * y;
    } else {
      assert k * (y - x) == k * y - k * x;
    }
  }

  // ---- The interval ----

  /** The quantities of one interval: sample size n and its inverse a, rate p, denominator
      d and its square dd, center c, half width h, radicand r, and z, the square of Z. */
  datatype Score = Score(n: real, a: real, p: real, d: real, dd: real, c: real, h: real, r: real, z: real)

  function ScoreOf(closed: nat, total: nat, root: real): Score
    requires total > 0
  {
    Score(total as real, 1.0 / total as real, Rate(closed, total), Denom(total), Denom(total) * Denom(total),
          Center(closed, total), HalfWidth(total, root), Radicand(closed, total), Z * Z)
  }

  ghost predicate DenomOk(q: Score) {
    q.n > 0.0 && q.n * q.a == 1.0 && q.d == 1.0 + q.z * q.a && q.d > 0.0 && q.dd == q.d * q.d && q.dd > 0.0
  }

  ghost predicate CenterOk(q: Score) {
    q.c * q.d == q.p + q.z * q.a / 2.0
  }

  ghost predicate RadicandOk(q: Score) {
    q.r == q.p * (1.0 - q.p) * q.a + q.z * q.a * q.a / 4.0
  }

  ghost predicate HalfWidthOk(q: Score) {
    q.h >= 0.0 && q.dd * (q.h * q.h) == q.z * q.r
  }

  ghost predicate Related(q: Score) {
    DenomOk(q) && CenterOk(q) && RadicandOk(q) && HalfWidthOk(q)
  }

  lemma WilsonDenom(closed: nat, total: nat, root: real)
    requires total > 0
    ensures DenomOk(ScoreOf(closed, total, root))
  {
    hide Rate, Center, HalfWidth, Radicand;
    DenomRelated(total as real, 1.0 / total as real, Z * Z, Denom(total));
  }

  lemma WilsonCenter(closed: nat, total: nat, root: real)
    requires total > 0
    ensures CenterOk(ScoreOf(closed, total, root))
  {
    hide Rate, HalfWidth, Radicand;
    var n, a := total as real, 1.0 / total as real;
    DenomRelated(n, a, Z * Z, Denom(total));
    CenterRelated(n, a, Rate(closed, total), Z * Z, Denom(total), Center(closed, total));
  }

  lemma WilsonRadicand(closed: nat, total: nat, root: real)
    requires total > 0
    ensures RadicandOk(ScoreOf(closed, total, root))
  {
    hide Rate, HalfWidth, Center, Denom;
    InverseOf(total as real);
    Inverses(total as real, 1.0 / total as real, Rate(closed, total), Z * Z);
  }

  lemma WilsonHalfWidth(closed: nat, total: nat, root: real)
    requires total > 0 && IsRoot(root, Radicand(closed, total))
    ensures HalfWidthOk(ScoreOf(closed, total, root))
  {
    hide Rate, Center, Radicand;
    DenomRelated(total as real, 1.0 / total as real, Z * Z, Denom(total));
    hide Denom;
    HalfWidthRelated(Denom(total), HalfWidth(total, root), Z, root, Radicand(closed, total));
  }

  lemma WilsonRelated(closed: nat, total: nat, root: real)
    requires total > 0 && IsRoot(root, Radicand(closed, total))
    ensures Related(ScoreOf(closed, total, root))
  {
    hide DenomOk, CenterOk, RadicandOk, HalfWidthOk, Rate, Center, Radicand, Denom, HalfWidth, ScoreOf;
    WilsonDenom(closed, total, root);
    WilsonCenter(closed, total, root);
    WilsonRadicand(closed, total, root);
    WilsonHalfWidth(closed, total, root);
  }

  lemma DenomRelated(n: real, a: real, z: real, d: real)
    requires n > 0.0 && a == 1.0 / n && d == 1.0 + z / n && z >= 0.0
    ensures n * a == 1.0 && d == 1.0 + z * a && d > 0.0 && d * d > 0.0
  {
    InverseOf(n);
    Inverses(n, a, 0.0, z);
    NonNegative(z, a);
    Positive(d, d);
  }

  lemma CenterRelated(n: real, a: real, p: real, z: real, d: real, c: real)
    requires n > 0.0 && n * a == 1.0 && d > 0.0 && c == (p + z / (2.0 * n)) / d
    ensures c * d == p + z * a / 2.0
  {
    Inverses(n, a, p, z);
    QuotientTimes(p + z / (2.0 * n), d);
  }

  lemma HalfWidthRelated(d: real, h: real, y: real, root: real, r: real)
    requires d > 0.0 && y >= 0.0 && root >= 0.0 && root * root == r && h == y * root / d
    ensures h >= 0.0 && d * d * (h * h) == y * y * r
  {
    NonNegative(y, root);
    QuotientTimes(y * root, d);
    assert d * d * (h * h) == (d * h) * (d * h);
    assert (y * root) * (y * root) == y * y * (root * root);
  }

  lemma InverseOf(n: real)
    requires n > 0.0
    ensures n * (1.0 / n) == 1.0 && 1.0 / n > 0.0
  {
  }

  lemma QuotientTimes(x: real, d: real)
    requires d > 0.0
    ensures x / d * d == x && d * (x / d) == x
    ensures x >= 0.0 ==> x / d >= 0.0
  {
  }

  lemma RateInUnit(closed: nat, total: nat)
    requires total > 0 && closed <= total
    ensures 0.0 <= Rate(closed, total) <= 1.0
    ensures Rate(closed, total) * total as real == closed as real
  {
  }

  lemma Inverses(n: real, a: real, p: real, z: real)
    requires n > 0.0 && n * a == 1.0
    ensures z / n == z * a
    ensures z / (2.0 * n) == z * a / 2.0
    ensures p * (1.0 - p) / n == p * (1.0 - p) * a
    ensures z / (4.0 * n * n) == z * a * a / 4.0
  {
    assert a == 1.0 / n;
    assert (z * a / 2.0) * (2.0 * n) == z * (n * a);
    assert (4.0 * n * n) * (z * a * a / 4.0) == z * ((n * a) * (n * a));
    assert 4.0 * n * n > 0.0 by { Positive(n, n); }
  }

  lemma InsideMeansSquares(dd: real, c: real, h: real, r: real, z: real, x: real)
    requires dd > 0.0 && h >= 0.0 && dd * (h * h) == z * r
    ensures c - h <= x <= c + h <==> dd * ((x - c) * (x - c)) <= z * r
  {
    SquareOrder(x - c, h);
    Scale((x - c) * (x - c), h * h, dd);
  }

  lemma ScaledBack(n: real, a: real, p: real, z: real, x: real)
    requires n > 0.0 && n * a == 1.0
    ensures (p - x) * (p - x) - z * a * (x * (1.0 - x)) <= 0.0
       <==> n * ((p - x) * (p - x)) <= z * (x * (1.0 - x))
  {
    var k := (p - x) * (p - x) - z * a * (x * (1.0 - x));
    Scale(k, 0.0, n);
    Distribute(n, a, z, (p - x) * (p - x), x * (1.0 - x));
  }

  ghost predicate Inside(q: Score, x: real) {
    q.c - q.h <= x <= q.c + q.h
  }

  ghost predicate InsideSquared(q: Score, x: real) {
    q.dd * ((x - q.c) * (x - q.c)) <= q.z * q.r
  }

  ghost predicate BelowZero(q: Score, x: real) {
    (q.p - x) * (q.p - x) - q.z * q.a * (x * (1.0 - x)) <= 0.0
  }

  ghost predicate Scored(q: Score, x: real) {
    q.n * ((q.p - x) * (q.p - x)) <= q.z * (x * (1.0 - x))
  }

  lemma SquaredStep(q: Score, x: real)
    requires DenomOk(q) && HalfWidthOk(q)
    ensures Inside(q, x) <==> InsideSquared(q, x)
  {
    InsideMeansSquares(q.dd, q.c, q.h, q.r, q.z, x);
  }

  lemma QuadraticStep(q: Score, x: real)
    requires DenomOk(q) && CenterOk(q) && RadicandOk(q)
    ensures InsideSquared(q, x) <==> BelowZero(q, x)
  {
    Quadratic(q.a, q.p, x, q.z, q.d, q.dd, q.c, q.r);
    ScaleZero((q.p - x) * (q.p - x) - q.z * q.a * (x * (1.0 - x)), q.d);
  }

  lemma ScaleZero(x: real, k: real)
    requires k > 0.0
    ensures x <= 0.0 <==> k * x <= 0.0
  {
    Scale(x, 0.0, k);
  }

  lemma ScaledStep(q: Score, x: real)
    requires DenomOk(q)
    ensures BelowZero(q, x) <==> Scored(q, x)
  {
    ScaledBack(q.n, q.a, q.p, q.z, x);
  }

  lemma ScoreAlgebra(q: Score, x: real)
    requires Related(q)
    ensures Inside(q, x) <==> Scored(q, x)
  {
    hide DenomOk, CenterOk, RadicandOk, HalfWidthOk, Inside, InsideSquared, BelowZero, Scored;
    SquaredStep(q, x);
    QuadraticStep(q, x);
    ScaledStep(q, x);
  }

  lemma Distribute(n: real, a: real, z: real, u: real, v: real)
    requires n * a == 1.0
    ensures n * (u - z * a * v) == n * u - z * v
  {
    assert n * (z * a * v) == (n * a) * (z * v);
  }

  /** Without the clamps: x lies within the half width of the center exactly when the score
      test accepts it. */
  lemma ScoreTest(closed: nat, total: nat, root: real, x: real)
    requires total > 0 && closed <= total && IsRoot(root, Radicand(closed, total))
    ensures var c, h := Center(closed, total), HalfWidth(total, root);
            c - h <= x <= c + h <==> Accepts(total, Rate(closed, total), x)
  {
    hide Related, Rate, Denom, Center, HalfWidth, Radicand;
    WilsonRelated(closed, total, root);
    ScoreAlgebra(ScoreOf(closed, total, root), x);
  }

  /** Over the reals neither clamp ever changes a bound: 0 and 1 are never strictly inside
      the interval, and the center lies between them. */
  lemma ClampsAreNoOps(closed: nat, total: nat, root: real)
    requires total > 0 && closed <= total && IsRoot(root, Radicand(closed, total))
    ensures Center(closed, total) - HalfWidth(total, root) >= 0.0
    ensures Center(closed, total) + HalfWidth(total, root) <= 1.0
  {
    hide Rate, Center, HalfWidth, Radicand, Accepts;
    var low, high := Center(closed, total) - HalfWidth(total, root), Center(closed, total) + HalfWidth(total, root);
    ContainsRate(closed, total, root);
    ScoreTest(closed, total, root, low);
    ScoreTest(closed, total, root, high);
    if low < 0.0 {
      OutsideUnit(total, Rate(closed, total), low);
    }
    if high > 1.0 {
      OutsideUnit(total, Rate(closed, total), high);
    }
  }

  /** Below 0 and above 1 the right side of the test is negative, so nothing is accepted. */
  lemma OutsideUnit(total: nat, p: real, x: real)
    requires x < 0.0 || x > 1.0
    ensures !Accepts(total, p, x)
  {
    if x < 0.0 { Positive(-x, 1.0 - x); } else { Positive(x, x - 1.0); }
    assert x * (1.0 - x) < 0.0;
    NonNegativeSquare(p - x);
    Negative(x * (1.0 - x));
    NonNegative(total as real, (p - x) * (p - x));
  }

  lemma NonNegative(x: real, y: real)
    requires x >= 0.0 && y >= 0.0
    ensures x * y >= 0.0
  {
  }

  lemma NonNegativeSquare(u: real)
    ensures u * u >= 0.0
  {
  }

  lemma Negative(y: real)
    requires y < 0.0
    ensures Z * Z * y < 0.0
  {
  }

  /** The interval contains the observed rate. */
  lemma ContainsRate(closed: nat, total: nat, root: real)
    requires total > 0 && closed <= total && IsRoot(root, Radicand(closed, total))
    ensures var c, h := Center(closed, total), HalfWidth(total, root);
            c - h <= Rate(closed, total) <= c + h
  {
    hide Rate, Center, HalfWidth, Radicand, Accepts;
    RateInUnit(closed, total);
    RateAccepted(total, Rate(closed, total));
    ScoreTest(closed, total, root, Rate(closed, total));
  }

  lemma RateAccepted(total: nat, p: real)
    requires 0.0 <= p <= 1.0
    ensures Accepts(total, p, p)
  {
    NonNegative(p, 1.0 - p);
  }

  /** The main result: for 0 <= closed <= total and total > 0, the returned interval is
      exactly the set of x in [0, 1] that the score test accepts; it contains the observed
      rate. */
  lemma WilsonIsScoreInterval(closed: nat, total: nat, root: real)
    requires total > 0 && closed <= total && IsRoot(root, Radicand(closed, total))
    ensures var w, p := Wilson(closed, total, root), Rate(closed, total);
            && (forall x: real :: w.lower <= x <= w.upper <==> 0.0 <= x <= 1.0 && Accepts(total, p, x))
            && 0.0 <= w.lower <= p <= w.upper <= 1.0
            && w == Interval(Center(closed, total) - HalfWidth(total, root), Center(closed, total) + HalfWidth(total, root))
  {
    hide Rate, Center, HalfWidth, Radicand, Accepts;
    ClampsAreNoOps(closed, total, root);
    ContainsRate(closed, total, root);
    forall x: real
      ensures Center(closed, total) - HalfWidth(total, root) <= x <= Center(closed, total) + HalfWidth(total, root)
         <==> Accepts(total, Rate(closed, total), x)
    {
      ScoreTest(closed, total, root, x);
    }
  }

  /** More closed outcomes in a sample of the same size never lower the lower bound. */
  lemma LowerIsMonotone(c1: nat, c2: nat, total: nat, r1: real, r2: real)
    requires total > 0 && c1 <= c2 <= total
    requires IsRoot(r1, Radicand(c1, total)) && IsRoot(r2, Radicand(c2, total))
    ensures Wilson(c1, total, r1).lower <= Wilson(c2, total, r2).lower
  {
    hide Wilson, Rate, Radicand, Accepts, Center, HalfWidth;
    WilsonIsScoreInterval(c1, total, r1);
    WilsonIsScoreInterval(c2, total, r2);
    var p, q := Rate(c1, total), Rate(c2, total);
    RateOrder(c1, c2, total);
    var x := Wilson(c2, total, r2).lower;
    if x <= p {
      // x is accepted for the larger rate q, hence for p, which is closer to it.
      assert Accepts(total, q, x);
      AcceptsCloser(total, p, q, x);
    }
  }

  lemma AcceptsCloser(total: nat, p: real, q: real, x: real)
    requires total > 0 && x <= p <= q && Accepts(total, q, x)
    ensures Accepts(total, p, x)
  {
    Closer(total as real, p - x, q - x);
  }

  lemma RateOrder(c1: nat, c2: nat, total: nat)
    requires total > 0 && c1 <= c2 <= total
    ensures Rate(c1, total) <= Rate(c2, total)
  {
    hide Rate;
    RateInUnit(c1, total);
    RateInUnit(c2, total);
    Cancel(Rate(c1, total), Rate(c2, total), total as real, c1 as real, c2 as real);
  }

  lemma Cancel(x: real, y: real, n: real, a: real, b: real)
    requires n > 0.0 && x * n == a && y * n == b && a <= b
    ensures x <= y
  {
    if x > y {
      Positive(x - y, n);
    }
  }

  lemma Closer(n: real, u: real, v: real)
    requires n > 0.0 && 0.0 <= u <= v
    ensures n * (u * u) <= n * (v * v)
  {
    assert v * v - u * u == (v - u) * (v + u);
    Scale(u * u, v * v, n);
  }
}
