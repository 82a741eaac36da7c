/** The least-squares fit of the propagation model, in exact arithmetic. */
module Propagation {

  /** A measured edge: logarithm of its distance, and its SNR. */
  datatype Point = Point(x: real, y: real)

  datatype Sums = Sums(n: real, x: real, y: real, xx: real, xy: real)

  function AddPoint(s: Sums, p: Point): Sums {
    Sums(s.n + 1.0, s.x + p.x, s.y + p.y, s.xx + p.x * p.x, s.xy + p.x * p.y)
  }

  function SumsOf(ps: seq<Point>): Sums {
    if ps == [] then Sums(0.0, 0.0, 0.0, 0.0, 0.0) else AddPoint(SumsOf(ps[..|ps| - 1]), ps[|ps| - 1])
  }

  const MIN_EDGES_FOR_FIT := 5
  const SNR_REF := 10.0
  const PATH_LOSS_N := 3.0
  const DEGENERATE := 0.000_000_000_001

  function Denom(s: Sums): real {
    s.n * s.xx - s.x * s.x
  }

  /** Numerator of the slope. */
  function Slope(s: Sums): real {
    s.n * s.xy - s.x * s.y
  }

  function Abs(r: real): real {
    if r < 0.0 then -r else r
  }

  /** The line of a linear regression. */
  function RegressionLine(s: Sums): (real, real)
    requires s.n != 0.0 && Denom(s) != 0.0
  {
    var b := Slope(s) / Denom(s);
    ((s.y - b * s.x) / s.n, b)
  }

  /** Intercept and slope as `fit_propagation_model` chooses them. */
  function Fit(ps: seq<Point>): (real, real) {
    if |ps| < MIN_EDGES_FOR_FIT then (SNR_REF, -10.0 * PATH_LOSS_N)
    else
      var s := SumsOf(ps);
      CountIsLength(ps);
      if Abs(Denom(s)) < DEGENERATE then (s.y / s.n, 0.0)
      else RegressionLine(s)
  }

  lemma {:induction false} CountIsLength(ps: seq<Point>)
    ensures SumsOf(ps).n == |ps| as real
  {
    if ps != [] {
      CountIsLength(ps[..|ps| - 1]);
    }
  }

  // ---- Squared residuals ----------------------------------------------------

  function Square(r: real): real {
    r * r
  }

  /** Sum of squared residuals of the line `a + b * x`. */
  function Sse(ps: seq<Point>, a: real, b: real): real {
    if ps == [] then 0.0
    else
      Sse(ps[..|ps| - 1], a, b) + SquaredResidual(ps[|ps| - 1], a, b)
  }

  /** Sum of the squares of `c + d * x`. */
  function Lift(ps: seq<Point>, c: real, d: real): real {
    if ps == [] then 0.0
    else Lift(ps[..|ps| - 1], c, d) + SquaredHeight(ps[|ps| - 1], c, d)
  }

  function Residual(p: Point, a: real, b: real): real {
    p.y - (a + b * p.x)
  }

  function SquaredResidual(p: Point, a: real, b: real): real {
    Square(Residual(p, a, b))
  }

  /** The square of the height of the line `c + d * x` at the point. */
  function SquaredHeight(p: Point, c: real, d: real): real {
    Square(c + d * p.x)
  }

  function Leverage(p: Point, a: real, b: real): real {
    Residual(p, a, b) * p.x
  }

  /** Sum of residuals, and of residuals times x. */
  function Moment0(ps: seq<Point>, a: real, b: real): real {
    if ps == [] then 0.0
    else Moment0(ps[..|ps| - 1], a, b) + Residual(ps[|ps| - 1], a, b)
  }

  function Moment1(ps: seq<Point>, a: real, b: real): real {
    if ps == [] then 0.0
    else Moment1(ps[..|ps| - 1], a, b) + Leverage(ps[|ps| - 1], a, b)
  }

  ghost predicate IsMoment0(s: Sums, a: real, b: real, m: real) {
    m == s.y - a * s.n - b * s.x
  }

  ghost predicate IsMoment1(s: Sums, a: real, b: real, m: real) {
    m == s.xy - a * s.x - b * s.xx
  }

  lemma Moment0Step(s: Sums, p: Point, a: real, b: real, m: real)
    requires IsMoment0(s, a, b, m)
    ensures IsMoment0(AddPoint(s, p), a, b, m + Residual(p, a, b))
  {
    assert a * (s.n + 1.0) == a * s.n + a;
    assert b * (s.x + p.x) == b * s.x + b * p.x;
  }

  lemma ResidualTimes(x: real, y: real, a: real, b: real)
    ensures (y - (a + b * x)) * x == x * y - a * x - b * (x * x)
  {
    assert (y - (a + b * x)) * x == y * x - (a + b * x) * x;
    assert (a + b * x) * x == a * x + (b * x) * x;
    assert (b * x) * x == b * (x * x);
  }

  lemma Moment1Arithmetic(sx: real, sxx: real, x: real, w: real, a: real, b: real)
    ensures a * (sx + x) + b * (sxx + w) == (a * sx + b * sxx) + (a * x + b * w)
  {
  }

  lemma Moment1Step(s: Sums, p: Point, a: real, b: real, m: real)
    requires IsMoment1(s, a, b, m)
    ensures IsMoment1(AddPoint(s, p), a, b, m + Leverage(p, a, b))
  {
    ResidualTimes(p.x, p.y, a, b);
    Moment1Arithmetic(s.x, s.xx, p.x, p.x * p.x, a, b);
  }

  lemma {:induction false} Moment0OfSums(ps: seq<Point>, a: real, b: real)
    ensures IsMoment0(SumsOf(ps), a, b, Moment0(ps, a, b))
  {
    if ps != [] {
      Moment0OfSums(ps[..|ps| - 1], a, b);
      Moment0Step(SumsOf(ps[..|ps| - 1]), ps[|ps| - 1], a, b, Moment0(ps[..|ps| - 1], a, b));
    }
  }

  lemma {:induction false} Moment1OfSums(ps: seq<Point>, a: real, b: real)
    ensures IsMoment1(SumsOf(ps), a, b, Moment1(ps, a, b))
  {
    if ps != [] {
      Moment1OfSums(ps[..|ps| - 1], a, b);
      Moment1Step(SumsOf(ps[..|ps| - 1]), ps[|ps| - 1], a, b, Moment1(ps[..|ps| - 1], a, b));
    }
  }

  lemma MomentsOfSums(ps: seq<Point>, a: real, b: real)
    ensures IsMoment0(SumsOf(ps), a, b, Moment0(ps, a, b))
    ensures IsMoment1(SumsOf(ps), a, b, Moment1(ps, a, b))
  {
    Moment0OfSums(ps, a, b);
    Moment1OfSums(ps, a, b);
  }

  // ---- Another line ---------------------------------------------------------

  /** `sse'` is `sse` plus a part linear in the moments and a square part. */
  ghost predicate Moved(sse: real, sse': real, c: real, d: real, m0: real, m1: real, l: real) {
    sse' == sse - 2.0 * (c * m0 + d * m1) + l
  }

  lemma MovePoint(p: Point, a: real, b: real, c: real, d: real)
    ensures Moved(SquaredResidual(p, a, b), SquaredResidual(p, a + c, b + d), c, d,
                  Residual(p, a, b), Leverage(p, a, b), SquaredHeight(p, c, d))
  {
    var r, e := Residual(p, a, b), c + d * p.x;
    assert (b + d) * p.x == b * p.x + d * p.x;
    assert Residual(p, a + c, b + d) == r - e;
    assert (r - e) * (r - e) == r * r - 2.0 * (r * e) + e * e;
    assert r * e == c * r + r * (d * p.x);
    assert r * (d * p.x) == d * (r * p.x);
  }

  lemma MoveBoth(s: real, s': real, c: real, d: real, m0: real, m1: real, l: real,
                 t: real, t': real, r0: real, r1: real, q: real)
    requires Moved(s, s', c, d, m0, m1, l) && Moved(t, t', c, d, r0, r1, q)
    ensures Moved(s + t, s' + t', c, d, m0 + r0, m1 + r1, l + q)
  {
    assert c * (m0 + r0) == c * m0 + c * r0;
    assert d * (m1 + r1) == d * m1 + d * r1;
  }

  /** Moving the line by (c, d) changes the sum of squares by a linear and a square part. */
  lemma {:induction false} MoveLine(ps: seq<Point>, a: real, b: real, c: real, d: real)
    ensures Moved(Sse(ps, a, b), Sse(ps, a + c, b + d), c, d, Moment0(ps, a, b), Moment1(ps, a, b), Lift(ps, c, d))
  {
    if ps != [] {
      var front, p := ps[..|ps| - 1], ps[|ps| - 1];
      MoveLine(front, a, b, c, d);
      MovePoint(p, a, b, c, d);
      MoveBoth(Sse(front, a, b), Sse(front, a + c, b + d), c, d,
               Moment0(front, a, b), Moment1(front, a, b), Lift(front, c, d),
               SquaredResidual(p, a, b), SquaredResidual(p, a + c, b + d),
               Residual(p, a, b), Leverage(p, a, b), SquaredHeight(p, c, d));
    }
  }

  lemma ProductSign(x: real, y: real, z: real)
    requires z == x * y
    ensures (x > 0.0 && y > 0.0) || (x < 0.0 && y < 0.0) ==> z > 0.0
  {
  }

  lemma SquareNotNegative(r: real)
    ensures Square(r) >= 0.0 && (r != 0.0 ==> Square(r) > 0.0)
  {
    ProductSign(r, r, Square(r));
  }

  lemma {:induction false} LiftNotNegative(ps: seq<Point>, c: real, d: real)
    ensures Lift(ps, c, d) >= 0.0
  {
    if ps != [] {
      LiftNotNegative(ps[..|ps| - 1], c, d);
      SquareNotNegative(c + d * ps[|ps| - 1].x);
    }
  }

  ghost predicate Minimises(ps: seq<Point>, a: real, b: real) {
    forall a': real, b': real :: Sse(ps, a, b) <= Sse(ps, a', b')
  }

  lemma NoLoss(sse: real, sse': real, c: real, d: real, l: real)
    requires Moved(sse, sse', c, d, 0.0, 0.0, l)
    ensures sse' == sse + l
  {
  }

  /** A line with zero moments minimises, whatever the points. */
  lemma ZeroMomentsMinimise(ps: seq<Point>, a: real, b: real)
    requires Moment0(ps, a, b) == 0.0 && Moment1(ps, a, b) == 0.0
    ensures Minimises(ps, a, b)
  {
    forall a': real, b': real
      ensures Sse(ps, a, b) <= Sse(ps, a', b')
    {
      var c, d := a' - a, b' - b;
      assert a + c == a' && b + d == b';
      MoveLine(ps, a, b, c, d);
      LiftNotNegative(ps, c, d);
      NoLoss(Sse(ps, a, b), Sse(ps, a', b'), c, d, Lift(ps, c, d));
    }
  }

  // ---- The lift as a polynomial ---------------------------------------------

  ghost predicate IsLift(s: Sums, c: real, d: real, l: real) {
    l == (c * c) * s.n + 2.0 * ((c * d) * s.x) + (d * d) * s.xx
  }

  lemma LiftArithmetic(s: Sums, x: real, w: real, cc: real, cd: real, dd: real)
    ensures cc * (s.n + 1.0) + 2.0 * (cd * (s.x + x)) + dd * (s.xx + w) ==
            cc * s.n + 2.0 * (cd * s.x) + dd * s.xx + (cc + 2.0 * (cd * x) + dd * w)
  {
    assert cd * (s.x + x) == cd * s.x + cd * x;
    assert dd * (s.xx + w) == dd * s.xx + dd * w;
  }

  lemma SquareOfSum(c: real, d: real, x: real)
    ensures Square(c + d * x) == c * c + 2.0 * ((c * d) * x) + (d * d) * (x * x)
  {
    var e := d * x;
    assert (c + e) * (c + e) == c * c + 2.0 * (c * e) + e * e;
    assert c * e == (c * d) * x;
    assert e * e == (d * d) * (x * x);
  }

  lemma LiftStep(s: Sums, p: Point, c: real, d: real, l: real)
    requires IsLift(s, c, d, l)
    ensures IsLift(AddPoint(s, p), c, d, l + SquaredHeight(p, c, d))
  {
    LiftArithmetic(s, p.x, p.x * p.x, c * c, c * d, d * d);
    SquareOfSum(c, d, p.x);
  }

  lemma {:induction false} LiftOfSums(ps: seq<Point>, c: real, d: real)
    ensures IsLift(SumsOf(ps), c, d, Lift(ps, c, d))
  {
    if ps != [] {
      LiftOfSums(ps[..|ps| - 1], c, d);
      LiftStep(SumsOf(ps[..|ps| - 1]), ps[|ps| - 1], c, d, Lift(ps[..|ps| - 1], c, d));
    }
  }

  // ---- The denominator ------------------------------------------------------

  lemma LiftAtMean(s: Sums, l: real)
    requires IsLift(s, -s.x, s.n, l)
    ensures l == s.n * Denom(s)
  {
    var x, n, q := s.x, s.n, s.xx;
    assert (-x) * (-x) * n == n * (x * x);
    assert ((-x) * n) * x == -(n * (x * x));
    assert n * n * q == n * (n * q);
    assert n * (n * q - x * x) == n * (n * q) - n * (x * x);
  }

  lemma DenomSign(s: Sums, l: real)
    requires IsLift(s, -s.x, s.n, l) && l >= 0.0 && s.n > 0.0
    ensures Denom(s) >= 0.0 && (Denom(s) == 0.0 ==> l == 0.0)
  {
    LiftAtMean(s, l);
    PositiveFactor(s.n, Denom(s));
  }

  lemma PositiveFactor(n: real, d: real)
    requires n > 0.0
    ensures n * d >= 0.0 <==> d >= 0.0
    ensures n * d == 0.0 <==> d == 0.0
  {
    if d < 0.0 {
      assert n * (-d) > 0.0;
    } else if d > 0.0 {
      assert n * d > 0.0;
    }
  }

  lemma SameRoot(c: real, n: real, x: real, y: real)
    requires n != 0.0 && c + n * x == 0.0 && c + n * y == 0.0
    ensures x == y
  {
    assert n * (x - y) == 0.0;
    NoZeroProduct(n, x - y);
  }

  lemma NoZeroProduct(x: real, y: real)
    requires x * y == 0.0 && x != 0.0
    ensures y == 0.0
  {
  }

  lemma {:induction false} VanishingLift(ps: seq<Point>, c: real, d: real)
    requires Lift(ps, c, d) == 0.0
    ensures forall p :: p in ps ==> SquaredHeight(p, c, d) == 0.0
  {
    if ps != [] {
      LiftNotNegative(ps[..|ps| - 1], c, d);
      SquareNotNegative(c + d * ps[|ps| - 1].x);
      VanishingLift(ps[..|ps| - 1], c, d);
      assert ps == ps[..|ps| - 1] + [ps[|ps| - 1]];
    }
  }

  lemma SameAbscissa(p: Point, q: Point, c: real, d: real)
    requires d != 0.0 && SquaredHeight(p, c, d) == 0.0 && SquaredHeight(q, c, d) == 0.0
    ensures p.x == q.x
  {
    SquareNotNegative(c + d * p.x);
    SquareNotNegative(c + d * q.x);
    SameRoot(c, d, p.x, q.x);
  }

  /** The denominator is never negative, and zero only if all points have the same x. */
  lemma DenomNotNegative(ps: seq<Point>)
    requires ps != []
    ensures Denom(SumsOf(ps)) >= 0.0
    ensures Denom(SumsOf(ps)) == 0.0 ==> forall p, q :: p in ps && q in ps ==> p.x == q.x
  {
    var c, d := -SumsOf(ps).x, SumsOf(ps).n;
    CountIsLength(ps);
    LiftOfSums(ps, c, d);
    LiftNotNegative(ps, c, d);
    DenomSign(SumsOf(ps), Lift(ps, c, d));
    if Denom(SumsOf(ps)) == 0.0 {
      VanishingLift(ps, c, d);
      forall p, q | p in ps && q in ps
        ensures p.x == q.x
      {
        SameAbscissa(p, q, c, d);
      }
    }
  }

  ghost predicate AllAt(s: Sums, x: real) {
    s.x == s.n * x && s.xy == x * s.y && s.xx == x * s.x
  }

  lemma AllAtStep(s: Sums, p: Point)
    requires AllAt(s, p.x)
    ensures AllAt(AddPoint(s, p), p.x)
  {
    assert (s.n + 1.0) * p.x == s.n * p.x + p.x;
    assert p.x * (s.y + p.y) == p.x * s.y + p.x * p.y;
    assert p.x * (s.x + p.x) == p.x * s.x + p.x * p.x;
  }

  lemma {:induction false} SameX(ps: seq<Point>, x: real)
    requires forall p :: p in ps ==> p.x == x
    ensures AllAt(SumsOf(ps), x)
  {
    if ps != [] {
      assert forall q :: q in ps[..|ps| - 1] ==> q in ps;
      SameX(ps[..|ps| - 1], x);
      assert ps[|ps| - 1] in ps;
      AllAtStep(SumsOf(ps[..|ps| - 1]), ps[|ps| - 1]);
    }
  }

  lemma AllAtZero(s: Sums, x: real)
    requires AllAt(s, x)
    ensures Slope(s) == 0.0 && Denom(s) == 0.0
  {
    assert s.n * (x * s.y) == (s.n * x) * s.y;
    assert s.n * (x * s.x) == (s.n * x) * s.x;
  }

  /** If the denominator is zero, so is the slope's numerator. */
  lemma ZeroDenomZeroSlope(ps: seq<Point>)
    requires ps != [] && Denom(SumsOf(ps)) == 0.0
    ensures Slope(SumsOf(ps)) == 0.0
  {
    DenomNotNegative(ps);
    var x := ps[0].x;
    assert ps[0] in ps;
    SameX(ps, x);
    AllAtZero(SumsOf(ps), x);
  }

  // ---- The fitted line ------------------------------------------------------

  lemma RegularMoments(s: Sums, a: real, b: real)
    requires s.n > 0.0 && Denom(s) > 0.0
    requires (a, b) == RegressionLine(s)
    ensures IsMoment0(s, a, b, 0.0) && IsMoment1(s, a, b, 0.0)
  {
    assert b == Slope(s) / Denom(s) && a == (s.y - b * s.x) / s.n;
    assert a * s.n == s.y - b * s.x;
    assert b * Denom(s) == Slope(s);
    RegularSecond(s, a, b);
  }

  lemma RegularSecond(s: Sums, a: real, b: real)
    requires s.n > 0.0 && a * s.n == s.y - b * s.x && b * Denom(s) == Slope(s)
    ensures IsMoment1(s, a, b, 0.0)
  {
    assert (a * s.x) * s.n == (a * s.n) * s.x == s.y * s.x - (b * s.x) * s.x;
    assert (b * s.xx) * s.n == b * (s.n * s.xx);
    assert b * Denom(s) == b * (s.n * s.xx) - b * (s.x * s.x);
    assert (b * s.x) * s.x == b * (s.x * s.x);
    var r := s.xy - a * s.x - b * s.xx;
    assert s.n * r == s.n * s.xy - (a * s.x) * s.n - (b * s.xx) * s.n;
    assert s.n * r == 0.0;
    PositiveFactor(s.n, r);
  }

  /** Away from the degenerate case the fit has zero moments. */
  lemma RegularFit(ps: seq<Point>)
    requires |ps| >= MIN_EDGES_FOR_FIT && Abs(Denom(SumsOf(ps))) >= DEGENERATE
    ensures Denom(SumsOf(ps)) > 0.0
    ensures Moment0(ps, Fit(ps).0, Fit(ps).1) == 0.0 && Moment1(ps, Fit(ps).0, Fit(ps).1) == 0.0
  {
    var s := SumsOf(ps);
    CountIsLength(ps);
    DenomNotNegative(ps);
    assert s.n >= 5.0 && Denom(s) > 0.0;
    assert Fit(ps) == RegressionLine(s);
    var line := Fit(ps);
    assert (line.0, line.1) == RegressionLine(s);
    RegularMoments(s, line.0, line.1);
    MomentsOfSums(ps, Fit(ps).0, Fit(ps).1);
    MomentIs(SumsOf(ps), Fit(ps).0, Fit(ps).1, Moment0(ps, Fit(ps).0, Fit(ps).1), 0.0);
    MomentIs(SumsOf(ps), Fit(ps).0, Fit(ps).1, Moment1(ps, Fit(ps).0, Fit(ps).1), 0.0);
  }

  lemma MeanMoments(s: Sums, a: real, m: real)
    requires s.n > 0.0 && a == s.y / s.n && IsMoment1(s, a, 0.0, m)
    ensures IsMoment0(s, a, 0.0, 0.0) && (m == 0.0 <==> Slope(s) == 0.0)
  {
    PositiveFactor(s.n, m);
    assert a * s.n == s.y;
    assert s.n * (s.xy - a * s.x) == s.n * s.xy - (a * s.n) * s.x;
  }

  /** The mean with slope zero, which the degenerate case falls back to. */
  lemma DegenerateMoments(ps: seq<Point>)
    requires |ps| >= MIN_EDGES_FOR_FIT && Abs(Denom(SumsOf(ps))) < DEGENERATE
    ensures Fit(ps).1 == 0.0 && Moment0(ps, Fit(ps).0, 0.0) == 0.0
    ensures Moment1(ps, Fit(ps).0, 0.0) == 0.0 <==> Slope(SumsOf(ps)) == 0.0
  {
    CountIsLength(ps);
    MomentsOfSums(ps, Fit(ps).0, 0.0);
    MeanMoments(SumsOf(ps), Fit(ps).0, Moment1(ps, Fit(ps).0, 0.0));
    MomentIs(SumsOf(ps), Fit(ps).0, 0.0, Moment0(ps, Fit(ps).0, 0.0), 0.0);
  }

  lemma MomentIs(s: Sums, a: real, b: real, m: real, m': real)
    ensures IsMoment0(s, a, b, m) && IsMoment0(s, a, b, m') ==> m == m'
    ensures IsMoment1(s, a, b, m) && IsMoment1(s, a, b, m') ==> m == m'
  {
  }

  /** Moving a line with first moment `m` by `t` in slope and `c` in height improves it. */
  ghost predicate IsBetter(s: Sums, m: real, t: real, c: real) {
    s.n > 0.0 && m != 0.0 && Denom(s) > 0.0 && t == s.n * m / Denom(s) && c == -(t * s.x / s.n)
  }

  lemma BetterSlope(s: Sums, m: real, l: real, t: real, c: real)
    requires IsBetter(s, m, t, c) && IsLift(s, c, t, l)
    ensures -2.0 * (t * m) + l < 0.0
  {
    var n, x, xx, d := s.n, s.x, s.xx, Denom(s);
    assert c * n == -(t * x);
    assert (c * c) * n == c * (c * n) == -(c * (t * x));
    assert (c * t) * x == c * (t * x);
    assert l == c * (t * x) + (t * t) * xx;
    assert n * (c * (t * x)) == (c * n) * (t * x) == -((t * x) * (t * x));
    assert (t * x) * (t * x) == (t * t) * (x * x);
    assert n * ((t * t) * xx) == (t * t) * (n * xx);
    assert n * l == (t * t) * d by {
      assert (t * t) * d == (t * t) * (n * xx) - (t * t) * (x * x);
      assert n * l == n * (c * (t * x)) + n * ((t * t) * xx);
    }
    BetterValue(n, m, l, d, t);
  }

  lemma BetterValue(n: real, m: real, l: real, d: real, t: real)
    requires n > 0.0 && m != 0.0 && d > 0.0 && t == n * m / d && n * l == (t * t) * d
    ensures -2.0 * (t * m) + l < 0.0
  {
    assert t * d == n * m;
    assert (t * t) * d == t * (t * d) == t * (n * m) == n * (t * m);
    PositiveFactor(n, l - t * m);
    assert n * (l - t * m) == n * l - n * (t * m);
    assert l == t * m;
    assert (t * m) * d == m * (t * d) == n * (m * m);
    SquareNotNegative(m);
    assert n * (m * m) > 0.0;
    PositiveFactor(d, t * m);
    assert d * (t * m) == (t * m) * d;
  }

  lemma Improvement(s: Sums, sse: real, sse': real, c: real, t: real, m: real, l: real)
    requires IsBetter(s, m, t, c) && IsLift(s, c, t, l) && Moved(sse, sse', c, t, 0.0, m, l)
    ensures sse' < sse
  {
    BetterSlope(s, m, l, t, c);
  }

  /** With distinct x a line whose first moment is zero and second is not can be improved. */
  lemma NonzeroMomentImproves(ps: seq<Point>, a: real, b: real)
    requires ps != [] && Denom(SumsOf(ps)) > 0.0 && Moment0(ps, a, b) == 0.0 && Moment1(ps, a, b) != 0.0
    ensures !Minimises(ps, a, b)
  {
    var s, m := SumsOf(ps), Moment1(ps, a, b);
    CountIsLength(ps);
    var t := s.n * m / Denom(s);
    var c := -(t * s.x / s.n);
    BetterLine(ps, a, b, c, t, m);
  }

  lemma BetterLine(ps: seq<Point>, a: real, b: real, c: real, t: real, m: real)
    requires Moment0(ps, a, b) == 0.0 && Moment1(ps, a, b) == m && IsBetter(SumsOf(ps), m, t, c)
    ensures Sse(ps, a + c, b + t) < Sse(ps, a, b)
  {
    MoveLine(ps, a, b, c, t);
    LiftOfSums(ps, c, t);
    Improvement(SumsOf(ps), Sse(ps, a, b), Sse(ps, a + c, b + t), c, t, m, Lift(ps, c, t));
  }

  /** The fit is a least-squares line exactly when the denominator reaches the threshold of the
    * degenerate case or the best slope is zero anyway (as it is when all x are equal).
    */
  lemma FitMinimisesExactlyWhen(ps: seq<Point>)
    requires |ps| >= MIN_EDGES_FOR_FIT
    ensures Minimises(ps, Fit(ps).0, Fit(ps).1) <==>
            Denom(SumsOf(ps)) >= DEGENERATE || Slope(SumsOf(ps)) == 0.0
  {
    DenomNotNegative(ps);
    if Denom(SumsOf(ps)) >= DEGENERATE {
      RegularFit(ps);
      ZeroMomentsMinimise(ps, Fit(ps).0, Fit(ps).1);
    } else {
      DegenerateMoments(ps);
      if Slope(SumsOf(ps)) == 0.0 {
        ZeroMomentsMinimise(ps, Fit(ps).0, Fit(ps).1);
      } else {
        if Denom(SumsOf(ps)) == 0.0 {
          ZeroDenomZeroSlope(ps);
        }
        NonzeroMomentImproves(ps, Fit(ps).0, Fit(ps).1);
      }
    }
  }

  /** When all points have the same x, the mean with slope zero is a least-squares line. */
  lemma EqualXFit(ps: seq<Point>)
    requires |ps| >= MIN_EDGES_FOR_FIT && Denom(SumsOf(ps)) == 0.0
    ensures Minimises(ps, Fit(ps).0, Fit(ps).1) && Fit(ps).1 == 0.0
  {
    ZeroDenomZeroSlope(ps);
    FitMinimisesExactlyWhen(ps);
  }

  /** A line that vanishes at points of different x is zero. */
  lemma ZeroLift(ps: seq<Point>, c: real, d: real)
    requires ps != [] && Lift(ps, c, d) == 0.0 && Denom(SumsOf(ps)) != 0.0
    ensures c == 0.0 && d == 0.0
  {
    VanishingLift(ps, c, d);
    assert ps[0] in ps;
    if d != 0.0 {
      forall p | p in ps
        ensures p.x == ps[0].x
      {
        SameAbscissa(p, ps[0], c, d);
      }
      SameX(ps, ps[0].x);
      AllAtZero(SumsOf(ps), ps[0].x);
    } else {
      SquareNotNegative(c + 0.0 * ps[0].x);
    }
  }

  /** The regular fit is the only least-squares line. */
  lemma RegularFitIsUnique(ps: seq<Point>, a: real, b: real)
    requires |ps| >= MIN_EDGES_FOR_FIT && Denom(SumsOf(ps)) >= DEGENERATE
    requires Sse(ps, a, b) <= Sse(ps, Fit(ps).0, Fit(ps).1)
    ensures (a, b) == Fit(ps)
  {
    var a0, b0 := Fit(ps).0, Fit(ps).1;
    RegularFit(ps);
    MoveLine(ps, a0, b0, a - a0, b - b0);
    LiftNotNegative(ps, a - a0, b - b0);
    assert a0 + (a - a0) == a && b0 + (b - b0) == b;
    NoLoss(Sse(ps, a0, b0), Sse(ps, a, b), a - a0, b - b0, Lift(ps, a - a0, b - b0));
    ZeroLift(ps, a - a0, b - b0);
  }

  lemma Misfit(ps: seq<Point>)
    requires |ps| >= MIN_EDGES_FOR_FIT && Denom(SumsOf(ps)) < DEGENERATE && Slope(SumsOf(ps)) != 0.0
    ensures Fit(ps).1 == 0.0 && !Minimises(ps, Fit(ps).0, Fit(ps).1)
  {
    DenomNotNegative(ps);
    DegenerateMoments(ps);
    FitMinimisesExactlyWhen(ps);
  }

  const NEAR := Point(0.0, 0.0)
  const FAR := Point(0.000_000_1, 1.0)

  /** Four edges at one distance and a fifth a hair further: the distances differ, yet the fit is
    * the mean with slope zero, which is not a least-squares line.
    */
  lemma NearlyEqualDistancesMisfit()
    ensures NEAR.x != FAR.x
    ensures var ps := [NEAR, NEAR, NEAR, NEAR] + [FAR];
            Fit(ps).1 == 0.0 && !Minimises(ps, Fit(ps).0, Fit(ps).1)
  {
    var near, ps := [NEAR, NEAR, NEAR, NEAR], [NEAR, NEAR, NEAR, NEAR] + [FAR];
    SumsOfOrigins(near);
    assert ps[..4] == near;
    assert SumsOf(ps) == AddPoint(SumsOf(near), FAR);
    FifthPoint(SumsOf(ps));
    Misfit(ps);
  }

  lemma FifthPoint(s: Sums)
    requires s == AddPoint(Sums(4.0, 0.0, 0.0, 0.0, 0.0), FAR)
    ensures Denom(s) < DEGENERATE && Slope(s) != 0.0
  {
    var x := 0.000_000_1;
    assert s == Sums(5.0, x, 1.0, 0.000_000_000_000_01, x);
    assert Denom(s) == 5.0 * 0.000_000_000_000_01 - 0.000_000_000_000_01;
    assert Slope(s) == 5.0 * x - x * 1.0;
  }

  lemma {:induction false} SumsOfOrigins(ps: seq<Point>)
    requires forall i :: 0 <= i < |ps| ==> ps[i] == NEAR
    ensures SumsOf(ps) == Sums(|ps| as real, 0.0, 0.0, 0.0, 0.0)
  {
    if ps != [] {
      SumsOfOrigins(ps[..|ps| - 1]);
    }
  }

  // ---- The branches in numbers -------------------------------------------------

  /** Squared differences between `x` and each point. */
  function Apart(ps: seq<Point>, x: real): real {
    if ps == [] then 0.0 else Apart(ps[..|ps| - 1], x) + Square(x - ps[|ps| - 1].x)
  }

  /** Squared differences of x over all pairs of points. */
  function Spread(ps: seq<Point>): real {
    if ps == [] then 0.0 else Spread(ps[..|ps| - 1]) + Apart(ps[..|ps| - 1], ps[|ps| - 1].x)
  }

  function TotalY(ps: seq<Point>): real {
    if ps == [] then 0.0 else TotalY(ps[..|ps| - 1]) + ps[|ps| - 1].y
  }

  /** The squared differences between `x` and points with these sums. */
  function ApartBySums(s: Sums, x: real): real {
    s.n * (x * x) - 2.0 * (x * s.x) + s.xx
  }

  lemma {:induction false} ApartInSums(ps: seq<Point>, x: real)
    ensures Apart(ps, x) == ApartBySums(SumsOf(ps), x)
  {
    if ps != [] {
      var front, p := ps[..|ps| - 1], ps[|ps| - 1];
      ApartInSums(front, x);
      ApartNext(SumsOf(front), p, x);
    }
  }

  lemma ApartNext(s: Sums, p: Point, x: real)
    ensures ApartBySums(AddPoint(s, p), x) == ApartBySums(s, x) + Square(x - p.x)
  {
    assert (s.n + 1.0) * (x * x) == s.n * (x * x) + x * x;
    assert x * (s.x + p.x) == x * s.x + x * p.x;
    assert Square(x - p.x) == x * x - 2.0 * (x * p.x) + p.x * p.x;
  }

  lemma DenomNext(s: Sums, p: Point)
    ensures Denom(AddPoint(s, p)) == Denom(s) + ApartBySums(s, p.x)
  {
    assert (s.n + 1.0) * (s.xx + p.x * p.x) == s.n * s.xx + s.n * (p.x * p.x) + s.xx + p.x * p.x;
    assert (s.x + p.x) * (s.x + p.x) == s.x * s.x + 2.0 * (p.x * s.x) + p.x * p.x;
  }

  lemma SpreadNext(front: seq<Point>, p: Point)
    ensures Spread(front + [p]) == Spread(front) + Apart(front, p.x)
    ensures SumsOf(front + [p]) == AddPoint(SumsOf(front), p)
  {
    assert (front + [p])[..|front|] == front;
  }

  /** The denominator is how far apart the points lie: the squared differences over all pairs. */
  lemma {:induction false} DenomIsSpread(ps: seq<Point>)
    ensures Denom(SumsOf(ps)) == Spread(ps)
  {
    if ps != [] {
      var front, p := ps[..|ps| - 1], ps[|ps| - 1];
      assert ps == front + [p];
      DenomIsSpread(front);
      SpreadNext(front, p);
      ApartInSums(front, p.x);
      DenomNext(SumsOf(front), p);
    }
  }

  lemma {:induction false} SumOfY(ps: seq<Point>)
    ensures SumsOf(ps).y == TotalY(ps)
  {
    if ps != [] {
      SumOfY(ps[..|ps| - 1]);
    }
  }

  /** The constant line through the mean. */
  ghost predicate IsMeanLine(ps: seq<Point>, f: (real, real)) {
    f.1 == 0.0 && f.0 * |ps| as real == TotalY(ps)
  }

  lemma MeanIs(f: (real, real), y: real, n: real, total: real)
    requires n > 0.0 && y == total && f == (y / n, 0.0)
    ensures f.1 == 0.0 && f.0 * n == total
  {
  }

  lemma FitIsMean(ps: seq<Point>)
    requires |ps| >= 5 && Abs(Denom(SumsOf(ps))) < DEGENERATE
    ensures IsMeanLine(ps, Fit(ps))
  {
    CountIsLength(ps);
    SumOfY(ps);
    MeanIs(Fit(ps), SumsOf(ps).y, |ps| as real, TotalY(ps));
  }

  lemma CloseDenom(ps: seq<Point>)
    requires ps != [] && Spread(ps) < 0.000_000_000_001
    ensures Abs(Denom(SumsOf(ps))) < DEGENERATE
  {
    DenomIsSpread(ps);
    DenomNotNegative(ps);
  }

  lemma CloseFit(ps: seq<Point>)
    requires |ps| >= 5 && Spread(ps) < 0.000_000_000_001
    ensures IsMeanLine(ps, Fit(ps))
  {
    CloseDenom(ps);
    FitIsMean(ps);
  }

  lemma SpreadFit(ps: seq<Point>, a: real, b: real)
    requires |ps| >= 5 && Spread(ps) >= 0.000_000_000_001
    ensures Minimises(ps, Fit(ps).0, Fit(ps).1)
    ensures Minimises(ps, a, b) ==> (a, b) == Fit(ps)
  {
    DenomIsSpread(ps);
    FitMinimisesExactlyWhen(ps);
    if Minimises(ps, a, b) {
      RegularFitIsUnique(ps, a, b);
    }
  }

  /** Fewer than five points give 10 dB at 1 km falling by 30 dB a decade; points that lie too close
    * together give their mean with slope zero; all others the one least-squares line.
    */
  lemma FitLaw(ps: seq<Point>)
    ensures |ps| < 5 ==> Fit(ps) == (10.0, -30.0)
    ensures |ps| >= 5 && Spread(ps) < 0.000_000_000_001 ==> IsMeanLine(ps, Fit(ps))
    ensures |ps| >= 5 && Spread(ps) >= 0.000_000_000_001 ==>
              Minimises(ps, Fit(ps).0, Fit(ps).1) && forall a, b :: Minimises(ps, a, b) ==> (a, b) == Fit(ps)
  {
    if |ps| < 5 {
    } else if Spread(ps) < 0.000_000_000_001 {
      CloseFit(ps);
    } else {
      forall a, b
        ensures Minimises(ps, Fit(ps).0, Fit(ps).1) && (Minimises(ps, a, b) ==> (a, b) == Fit(ps))
      {
        SpreadFit(ps, a, b);
      }
    }
  }
}
