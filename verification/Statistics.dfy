/**
 Percentile, median and least-squares regression over exact reals. Rounding is
 left out, and the correlation is given by its square.
 */
module Statistics {
  import opened Options
  import opened Sorting

  // ---- Percentile and median ----

  predicate RealLeq(a: real, b: real) {
    a <= b
  }

  function SortedValues(values: seq<real>): seq<real> {
    Sort(RealLeq, values)
  }

  lemma SortedFacts(values: seq<real>)
    ensures |SortedValues(values)| == |values|
    ensures multiset(SortedValues(values)) == multiset(values)
    ensures forall i, j | 0 <= i <= j < |values| :: SortedValues(values)[i] <= SortedValues(values)[j]
  {
    SortPermutes(RealLeq, values);
    SortSorts(RealLeq, values);
  }

  function Ceiling(k: real): int {
    if k == k.Floor as real then k.Floor else k.Floor + 1
  }

  /** Linear interpolation at position k of a list, as `percentile` writes it. */
  function Interpolate(s: seq<real>, k: real): real
    requires 0.0 <= k <= (|s| - 1) as real
  {
    var f, c := k.Floor, Ceiling(k);
    if f == c then s[f] else s[f] * (c as real - k) + s[c] * (k - f as real)
  }

  lemma ScaleBetween(m: real, t: real)
    requires 0.0 <= m && 0.0 <= t <= 1.0
    ensures 0.0 <= m * t <= m
  {
  }

  /** Where the p-th percentile lies among n sorted values. */
  function Position(n: nat, p: real): (k: real)
    requires 0 < n && 0.0 <= p <= 100.0
    ensures 0.0 <= k <= (n - 1) as real
  {
    var t := p / 100.0;
    ScaleBetween((n - 1) as real, t);
    (n - 1) as real * t
  }

  /** `percentile`, for 0 <= p <= 100; an empty list is an error. */
  function Percentile(values: seq<real>, p: real): Option<real>
    requires 0.0 <= p <= 100.0
  {
    if values == [] then None
    else
      SortPermutes(RealLeq, values);
      Some(Interpolate(SortedValues(values), Position(|values|, p)))
  }

  /** `statistics.median`. */
  function Median(values: seq<real>): Option<real> {
    if values == [] then None
    else
      SortPermutes(RealLeq, values);
      var s, n := SortedValues(values), |values|;
      Some(if n % 2 == 1 then s[n / 2] else (s[n / 2 - 1] + s[n / 2]) / 2.0)
  }

  ghost predicate Ascending(s: seq<real>) {
    forall i, j | 0 <= i <= j < |s| :: s[i] <= s[j]
  }

  lemma WeightedBetween(lo: real, hi: real, t: real)
    requires lo <= hi && 0.0 <= t <= 1.0
    ensures lo <= lo * (1.0 - t) + hi * t <= hi
  {
    ScaleBetween(hi - lo, t);
    ScaleBetween(hi - lo, 1.0 - t);
    assert lo * (1.0 - t) + hi * t - lo == (hi - lo) * t;
    assert hi - (lo * (1.0 - t) + hi * t) == (hi - lo) * (1.0 - t);
  }

  lemma WeightedMonotone(lo: real, hi: real, t: real, u: real)
    requires lo <= hi && 0.0 <= t <= u <= 1.0
    ensures lo * (1.0 - t) + hi * t <= lo * (1.0 - u) + hi * u
  {
    assert (lo * (1.0 - u) + hi * u) - (lo * (1.0 - t) + hi * t) == (hi - lo) * (u - t);
    ScaleBetween(hi - lo, u - t);
  }

  /** An interpolated value lies between its neighbours. */
  lemma InterpolateBetween(s: seq<real>, k: real)
    requires 0.0 <= k <= (|s| - 1) as real && Ascending(s)
    ensures s[k.Floor] <= Interpolate(s, k) <= s[Ceiling(k)]
  {
    var f, c := k.Floor, Ceiling(k);
    if f != c {
      var t := k - f as real;
      assert c as real - k == 1.0 - t;
      WeightedBetween(s[f], s[c], t);
      assert Interpolate(s, k) == s[f] * (1.0 - t) + s[c] * t;
    }
  }

  lemma InterpolateMonotone(s: seq<real>, k: real, m: real)
    requires 0.0 <= k <= m <= (|s| - 1) as real && Ascending(s)
    ensures Interpolate(s, k) <= Interpolate(s, m)
  {
    InterpolateBetween(s, k);
    InterpolateBetween(s, m);
    if k.Floor == m.Floor && Ceiling(k) == Ceiling(m) && k.Floor != Ceiling(k) {
      var f, c := k.Floor, Ceiling(k);
      assert c as real - k == 1.0 - (k - f as real) && c as real - m == 1.0 - (m - f as real);
      WeightedMonotone(s[f], s[c], k - f as real, m - f as real);
    } else {
      assert Ceiling(k) <= m.Floor || k.Floor == Ceiling(k);
    }
  }

  lemma ScaleNonNegative(m: real, t: real)
    requires 0.0 <= m && 0.0 <= t
    ensures 0.0 <= m * t
  {
  }

  lemma PositionMonotone(n: nat, p: real, q: real)
    requires 0 < n && 0.0 <= p <= q <= 100.0
    ensures Position(n, p) <= Position(n, q)
  {
    var m, t, u := (n - 1) as real, p / 100.0, q / 100.0;
    ScaleNonNegative(m, u - t);
    assert m * u - m * t == m * (u - t);
  }

  lemma PositionValues(n: nat)
    requires 0 < n
    ensures Position(n, 0.0) == 0.0 && Position(n, 100.0) == (n - 1) as real
    ensures Position(n, 50.0) == (n - 1) as real * 0.5
  {
    assert 100.0 / 100.0 == 1.0 && 50.0 / 100.0 == 0.5 && 0.0 / 100.0 == 0.0;
  }

  /** The percentile grows with p, across interpolation segments. */
  lemma PercentileMonotone(values: seq<real>, p: real, q: real)
    requires values != [] && 0.0 <= p <= q <= 100.0
    ensures Percentile(values, p).value <= Percentile(values, q).value
  {
    SortedFacts(values);
    PositionMonotone(|values|, p, q);
    InterpolateMonotone(SortedValues(values), Position(|values|, p), Position(|values|, q));
  }

  ghost predicate IsMinimum(m: real, values: seq<real>) {
    m in values && forall v | v in values :: m <= v
  }

  ghost predicate IsMaximum(m: real, values: seq<real>) {
    m in values && forall v | v in values :: v <= m
  }

  /** The 0th percentile is the minimum and the 100th the maximum. */
  lemma PercentileExtremes(values: seq<real>)
    requires values != []
    ensures IsMinimum(Percentile(values, 0.0).value, values)
    ensures IsMaximum(Percentile(values, 100.0).value, values)
  {
    var s := SortedValues(values);
    SortedFacts(values);
    PositionValues(|values|);
    forall v
      ensures v in values <==> v in s
    {
      assert v in values <==> v in multiset(values);
      assert v in s <==> v in multiset(s);
    }
    assert s[0] in s && s[|s| - 1] in s;
  }

  /** Every percentile lies between the minimum and the maximum. */
  lemma PercentileBounded(values: seq<real>, p: real, lo: real, hi: real)
    requires values != [] && 0.0 <= p <= 100.0 && IsMinimum(lo, values) && IsMaximum(hi, values)
    ensures lo <= Percentile(values, p).value <= hi
  {
    PercentileExtremes(values);
    PercentileMonotone(values, 0.0, p);
    PercentileMonotone(values, p, 100.0);
  }

  lemma HeadIsLeast(a: seq<real>, b: seq<real>)
    requires Ascending(a) && Ascending(b) && a != [] && b != [] && multiset(a) == multiset(b)
    ensures a[0] <= b[0]
  {
    assert b[0] in multiset(a);
    var i :| 0 <= i < |a| && a[i] == b[0];
  }

  lemma TailMultiset(a: seq<real>)
    requires a != []
    ensures multiset(a[1..]) == multiset(a) - multiset{a[0]}
  {
    assert a == [a[0]] + a[1..];
  }

  lemma {:induction false} AscendingUnique(a: seq<real>, b: seq<real>)
    requires Ascending(a) && Ascending(b) && |a| == |b| && multiset(a) == multiset(b)
    ensures a == b
  {
    if a != [] {
      HeadIsLeast(a, b);
      HeadIsLeast(b, a);
      TailMultiset(a);
      TailMultiset(b);
      AscendingUnique(a[1..], b[1..]);
      assert a == [a[0]] + a[1..] && b == [b[0]] + b[1..];
    }
  }

  /** Between neighbours of the sorted list the percentile is linear in p: at t of the way
      from the i-th to the next it is t of the way from the one value to the other. */
  lemma PercentileIsLinear(values: seq<real>, s: seq<real>, p: real, i: nat, t: real)
    requires Ascending(s) && multiset(s) == multiset(values) && i + 1 < |values|
    requires 0.0 <= t <= 1.0 && 0.0 <= p <= 100.0 && p * (|values| - 1) as real == 100.0 * (i as real + t)
    ensures |s| == |values| && Percentile(values, p) == Some(s[i] + t * (s[i + 1] - s[i]))
  {
    SortedIs(values, s);
    PositionOf(|values|, p, i as real + t);
    PercentileAt(values, p, i as real + t);
    InterpolationIsLinear(s, i, t);
  }

  lemma SortedIs(values: seq<real>, s: seq<real>)
    requires Ascending(s) && multiset(s) == multiset(values)
    ensures |s| == |values| && s == SortedValues(values)
  {
    SortedFacts(values);
    assert |s| == |multiset(s)| && |values| == |multiset(values)|;
    AscendingUnique(s, SortedValues(values));
  }

  lemma PercentileAt(values: seq<real>, p: real, k: real)
    requires values != [] && 0.0 <= p <= 100.0 && Position(|values|, p) == k
    ensures |SortedValues(values)| == |values| && Percentile(values, p) == Some(Interpolate(SortedValues(values), k))
  {
    SortedFacts(values);
  }

  lemma PositionOf(n: nat, p: real, k: real)
    requires 1 < n && 0.0 <= p <= 100.0 && p * (n - 1) as real == 100.0 * k
    ensures Position(n, p) == k
  {
    var m := (n - 1) as real;
    assert p == 100.0 * (p / 100.0);
    assert 100.0 * (m * (p / 100.0)) == m * (100.0 * (p / 100.0));
  }

  lemma InterpolationIsLinear(s: seq<real>, i: nat, t: real)
    requires i + 1 < |s| && 0.0 <= t <= 1.0
    ensures Interpolate(s, i as real + t) == s[i] + t * (s[i + 1] - s[i])
  {
    var k := i as real + t;
    if t == 1.0 {
      assert k.Floor == i + 1;
    } else {
      assert k.Floor == i;
      if t != 0.0 {
        assert Ceiling(k) == i + 1;
        assert Interpolate(s, k) == s[i] * (1.0 - t) + s[i + 1] * t;
      }
    }
  }

  /** Only the multiset of values matters. */
  lemma PercentileIgnoresOrder(a: seq<real>, b: seq<real>, p: real)
    requires multiset(a) == multiset(b) && 0.0 <= p <= 100.0
    ensures Percentile(a, p) == Percentile(b, p)
  {
    SortedFacts(a);
    SortedFacts(b);
    assert |a| == |multiset(a)| && |b| == |multiset(b)|;
    AscendingUnique(SortedValues(a), SortedValues(b));
  }

  /** The 50th percentile is the median. */
  lemma PercentileMedian(values: seq<real>)
    ensures Percentile(values, 50.0) == Median(values)
  {
    if values != [] {
      var n := |values|;
      SortedFacts(values);
      PositionValues(n);
      var k, s := Position(n, 50.0), SortedValues(values);
      if n % 2 == 1 {
        assert k == (n / 2) as real;
      } else {
        var f := n / 2 - 1;
        assert k == f as real + 0.5;
        assert k.Floor == f && Ceiling(k) == f + 1;
        assert Interpolate(s, k) == s[f] * 0.5 + s[f + 1] * 0.5;
      }
    }
  }

  // ---- Least squares ----

  function Sum(s: seq<real>): real {
    if s == [] then 0.0 else s[0] + Sum(s[1..])
  }

  function Dot(x: seq<real>, y: seq<real>): real
    requires |x| == |y|
  {
    if x == [] then 0.0 else x[0] * y[0] + Dot(x[1..], y[1..])
  }

  function Square(a: real): real {
    a * a
  }

  /** Sum of squared residuals of the line slope * x + intercept. */
  function SquaredResiduals(x: seq<real>, y: seq<real>, slope: real, intercept: real): real
    requires |x| == |y|
  {
    if x == [] then 0.0
    else Square(y[0] - (slope * x[0] + intercept)) + SquaredResiduals(x[1..], y[1..], slope, intercept)
  }

  /** The sums a regression is computed from; `syy` is used in proofs only. */
  datatype Moments = Moments(n: real, sx: real, sy: real, sxx: real, sxy: real, syy: real)

  function MomentsOf(x: seq<real>, y: seq<real>): Moments
    requires |x| == |y|
  {
    Moments(|x| as real, Sum(x), Sum(y), Dot(x, x), Dot(x, y), Dot(y, y))
  }

  function Denominator(m: Moments): real {
    m.n * m.sxx - m.sx * m.sx
  }

  function Numerator(m: Moments): real {
    m.n * m.sxy - m.sx * m.sy
  }

  datatype Regression = Regression(slope: real, intercept: real, rSquared: real)

  const EPSILON: real := 0.000000000000001

  function Abs(a: real): real {
    if a < 0.0 then -a else a
  }

  function Max(a: real, b: real): real {
    if a < b then b else a
  }

  /** The line `linregress` computes from the sums, for at least two points. */
  function FittedSlope(m: Moments): real {
    if Abs(Denominator(m)) < EPSILON then 0.0 else Numerator(m) / Denominator(m)
  }

  function FittedIntercept(m: Moments): real
    requires m.n != 0.0
  {
    if Abs(Denominator(m)) < EPSILON then m.sy / m.n else (m.sy - FittedSlope(m) * m.sx) / m.n
  }

  function CorrelationSquared(res: real, tot: real): real {
    if tot > 0.0 then Max(0.0, 1.0 - res / tot) else 0.0
  }

  /** `linregress`; `rSquared` is the square of its third result. */
  function LinRegress(x: seq<real>, y: seq<real>): Regression
    requires |x| == |y|
  {
    if |x| < 2 then Regression(0.0, 0.0, 0.0)
    else
      var m := MomentsOf(x, y);
      var slope, intercept := FittedSlope(m), FittedIntercept(m);
      if Abs(Denominator(m)) < EPSILON then Regression(slope, intercept, 0.0)
      else
        var res := SquaredResiduals(x, y, slope, intercept);
        var tot := SquaredResiduals(x, y, 0.0, m.sy / m.n);
        Regression(slope, intercept, CorrelationSquared(res, tot))
  }

  // ---- The residual sum as a polynomial in the line's coefficients ----

  function Add(m: Moments, k: Moments): Moments {
    Moments(m.n + k.n, m.sx + k.sx, m.sy + k.sy, m.sxx + k.sxx, m.sxy + k.sxy, m.syy + k.syy)
  }

  function Point(u: real, v: real): Moments {
    Moments(1.0, u, v, u * u, u * v, v * v)
  }

  function Expand(m: Moments, a: real, b: real): real {
    m.syy - 2.0 * a * m.sxy - 2.0 * b * m.sy + a * a * m.sxx + 2.0 * a * b * m.sx + m.n * b * b
  }

  lemma MomentsStep(x: seq<real>, y: seq<real>)
    requires |x| == |y| && x != []
    ensures MomentsOf(x, y) == Add(Point(x[0], y[0]), MomentsOf(x[1..], y[1..]))
  {
  }

  lemma ExpandAdd(m: Moments, k: Moments, a: real, b: real)
    ensures Expand(Add(m, k), a, b) == Expand(m, a, b) + Expand(k, a, b)
  {
    assert a * a * (m.sxx + k.sxx) == a * a * m.sxx + a * a * k.sxx;
    assert 2.0 * a * (m.sxy + k.sxy) == 2.0 * a * m.sxy + 2.0 * a * k.sxy;
    assert 2.0 * b * (m.sy + k.sy) == 2.0 * b * m.sy + 2.0 * b * k.sy;
    assert 2.0 * a * b * (m.sx + k.sx) == 2.0 * a * b * m.sx + 2.0 * a * b * k.sx;
    assert (m.n + k.n) * b * b == m.n * b * b + k.n * b * b;
  }

  lemma ExpandPoint(u: real, v: real, a: real, b: real)
    ensures Expand(Point(u, v), a, b) == Square(v - (a * u + b))
  {
    var e := v - a * u;
    assert Square(v - (a * u + b)) == e * e - 2.0 * e * b + b * b;
    assert e * e == v * v - 2.0 * a * (u * v) + a * a * (u * u);
    assert 2.0 * e * b == 2.0 * b * v - 2.0 * a * b * u;
  }

  lemma ResidualsUnfold(x: seq<real>, y: seq<real>, a: real, b: real)
    requires |x| == |y| && x != []
    ensures
      SquaredResiduals(x, y, a, b)
      == Expand(Point(x[0], y[0]), a, b) + SquaredResiduals(x[1..], y[1..], a, b)
  {
    ExpandPoint(x[0], y[0], a, b);
  }

  lemma {:induction false} ResidualsExpand(x: seq<real>, y: seq<real>, a: real, b: real)
    requires |x| == |y|
    ensures SquaredResiduals(x, y, a, b) == Expand(MomentsOf(x, y), a, b)
  {
    if x == [] {
      assert MomentsOf(x, y) == Moments(0.0, 0.0, 0.0, 0.0, 0.0, 0.0);
    } else {
      var point, rest := Point(x[0], y[0]), MomentsOf(x[1..], y[1..]);
      calc {
        SquaredResiduals(x, y, a, b);
        { ResidualsUnfold(x, y, a, b); }
        Expand(point, a, b) + SquaredResiduals(x[1..], y[1..], a, b);
        { ResidualsExpand(x[1..], y[1..], a, b); }
        Expand(point, a, b) + Expand(rest, a, b);
        { ExpandAdd(point, rest, a, b); }
        Expand(Add(point, rest), a, b);
        { MomentsStep(x, y); }
        Expand(MomentsOf(x, y), a, b);
      }
    }
  }

  lemma SquareNonNegative(a: real)
    ensures 0.0 <= Square(a)
  {
  }

  lemma {:induction false} ResidualsNonNegative(x: seq<real>, y: seq<real>, a: real, b: real)
    requires |x| == |y|
    ensures 0.0 <= SquaredResiduals(x, y, a, b)
  {
    if x != [] {
      ResidualsNonNegative(x[1..], y[1..], a, b);
      SquareNonNegative(y[0] - (a * x[0] + b));
    }
  }

  // ---- The denominator is a sum of squared pairwise differences ----

  function SquaredDistances(c: real, x: seq<real>): real {
    if x == [] then 0.0 else Square(c - x[0]) + SquaredDistances(c, x[1..])
  }

  function PairwiseSquares(x: seq<real>): real {
    if x == [] then 0.0 else SquaredDistances(x[0], x[1..]) + PairwiseSquares(x[1..])
  }

  function Spread(m: Moments, c: real): real {
    m.n * (c * c) - 2.0 * c * m.sx + m.sxx
  }

  lemma SpreadStep(m: Moments, c: real, u: real, v: real)
    ensures Spread(Add(Point(u, v), m), c) == Square(c - u) + Spread(m, c)
  {
    assert (1.0 + m.n) * (c * c) == c * c + m.n * (c * c);
    assert 2.0 * c * (u + m.sx) == 2.0 * c * u + 2.0 * c * m.sx;
    assert Square(c - u) == c * c - 2.0 * c * u + u * u;
  }

  lemma {:induction false} DistancesAreSpread(c: real, x: seq<real>, y: seq<real>)
    requires |x| == |y|
    ensures SquaredDistances(c, x) == Spread(MomentsOf(x, y), c)
    ensures 0.0 <= SquaredDistances(c, x)
  {
    if x != [] {
      DistancesAreSpread(c, x[1..], y[1..]);
      MomentsStep(x, y);
      SpreadStep(MomentsOf(x[1..], y[1..]), c, x[0], y[0]);
      SquareNonNegative(c - x[0]);
    }
  }

  lemma DenominatorStep(m: Moments, u: real, v: real)
    ensures Denominator(Add(Point(u, v), m)) == Spread(m, u) + Denominator(m)
  {
    assert (1.0 + m.n) * (u * u + m.sxx) == u * u + m.sxx + m.n * (u * u) + m.n * m.sxx;
    assert (u + m.sx) * (u + m.sx) == u * u + 2.0 * u * m.sx + m.sx * m.sx;
  }

  /** The denominator is the sum of the squared pairwise differences of x, hence non-negative. */
  lemma {:induction false} DenominatorIsPairwise(x: seq<real>, y: seq<real>)
    requires |x| == |y|
    ensures Denominator(MomentsOf(x, y)) == PairwiseSquares(x)
    ensures 0.0 <= PairwiseSquares(x)
  {
    if x != [] {
      DenominatorIsPairwise(x[1..], y[1..]);
      DistancesAreSpread(x[0], x[1..], y[1..]);
      MomentsStep(x, y);
      DenominatorStep(MomentsOf(x[1..], y[1..]), x[0], y[0]);
    }
  }

  // ---- Normal equations and optimality ----

  function MeanGap(m: Moments, a: real, b: real): real {
    m.sy - a * m.sx - m.n * b
  }

  function SlopeGap(m: Moments, a: real, b: real): real {
    m.sxy - a * m.sxx - b * m.sx
  }

  /** The residuals of the line sum to zero, also when weighted by x. */
  ghost predicate NormalEquations(x: seq<real>, y: seq<real>, a: real, b: real)
    requires |x| == |y|
  {
    var m := MomentsOf(x, y);
    MeanGap(m, a, b) == 0.0 && SlopeGap(m, a, b) == 0.0
  }

  ghost predicate LeastSquares(x: seq<real>, y: seq<real>, a: real, b: real)
    requires |x| == |y|
  {
    forall a', b' :: SquaredResiduals(x, y, a, b) <= SquaredResiduals(x, y, a', b')
  }

  function Quadratic(m: Moments, da: real, db: real): real {
    da * da * m.sxx + 2.0 * da * db * m.sx + m.n * db * db
  }

  /** Moving a line by (da, db) changes the residual sum by a linear and a quadratic part. */
  lemma ExpandShift(m: Moments, a: real, b: real, da: real, db: real)
    ensures
      Expand(m, a + da, b + db)
      == Expand(m, a, b) - 2.0 * da * SlopeGap(m, a, b) - 2.0 * db * MeanGap(m, a, b) + Quadratic(m, da, db)
  {
    var Moments(n, sx, sy, sxx, sxy, syy) := m;
    assert 2.0 * (a + da) * sxy == 2.0 * a * sxy + 2.0 * da * sxy;
    assert 2.0 * (b + db) * sy == 2.0 * b * sy + 2.0 * db * sy;
    assert (a + da) * (a + da) * sxx == a * a * sxx + 2.0 * da * (a * sxx) + da * da * sxx;
    assert 2.0 * (a + da) * (b + db) * sx ==
        2.0 * a * b * sx + 2.0 * db * (a * sx) + 2.0 * da * (b * sx) + 2.0 * da * db * sx;
    assert n * (b + db) * (b + db) == n * b * b + 2.0 * db * (n * b) + n * db * db;
  }

  function Zeros(n: nat): seq<real> {
    seq(n, i => 0.0)
  }

  lemma {:induction false} ZeroSums(x: seq<real>)
    ensures Sum(Zeros(|x|)) == 0.0 && Dot(x, Zeros(|x|)) == 0.0 && Dot(Zeros(|x|), Zeros(|x|)) == 0.0
  {
    if x != [] {
      ZeroSums(x[1..]);
      assert Zeros(|x|)[1..] == Zeros(|x[1..]|);
    }
  }

  lemma ZeroExpand(m: Moments, da: real, db: real)
    requires m.sy == 0.0 && m.sxy == 0.0 && m.syy == 0.0
    ensures Expand(m, da, db) == Quadratic(m, da, db)
  {
  }

  lemma QuadraticIgnoresY(m: Moments, k: Moments, da: real, db: real)
    requires m.n == k.n && m.sx == k.sx && m.sxx == k.sxx
    ensures Quadratic(m, da, db) == Quadratic(k, da, db)
  {
  }

  /** The quadratic part is itself a sum of squares. */
  lemma QuadraticNonNegative(x: seq<real>, y: seq<real>, da: real, db: real)
    requires |x| == |y|
    ensures 0.0 <= Quadratic(MomentsOf(x, y), da, db)
  {
    var zeros := Zeros(|x|);
    ZeroSums(x);
    ResidualsExpand(x, zeros, da, db);
    ResidualsNonNegative(x, zeros, da, db);
    ZeroExpand(MomentsOf(x, zeros), da, db);
    QuadraticIgnoresY(MomentsOf(x, zeros), MomentsOf(x, y), da, db);
  }

  lemma StationaryIsLeast(m: Moments, a: real, b: real, a': real, b': real)
    requires MeanGap(m, a, b) == 0.0 && SlopeGap(m, a, b) == 0.0
    requires 0.0 <= Quadratic(m, a' - a, b' - b)
    ensures Expand(m, a, b) <= Expand(m, a', b')
  {
    ExpandShift(m, a, b, a' - a, b' - b);
    assert a + (a' - a) == a' && b + (b' - b) == b';
  }

  /** A line that solves the normal equations has the least residual sum of all lines. */
  lemma NormalEquationsAreOptimal(x: seq<real>, y: seq<real>, a: real, b: real)
    requires |x| == |y| && NormalEquations(x, y, a, b)
    ensures LeastSquares(x, y, a, b)
  {
    forall a', b'
      ensures SquaredResiduals(x, y, a, b) <= SquaredResiduals(x, y, a', b')
    {
      ResidualsExpand(x, y, a, b);
      ResidualsExpand(x, y, a', b');
      QuadraticNonNegative(x, y, a' - a, b' - b);
      StationaryIsLeast(MomentsOf(x, y), a, b, a', b');
    }
  }

  /** Cramer's rule: the two quotients solve the normal equations. */
  lemma CramerSolves(m: Moments, a: real, b: real)
    requires m.n > 0.0
    requires a * Denominator(m) == Numerator(m) && m.n * b == m.sy - a * m.sx
    ensures MeanGap(m, a, b) == 0.0 && SlopeGap(m, a, b) == 0.0
  {
    var Moments(n, sx, sy, sxx, sxy, syy) := m;
    var gap := SlopeGap(m, a, b);
    assert n * gap == n * sxy - a * (n * sxx) - (n * b) * sx;
    assert (sy - a * sx) * sx == sx * sy - a * (sx * sx);
    assert a * (n * sxx - sx * sx) == a * (n * sxx) - a * (sx * sx);
    assert n * gap == 0.0;
  }

  lemma FitSolves(m: Moments)
    requires m.n > 0.0 && EPSILON <= Abs(Denominator(m))
    ensures MeanGap(m, FittedSlope(m), FittedIntercept(m)) == 0.0
    ensures SlopeGap(m, FittedSlope(m), FittedIntercept(m)) == 0.0
  {
    var a, b := FittedSlope(m), FittedIntercept(m);
    assert Denominator(m) != 0.0;
    QuotientTimes(Numerator(m), Denominator(m));
    QuotientTimes(m.sy - a * m.sx, m.n);
    assert b * m.n == m.n * b;
    CramerSolves(m, a, b);
  }

  lemma QuotientTimes(p: real, q: real)
    requires q != 0.0
    ensures p / q * q == p
  {
  }

  /** In its main branch the regression solves the normal equations and is least squares. */
  lemma MainBranchIsLeastSquares(x: seq<real>, y: seq<real>)
    requires |x| == |y| && 2 <= |x| && EPSILON <= Abs(Denominator(MomentsOf(x, y)))
    ensures
      var r := LinRegress(x, y);
      NormalEquations(x, y, r.slope, r.intercept) && LeastSquares(x, y, r.slope, r.intercept)
  {
    var m := MomentsOf(x, y);
    FitSolves(m);
    NormalEquationsAreOptimal(x, y, FittedSlope(m), FittedIntercept(m));
  }

  lemma PositiveFactor(p: real, t: real)
    requires 0.0 < t && 0.0 <= p * t
    ensures 0.0 <= p
  {
  }

  lemma QuotientBetween(res: real, tot: real)
    requires 0.0 <= res <= tot && 0.0 < tot
    ensures 0.0 <= 1.0 - res / tot <= 1.0
  {
    var q := res / tot;
    QuotientTimes(res, tot);
    assert (1.0 - q) * tot == tot - res;
    PositiveFactor(q, tot);
    PositiveFactor(1.0 - q, tot);
  }

  /** The residual sum never exceeds the total, so the clamp on the correlation never acts. */
  lemma CorrelationNeedsNoClamp(x: seq<real>, y: seq<real>)
    requires |x| == |y| && 2 <= |x| && EPSILON <= Abs(Denominator(MomentsOf(x, y)))
    ensures
      var r := LinRegress(x, y);
      var res := SquaredResiduals(x, y, r.slope, r.intercept);
      var tot := SquaredResiduals(x, y, 0.0, Sum(y) / |x| as real);
      && 0.0 <= res <= tot
      && 0.0 <= r.rSquared <= 1.0
      && r.rSquared == if 0.0 < tot then 1.0 - res / tot else 0.0
  {
    var r := LinRegress(x, y);
    MainBranchIsLeastSquares(x, y);
    ResidualsNonNegative(x, y, r.slope, r.intercept);
    var res := SquaredResiduals(x, y, r.slope, r.intercept);
    var tot := SquaredResiduals(x, y, 0.0, Sum(y) / |x| as real);
    if 0.0 < tot {
      QuotientBetween(res, tot);
    }
  }

  // ---- The squared correlation ----

  /** The mean line's residual sum, scaled, is y's own denominator. */
  lemma TotalIsSpread(m: Moments, my: real)
    requires m.n * my == m.sy
    ensures m.n * Expand(m, 0.0, my) == m.n * m.syy - m.sy * m.sy
  {
    var Moments(n, sx, sy, sxx, sxy, syy) := m;
    var cross := my * sy;
    assert Expand(m, 0.0, my) == syy - 2.0 * cross + my * (n * my);
    assert my * (n * my) == cross;
    assert n * cross == (n * my) * sy == sy * sy;
  }

  /** What the regression's sums amount to, in numbers alone. */
  predicate Explained(n: real, res: real, tot: real, slope: real, d: real, e: real, numerator: real) {
    && n * res == n * tot - 2.0 * slope * numerator + slope * slope * d
    && slope * d == numerator
    && n * tot == e
  }

  lemma CramerExplains(m: Moments, mx: real, my: real, a: real)
    requires m.n * mx == m.sx && m.n * my == m.sy && a * Denominator(m) == Numerator(m)
    ensures
      Explained(m.n, Expand(m, a, my - a * mx), Expand(m, 0.0, my), a, Denominator(m), m.n * m.syy - m.sy * m.sy,
        Numerator(m))
  {
    TiltedLine(m, mx, my, a);
    TotalIsSpread(m, my);
  }

  lemma ExplainedShare(n: real, res: real, tot: real, slope: real, d: real, e: real, numerator: real, share: real)
    requires Explained(n, res, tot, slope, d, e, numerator) && 0.0 <= res <= tot
    requires share == if 0.0 < tot then 1.0 - res / tot else 0.0
    ensures share * d * e == numerator * numerator
  {
    Regroup(slope, slope, d);
    assert n * (tot - res) == slope * numerator;
    if 0.0 < tot {
      QuotientTimes(res, tot);
    }
    assert share * tot == tot - res;
    Regroup(n, share, tot);
    Regroup(share, n, tot);
    assert share * e == slope * numerator;
    Regroup(share, d, e);
    Regroup(share, e, d);
    Regroup(slope, numerator, d);
  }

  lemma Regroup(p: real, q: real, t: real)
    ensures p * q * t == p * (q * t) == (p * t) * q
  {
  }

  lemma FittedThroughCentroid(m: Moments, mx: real, my: real)
    requires m.n > 0.0 && EPSILON <= Abs(Denominator(m))
    requires m.n * mx == m.sx && my == m.sy / m.n && m.n * my == m.sy
    ensures FittedIntercept(m) == my - FittedSlope(m) * mx
  {
    var a, b := FittedSlope(m), FittedIntercept(m);
    QuotientTimes(m.sy - a * m.sx, m.n);
    assert m.n * (my - a * mx) == m.sy - a * m.sx;
    SameFactor(m.n, b, my - a * mx);
  }

  lemma SameFactor(n: real, p: real, q: real)
    requires n != 0.0 && n * p == n * q
    ensures p == q
  {
    assert n * (p - q) == 0.0;
  }

  /** The third result, squared, is the squared Pearson correlation. */
  lemma SquaredCorrelation(x: seq<real>, y: seq<real>)
    requires |x| == |y| && 2 <= |x| && EPSILON <= Abs(Denominator(MomentsOf(x, y)))
    ensures
      var numerator := Numerator(MomentsOf(x, y));
      LinRegress(x, y).rSquared * Denominator(MomentsOf(x, y)) * Denominator(MomentsOf(y, x)) == numerator * numerator
  {
    var n, res, tot, a := FitExplains(x, y);
    ExplainedShare(n, res, tot, a, Denominator(MomentsOf(x, y)), Denominator(MomentsOf(y, x)),
      Numerator(MomentsOf(x, y)), LinRegress(x, y).rSquared);
  }

  lemma FitExplains(x: seq<real>, y: seq<real>) returns (n: real, res: real, tot: real, a: real)
    requires |x| == |y| && 2 <= |x| && EPSILON <= Abs(Denominator(MomentsOf(x, y)))
    ensures
      Explained(n, res, tot, a, Denominator(MomentsOf(x, y)), Denominator(MomentsOf(y, x)), Numerator(MomentsOf(x, y)))
    ensures 0.0 <= res <= tot && LinRegress(x, y).rSquared == if 0.0 < tot then 1.0 - res / tot else 0.0
  {
    var m := MomentsOf(x, y);
    var mx, my, b;
    mx, my, a, b := FittedLine(x, y);
    CramerExplains(m, mx, my, a);
    n, res, tot := m.n, Expand(m, a, b), Expand(m, 0.0, my);
  }

  lemma FittedLine(x: seq<real>, y: seq<real>) returns (mx: real, my: real, a: real, b: real)
    requires |x| == |y| && 2 <= |x| && EPSILON <= Abs(Denominator(MomentsOf(x, y)))
    ensures
      var m := MomentsOf(x, y);
      var res, tot := Expand(m, a, b), Expand(m, 0.0, my);
      && m.n * mx == m.sx && m.n * my == m.sy && a * Denominator(m) == Numerator(m) && b == my - a * mx
      && 0.0 <= res <= tot
      && LinRegress(x, y).rSquared == if 0.0 < tot then 1.0 - res / tot else 0.0
  {
    var m := MomentsOf(x, y);
    mx, my := Centroid(m);
    a, b := FittedSlope(m), FittedIntercept(m);
    FittedRelations(m, mx, my);
    RegressionShare(x, y);
  }

  lemma FittedRelations(m: Moments, mx: real, my: real)
    requires m.n > 0.0 && EPSILON <= Abs(Denominator(m))
    requires m.n * mx == m.sx && my == m.sy / m.n && m.n * my == m.sy
    ensures FittedSlope(m) * Denominator(m) == Numerator(m)
    ensures FittedIntercept(m) == my - FittedSlope(m) * mx
  {
    QuotientTimes(Numerator(m), Denominator(m));
    FittedThroughCentroid(m, mx, my);
  }

  lemma RegressionShare(x: seq<real>, y: seq<real>)
    requires |x| == |y| && 2 <= |x| && EPSILON <= Abs(Denominator(MomentsOf(x, y)))
    ensures
      var m := MomentsOf(x, y);
      var res, tot := Expand(m, FittedSlope(m), FittedIntercept(m)), Expand(m, 0.0, m.sy / m.n);
      && 0.0 <= res <= tot
      && LinRegress(x, y).rSquared == if 0.0 < tot then 1.0 - res / tot else 0.0
  {
    var m := MomentsOf(x, y);
    CorrelationNeedsNoClamp(x, y);
    ResidualsExpand(x, y, FittedSlope(m), FittedIntercept(m));
    ResidualsExpand(x, y, 0.0, m.sy / m.n);
  }

  /** Pearson's correlation of x and y, by its square and its sign. */
  ghost predicate IsCorrelation(x: seq<real>, y: seq<real>, rho: real)
    requires |x| == |y|
  {
    var numerator := Numerator(MomentsOf(x, y));
    && rho * rho * Denominator(MomentsOf(x, y)) * Denominator(MomentsOf(y, x)) == numerator * numerator
    && 0.0 <= rho * numerator
  }

  lemma EqualSquares(c: real, rho: real, scale: real)
    requires scale > 0.0 && c * c * scale == rho * rho * scale && 0.0 <= c
    ensures c == Abs(rho)
  {
    var a := Abs(rho);
    assert a * a == rho * rho;
    SameFactor(scale, c * c, a * a);
    assert (c - a) * (c + a) == 0.0;
    if c + a != 0.0 {
      SameFactor(c + a, c - a, 0.0);
    }
  }

  lemma ZeroFactor(p: real, q: real)
    requires p * q == 0.0
    ensures p == 0.0 || q == 0.0
  {
  }

  lemma SignOfCorrelation(rho: real, scale: real, numerator: real)
    requires 0.0 < scale && rho * rho * scale == numerator * numerator && 0.0 <= rho * numerator
    ensures Abs(rho) == rho <==> 0.0 <= numerator
  {
    if rho == 0.0 {
      ZeroFactor(numerator, numerator);
    } else if numerator == 0.0 {
      ZeroFactor(rho * rho, scale);
      ZeroFactor(rho, rho);
    }
  }

  /** The third result is the size of the correlation, hence the correlation itself
      exactly when the numerator, and with it the slope, is not negative. */
  lemma ThirdResultIsCorrelationIff(x: seq<real>, y: seq<real>, third: real, rho: real)
    requires |x| == |y| && 2 <= |x| && EPSILON <= Abs(Denominator(MomentsOf(x, y)))
    requires 0.0 < Denominator(MomentsOf(y, x)) && IsCorrelation(x, y, rho)
    requires 0.0 <= third && third * third == LinRegress(x, y).rSquared
    ensures third == Abs(rho)
    ensures third == rho <==> 0.0 <= Numerator(MomentsOf(x, y))
  {
    var d, e := Denominator(MomentsOf(x, y)), Denominator(MomentsOf(y, x));
    var numerator := Numerator(MomentsOf(x, y));
    DenominatorIsPairwise(x, y);
    SquaredCorrelation(x, y);
    Regroup(third * third, d, e);
    Regroup(rho * rho, d, e);
    ScalePositive(d, e);
    EqualSquares(third, rho, d * e);
    SignOfCorrelation(rho, d * e, numerator);
  }

  lemma ScalePositive(d: real, e: real)
    requires 0.0 < d && 0.0 < e
    ensures 0.0 < d * e
  {
  }

  /** The two points (0, 0) and (1, -1) have correlation -1, and the third result is 1. */
  lemma FallingLineLosesItsSign(u: real, v: real)
    requires u == 1.0 && v == -1.0
    ensures
      var x, y := [0.0, u], [0.0, v];
      && IsCorrelation(x, y, -1.0)
      && EPSILON <= Abs(Denominator(MomentsOf(x, y))) && LinRegress(x, y).rSquared == 1.0
  {
    var x, y := [0.0, u], [0.0, v];
    SumsOfTwo(u, v);
    SquaredCorrelation(x, y);
    UnitShare(LinRegress(x, y).rSquared, Denominator(MomentsOf(x, y)), Denominator(MomentsOf(y, x)),
      Numerator(MomentsOf(x, y)));
  }

  lemma UnitShare(share: real, d: real, e: real, numerator: real)
    requires d == 1.0 && e == 1.0 && numerator == -1.0
    ensures share * d * e == numerator * numerator ==> share == 1.0
    ensures -1.0 * -1.0 * d * e == numerator * numerator && 0.0 <= -1.0 * numerator
  {
  }

  lemma SumsOfTwo(u: real, v: real)
    ensures
      var m := MomentsOf([0.0, u], [0.0, v]);
      Denominator(m) == u * u && Numerator(m) == u * v && Denominator(MomentsOf([0.0, v], [0.0, u])) == v * v
  {
    MomentsOfTwo(u, v);
    MomentsOfTwo(v, u);
  }

  // ---- The small-denominator branch ----

  /** Tilting the mean line by t about the centroid. */
  lemma TiltedLine(m: Moments, mx: real, my: real, t: real)
    requires m.n * mx == m.sx && m.n * my == m.sy
    ensures
      m.n * Expand(m, t, my - t * mx)
      == m.n * Expand(m, 0.0, my) - 2.0 * t * Numerator(m) + t * t * Denominator(m)
  {
    var Moments(n, sx, sy, sxx, sxy, syy) := m;
    var db := -(t * mx);
    ExpandShift(m, 0.0, my, t, db);
    assert 0.0 + t == t && my + db == my - t * mx;
    assert MeanGap(m, 0.0, my) == 0.0;
    var linear := SlopeGap(m, 0.0, my);
    assert n * linear == n * sxy - (n * my) * sx;
    assert n * db == -(t * sx);
    assert n * (2.0 * t * db * sx) == 2.0 * t * (n * db) * sx;
    assert n * (n * db * db) == (n * db) * (n * db);
    assert (t * sx) * (t * sx) == t * t * (sx * sx);
    assert n * (t * t * sxx) == t * t * (n * sxx);
    assert n * Quadratic(m, t, db) == t * t * (n * sxx) - t * t * (sx * sx);
    assert n * (2.0 * t * linear) == 2.0 * t * (n * linear);
  }

  lemma TiltImproves(numerator: real, denom: real) returns (t: real)
    requires numerator != 0.0
    ensures -2.0 * t * numerator + t * t * denom < 0.0
  {
    assert numerator * numerator > 0.0;
    if denom <= 0.0 {
      t := numerator;
      assert t * t * denom <= 0.0;
    } else {
      t := numerator / denom;
      QuotientTimes(numerator, denom);
      assert t * t * denom == t * (t * denom);
      assert t != 0.0 && t * t > 0.0 && t * t * denom > 0.0;
    }
  }

  lemma BetterLine(m: Moments, mx: real, my: real) returns (a: real, b: real)
    requires m.n > 0.0 && m.n * mx == m.sx && m.n * my == m.sy && Numerator(m) != 0.0
    ensures Expand(m, a, b) < Expand(m, 0.0, my)
  {
    var t := TiltImproves(Numerator(m), Denominator(m));
    TiltedLine(m, mx, my, t);
    a, b := t, my - t * mx;
    SmallerFactor(m.n, Expand(m, a, b), Expand(m, 0.0, my));
  }

  lemma SmallerFactor(n: real, p: real, q: real)
    requires n > 0.0 && n * p < n * q
    ensures p < q
  {
    assert (q - p) * n == n * q - n * p;
    PositiveFactor(q - p, n);
  }

  lemma MeanLineIsFlat(m: Moments, my: real)
    requires m.n > 0.0 && m.n * my == m.sy && Numerator(m) == 0.0
    ensures MeanGap(m, 0.0, my) == 0.0 && SlopeGap(m, 0.0, my) == 0.0
  {
    CramerSolves(m, 0.0, my);
  }

  lemma Centroid(m: Moments) returns (mx: real, my: real)
    requires m.n > 0.0
    ensures m.n * mx == m.sx && m.n * my == m.sy && my == m.sy / m.n
  {
    mx, my := m.sx / m.n, m.sy / m.n;
    QuotientTimes(m.sx, m.n);
    QuotientTimes(m.sy, m.n);
  }

  /** When the denominator counts as zero, the mean line returned is least squares
      exactly when the numerator is zero, as it is for a constant x or y. */
  lemma SmallBranchIsLeastSquaresIff(x: seq<real>, y: seq<real>)
    requires |x| == |y| && 2 <= |x| && Abs(Denominator(MomentsOf(x, y))) < EPSILON
    ensures
      var r := LinRegress(x, y);
      LeastSquares(x, y, r.slope, r.intercept) <==> Numerator(MomentsOf(x, y)) == 0.0
  {
    var m := MomentsOf(x, y);
    var mx, my := Centroid(m);
    if Numerator(m) == 0.0 {
      MeanLineIsFlat(m, my);
      NormalEquationsAreOptimal(x, y, 0.0, my);
    } else {
      var a, b := BetterLine(m, mx, my);
      ResidualsExpand(x, y, 0.0, my);
      ResidualsExpand(x, y, a, b);
      assert SquaredResiduals(x, y, a, b) < SquaredResiduals(x, y, 0.0, my);
    }
  }

  /** The branches by the pairwise spread of x: below 1e-15 the mean line with no correlation,
      from there on the least-squares line; with fewer than two points all is zero. */
  lemma BranchesBySpread(x: seq<real>, y: seq<real>)
    requires |x| == |y|
    ensures |x| < 2 ==> LinRegress(x, y) == Regression(0.0, 0.0, 0.0)
    ensures
      2 <= |x| && PairwiseSquares(x) < 0.000000000000001 ==>
      LinRegress(x, y) == Regression(0.0, Sum(y) / |y| as real, 0.0)
    ensures
      2 <= |x| && 0.000000000000001 <= PairwiseSquares(x) ==>
      LeastSquares(x, y, LinRegress(x, y).slope, LinRegress(x, y).intercept)
  {
    DenominatorIsPairwise(x, y);
    if 2 <= |x| && 0.000000000000001 <= PairwiseSquares(x) {
      MainBranchIsLeastSquares(x, y);
    }
  }

  lemma MomentsOfTwo(u: real, v: real)
    ensures MomentsOf([0.0, u], [0.0, v]) == Moments(2.0, u, v, u * u, u * v, v * v)
  {
    var x, y := [0.0, u], [0.0, v];
    assert x[1..] == [u] && y[1..] == [v] && [u][1..] == [] && [v][1..] == [];
    assert Sum([u]) == u && Sum([v]) == v;
    assert Dot([u], [u]) == u * u && Dot([u], [v]) == u * v && Dot([v], [v]) == v * v;
    assert Sum(x) == u && Sum(y) == v;
    assert Dot(x, x) == u * u && Dot(x, y) == u * v && Dot(y, y) == v * v;
  }

  lemma LineThroughTwo(u: real, v: real, slope: real)
    requires slope * u == v
    ensures SquaredResiduals([0.0, u], [0.0, v], slope, 0.0) == 0.0
  {
    assert [0.0, u][1..] == [u] && [0.0, v][1..] == [v] && [u][1..] == [] && [v][1..] == [];
    assert SquaredResiduals([u], [v], slope, 0.0) == Square(v - (slope * u + 0.0)) == 0.0;
  }

  /** Two points whose x values are close: the mean line is returned though a steep
      line through both fits exactly. */
  lemma CloseAbscissasAreNotFitted()
    ensures
      var x, y := [0.0, 0.00000001], [0.0, 1.0];
      var r := LinRegress(x, y);
      && r.slope == 0.0 && r.intercept == 0.5
      && !LeastSquares(x, y, r.slope, r.intercept)
      && SquaredResiduals(x, y, 100000000.0, 0.0) == 0.0
  {
    MomentsOfTwo(0.00000001, 1.0);
    SmallBranchIsLeastSquaresIff([0.0, 0.00000001], [0.0, 1.0]);
    LineThroughTwo(0.00000001, 1.0, 100000000.0);
  }
}
