/**
 The Bernstein-form curve demo (bernstein/src/main.c): a cubic Bezier curve
 evaluated as the sum of its control points weighted by the Bernstein
 polynomials, sampled at `INTERP_RES` evenly spaced parameters.
 */
module BernsteinCurve {
  import opened Combinatorics
  import opened Sums
  import opened Geometry
  import opened BernsteinBasis

  /** `N_POINTS`: control points of the demo curve (degree 3). */
  const NPoints: nat := 4

  /** `INTERP_RES`: samples along the curve. */
  const InterpRes: nat := 100

  /** p lies in the axis-aligned bounding box of the points pts. */
  predicate InBoundingBox(p: Point, pts: seq<Point>)
    requires |pts| >= 1
  {
    Min(Xs(pts)) <= p.x <= Max(Xs(pts)) && Min(Ys(pts)) <= p.y <= Max(Ys(pts))
  }

  /** The curve of the control points at t: each coordinate weighted by the
      Bernstein polynomials of degree |points| - 1. */
  function Approx(points: seq<Point>, t: real): Point
    requires |points| >= 1
  {
    var w := Weights(|points| - 1, t);
    Point(Combine(w, Xs(points)), Combine(w, Ys(points)))
  }

  /** The curve passes through the first control point at t = 0 and through
      the last one at t = 1. */
  lemma {:induction false} ApproxEnds(points: seq<Point>)
    requires |points| >= 1
    ensures Approx(points, 0.0) == points[0]
    ensures Approx(points, 1.0) == points[|points| - 1]
  {
    CombineAtEnds(|points| - 1, Xs(points));
    CombineAtEnds(|points| - 1, Ys(points));
  }

  /** On [0, 1] the curve stays in the bounding box of its control points. */
  lemma {:induction false} ApproxInBoundingBox(points: seq<Point>, t: real)
    requires |points| >= 1 && 0.0 <= t <= 1.0
    ensures InBoundingBox(Approx(points, t), points)
  {
    CombineInHull(|points| - 1, t, Xs(points));
    CombineInHull(|points| - 1, t, Ys(points));
  }

  /** If every control point is p, the curve is the constant p. */
  lemma {:induction false} ApproxConstant(points: seq<Point>, t: real, p: Point)
    requires |points| >= 1
    requires forall i :: 0 <= i < |points| ==> points[i] == p
    ensures Approx(points, t) == p
  {
    CombineConstant(|points| - 1, t, Xs(points), p.x);
    CombineConstant(|points| - 1, t, Ys(points), p.y);
  }

  /** `bernstein(n, k, t)`: `binomial_coefficient(n, k) * pow(t, k) * pow(1 - t, n - k)`.
      The value is weight k of the degree-n basis generated by Pascal's rule,
      and is non-negative on [0, 1]. */
  method BernsteinEval(n: nat, k: nat, t: real) returns (b: real)
    requires k <= n
    ensures b == Weights(n, t)[k]
    ensures 0.0 <= t <= 1.0 ==> b >= 0.0
  {
    var c := BinomialCoefficient(n, k);
    b := c as real * Pow(t, k) * Pow(1.0 - t, n - k);
    ClosedFormValue(n, k, t, c, b);
    WeightIsBernstein(n, k, t);
    if 0.0 <= t <= 1.0 {
      WeightsNonNegative(n, t);
    }
  }

  lemma {:induction false} ClosedFormValue(n: nat, k: nat, t: real, c: nat, b: real)
    requires k <= n && c == Choose(n, k)
    requires b == c as real * Pow(t, k) * Pow(1.0 - t, n - k)
    ensures b == Bernstein(n, k, t)
  {
  }

  /** `approx`: the loop `sum += points[i] * bernstein(N - 1, i, t)`, which
      computes the curve point of the Bernstein form. */
  method ApproxLoop(points: seq<Point>, t: real) returns (sum: Point)
    requires |points| >= 1
    ensures sum == Approx(points, t)
    ensures t == 0.0 ==> sum == points[0]
    ensures t == 1.0 ==> sum == points[|points| - 1]
    ensures 0.0 <= t <= 1.0 ==> InBoundingBox(sum, points)
  {
    var n := |points| - 1;
    ghost var w := Weights(n, t);
    ghost var xs, ys := Xs(points), Ys(points);
    sum := Origin;
    var i := 0;
    while i < |points|
      invariant 0 <= i <= |points|
      invariant sum.x == Partial(w, xs, i)
      invariant sum.y == Partial(w, ys, i)
    {
      var b := BernsteinEval(n, i, t);
      var sx, sy := sum.x + points[i].x * b, sum.y + points[i].y * b;
      AccumulateStep(w, xs, i, sum.x, points[i].x, b, sx);
      AccumulateStep(w, ys, i, sum.y, points[i].y, b, sy);
      sum := Point(sx, sy);
      i := i + 1;
    }
    assert sum == Point(Combine(w, xs), Combine(w, ys));
    ApproxEnds(points);
    if 0.0 <= t <= 1.0 {
      ApproxInBoundingBox(points, t);
    }
  }

  /** One turn of the accumulation loop. */
  lemma {:induction false} AccumulateStep(w: seq<real>, xs: seq<real>, i: nat, s: real, x: real, b: real, s1: real)
    requires i < |w| == |xs|
    requires s == Partial(w, xs, i) && x == xs[i] && b == w[i] && s1 == s + x * b
    ensures s1 == Partial(w, xs, i + 1)
  {
  }

  /** `interpolate_curve`: `InterpRes` samples of the curve at t = k / 99,
      the first at the first control point and the last at the last one. */
  method InterpolateCurve(points: seq<Point>) returns (samples: seq<Point>)
    requires |points| >= 1
    ensures |samples| == InterpRes
    ensures forall k :: 0 <= k < InterpRes ==> samples[k] == Approx(points, SampleParam(k, InterpRes))
    ensures forall k :: 0 <= k < InterpRes ==> InBoundingBox(samples[k], points)
    ensures samples[0] == points[0]
    ensures samples[InterpRes - 1] == points[|points| - 1]
  {
    samples := [];
    var k := 0;
    while k < InterpRes
      invariant 0 <= k <= InterpRes
      invariant |samples| == k
      invariant forall j :: 0 <= j < k ==> samples[j] == Approx(points, SampleParam(j, InterpRes))
      invariant forall j :: 0 <= j < k ==> InBoundingBox(samples[j], points)
    {
      var t := SampleParam(k, InterpRes);
      SampleParamRange(k, InterpRes);
      var p := ApproxLoop(points, t);
      samples := samples + [p];
      k := k + 1;
    }
    SampleParamRange(0, InterpRes);
    SampleParamRange(InterpRes - 1, InterpRes);
    ApproxEnds(points);
  }
}
