/**
 The B-spline curve demo (b_spline/src/main.c): the normalized B-spline
 basis by the Cox-de Boor recursion, the curve as the control points
 weighted by that basis, and its sampling.

 The recursion's `k` is the ORDER of the basis (one more than the
 polynomial degree): `k == 1` is the piecewise-constant case. The demo's
 `DEGREE` is therefore the order 3 (quadratic pieces). The demo shares
 `N_POINTS` and `INTERP_RES` with the Bernstein demo.
 */
module BSpline {
  import opened Sums
  import opened Geometry
  import opened BernsteinBasis
  import opened BernsteinCurve

  /** `DEGREE`: the order of the basis used by `de_boor`. */
  const Degree: nat := 3

  /** `N_KNOTS`: one knot per control point plus `DEGREE`. */
  const NKnots: nat := NPoints + Degree

  /** The knot vector the demo passes to `de_boor`. */
  const DemoKnots: seq<real> := [0.0, 0.0, 0.0, 0.5, 1.0, 1.0, 1.6]

  /** The demo's initial control points. */
  const DemoPoints: seq<Point> := [Point(200.0, 200.0), Point(400.0, 200.0), Point(300.0, 400.0), Point(500.0, 400.0)]

  predicate NonDecreasing(knots: seq<real>)
  {
    forall i, j :: 0 <= i <= j < |knots| ==> knots[i] <= knots[j]
  }

  // ---------------------------------------------------------------------------
  // The Cox-de Boor recursion
  // ---------------------------------------------------------------------------

  /** `base_spline(i, k, u, knots)`: the i-th normalized B-spline of order k
      at u. It reads the knots i .. i + k, so i + k must index the array. */
  function BaseSpline(i: nat, k: nat, u: real, knots: seq<real>): real
    requires 1 <= k && i + k < |knots|
    decreases k, 1
  {
    if k == 1 then
      (if knots[i] <= u < knots[i + 1] then 1.0 else 0.0)
    else
      LeftTerm(i, k, u, knots) + RightTerm(i, k, u, knots)
  }

  /** `left`: (u - t[i]) / (t[i+k-1] - t[i]) * N(i, k-1), or 0 when the two
      knots coincide and the division is skipped. */
  function LeftTerm(i: nat, k: nat, u: real, knots: seq<real>): real
    requires 2 <= k && i + k - 1 < |knots|
    decreases k, 0
  {
    if knots[i + k - 1] != knots[i] then
      (u - knots[i]) / (knots[i + k - 1] - knots[i]) * BaseSpline(i, k - 1, u, knots)
    else
      0.0
  }

  /** `right`: (t[i+k] - u) / (t[i+k] - t[i+1]) * N(i+1, k-1), or 0 when the
      two knots coincide and the division is skipped. */
  function RightTerm(i: nat, k: nat, u: real, knots: seq<real>): real
    requires 2 <= k && i + k < |knots|
    decreases k, 0
  {
    if knots[i + k] != knots[i + 1] then
      (knots[i + k] - u) / (knots[i + k] - knots[i + 1]) * BaseSpline(i + 1, k - 1, u, knots)
    else
      0.0
  }

  /** Order 1 is the indicator of the half-open span [t[i], t[i+1]). */
  lemma {:induction false} PiecewiseConstant(i: nat, u: real, knots: seq<real>)
    requires i + 1 < |knots|
    ensures BaseSpline(i, 1, u, knots) == 1.0 <==> knots[i] <= u < knots[i + 1]
    ensures BaseSpline(i, 1, u, knots) == 0.0 <==> !(knots[i] <= u < knots[i + 1])
  {
  }

  /** Local support: for non-decreasing knots N(i, k) vanishes outside
      [t[i], t[i+k]). */
  lemma {:induction false} Support(i: nat, k: nat, u: real, knots: seq<real>)
    requires 1 <= k && i + k < |knots| && NonDecreasing(knots)
    requires u < knots[i] || knots[i + k] <= u
    ensures BaseSpline(i, k, u, knots) == 0.0
    decreases k
  {
    if k > 1 {
      assert knots[i] <= knots[i + 1] && knots[i + k - 1] <= knots[i + k];
      Support(i, k - 1, u, knots);
      Support(i + 1, k - 1, u, knots);
    }
  }

  /** A skipped division never drops anything: when the two knots of a
      denominator coincide, the basis function it would have scaled is 0. */
  lemma {:induction false} SkippedTermsVanish(i: nat, k: nat, u: real, knots: seq<real>)
    requires 2 <= k && i + k < |knots| && NonDecreasing(knots)
    ensures knots[i + k - 1] == knots[i] ==> BaseSpline(i, k - 1, u, knots) == 0.0
    ensures knots[i + k] == knots[i + 1] ==> BaseSpline(i + 1, k - 1, u, knots) == 0.0
  {
    if knots[i + k - 1] == knots[i] {
      Support(i, k - 1, u, knots);
    }
    if knots[i + k] == knots[i + 1] {
      Support(i + 1, k - 1, u, knots);
    }
  }

  /** For non-decreasing knots no basis function is negative. */
  lemma {:induction false} SplineNonNegative(i: nat, k: nat, u: real, knots: seq<real>)
    requires 1 <= k && i + k < |knots| && NonDecreasing(knots)
    ensures BaseSpline(i, k, u, knots) >= 0.0
    decreases k, 1
  {
    if k > 1 {
      LeftNonNegative(i, k, u, knots);
      RightNonNegative(i, k, u, knots);
    }
  }

  /** The left term is 0 below t[i] and a non-negative multiple of
      N(i, k - 1) from there on. */
  lemma {:induction false} LeftNonNegative(i: nat, k: nat, u: real, knots: seq<real>)
    requires 2 <= k && i + k < |knots| && NonDecreasing(knots)
    ensures LeftTerm(i, k, u, knots) >= 0.0
    decreases k, 0
  {
    var a, c := knots[i], knots[i + k - 1];
    if c != a {
      if u < a {
        Support(i, k - 1, u, knots);
      } else {
        SplineNonNegative(i, k - 1, u, knots);
        ScaledNonNegative(u - a, c - a, BaseSpline(i, k - 1, u, knots));
      }
    }
  }

  /** The right term is 0 from t[i+k] on and a non-negative multiple of
      N(i + 1, k - 1) below it. */
  lemma {:induction false} RightNonNegative(i: nat, k: nat, u: real, knots: seq<real>)
    requires 2 <= k && i + k < |knots| && NonDecreasing(knots)
    ensures RightTerm(i, k, u, knots) >= 0.0
    decreases k, 0
  {
    var b, d := knots[i + 1], knots[i + k];
    if d != b {
      if d <= u {
        Support(i + 1, k - 1, u, knots);
      } else {
        SplineNonNegative(i + 1, k - 1, u, knots);
        ScaledNonNegative(d - u, d - b, BaseSpline(i + 1, k - 1, u, knots));
      }
    }
  }

  lemma {:induction false} ScaledNonNegative(p: real, q: real, n: real)
    requires p >= 0.0 && q > 0.0 && n >= 0.0
    ensures p / q * n >= 0.0
  {
    MulNonNegative(p / q, n);
  }

  // ---------------------------------------------------------------------------
  // Partition of unity
  // ---------------------------------------------------------------------------

  /** N(a, k) + ... + N(b - 1, k) at u. */
  function SplineSum(a: nat, b: nat, k: nat, u: real, knots: seq<real>): real
    requires 1 <= k && b + k <= |knots|
    decreases b
  {
    if b <= a then 0.0 else SplineSum(a, b - 1, k, u, knots) + BaseSpline(b - 1, k, u, knots)
  }

  /** The right term of N(i - 1, k) and the left term of N(i, k) share the
      denominator t[i+k-1] - t[i] and together make N(i, k - 1). */
  lemma {:induction false} AdjacentTerms(i: nat, k: nat, u: real, knots: seq<real>)
    requires 1 <= i && 2 <= k && i + k - 1 < |knots| && NonDecreasing(knots)
    ensures RightTerm(i - 1, k, u, knots) + LeftTerm(i, k, u, knots) == BaseSpline(i, k - 1, u, knots)
  {
    var a, c := knots[i], knots[i + k - 1];
    if c == a {
      Support(i, k - 1, u, knots);
    } else {
      assert (i - 1) + k == i + k - 1 && (i - 1) + 1 == i;
      FractionsAddUp(a, c, u, BaseSpline(i, k - 1, u, knots),
                     RightTerm(i - 1, k, u, knots), LeftTerm(i, k, u, knots));
    }
  }

  lemma {:induction false} FractionsAddUp(a: real, c: real, u: real, n: real, r: real, l: real)
    requires c != a
    requires r == (c - u) / (c - a) * n && l == (u - a) / (c - a) * n
    ensures r + l == n
  {
    var d := c - a;
    assert (c - u) / d + (u - a) / d == 1.0;
    Distribute(n, (c - u) / d, (u - a) / d);
  }

  /** Summing N(a, k) .. N(b-1, k) telescopes to the sum of order k - 1 over
      a + 1 .. b - 1, plus the outer halves of the first and last terms. */
  lemma {:induction false} Telescope(a: nat, b: nat, k: nat, u: real, knots: seq<real>)
    requires 2 <= k && a < b && b + k <= |knots| && NonDecreasing(knots)
    ensures SplineSum(a, b, k, u, knots)
         == LeftTerm(a, k, u, knots) + SplineSum(a + 1, b, k - 1, u, knots) + RightTerm(b - 1, k, u, knots)
    decreases b
  {
    if b > a + 1 {
      Telescope(a, b - 1, k, u, knots);
      AdjacentTerms(b - 1, k, u, knots);
    }
  }

  /** Order 1: the half-open spans between consecutive knots tile
      [t[a], t[b]), so exactly one indicator is 1 there and none outside. */
  lemma {:induction false} IndicatorSum(a: nat, b: nat, u: real, knots: seq<real>)
    requires a <= b && b + 1 <= |knots| && NonDecreasing(knots)
    ensures SplineSum(a, b, 1, u, knots) == if knots[a] <= u < knots[b] then 1.0 else 0.0
    decreases b
  {
    if b > a {
      IndicatorSum(a, b - 1, u, knots);
      assert knots[a] <= knots[b - 1] <= knots[b];
    }
  }

  /** For non-decreasing knots, the basis functions of order k numbered a .. b-1
      add up to one on [t[a+k-1], t[b]). For the demo (a = 0, b = N_POINTS,
      k = DEGREE) that is [t[2], t[4]). */
  lemma {:induction false} SplinePartitionOfUnity(a: nat, b: nat, k: nat, u: real, knots: seq<real>)
    requires 1 <= k && a < b && b + k <= |knots| && NonDecreasing(knots)
    requires knots[a + k - 1] <= u < knots[b]
    ensures SplineSum(a, b, k, u, knots) == 1.0
    decreases k
  {
    if k == 1 {
      IndicatorSum(a, b, u, knots);
    } else {
      KnotOrder(knots, a + k - 1, b);
      Telescope(a, b, k, u, knots);
      Support(a, k - 1, u, knots);
      Support(b, k - 1, u, knots);
      SplinePartitionOfUnity(a + 1, b, k - 1, u, knots);
    }
  }

  /** Non-decreasing knots: a strictly smaller knot comes strictly earlier. */
  lemma {:induction false} KnotOrder(knots: seq<real>, i: nat, j: nat)
    requires i < |knots| && j < |knots| && NonDecreasing(knots)
    requires knots[i] < knots[j]
    ensures i < j
  {
  }

  // ---------------------------------------------------------------------------
  // `de_boor`
  // ---------------------------------------------------------------------------

  /** The weights N(0, k) .. N(n - 1, k) at u. */
  function SplineWeights(n: nat, k: nat, u: real, knots: seq<real>): (r: seq<real>)
    requires 1 <= k && n + k <= |knots|
    ensures |r| == n
    ensures forall i {:trigger r[i]} :: 0 <= i < n ==> r[i] == BaseSpline(i, k, u, knots)
  {
    if n == 0 then [] else SplineWeights(n - 1, k, u, knots) + [BaseSpline(n - 1, k, u, knots)]
  }

  /** The curve point: every control point weighted by its order-`DEGREE` basis
      function. */
  function DeBoor(points: seq<Point>, u: real, knots: seq<real>): Point
    requires |points| + Degree <= |knots|
  {
    var w := SplineWeights(|points|, Degree, u, knots);
    Point(Combine(w, Xs(points)), Combine(w, Ys(points)))
  }

  /** The weights of `de_boor` add up to the spline sum. */
  lemma {:induction false} WeightsSum(n: nat, k: nat, u: real, knots: seq<real>)
    requires 1 <= k && n + k <= |knots|
    ensures Sum(SplineWeights(n, k, u, knots)) == SplineSum(0, n, k, u, knots)
  {
    PartialIsSplineSum(SplineWeights(n, k, u, knots), Const(n, 1.0), n, k, u, knots, n);
  }

  lemma {:induction false} PartialIsSplineSum(w: seq<real>, ones: seq<real>, n: nat, k: nat, u: real, knots: seq<real>, j: nat)
    requires 1 <= k && n + k <= |knots| && j <= n
    requires w == SplineWeights(n, k, u, knots) && ones == Const(n, 1.0)
    ensures Partial(w, ones, j) == SplineSum(0, j, k, u, knots)
  {
    if j > 0 {
      PartialIsSplineSum(w, ones, n, k, u, knots, j - 1);
      assert ones[j - 1] * w[j - 1] == BaseSpline(j - 1, k, u, knots);
    }
  }

  /** On [t[DEGREE-1], t[n]) with non-decreasing knots the curve point is a
      convex combination of the control points: it lies in their bounding box. */
  lemma {:induction false} DeBoorInBoundingBox(points: seq<Point>, u: real, knots: seq<real>)
    requires 1 <= |points| && |points| + Degree <= |knots| && NonDecreasing(knots)
    requires knots[Degree - 1] <= u < knots[|points|]
    ensures InBoundingBox(DeBoor(points, u, knots), points)
  {
    var n := |points|;
    var w := SplineWeights(n, Degree, u, knots);
    SplinePartitionOfUnity(0, n, Degree, u, knots);
    WeightsSum(n, Degree, u, knots);
    forall i | 0 <= i < n
      ensures 0.0 <= w[i]
    {
      SplineNonNegative(i, Degree, u, knots);
    }
    ConvexCombination(w, Xs(points));
    ConvexCombination(w, Ys(points));
  }

  /** `de_boor`: the loop `res += N(i, DEGREE, u) * points[i]` over the control
      points computes the curve point. The weights are evaluated first; each
      `base_spline` call is a pure function of its arguments. Inside the
      valid parameter range the point is a convex combination of the control
      points; with the demo's clamped knots the curve runs from the first
      control point to the last. */
  method DeBoorLoop(points: seq<Point>, u: real, knots: seq<real>) returns (res: Point)
    requires |points| + Degree <= |knots|
    ensures res == DeBoor(points, u, knots)
    ensures 1 <= |points| && NonDecreasing(knots) && knots[Degree - 1] <= u < knots[|points|] ==>
              InBoundingBox(res, points)
    ensures knots == DemoKnots && |points| == NPoints && 0.0 <= u <= 1.0 ==> InBoundingBox(res, points)
    ensures knots == DemoKnots && |points| == NPoints && u == 0.0 ==> res == points[0]
    ensures knots == DemoKnots && |points| == NPoints && u == 1.0 ==> res == points[NPoints - 1]
  {
    var w := SplineWeights(|points|, Degree, u, knots);
    res := WeightedSum(w, points);
    if 1 <= |points| && NonDecreasing(knots) && knots[Degree - 1] <= u < knots[|points|] {
      DeBoorInBoundingBox(points, u, knots);
    }
    if knots == DemoKnots && |points| == NPoints {
      DemoEnds(points);
      if 0.0 <= u <= 1.0 {
        DemoInBoundingBox(points, u);
      }
    }
  }

  /** The accumulation `res += w[i] * points[i]`, weight written first. */
  method WeightedSum(w: seq<real>, points: seq<Point>) returns (res: Point)
    requires |w| == |points|
    ensures res == Point(Combine(w, Xs(points)), Combine(w, Ys(points)))
  {
    ghost var xs, ys := Xs(points), Ys(points);
    res := Origin;
    var i := 0;
    while i < |points|
      invariant 0 <= i <= |points|
      invariant res.x == Partial(w, xs, i)
      invariant res.y == Partial(w, ys, i)
    {
      var rx, ry := res.x + w[i] * points[i].x, res.y + w[i] * points[i].y;
      WeightFirstStep(w, xs, i, res.x, points[i].x, w[i], rx);
      WeightFirstStep(w, ys, i, res.y, points[i].y, w[i], ry);
      res := Point(rx, ry);
      i := i + 1;
    }
  }

  /** One turn of the accumulation: the weight is written first. */
  lemma {:induction false} WeightFirstStep(w: seq<real>, xs: seq<real>, i: nat, s: real, x: real, n: real, s1: real)
    requires i < |w| == |xs|
    requires s == Partial(w, xs, i) && x == xs[i] && n == w[i] && s1 == s + n * x
    ensures s1 == Partial(w, xs, i + 1)
  {
  }

  // ---------------------------------------------------------------------------
  // The demo's knots
  // ---------------------------------------------------------------------------

  /** The demo's knots are non-decreasing and number `N_KNOTS`. */
  lemma {:induction false} DemoKnotsValid()
    ensures |DemoKnots| == NKnots && NonDecreasing(DemoKnots)
  {
  }

  /** With the demo's knots the weights at u = 0 are (1, 0, 0, 0) and at
      u = 1 they are (0, 0, 0, 1). */
  lemma {:induction false} DemoWeightsAtEnds()
    ensures SplineWeights(NPoints, Degree, 0.0, DemoKnots) == [1.0, 0.0, 0.0, 0.0]
    ensures SplineWeights(NPoints, Degree, 1.0, DemoKnots) == [0.0, 0.0, 0.0, 1.0]
  {
    DemoWeightsAtZero();
    DemoWeightsAtOne();
  }

  lemma {:induction false} DemoWeightsAtZero()
    ensures SplineWeights(NPoints, Degree, 0.0, DemoKnots) == [1.0, 0.0, 0.0, 0.0]
  {
    var kn := DemoKnots;
    assert BaseSpline(0, 3, 0.0, kn) == 1.0;
    assert BaseSpline(1, 3, 0.0, kn) == 0.0;
    assert BaseSpline(2, 3, 0.0, kn) == 0.0;
    assert BaseSpline(3, 3, 0.0, kn) == 0.0;
  }

  lemma {:induction false} DemoWeightsAtOne()
    ensures SplineWeights(NPoints, Degree, 1.0, DemoKnots) == [0.0, 0.0, 0.0, 1.0]
  {
    var kn := DemoKnots;
    assert BaseSpline(0, 3, 1.0, kn) == 0.0;
    assert BaseSpline(1, 3, 1.0, kn) == 0.0;
    assert BaseSpline(2, 3, 1.0, kn) == 0.0;
    assert BaseSpline(3, 3, 1.0, kn) == 1.0;
  }

  /** With the demo's knots the curve starts at the first control point
      (u = 0) and ends at the last one (u = 1). */
  lemma {:induction false} DemoEnds(points: seq<Point>)
    requires |points| == NPoints
    ensures DeBoor(points, 0.0, DemoKnots) == points[0]
    ensures DeBoor(points, 1.0, DemoKnots) == points[NPoints - 1]
  {
    DemoWeightsAtEnds();
    CombineUnit(SplineWeights(NPoints, Degree, 0.0, DemoKnots), Xs(points), 0);
    CombineUnit(SplineWeights(NPoints, Degree, 0.0, DemoKnots), Ys(points), 0);
    CombineUnit(SplineWeights(NPoints, Degree, 1.0, DemoKnots), Xs(points), NPoints - 1);
    CombineUnit(SplineWeights(NPoints, Degree, 1.0, DemoKnots), Ys(points), NPoints - 1);
  }

  /** With the demo's knots every curve point for u in [0, 1] lies in the
      bounding box of the control points. */
  lemma {:induction false} DemoInBoundingBox(points: seq<Point>, u: real)
    requires |points| == NPoints && 0.0 <= u <= 1.0
    ensures InBoundingBox(DeBoor(points, u, DemoKnots), points)
  {
    DemoKnotsValid();
    if u < 1.0 {
      DeBoorInBoundingBox(points, u, DemoKnots);
    } else {
      DemoEnds(points);
      assert Xs(points)[NPoints - 1] == points[NPoints - 1].x;
      assert Ys(points)[NPoints - 1] == points[NPoints - 1].y;
    }
  }

  /** `interpolate_curve`: `INTERP_RES` curve points at u = k / 99. With the
      demo's knots the samples run from the first control point to the last
      and stay in the control points' bounding box. */
  method InterpolateCurve(points: seq<Point>, knots: seq<real>) returns (samples: seq<Point>)
    requires |points| + Degree <= |knots|
    ensures |samples| == InterpRes
    ensures forall k :: 0 <= k < InterpRes ==> samples[k] == DeBoor(points, SampleParam(k, InterpRes), knots)
    ensures knots == DemoKnots && |points| == NPoints ==>
              samples[0] == points[0] && samples[InterpRes - 1] == points[NPoints - 1]
    ensures knots == DemoKnots && |points| == NPoints ==>
              forall k :: 0 <= k < InterpRes ==> InBoundingBox(samples[k], points)
  {
    samples := [];
    var k := 0;
    while k < InterpRes
      invariant 0 <= k <= InterpRes
      invariant |samples| == k
      invariant forall j :: 0 <= j < k ==> samples[j] == DeBoor(points, SampleParam(j, InterpRes), knots)
    {
      var p := DeBoorLoop(points, SampleParam(k, InterpRes), knots);
      samples := samples + [p];
      k := k + 1;
    }
    if knots == DemoKnots && |points| == NPoints {
      DemoSamples(points, samples);
    }
  }

  lemma {:induction false} DemoSamples(points: seq<Point>, samples: seq<Point>)
    requires |points| == NPoints && |samples| == InterpRes
    requires forall k :: 0 <= k < InterpRes ==> samples[k] == DeBoor(points, SampleParam(k, InterpRes), DemoKnots)
    ensures samples[0] == points[0] && samples[InterpRes - 1] == points[NPoints - 1]
    ensures forall k :: 0 <= k < InterpRes ==> InBoundingBox(samples[k], points)
  {
    SampleParamRange(0, InterpRes);
    SampleParamRange(InterpRes - 1, InterpRes);
    DemoEnds(points);
    forall k | 0 <= k < InterpRes
      ensures InBoundingBox(samples[k], points)
    {
      SampleParamRange(k, InterpRes);
      DemoInBoundingBox(points, SampleParam(k, InterpRes));
    }
  }
}
