/**
 The de Casteljau curve demo (bezier/src/main.c): the curve point is found
 by repeatedly blending neighbouring control points until one is left.

 The demo's blend is `t * p[i] + (1 - t) * p[i + 1]`, the mirror image of the
 usual one, so it traces the Bernstein-form curve backwards: at t the result
 is the Bernstein-form point at 1 - t. The demo shares `N_POINTS` and
 `INTERP_RES` with the Bernstein demo (bezier/src/main.c:8-9).
 */
module BezierCurve {
  import opened Sums
  import opened Geometry
  import opened BernsteinBasis
  import opened BernsteinCurve

  /** One blend of the demo: `t * a + (1 - t) * b`, coordinate by coordinate. */
  function Blend(t: real, a: Point, b: Point): Point
  {
    Point(t * a.x + (1.0 - t) * b.x, t * a.y + (1.0 - t) * b.y)
  }

  /** One round: every point blended with its right neighbour, one point fewer. */
  function Round(t: real, ps: seq<Point>): (r: seq<Point>)
    requires |ps| >= 1
    ensures |r| == |ps| - 1
    ensures forall i {:trigger r[i]} :: 0 <= i < |r| ==> r[i] == Blend(t, ps[i], ps[i + 1])
  {
    seq(|ps| - 1, i requires 0 <= i < |ps| - 1 => Blend(t, ps[i], ps[i + 1]))
  }

  /** Rounds until a single point is left: the value of the algorithm. */
  function Reduce(t: real, ps: seq<Point>): Point
    requires |ps| >= 1
    decreases |ps|
  {
    if |ps| == 1 then ps[0] else Reduce(t, Round(t, ps))
  }

  // ---------------------------------------------------------------------------
  // The reduction is the Bernstein form at 1 - t
  // ---------------------------------------------------------------------------

  /** The de Casteljau point at t is the Bernstein-form point at 1 - t. */
  lemma {:induction false} ReduceIsBernstein(t: real, ps: seq<Point>)
    requires |ps| >= 1
    ensures Reduce(t, ps) == Approx(ps, 1.0 - t)
    decreases |ps|
  {
    if |ps| == 1 {
      ApproxSingle(ps, 1.0 - t);
    } else {
      var q := Round(t, ps);
      ReduceIsBernstein(t, q);
      ApproxAfterRound(t, ps, q);
    }
  }

  /** A single control point is the whole curve. */
  lemma {:induction false} ApproxSingle(ps: seq<Point>, s: real)
    requires |ps| == 1
    ensures Approx(ps, s) == ps[0]
  {
    CombineUnit(Weights(0, s), Xs(ps), 0);
    CombineUnit(Weights(0, s), Ys(ps), 0);
  }

  /** One round keeps the Bernstein-form point at 1 - t. */
  lemma {:induction false} ApproxAfterRound(t: real, ps: seq<Point>, q: seq<Point>)
    requires |ps| >= 2 && q == Round(t, ps)
    ensures Approx(q, 1.0 - t) == Approx(ps, 1.0 - t)
  {
    RoundCoordinates(t, ps);
    StepCoordinate(t, Xs(ps), Xs(q));
    StepCoordinate(t, Ys(ps), Ys(q));
  }

  /** A round acts on each coordinate as the blend of the column without its
      last entry and the column without its first. */
  lemma {:induction false} RoundCoordinates(t: real, ps: seq<Point>)
    requires |ps| >= 2
    ensures Xs(Round(t, ps)) == Lin(t, Xs(ps)[..|ps| - 1], 1.0 - t, Xs(ps)[1..])
    ensures Ys(Round(t, ps)) == Lin(t, Ys(ps)[..|ps| - 1], 1.0 - t, Ys(ps)[1..])
  {
    RoundXs(t, ps);
    RoundYs(t, ps);
  }

  lemma {:induction false} RoundXs(t: real, ps: seq<Point>)
    requires |ps| >= 2
    ensures Xs(Round(t, ps)) == Lin(t, Xs(ps)[..|ps| - 1], 1.0 - t, Xs(ps)[1..])
  {
    var r, n, xs := Round(t, ps), |ps| - 1, Xs(ps);
    var l := Lin(t, xs[..n], 1.0 - t, xs[1..]);
    forall i | 0 <= i < n
      ensures Xs(r)[i] == l[i]
    {
      assert xs[..n][i] == ps[i].x && xs[1..][i] == ps[i + 1].x;
    }
  }

  lemma {:induction false} RoundYs(t: real, ps: seq<Point>)
    requires |ps| >= 2
    ensures Ys(Round(t, ps)) == Lin(t, Ys(ps)[..|ps| - 1], 1.0 - t, Ys(ps)[1..])
  {
    var r, n, ys := Round(t, ps), |ps| - 1, Ys(ps);
    var l := Lin(t, ys[..n], 1.0 - t, ys[1..]);
    forall i | 0 <= i < n
      ensures Ys(r)[i] == l[i]
    {
      assert ys[..n][i] == ps[i].y && ys[1..][i] == ps[i + 1].y;
    }
  }

  /** One round lowers the degree by one without changing the value, when the
      Bernstein weights are taken at s = 1 - t. */
  lemma {:induction false} StepCoordinate(t: real, xs: seq<real>, ys: seq<real>)
    requires |xs| >= 2
    requires ys == Lin(t, xs[..|xs| - 1], 1.0 - t, xs[1..])
    ensures Combine(Weights(|xs| - 2, 1.0 - t), ys) == Combine(Weights(|xs| - 1, 1.0 - t), xs)
  {
    var n := |xs| - 1;
    var s := 1.0 - t;
    var v := Weights(n - 1, s);
    CombineLinValues(v, t, xs[..n], s, xs[1..]);
    SplitBlend(Weights(n, s), v, 1.0 - s, s, xs);
    SameFactor(1.0 - s, t, s, Combine(v, xs[..n]), Combine(v, xs[1..]), Combine(v, ys), Combine(Weights(n, s), xs));
  }

  lemma {:induction false} SameFactor(a: real, t: real, s: real, c1: real, c2: real, l: real, r: real)
    requires a == t
    requires l == t * c1 + s * c2 && r == a * c1 + s * c2
    ensures l == r
  {
  }

  /** The reversed blend: at t = 1 the result is the first control point and
      at t = 0 the last one. */
  lemma {:induction false} ReduceEnds(ps: seq<Point>)
    requires |ps| >= 1
    ensures Reduce(1.0, ps) == ps[0]
    ensures Reduce(0.0, ps) == ps[|ps| - 1]
  {
    ReduceAtOne(ps);
    ReduceAtZero(ps);
  }

  lemma {:induction false} ReduceAtOne(ps: seq<Point>)
    requires |ps| >= 1
    ensures Reduce(1.0, ps) == ps[0]
  {
    calc {
      Reduce(1.0, ps);
      { ReduceIsBernstein(1.0, ps); }
      Approx(ps, 0.0);
      { ApproxEnds(ps); }
      ps[0];
    }
  }

  lemma {:induction false} ReduceAtZero(ps: seq<Point>)
    requires |ps| >= 1
    ensures Reduce(0.0, ps) == ps[|ps| - 1]
  {
    calc {
      Reduce(0.0, ps);
      { ReduceIsBernstein(0.0, ps); }
      Approx(ps, 1.0);
      { ApproxEnds(ps); }
      ps[|ps| - 1];
    }
  }

  /** Every round blends with factors in [0, 1] when t is in [0, 1], so the
      result stays in the control points' bounding box. */
  lemma {:induction false} ReduceInBoundingBox(t: real, ps: seq<Point>)
    requires |ps| >= 1 && 0.0 <= t <= 1.0
    ensures InBoundingBox(Reduce(t, ps), ps)
  {
    ReduceIsBernstein(t, ps);
    ApproxInBoundingBox(ps, 1.0 - t);
  }

  // ---------------------------------------------------------------------------
  // `de_casteljau`, as written and corrected
  // ---------------------------------------------------------------------------

  /** `de_casteljau` with the inner bound corrected to `i < N - 1 - k`: the
      rounds run in place on a copy of the points and only in-range entries
      are read. The result is the de Casteljau point, which is the
      Bernstein-form point at 1 - t. */
  method DeCasteljau(points: seq<Point>, t: real) returns (r: Point)
    requires |points| >= 1
    ensures r == Reduce(t, points)
    ensures r == Approx(points, 1.0 - t)
    ensures t == 1.0 ==> r == points[0]
    ensures t == 0.0 ==> r == points[|points| - 1]
    ensures 0.0 <= t <= 1.0 ==> InBoundingBox(r, points)
  {
    var n := |points|;
    var pts := points;
    assert pts[..n] == points;
    var k := 0;
    while k < n - 1
      invariant 0 <= k <= n - 1
      invariant |pts| == n
      invariant Reduce(t, pts[..n - k]) == Reduce(t, points)
    {
      pts := BlendRound(pts, t, n - k);
      k := k + 1;
    }
    assert pts[..1] == [pts[0]];
    r := pts[0];
    ReducedFacts(t, points, r);
  }

  /** One round of `de_casteljau` in place on the first len points: each of
      the first len - 1 becomes the blend with its right neighbour, reading
      only entries below len. */
  method BlendRound(pts: seq<Point>, t: real, len: nat) returns (next: seq<Point>)
    requires 2 <= len <= |pts|
    ensures |next| == |pts|
    ensures next[..len - 1] == Round(t, pts[..len])
  {
    next := pts;
    var i := 0;
    while i < len - 1
      invariant 0 <= i <= len - 1
      invariant |next| == |pts|
      invariant forall j :: 0 <= j < i ==> next[j] == Blend(t, pts[j], pts[j + 1])
      invariant forall j :: i <= j < |pts| ==> next[j] == pts[j]
    {
      next := next[i := Blend(t, next[i], next[i + 1])];
      i := i + 1;
    }
  }

  /** The fully reduced point is the Bernstein-form point at 1 - t, with its
      endpoint and bounding-box facts. */
  lemma {:induction false} ReducedFacts(t: real, points: seq<Point>, r: Point)
    requires |points| >= 1 && r == Reduce(t, points)
    ensures r == Approx(points, 1.0 - t)
    ensures t == 1.0 ==> r == points[0]
    ensures t == 0.0 ==> r == points[|points| - 1]
    ensures 0.0 <= t <= 1.0 ==> InBoundingBox(r, points)
  {
    ReduceIsBernstein(t, points);
    ReduceEnds(points);
    if 0.0 <= t <= 1.0 {
      ReduceInBoundingBox(t, points);
    }
  }

  /** `de_casteljau` as written: the inner loop runs `i < N - k`, so in round 0
      the last turn reads `pts[N]`, one past the array; `beyond` stands for
      whatever lies there. The read happens on every call with at least two
      points, yet the value read never reaches `pts[0]`: the result is the
      corrected one whatever `beyond` is. */
  method DeCasteljauAsWritten(points: seq<Point>, t: real, beyond: Point) returns (r: Point, outOfBounds: bool)
    requires |points| >= 1
    ensures outOfBounds <==> |points| >= 2
    ensures r == Reduce(t, points)
  {
    var n := |points|;
    var pts := points;
    assert pts[..n] == points;
    outOfBounds := false;
    var k := 0;
    while k < n - 1
      invariant 0 <= k <= n - 1
      invariant |pts| == n
      invariant Reduce(t, pts[..n - k]) == Reduce(t, points)
      invariant outOfBounds <==> k > 0
    {
      var read: bool;
      pts, read := BlendRoundAsWritten(pts, t, n - k, beyond);
      outOfBounds := outOfBounds || read;
      k := k + 1;
    }
    assert pts[..1] == [pts[0]];
    r := pts[0];
  }

  /** One round of `de_casteljau` as written on the first len points: the
      inner loop runs one turn too many, and that turn reads the entry at len,
      which lies past the array (`beyond`) exactly when len is the whole
      array. The first len - 1 entries are the corrected round all the same. */
  method BlendRoundAsWritten(pts: seq<Point>, t: real, len: nat, beyond: Point)
    returns (next: seq<Point>, outOfBounds: bool)
    requires 2 <= len <= |pts|
    ensures |next| == |pts|
    ensures next[..len - 1] == Round(t, pts[..len])
    ensures outOfBounds <==> len == |pts|
  {
    var n := |pts|;
    next := pts;
    outOfBounds := false;
    var i := 0;
    while i < len
      invariant 0 <= i <= len
      invariant |next| == n
      invariant forall j :: 0 <= j < i && j < len - 1 ==> next[j] == Blend(t, pts[j], pts[j + 1])
      invariant forall j :: i <= j < n ==> next[j] == pts[j]
      invariant outOfBounds <==> i == n
    {
      var right: Point;
      if i + 1 < n {
        right := next[i + 1];
      } else {
        right := beyond;
        outOfBounds := true;
      }
      next := next[i := Blend(t, next[i], right)];
      i := i + 1;
    }
  }

  // ---------------------------------------------------------------------------
  // `interpolate_curve`, as written and corrected
  // ---------------------------------------------------------------------------

  /** Sample k of the demo: the de Casteljau point at t = k / 99, which is
      sample 99 - k of the Bernstein-form demo. */
  method CurveSample(points: seq<Point>, k: nat) returns (p: Point)
    requires |points| >= 1 && k < InterpRes
    ensures p == Approx(points, SampleParam(InterpRes - 1 - k, InterpRes))
    ensures InBoundingBox(p, points)
  {
    var t := SampleParam(k, InterpRes);
    assert 0.0 <= t <= 1.0 by { SampleParamRange(k, InterpRes); }
    assert 1.0 - t == SampleParam(InterpRes - 1 - k, InterpRes) by { SampleParamMirror(k, InterpRes); }
    p := DeCasteljau(points, t);
  }

  /** `interpolate_curve` as written: for each of the `InterpRes` parameters it
      stores (0, 0) into the sample buffer and only draws the computed point,
      so the buffer later drawn as a polyline holds nothing but the origin. */
  method InterpolateCurveAsWritten(points: seq<Point>) returns (stored: seq<Point>, drawn: seq<Point>)
    requires |points| >= 1
    ensures |stored| == InterpRes && |drawn| == InterpRes
    ensures forall k :: 0 <= k < InterpRes ==> stored[k] == Origin
    ensures forall k :: 0 <= k < InterpRes ==> drawn[k] == Approx(points, SampleParam(InterpRes - 1 - k, InterpRes))
    ensures drawn[0] == points[|points| - 1] && drawn[InterpRes - 1] == points[0]
  {
    stored, drawn := [], [];
    var k := 0;
    while k < InterpRes
      invariant 0 <= k <= InterpRes
      invariant |stored| == k && |drawn| == k
      invariant forall j :: 0 <= j < k ==> stored[j] == Origin
      invariant forall j :: 0 <= j < k ==> drawn[j] == Approx(points, SampleParam(InterpRes - 1 - j, InterpRes))
    {
      stored := stored + [Origin];
      var p := CurveSample(points, k);
      drawn := drawn + [p];
      k := k + 1;
    }
    CurveEnds(points);
  }

  /** `interpolate_curve` storing the computed point, as the Bernstein demo
      does: sample k is sample 99 - k of the Bernstein demo, so the buffer
      holds the same curve traced from the last control point (k = 0) to the
      first (k = 99), inside the bounding box. */
  method InterpolateCurve(points: seq<Point>) returns (samples: seq<Point>)
    requires |points| >= 1
    ensures |samples| == InterpRes
    ensures forall k :: 0 <= k < InterpRes ==> samples[k] == Approx(points, SampleParam(InterpRes - 1 - k, InterpRes))
    ensures forall k :: 0 <= k < InterpRes ==> InBoundingBox(samples[k], points)
    ensures samples[0] == points[|points| - 1] && samples[InterpRes - 1] == points[0]
  {
    samples := [];
    var k := 0;
    while k < InterpRes
      invariant 0 <= k <= InterpRes
      invariant |samples| == k
      invariant forall j :: 0 <= j < k ==> samples[j] == Approx(points, SampleParam(InterpRes - 1 - j, InterpRes))
    {
      var p := CurveSample(points, k);
      samples := samples + [p];
      k := k + 1;
    }
    forall k | 0 <= k < InterpRes
      ensures InBoundingBox(samples[k], points)
    {
      SampleParamRange(InterpRes - 1 - k, InterpRes);
      ApproxInBoundingBox(points, SampleParam(InterpRes - 1 - k, InterpRes));
    }
    CurveEnds(points);
  }

  /** The first sample is the last control point and the last sample the first. */
  lemma {:induction false} CurveEnds(points: seq<Point>)
    requires |points| >= 1
    ensures Approx(points, SampleParam(InterpRes - 1, InterpRes)) == points[|points| - 1]
    ensures Approx(points, SampleParam(0, InterpRes)) == points[0]
  {
    SampleParamRange(0, InterpRes);
    SampleParamRange(InterpRes - 1, InterpRes);
    ApproxEnds(points);
  }
}
