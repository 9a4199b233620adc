/**
 The tensor-product Bezier surface of the surface demo
 (bezier_surface/src/scene.c): a `dim_n x dim_m` grid of control points,
 stored row-major, weighted by the product of two Bernstein bases.

 The surface is stated as the accumulation the source performs, one cell at
 a time in row-major order with weight B(i, u) * B(j, v), and is shown equal
 to the "curve of curves": every row evaluated as a Bezier curve in v, and
 the resulting column evaluated as a Bezier curve in u.
 */
module BezierSurface {
  import opened Combinatorics
  import opened Sums
  import opened Geometry
  import opened BernsteinBasis
  import BernsteinCurve

  // ---------------------------------------------------------------------------
  // Grids and tensor weights
  // ---------------------------------------------------------------------------

  /** The number of cells in n rows of m columns, counted row by row. Proofs
      about the buffer layout use this count and meet `n * m` only through
      `CellsIsProduct`, which keeps products out of their arithmetic. */
  function Cells(n: nat, m: nat): nat
  {
    if n == 0 then 0 else Cells(n - 1, m) + m
  }

  lemma {:induction false} CellsIsProduct(n: nat, m: nat)
    ensures Cells(n, m) == n * m
  {
    if n > 0 {
      CellsIsProduct(n - 1, m);
      assert (n - 1) * m + m == n * m;
    }
  }

  lemma {:induction false} CellsMonotone(i: nat, n: nat, m: nat)
    requires i <= n
    ensures Cells(i, m) <= Cells(n, m)
    decreases n
  {
    if i < n {
      CellsMonotone(i, n - 1, m);
    }
  }

  /** Cell (i, j) of an m-column grid sits at `Index(i, j, m)`. */
  lemma {:induction false} CellIndex(i: nat, j: nat, m: nat)
    ensures Index(i, j, m) == Cells(i, m) + j
  {
    CellsIsProduct(i, m);
  }

  /** Row i of a row-major grid with m columns. */
  function Row(xs: seq<real>, i: nat, m: nat): (r: seq<real>)
    requires Cells(i + 1, m) <= |xs|
    ensures |r| == m
    ensures forall j {:trigger r[j]} :: 0 <= j < m ==> r[j] == xs[Cells(i, m) + j]
  {
    xs[Cells(i, m) .. Cells(i + 1, m)]
  }

  /** The first n rows of the grid, each evaluated with the weights wv. */
  function RowValues(wv: seq<real>, xs: seq<real>, n: nat): (r: seq<real>)
    requires Cells(n, |wv|) <= |xs|
    ensures |r| == n
  {
    if n == 0 then []
    else RowValues(wv, xs, n - 1) + [Combine(wv, Row(xs, n - 1, |wv|))]
  }

  /** The weights of the cells, row by row: cell (i, j) gets wu[i] * wv[j]. */
  function TensorWeights(wu: seq<real>, wv: seq<real>): (r: seq<real>)
    ensures |r| == Cells(|wu|, |wv|)
  {
    if |wu| == 0 then []
    else TensorWeights(wu[..|wu| - 1], wv) + Scale(wu[|wu| - 1], wv)
  }

  /** The weight of cell (i, j) is wu[i] * wv[j], as in `bezier_surface`'s
      `B = bernstein(dim_n - 1, i, u) * bernstein(dim_m - 1, j, v)`. */
  lemma {:induction false} TensorWeightAt(wu: seq<real>, wv: seq<real>, i: nat, j: nat)
    requires i < |wu| && j < |wv|
    ensures Cells(i, |wv|) + j < |TensorWeights(wu, wv)|
    ensures TensorWeights(wu, wv)[Cells(i, |wv|) + j] == wu[i] * wv[j]
    decreases |wu|
  {
    var k := |wu| - 1;
    var prefix := wu[..k];
    CellsMonotone(i + 1, |wu|, |wv|);
    assert TensorWeights(wu, wv) == TensorWeights(prefix, wv) + Scale(wu[k], wv);
    if i < k {
      CellsMonotone(i + 1, k, |wv|);
      TensorWeightAt(prefix, wv, i, j);
    }
  }

  /** Entry i of `RowValues` is row i's combination. */
  lemma {:induction false} RowValueAt(wv: seq<real>, xs: seq<real>, n: nat, i: nat)
    requires Cells(n, |wv|) <= |xs| && i < n
    ensures Cells(i + 1, |wv|) <= |xs|
    ensures RowValues(wv, xs, n)[i] == Combine(wv, Row(xs, i, |wv|))
    decreases n
  {
    CellsMonotone(i + 1, n, |wv|);
    if i < n - 1 {
      RowValuesKeep(wv, xs, n, i);
      RowValueAt(wv, xs, n - 1, i);
    }
  }

  /** Adding a row leaves the values of the earlier rows alone. */
  lemma {:induction false} RowValuesKeep(wv: seq<real>, xs: seq<real>, n: nat, i: nat)
    requires Cells(n, |wv|) <= |xs| && i + 1 < n
    ensures Cells(n - 1, |wv|) <= |xs|
    ensures RowValues(wv, xs, n)[i] == RowValues(wv, xs, n - 1)[i]
  {
    CellsMonotone(n - 1, n, |wv|);
  }

  /** tw holds the cell weights of wu and wv: cell (i, j) weighs wu[i] * wv[j]. */
  predicate IsTensor(tw: seq<real>, wu: seq<real>, wv: seq<real>)
  {
    |tw| == Cells(|wu|, |wv|) &&
    forall i, j {:trigger Cell(i, j, |wv|)} :: 0 <= i < |wu| && 0 <= j < |wv| ==>
      Cell(i, j, |wv|) < |tw| && tw[Cell(i, j, |wv|)] == wu[i] * wv[j]
  }

  /** The position of cell (i, j), counted row by row. */
  function Cell(i: nat, j: nat, m: nat): nat
  {
    Cells(i, m) + j
  }

  lemma {:induction false} TensorWeightsIsTensor(wu: seq<real>, wv: seq<real>)
    ensures IsTensor(TensorWeights(wu, wv), wu, wv)
  {
    forall i, j | 0 <= i < |wu| && 0 <= j < |wv|
      ensures Cell(i, j, |wv|) < |TensorWeights(wu, wv)|
      ensures TensorWeights(wu, wv)[Cell(i, j, |wv|)] == wu[i] * wv[j]
    {
      TensorWeightAt(wu, wv, i, j);
    }
  }

  /** Summing the cells in row-major order with weights wu[i] * wv[j] gives
      the u-combination of the rows' v-combinations. */
  lemma {:induction false} CombineTensor(wu: seq<real>, wv: seq<real>, xs: seq<real>)
    requires |xs| == Cells(|wu|, |wv|)
    ensures Combine(TensorWeights(wu, wv), xs) == Combine(wu, RowValues(wv, xs, |wu|))
    decreases |wu|
  {
    if |wu| > 0 {
      var c := Cells(|wu| - 1, |wv|);
      TensorStep(wu, wv, xs);
      CombineTensor(wu[..|wu| - 1], wv, xs[..c]);
    }
  }

  /** Both sums lose the same amount when the last row is dropped. */
  lemma {:induction false} TensorStep(wu: seq<real>, wv: seq<real>, xs: seq<real>)
    requires 1 <= |wu| && |xs| == Cells(|wu|, |wv|)
    ensures Cells(|wu| - 1, |wv|) <= |xs|
    ensures Combine(TensorWeights(wu, wv), xs) - Combine(wu, RowValues(wv, xs, |wu|))
         == Combine(TensorWeights(wu[..|wu| - 1], wv), xs[..Cells(|wu| - 1, |wv|)])
            - Combine(wu[..|wu| - 1], RowValues(wv, xs[..Cells(|wu| - 1, |wv|)], |wu| - 1))
  {
    var n := |wu|;
    var c := Cells(n - 1, |wv|);
    TensorSplit(wu, wv, xs);
    RowValuesSplit(wu, wv, xs);
    LastRow(Scale(wu[n - 1], wv), xs, n, |wv|);
    RowValuesPrefix(wv, xs, xs[..c], n - 1);
  }

  /** The tensor sum is the sum over all rows but the last plus the last row
      under the weights wv scaled by the last u-weight. */
  lemma {:induction false} TensorSplit(wu: seq<real>, wv: seq<real>, xs: seq<real>)
    requires 1 <= |wu| && |xs| == Cells(|wu|, |wv|)
    ensures Cells(|wu| - 1, |wv|) <= |xs|
    ensures Combine(TensorWeights(wu, wv), xs)
         == Combine(TensorWeights(wu[..|wu| - 1], wv), xs[..Cells(|wu| - 1, |wv|)])
            + Combine(Scale(wu[|wu| - 1], wv), xs[Cells(|wu| - 1, |wv|)..])
  {
    CombineSplit(TensorWeights(wu[..|wu| - 1], wv), Scale(wu[|wu| - 1], wv), xs);
  }

  /** The same split of the row values. */
  lemma {:induction false} RowValuesSplit(wu: seq<real>, wv: seq<real>, xs: seq<real>)
    requires 1 <= |wu| && |xs| == Cells(|wu|, |wv|)
    ensures Combine(wu, RowValues(wv, xs, |wu|))
         == Combine(wu[..|wu| - 1], RowValues(wv, xs, |wu| - 1))
            + Combine(Scale(wu[|wu| - 1], wv), Row(xs, |wu| - 1, |wv|))
  {
    var n := |wu|;
    var row := Row(xs, n - 1, |wv|);
    CombineSnoc(wu, RowValues(wv, xs, n - 1), Combine(wv, row));
    CombineScale(wu[n - 1], wv, row);
  }

  /** In a grid of n full rows the last row is everything after row n - 1's
      first cell. */
  lemma {:induction false} LastRow(w: seq<real>, xs: seq<real>, n: nat, m: nat)
    requires 1 <= n && |w| == m && |xs| == Cells(n, m)
    ensures Cells(n - 1, m) <= |xs|
    ensures Combine(w, Row(xs, n - 1, m)) == Combine(w, xs[Cells(n - 1, m)..])
  {
    assert Row(xs, n - 1, m) == xs[Cells(n - 1, m)..];
  }

  /** Rows below k only read the first Cells(k, m) values of the grid. */
  lemma {:induction false} RowValuesPrefix(wv: seq<real>, xs: seq<real>, ys: seq<real>, k: nat)
    requires Cells(k, |wv|) <= |ys| <= |xs| && ys == xs[..|ys|]
    ensures RowValues(wv, xs, k) == RowValues(wv, ys, k)
  {
    if k > 0 {
      RowValuesPrefix(wv, xs, ys, k - 1);
      assert Row(xs, k - 1, |wv|) == Row(ys, k - 1, |wv|);
    }
  }

  // ---------------------------------------------------------------------------
  // A grid under any weights
  // ---------------------------------------------------------------------------

  /** w is a convex weighting: non-empty, non-negative and summing to one, as
      the Bernstein basis is on [0, 1]. */
  predicate IsConvex(w: seq<real>)
  {
    |w| >= 1 && NonNegative(w) && Sum(w) == 1.0
  }

  /** The weights w are 1 at position i and 0 everywhere else. */
  predicate Selects(w: seq<real>, i: nat) {
    forall k :: 0 <= k < |w| ==> w[k] == (if k == i then 1.0 else 0.0)
  }

  /** The grid values xs, |wu| rows of |wv| columns: every row combined with
      the weights wv, and the row values combined with the weights wu. */
  function Grid(xs: seq<real>, wu: seq<real>, wv: seq<real>): real
    requires |xs| == Cells(|wu|, |wv|)
  {
    Combine(wu, RowValues(wv, xs, |wu|))
  }

  /** Unit weights selecting row i and column j pick the value of cell (i, j). */
  lemma {:induction false} GridSelects(xs: seq<real>, wu: seq<real>, wv: seq<real>, i: nat, j: nat)
    requires |xs| == Cells(|wu|, |wv|) && i < |wu| && j < |wv|
    requires Selects(wu, i) && Selects(wv, j)
    ensures Cell(i, j, |wv|) < |xs| && Grid(xs, wu, wv) == xs[Cell(i, j, |wv|)]
  {
    var rv := RowValues(wv, xs, |wu|);
    CombineUnit(wu, rv, i);
    RowValueAt(wv, xs, |wu|, i);
    CombineUnit(wv, Row(xs, i, |wv|), j);
  }

  /** Weights summing to one keep a constant grid constant. */
  lemma {:induction false} GridConstant(xs: seq<real>, wu: seq<real>, wv: seq<real>, c: real)
    requires |xs| == Cells(|wu|, |wv|) && Sum(wu) == 1.0 && Sum(wv) == 1.0
    requires forall k :: 0 <= k < |xs| ==> xs[k] == c
    ensures Grid(xs, wu, wv) == c
  {
    RowsConstant(xs, wu, wv, c);
    CombineConst(wu, RowValues(wv, xs, |wu|), c);
  }

  lemma {:induction false} RowsConstant(xs: seq<real>, wu: seq<real>, wv: seq<real>, c: real)
    requires |xs| == Cells(|wu|, |wv|) && Sum(wv) == 1.0
    requires forall k :: 0 <= k < |xs| ==> xs[k] == c
    ensures forall i :: 0 <= i < |wu| ==> RowValues(wv, xs, |wu|)[i] == c
  {
    forall i | 0 <= i < |wu|
      ensures RowValues(wv, xs, |wu|)[i] == c
    {
      RowValueAt(wv, xs, |wu|, i);
      RowConstant(xs, wv, i, c);
    }
  }

  lemma {:induction false} RowConstant(xs: seq<real>, wv: seq<real>, i: nat, c: real)
    requires Cells(i + 1, |wv|) <= |xs| && Sum(wv) == 1.0
    requires forall k :: 0 <= k < |xs| ==> xs[k] == c
    ensures Combine(wv, Row(xs, i, |wv|)) == c
  {
    CombineConst(wv, Row(xs, i, |wv|), c);
  }

  /** Convex weights keep the grid's combination between its extremes. */
  lemma {:induction false} GridInHull(xs: seq<real>, wu: seq<real>, wv: seq<real>)
    requires |xs| == Cells(|wu|, |wv|) && IsConvex(wu) && IsConvex(wv)
    ensures |xs| >= 1 && Min(xs) <= Grid(xs, wu, wv) <= Max(xs)
  {
    CellsMonotone(1, |wu|, |wv|);
    assert Cells(1, |wv|) == |wv|;
    var rv := RowValues(wv, xs, |wu|);
    forall i | 0 <= i < |wu|
      ensures Min(xs) <= rv[i] <= Max(xs)
    {
      RowValueAt(wv, xs, |wu|, i);
      RowInHull(xs, wv, i);
    }
    var g := Combine(wu, rv);
    assert Min(rv) <= g <= Max(rv) by {
      ConvexCombination(wu, rv);
    }
    assert Min(xs) <= Min(rv) by {
      MinBounds(rv);
    }
    assert Max(rv) <= Max(xs) by {
      MaxBounds(rv);
    }
  }

  /** Under convex weights each row's value stays within the grid's extremes. */
  lemma {:induction false} RowInHull(xs: seq<real>, wv: seq<real>, i: nat)
    requires IsConvex(wv) && Cells(i + 1, |wv|) <= |xs|
    ensures Min(xs) <= Combine(wv, Row(xs, i, |wv|)) <= Max(xs)
  {
    var row := Row(xs, i, |wv|);
    var r := Combine(wv, row);
    assert Min(row) <= r <= Max(row) by {
      ConvexCombination(wv, row);
    }
    RowWithinGrid(xs, row, i, |wv|, r);
  }

  /** A value between a row's extremes lies between the grid's extremes. */
  lemma {:induction false} RowWithinGrid(xs: seq<real>, row: seq<real>, i: nat, m: nat, r: real)
    requires 1 <= m && Cells(i + 1, m) <= |xs| && row == Row(xs, i, m)
    requires Min(row) <= r <= Max(row)
    ensures Min(xs) <= r <= Max(xs)
  {
    MinBounds(row);
    MaxBounds(row);
    var lo :| 0 <= lo < m && Min(row) == row[lo];
    var hi :| 0 <= hi < m && Max(row) == row[hi];
    assert Min(xs) <= row[lo] by {
      MinBounds(xs);
      assert row[lo] == xs[Cells(i, m) + lo];
    }
    assert row[hi] <= Max(xs) by {
      MaxBounds(xs);
      assert row[hi] == xs[Cells(i, m) + hi];
    }
  }

  // ---------------------------------------------------------------------------
  // One coordinate of the Bezier surface
  // ---------------------------------------------------------------------------

  /** On [0, 1] the Bernstein basis is a convex weighting. */
  lemma {:induction false} BasisIsConvex(n: nat, t: real)
    requires 0.0 <= t <= 1.0
    ensures IsConvex(Weights(n, t))
  {
    WeightsNonNegative(n, t);
    PartitionOfUnity(n, t);
  }

  /** At the ends of the parameter range the Bernstein basis selects the
      first and the last control point. */
  lemma {:induction false} SelectsAtEnds(n: nat)
    ensures Selects(Weights(n, 0.0), 0) && Selects(Weights(n, 1.0), n)
  {
    WeightsAtZero(n);
    WeightsAtOne(n);
  }

  /** One coordinate of the surface at (u, v): the grid values xs weighted by
      the tensor weights of the degree n-1 and m-1 Bernstein bases. */
  function Coordinate(xs: seq<real>, n: nat, m: nat, u: real, v: real): real
    requires 1 <= n && 1 <= m && |xs| == Cells(n, m)
  {
    Grid(xs, Weights(n - 1, u), Weights(m - 1, v))
  }

  /** The double sum of `bezier_surface`, every cell (i, j) weighted by
      B(i, u) * B(j, v), is the curve in u through the rows' curves in v. */
  lemma {:induction false} CoordinateByRows(xs: seq<real>, n: nat, m: nat, u: real, v: real)
    requires 1 <= n && 1 <= m && |xs| == Cells(n, m)
    ensures |TensorWeights(Weights(n - 1, u), Weights(m - 1, v))| == |xs|
    ensures Combine(TensorWeights(Weights(n - 1, u), Weights(m - 1, v)), xs) == Coordinate(xs, n, m, u, v)
  {
    CombineTensor(Weights(n - 1, u), Weights(m - 1, v), xs);
  }

  /** The cell weights add up to one. */
  lemma {:induction false} TensorPartitionOfUnity(n: nat, m: nat, u: real, v: real)
    requires 1 <= n && 1 <= m
    ensures Sum(TensorWeights(Weights(n - 1, u), Weights(m - 1, v))) == 1.0
  {
    PartitionOfUnity(n - 1, u);
    PartitionOfUnity(m - 1, v);
    TensorSum(Weights(n - 1, u), Weights(m - 1, v));
  }

  /** If the weights of the rows and the weights of the columns each sum to
      one, so do the cell weights. */
  lemma {:induction false} TensorSum(wu: seq<real>, wv: seq<real>)
    requires Sum(wu) == 1.0 && Sum(wv) == 1.0
    ensures Sum(TensorWeights(wu, wv)) == 1.0
  {
    var ones := Const(Cells(|wu|, |wv|), 1.0);
    CombineTensor(wu, wv, ones);
    GridConstant(ones, wu, wv, 1.0);
  }

  // ---------------------------------------------------------------------------
  // The surface point
  // ---------------------------------------------------------------------------

  /** The point of the grid of control points under the weights wu and wv. */
  function SurfaceWith(points: seq<Vec3>, wu: seq<real>, wv: seq<real>): Vec3
    requires |points| == Cells(|wu|, |wv|)
  {
    Vec3(Grid(Xs3(points), wu, wv), Grid(Ys3(points), wu, wv), Grid(Zs3(points), wu, wv))
  }

  /** The surface at (u, v) of an n x m grid of control points. */
  function Surface(points: seq<Vec3>, n: nat, m: nat, u: real, v: real): Vec3
    requires 1 <= n && 1 <= m && |points| == Cells(n, m)
  {
    SurfaceWith(points, Weights(n - 1, u), Weights(m - 1, v))
  }

  lemma {:induction false} SurfaceWithSelects(points: seq<Vec3>, wu: seq<real>, wv: seq<real>, i: nat, j: nat)
    requires |points| == Cells(|wu|, |wv|) && i < |wu| && j < |wv|
    requires Selects(wu, i) && Selects(wv, j)
    ensures Cell(i, j, |wv|) < |points| && SurfaceWith(points, wu, wv) == points[Cell(i, j, |wv|)]
  {
    GridSelects(Xs3(points), wu, wv, i, j);
    GridSelects(Ys3(points), wu, wv, i, j);
    GridSelects(Zs3(points), wu, wv, i, j);
  }

  /** Weights that select the first and last row (u0, u1) and the first and
      last column (v0, v1) pick the four corner points of the grid. */
  lemma {:induction false} SurfaceWithCorners(points: seq<Vec3>, u0: seq<real>, u1: seq<real>, v0: seq<real>, v1: seq<real>)
    requires |u0| == |u1| >= 1 && |v0| == |v1| >= 1 && |points| == Cells(|u0|, |v0|)
    requires Selects(u0, 0) && Selects(u1, |u0| - 1) && Selects(v0, 0) && Selects(v1, |v0| - 1)
    ensures Cells(|u0| - 1, |v0|) < |points|
    ensures SurfaceWith(points, u0, v0) == points[0]
    ensures SurfaceWith(points, u0, v1) == points[|v0| - 1]
    ensures SurfaceWith(points, u1, v0) == points[Cells(|u0| - 1, |v0|)]
    ensures SurfaceWith(points, u1, v1) == points[|points| - 1]
  {
    var n, m := |u0|, |v0|;
    assert Cell(0, 0, m) == 0 && Cell(0, m - 1, m) == m - 1;
    assert Cell(n - 1, 0, m) == Cells(n - 1, m) && Cell(n - 1, m - 1, m) == |points| - 1;
    SurfaceWithSelects(points, u0, v0, 0, 0);
    SurfaceWithSelects(points, u0, v1, 0, m - 1);
    SurfaceWithSelects(points, u1, v0, n - 1, 0);
    SurfaceWithSelects(points, u1, v1, n - 1, m - 1);
  }

  /** The surface passes through its four corner control points. */
  lemma {:induction false} SurfaceCorners(points: seq<Vec3>, n: nat, m: nat)
    requires 1 <= n && 1 <= m && |points| == Cells(n, m)
    ensures m <= |points| && Cells(n - 1, m) < |points|
    ensures Surface(points, n, m, 0.0, 0.0) == points[0]
    ensures Surface(points, n, m, 0.0, 1.0) == points[m - 1]
    ensures Surface(points, n, m, 1.0, 0.0) == points[Cells(n - 1, m)]
    ensures Surface(points, n, m, 1.0, 1.0) == points[|points| - 1]
  {
    CellsMonotone(1, n, m);
    assert Cell(0, 0, m) == 0 && Cell(0, m - 1, m) == m - 1;
    assert Cell(n - 1, m - 1, m) == |points| - 1;
    SurfaceCorner(points, n, m, 0.0, 0.0, 0, 0);
    SurfaceCorner(points, n, m, 0.0, 1.0, 0, m - 1);
    SurfaceCorner(points, n, m, 1.0, 0.0, n - 1, 0);
    SurfaceCorner(points, n, m, 1.0, 1.0, n - 1, m - 1);
  }

  /** One corner: u and v are each 0 or 1, and i and j the matching end of the
      rows and of the columns. */
  lemma {:induction false} SurfaceCorner(points: seq<Vec3>, n: nat, m: nat, u: real, v: real, i: nat, j: nat)
    requires 1 <= n && 1 <= m && |points| == Cells(n, m)
    requires (u == 0.0 && i == 0) || (u == 1.0 && i == n - 1)
    requires (v == 0.0 && j == 0) || (v == 1.0 && j == m - 1)
    ensures Cell(i, j, m) < |points|
    ensures Surface(points, n, m, u, v) == points[Cell(i, j, m)]
  {
    CornerWith(points, n, m, u, v, i, j, Weights(n - 1, u), Weights(m - 1, v));
  }

  lemma {:induction false} CornerWith(points: seq<Vec3>, n: nat, m: nat, u: real, v: real, i: nat, j: nat,
                                      wu: seq<real>, wv: seq<real>)
    requires 1 <= n && 1 <= m && |points| == Cells(n, m)
    requires wu == Weights(n - 1, u) && wv == Weights(m - 1, v)
    requires (u == 0.0 && i == 0) || (u == 1.0 && i == n - 1)
    requires (v == 0.0 && j == 0) || (v == 1.0 && j == m - 1)
    ensures Cell(i, j, m) < |points|
    ensures SurfaceWith(points, wu, wv) == points[Cell(i, j, m)]
  {
    SelectsAtEnds(n - 1);
    SelectsAtEnds(m - 1);
    SurfaceWithSelects(points, wu, wv, i, j);
  }

  lemma {:induction false} SurfaceWithConstant(points: seq<Vec3>, wu: seq<real>, wv: seq<real>, p: Vec3)
    requires |points| == Cells(|wu|, |wv|) && Sum(wu) == 1.0 && Sum(wv) == 1.0
    requires forall k :: 0 <= k < |points| ==> points[k] == p
    ensures SurfaceWith(points, wu, wv) == p
  {
    GridConstant(Xs3(points), wu, wv, p.x);
    GridConstant(Ys3(points), wu, wv, p.y);
    GridConstant(Zs3(points), wu, wv, p.z);
  }

  /** If every control point is p, the surface is the constant p. */
  lemma {:induction false} SurfaceConstant(points: seq<Vec3>, n: nat, m: nat, u: real, v: real, p: Vec3)
    requires 1 <= n && 1 <= m && |points| == Cells(n, m)
    requires forall k :: 0 <= k < |points| ==> points[k] == p
    ensures Surface(points, n, m, u, v) == p
  {
    ConstantWith(points, n, m, u, v, p, Weights(n - 1, u), Weights(m - 1, v));
  }

  lemma {:induction false} ConstantWith(points: seq<Vec3>, n: nat, m: nat, u: real, v: real, p: Vec3,
                                        wu: seq<real>, wv: seq<real>)
    requires 1 <= n && 1 <= m && |points| == Cells(n, m)
    requires wu == Weights(n - 1, u) && wv == Weights(m - 1, v)
    requires forall k :: 0 <= k < |points| ==> points[k] == p
    ensures SurfaceWith(points, wu, wv) == p
  {
    PartitionOfUnity(n - 1, u);
    PartitionOfUnity(m - 1, v);
    SurfaceWithConstant(points, wu, wv, p);
  }

  /** p lies in the axis-aligned bounding box of the points pts. */
  predicate InBox(p: Vec3, pts: seq<Vec3>)
    requires |pts| >= 1
  {
    && Min(Xs3(pts)) <= p.x <= Max(Xs3(pts))
    && Min(Ys3(pts)) <= p.y <= Max(Ys3(pts))
    && Min(Zs3(pts)) <= p.z <= Max(Zs3(pts))
  }

  lemma {:induction false} SurfaceWithInBox(points: seq<Vec3>, wu: seq<real>, wv: seq<real>)
    requires |points| == Cells(|wu|, |wv|) && IsConvex(wu) && IsConvex(wv)
    ensures |points| >= 1 && InBox(SurfaceWith(points, wu, wv), points)
  {
    GridInHull(Xs3(points), wu, wv);
    GridInHull(Ys3(points), wu, wv);
    GridInHull(Zs3(points), wu, wv);
  }

  /** On the unit square the surface stays in the bounding box of its control
      points. */
  lemma {:induction false} SurfaceInBox(points: seq<Vec3>, n: nat, m: nat, u: real, v: real)
    requires 1 <= n && 1 <= m && |points| == Cells(n, m)
    requires 0.0 <= u <= 1.0 && 0.0 <= v <= 1.0
    ensures |points| >= 1 && InBox(Surface(points, n, m, u, v), points)
  {
    InBoxWith(points, n, m, u, v, Weights(n - 1, u), Weights(m - 1, v));
  }

  lemma {:induction false} InBoxWith(points: seq<Vec3>, n: nat, m: nat, u: real, v: real, wu: seq<real>, wv: seq<real>)
    requires 1 <= n && 1 <= m && |points| == Cells(n, m)
    requires wu == Weights(n - 1, u) && wv == Weights(m - 1, v)
    requires 0.0 <= u <= 1.0 && 0.0 <= v <= 1.0
    ensures |points| >= 1 && InBox(SurfaceWith(points, wu, wv), points)
  {
    BasisIsConvex(n - 1, u);
    BasisIsConvex(m - 1, v);
    SurfaceWithInBox(points, wu, wv);
  }

  // ---------------------------------------------------------------------------
  // The evaluation loops of scene.c
  // ---------------------------------------------------------------------------

  /** `bernstein(n, k, t)` of the surface demo: `binom(n, k) * pow(t, k) *
      pow(1 - t, n - k)`, which is weight k of the degree-n basis. */
  method BernsteinAt(n: nat, k: nat, t: real) returns (b: real)
    requires k <= n
    ensures b == Weights(n, t)[k]
    ensures 0.0 <= t <= 1.0 ==> b >= 0.0
  {
    var c := Binom(n, k);
    b := c as real * Pow(t, k) * Pow(1.0 - t, n - k);
    BernsteinCurve.ClosedFormValue(n, k, t, c, b);
    WeightIsBernstein(n, k, t);
    if 0.0 <= t <= 1.0 {
      WeightsNonNegative(n, t);
    }
  }

  /** The running sum after the first k cells in row-major order, weighted
      by tw. */
  ghost predicate SumSoFar(sum: Vec3, tw: seq<real>, points: seq<Vec3>, k: nat)
  {
    && k <= |tw| == |points|
    && sum.x == Partial(tw, Xs3(points), k)
    && sum.y == Partial(tw, Ys3(points), k)
    && sum.z == Partial(tw, Zs3(points), k)
  }

  /** `bezier_surface`: the double loop adding `points[i*dim_m + j] * B` with
      `B = bernstein(dim_n - 1, i, u) * bernstein(dim_m - 1, j, v)`. It
      computes the surface point; at the corners of the unit square it is the
      corner control point, and on the square it stays in the bounding box. */
  method SurfaceLoop(points: seq<Vec3>, n: nat, m: nat, u: real, v: real) returns (sum: Vec3)
    requires 1 <= n && 1 <= m && |points| == Cells(n, m)
    ensures sum == Surface(points, n, m, u, v)
    ensures u == 0.0 && v == 0.0 ==> sum == points[0]
    ensures u == 1.0 && v == 1.0 ==> sum == points[|points| - 1]
    ensures 0.0 <= u <= 1.0 && 0.0 <= v <= 1.0 ==> InBox(sum, points)
  {
    sum := AccumulateRows(points, n, m, u, v, Weights(n - 1, u), Weights(m - 1, v));
    SumIsSurface(sum, points, n, m, u, v);
    SurfaceFacts(points, n, m, u, v);
  }

  /** The surface point at the corners (0, 0) and (1, 1) of the unit square
      is the first and the last control point; anywhere on the square it lies
      in the control points' bounding box. */
  lemma {:induction false} SurfaceFacts(points: seq<Vec3>, n: nat, m: nat, u: real, v: real)
    requires 1 <= n && 1 <= m && |points| == Cells(n, m)
    ensures u == 0.0 && v == 0.0 ==> Surface(points, n, m, u, v) == points[0]
    ensures u == 1.0 && v == 1.0 ==> Surface(points, n, m, u, v) == points[|points| - 1]
    ensures 0.0 <= u <= 1.0 && 0.0 <= v <= 1.0 ==> InBox(Surface(points, n, m, u, v), points)
  {
    if (u == 0.0 && v == 0.0) || (u == 1.0 && v == 1.0) {
      SurfaceCorners(points, n, m);
    }
    if 0.0 <= u <= 1.0 && 0.0 <= v <= 1.0 {
      SurfaceInBox(points, n, m, u, v);
    }
  }

  /** The outer loop of `bezier_surface`: all n rows, row by row. */
  method AccumulateRows(points: seq<Vec3>, n: nat, m: nat, u: real, v: real, ghost wu: seq<real>, ghost wv: seq<real>)
    returns (sum: Vec3)
    requires 1 <= n && 1 <= m && |points| == Cells(n, m)
    requires wu == Weights(n - 1, u) && wv == Weights(m - 1, v)
    ensures SumSoFar(sum, TensorWeights(wu, wv), points, Cells(n, m))
  {
    ghost var tw := TensorWeights(wu, wv);
    TensorWeightsIsTensor(wu, wv);
    sum := Zero3;
    var i := 0;
    while i < n
      invariant 0 <= i <= n
      invariant SumSoFar(sum, tw, points, Cell(i, 0, m))
    {
      sum := AccumulateRow(points, n, m, u, v, i, sum, wu, wv, tw);
      i := i + 1;
    }
  }

  /** After the last cell the running sum is the surface point, with the
      corner and bounding-box facts that follow. */
  lemma {:induction false} SumIsSurface(sum: Vec3, points: seq<Vec3>, n: nat, m: nat, u: real, v: real)
    requires 1 <= n && 1 <= m && |points| == Cells(n, m)
    requires SumSoFar(sum, TensorWeights(Weights(n - 1, u), Weights(m - 1, v)), points, Cells(n, m))
    ensures sum == Surface(points, n, m, u, v)
  {
    SumIsPoint(sum, points, n, m, u, v, Weights(n - 1, u), Weights(m - 1, v));
  }

  lemma {:induction false} SumIsPoint(sum: Vec3, points: seq<Vec3>, n: nat, m: nat, u: real, v: real,
                                      wu: seq<real>, wv: seq<real>)
    requires 1 <= n && 1 <= m && |points| == Cells(n, m)
    requires wu == Weights(n - 1, u) && wv == Weights(m - 1, v)
    requires SumSoFar(sum, TensorWeights(wu, wv), points, Cells(n, m))
    ensures sum == SurfaceWith(points, wu, wv)
  {
    TensorIsSurface(sum, points, wu, wv);
  }

  /** A running sum over every cell is the surface point of the weights. */
  lemma {:induction false} TensorIsSurface(sum: Vec3, points: seq<Vec3>, wu: seq<real>, wv: seq<real>)
    requires |points| == Cells(|wu|, |wv|)
    requires SumSoFar(sum, TensorWeights(wu, wv), points, |points|)
    ensures sum == SurfaceWith(points, wu, wv)
  {
    CombineTensor(wu, wv, Xs3(points));
    CombineTensor(wu, wv, Ys3(points));
    CombineTensor(wu, wv, Zs3(points));
  }

  /** The inner loop of `bezier_surface`: row i, cell by cell. */
  method AccumulateRow(points: seq<Vec3>, n: nat, m: nat, u: real, v: real, i: nat, sum: Vec3,
                       ghost wu: seq<real>, ghost wv: seq<real>, ghost tw: seq<real>)
    returns (next: Vec3)
    requires i < n && 1 <= m && wu == Weights(n - 1, u) && wv == Weights(m - 1, v)
    requires IsTensor(tw, wu, wv) && |points| == |tw|
    requires SumSoFar(sum, tw, points, Cell(i, 0, m))
    ensures SumSoFar(next, tw, points, Cell(i + 1, 0, m))
  {
    next := sum;
    var j := 0;
    while j < m
      invariant 0 <= j <= m
      invariant SumSoFar(next, tw, points, Cell(i, j, m))
    {
      var b := CellWeightAt(n, m, u, v, i, j, wu, wv);
      next := AccumulateCell(points, m, i, j, next, b, wu, wv, tw);
      j := j + 1;
    }
    assert Cell(i, m, m) == Cell(i + 1, 0, m);
  }

  /** The weight `B` of cell (i, j): `bernstein(dim_n - 1, i, u) *
      bernstein(dim_m - 1, j, v)`. */
  method CellWeightAt(n: nat, m: nat, u: real, v: real, i: nat, j: nat, ghost wu: seq<real>, ghost wv: seq<real>)
    returns (b: real)
    requires i < n && j < m && wu == Weights(n - 1, u) && wv == Weights(m - 1, v)
    ensures b == wu[i] * wv[j]
  {
    var bu := BernsteinAt(n - 1, i, u);
    var bv := BernsteinAt(m - 1, j, v);
    b := bu * bv;
    SameProduct(b, bu, bv, wu[i], wv[j]);
  }

  lemma {:induction false} SameProduct(w: real, a: real, b: real, c: real, d: real)
    requires w == a * b && a == c && b == d
    ensures w == c * d
  {
  }

  /** One turn of the inner loop: add cell (i, j) of the m-column grid with
      its weight b, which the tensor weights tw give it. */
  method AccumulateCell(points: seq<Vec3>, m: nat, i: nat, j: nat, sum: Vec3, b: real,
                        ghost wu: seq<real>, ghost wv: seq<real>, ghost tw: seq<real>)
    returns (next: Vec3)
    requires i < |wu| && j < |wv| == m && IsTensor(tw, wu, wv) && |points| == |tw|
    requires b == wu[i] * wv[j]
    requires SumSoFar(sum, tw, points, Cell(i, j, m))
    ensures SumSoFar(next, tw, points, Cell(i, j + 1, m))
  {
    ghost var k := Cell(i, j, m);
    CellIndex(i, j, m);
    var p := points[Index(i, j, m)];
    next := Vec3(sum.x + p.x * b, sum.y + p.y * b, sum.z + p.z * b);
    AddCell(sum, tw, points, k, b, next);
  }

  /** Adding cell k with its weight extends the running sum by one cell. */
  lemma {:induction false} AddCell(sum: Vec3, tw: seq<real>, points: seq<Vec3>, k: nat, b: real, next: Vec3)
    requires SumSoFar(sum, tw, points, k) && k < |tw| && tw[k] == b
    requires next == Vec3(sum.x + points[k].x * b, sum.y + points[k].y * b, sum.z + points[k].z * b)
    ensures SumSoFar(next, tw, points, k + 1)
  {
    BernsteinCurve.AccumulateStep(tw, Xs3(points), k, sum.x, points[k].x, b, next.x);
    BernsteinCurve.AccumulateStep(tw, Ys3(points), k, sum.y, points[k].y, b, next.y);
    BernsteinCurve.AccumulateStep(tw, Zs3(points), k, sum.z, points[k].z, b, next.z);
  }
}
