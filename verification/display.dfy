/**
 The display grid of the surface demo (bezier_surface/src/scene.c): the
 `(dim_n * res) x (dim_m * res)` buffer of vertices that `update_scene` fills
 with surface samples and normals and `premap_texture` fills with texture
 coordinates. Sample (i, j) of a rows x cols grid lives at `i * cols + j` and
 sits at the parameters `u = i / (rows - 1)`, `v = j / (cols - 1)`.
 */
module Display {
  import opened Geometry
  import BezierSurface

  // ---------------------------------------------------------------------------
  // Sample parameters
  // ---------------------------------------------------------------------------

  /** The parameters (u, v) of the sample stored at buffer position k. */
  function TexelAt(k: nat, rows: nat, cols: nat): Texel
    requires rows >= 2 && cols >= 2
  {
    Texel(SampleParam(k / cols, rows), SampleParam(k % cols, cols))
  }

  /** Position `i * cols + j` carries the parameters of sample (i, j). */
  lemma {:induction false} TexelAtCell(i: nat, j: nat, rows: nat, cols: nat)
    requires rows >= 2 && cols >= 2 && j < cols
    ensures TexelAt(Index(i, j, cols), rows, cols) == Texel(SampleParam(i, rows), SampleParam(j, cols))
  {
    IndexDivMod(i, j, cols);
  }

  /** Every position of the buffer has parameters in the unit square; the
      first position sits at (0, 0) and the last one at (1, 1). */
  lemma {:induction false} TexelInUnitSquare(k: nat, rows: nat, cols: nat)
    requires rows >= 2 && cols >= 2 && k < rows * cols
    ensures 0.0 <= TexelAt(k, rows, cols).u <= 1.0
    ensures 0.0 <= TexelAt(k, rows, cols).v <= 1.0
    ensures k == 0 ==> TexelAt(k, rows, cols) == Texel(0.0, 0.0)
    ensures k == rows * cols - 1 ==> TexelAt(k, rows, cols) == Texel(1.0, 1.0)
  {
    IndexCovers(k, rows, cols);
    SampleParamRange(k / cols, rows);
    SampleParamRange(k % cols, cols);
    if k == rows * cols - 1 {
      LastCell(rows, cols);
    }
  }

  /** The last buffer position is the cell (rows - 1, cols - 1). */
  lemma {:induction false} LastCell(rows: nat, cols: nat)
    requires rows >= 1 && cols >= 1
    ensures (rows * cols - 1) / cols == rows - 1 && (rows * cols - 1) % cols == cols - 1
  {
    assert Index(rows - 1, cols - 1, cols) == rows * cols - 1;
    IndexDivMod(rows - 1, cols - 1, cols);
  }

  // ---------------------------------------------------------------------------
  // Filling the buffer
  // ---------------------------------------------------------------------------

  /** The texture coordinates `premap_texture` writes: every vertex keeps its
      position and normal and gets the parameters of its sample as texel. */
  predicate Premapped(out: seq<Vertex>, disp: seq<Vertex>, rows: nat, cols: nat, done: nat)
    requires rows >= 2 && cols >= 2
  {
    && |out| == |disp|
    && forall k :: 0 <= k < |out| ==>
         out[k] == if k < done then disp[k].(texel := TexelAt(k, rows, cols)) else disp[k]
  }

  /** `premap_texture`: for each sample (i, j) in row-major order, store the
      texel `(i / (rows - 1), j / (cols - 1))` at `i * cols + j`. Every vertex
      gets its texel; positions and normals are untouched. */
  method PremapTexture(disp: seq<Vertex>, rows: nat, cols: nat) returns (out: seq<Vertex>)
    requires rows >= 2 && cols >= 2 && |disp| == rows * cols
    ensures |out| == |disp|
    ensures forall k :: 0 <= k < |out| ==> out[k] == disp[k].(texel := TexelAt(k, rows, cols))
    ensures forall k :: 0 <= k < |out| ==> 0.0 <= out[k].texel.u <= 1.0 && 0.0 <= out[k].texel.v <= 1.0
  {
    out := disp;
    var i := 0;
    while i < rows
      invariant 0 <= i <= rows
      invariant Premapped(out, disp, rows, cols, Index(i, 0, cols))
    {
      var j := 0;
      while j < cols
        invariant 0 <= j <= cols
        invariant Premapped(out, disp, rows, cols, Index(i, j, cols))
      {
        var u := SampleParam(i, rows);
        var v := SampleParam(j, cols);
        var idx := i * cols + j;
        IndexInRange(i, j, rows, cols);
        TexelAtCell(i, j, rows, cols);
        out := out[idx := out[idx].(texel := Texel(u, v))];
        j := j + 1;
      }
      assert Index(i, cols, cols) == Index(i + 1, 0, cols);
      i := i + 1;
    }
    forall k | 0 <= k < |out|
      ensures 0.0 <= out[k].texel.u <= 1.0 && 0.0 <= out[k].texel.v <= 1.0
    {
      TexelInUnitSquare(k, rows, cols);
    }
  }

  /** The positions `update_scene` writes, up to position done. */
  predicate Sampled(out: seq<Vertex>, disp: seq<Vertex>, points: seq<Vec3>, n: nat, m: nat,
                    rows: nat, cols: nat, done: nat)
    requires 1 <= n && 1 <= m && |points| == BezierSurface.Cells(n, m) && rows >= 2 && cols >= 2
  {
    && |out| == |disp|
    && forall k :: 0 <= k < |out| ==>
         out[k] == if k < done then disp[k].(pos := SurfaceAt(points, n, m, k, rows, cols)) else disp[k]
  }

  /** The surface point for the sample at buffer position k. */
  function SurfaceAt(points: seq<Vec3>, n: nat, m: nat, k: nat, rows: nat, cols: nat): Vec3
    requires 1 <= n && 1 <= m && |points| == BezierSurface.Cells(n, m) && rows >= 2 && cols >= 2
  {
    var t := TexelAt(k, rows, cols);
    BezierSurface.Surface(points, n, m, t.u, t.v)
  }

  /** The sampling pass of `update_scene`: for each sample (i, j), store
      `bezier_surface(scene, i / (rows - 1), j / (cols - 1))` as the position
      at `i * cols + j`. Every vertex gets the surface point of its own
      parameters, which lies in the control points' bounding box; the first
      vertex is the first control point and the last one the last. */
  method SamplePositions(points: seq<Vec3>, n: nat, m: nat, disp: seq<Vertex>, rows: nat, cols: nat)
    returns (out: seq<Vertex>)
    requires 1 <= n && 1 <= m && |points| == BezierSurface.Cells(n, m)
    requires rows >= 2 && cols >= 2 && |disp| == rows * cols
    ensures |out| == |disp|
    ensures forall k :: 0 <= k < |out| ==> out[k] == disp[k].(pos := SurfaceAt(points, n, m, k, rows, cols))
    ensures forall k :: 0 <= k < |out| ==> BezierSurface.InBox(out[k].pos, points)
    ensures out[0].pos == points[0]
    ensures out[|out| - 1].pos == points[|points| - 1]
  {
    out := disp;
    var i := 0;
    while i < rows
      invariant 0 <= i <= rows
      invariant Sampled(out, disp, points, n, m, rows, cols, Index(i, 0, cols))
    {
      out := SampleRow(points, n, m, disp, rows, cols, i, out);
      i := i + 1;
    }
    SampledFacts(out, points, n, m, rows, cols);
  }

  /** One row of the sampling pass: samples (i, 0) to (i, cols - 1). */
  method SampleRow(points: seq<Vec3>, n: nat, m: nat, disp: seq<Vertex>, rows: nat, cols: nat,
                   i: nat, prev: seq<Vertex>)
    returns (out: seq<Vertex>)
    requires 1 <= n && 1 <= m && |points| == BezierSurface.Cells(n, m)
    requires rows >= 2 && cols >= 2 && |disp| == rows * cols && i < rows
    requires Sampled(prev, disp, points, n, m, rows, cols, Index(i, 0, cols))
    ensures Sampled(out, disp, points, n, m, rows, cols, Index(i + 1, 0, cols))
  {
    out := prev;
    var j := 0;
    while j < cols
      invariant 0 <= j <= cols
      invariant Sampled(out, disp, points, n, m, rows, cols, Index(i, j, cols))
    {
      out := SampleCell(points, n, m, disp, rows, cols, i, j, out);
      j := j + 1;
    }
    assert Index(i, cols, cols) == Index(i + 1, 0, cols);
  }

  /** One sample: the surface point at the parameters of (i, j), stored at
      `i * cols + j`. */
  method SampleCell(points: seq<Vec3>, n: nat, m: nat, disp: seq<Vertex>, rows: nat, cols: nat,
                    i: nat, j: nat, prev: seq<Vertex>)
    returns (out: seq<Vertex>)
    requires 1 <= n && 1 <= m && |points| == BezierSurface.Cells(n, m)
    requires rows >= 2 && cols >= 2 && |disp| == rows * cols && i < rows && j < cols
    requires Sampled(prev, disp, points, n, m, rows, cols, Index(i, j, cols))
    ensures Sampled(out, disp, points, n, m, rows, cols, Index(i, j + 1, cols))
  {
    var u := SampleParam(i, rows);
    var v := SampleParam(j, cols);
    var idx := i * cols + j;
    IndexInRange(i, j, rows, cols);
    TexelAtCell(i, j, rows, cols);
    var p := BezierSurface.SurfaceLoop(points, n, m, u, v);
    assert p == SurfaceAt(points, n, m, idx, rows, cols);
    out := prev[idx := prev[idx].(pos := p)];
  }

  /** Every sampled position lies in the bounding box, and the two ends of
      the buffer are the first and the last control point. */
  lemma {:induction false} SampledFacts(out: seq<Vertex>, points: seq<Vec3>, n: nat, m: nat, rows: nat, cols: nat)
    requires 1 <= n && 1 <= m && |points| == BezierSurface.Cells(n, m)
    requires rows >= 2 && cols >= 2 && |out| == rows * cols
    requires forall k :: 0 <= k < |out| ==> out[k].pos == SurfaceAt(points, n, m, k, rows, cols)
    ensures forall k :: 0 <= k < |out| ==> BezierSurface.InBox(out[k].pos, points)
    ensures out[0].pos == points[0]
    ensures out[|out| - 1].pos == points[|points| - 1]
  {
    forall k | 0 <= k < |out|
      ensures BezierSurface.InBox(out[k].pos, points)
    {
      TexelInUnitSquare(k, rows, cols);
      BezierSurface.SurfaceInBox(points, n, m, TexelAt(k, rows, cols).u, TexelAt(k, rows, cols).v);
    }
    TexelInUnitSquare(0, rows, cols);
    TexelInUnitSquare(|out| - 1, rows, cols);
    BezierSurface.SurfaceCorners(points, n, m);
  }

  // ---------------------------------------------------------------------------
  // Normals
  // ---------------------------------------------------------------------------

  /** The four buffer positions `update_scene` reads around a sample. */
  datatype Neighbourhood = Neighbourhood(top: int, bottom: int, left: int, right: int)

  /** The neighbour indices of sample (i, j): one row up and down, one column
      left and right, each replaced by the sample itself on the matching edge.
      The source tests the top edge before the bottom one and the left edge
      before the right one (an `else if`), so a grid needs two samples per
      side for the indices to stay inside the buffer. */
  function Neighbours(i: nat, j: nat, rows: nat, cols: nat): (nb: Neighbourhood)
    requires rows >= 2 && cols >= 2 && i < rows && j < cols
    ensures 0 <= nb.top < rows * cols && 0 <= nb.bottom < rows * cols
    ensures 0 <= nb.left < rows * cols && 0 <= nb.right < rows * cols
    ensures nb.top == Index(i, j, cols) <==> i == 0
    ensures nb.bottom == Index(i, j, cols) <==> i == rows - 1
    ensures nb.left == Index(i, j, cols) <==> j == 0
    ensures nb.right == Index(i, j, cols) <==> j == cols - 1
    ensures i > 0 ==> nb.top == Index(i, j, cols) - cols
    ensures i < rows - 1 ==> nb.bottom == Index(i, j, cols) + cols
    ensures j > 0 ==> nb.left == Index(i, j, cols) - 1
    ensures j < cols - 1 ==> nb.right == Index(i, j, cols) + 1
    ensures nb.left / cols == i && nb.right / cols == i
    ensures nb.top % cols == j && nb.bottom % cols == j
  {
    var r0: int := i * cols + j + 1;
    var l0: int := i * cols + j - 1;
    var t0: int := (i - 1) * cols + j;
    var b0: int := (i + 1) * cols + j;
    var t := if i == 0 then i * cols + j else t0;
    var b := if i == 0 then b0 else if i == rows - 1 then i * cols + j else b0;
    var l := if j == 0 then i * cols + j else l0;
    var r := if j == 0 then r0 else if j == cols - 1 then i * cols + j else r0;
    NeighbourFacts(i, j, rows, cols, t, b, l, r);
    Neighbourhood(t, b, l, r)
  }

  /** The index facts behind `Neighbours`, one neighbour at a time. */
  lemma {:induction false} NeighbourFacts(i: nat, j: nat, rows: nat, cols: nat, t: int, b: int, l: int, r: int)
    requires rows >= 2 && cols >= 2 && i < rows && j < cols
    requires t == if i == 0 then Index(i, j, cols) else Index(i - 1, j, cols)
    requires b == if i == rows - 1 then Index(i, j, cols) else Index(i + 1, j, cols)
    requires l == if j == 0 then Index(i, j, cols) else Index(i, j - 1, cols)
    requires r == if j == cols - 1 then Index(i, j, cols) else Index(i, j + 1, cols)
    ensures 0 <= t < rows * cols && 0 <= b < rows * cols && 0 <= l < rows * cols && 0 <= r < rows * cols
    ensures t == Index(i, j, cols) <==> i == 0
    ensures b == Index(i, j, cols) <==> i == rows - 1
    ensures l == Index(i, j, cols) <==> j == 0
    ensures r == Index(i, j, cols) <==> j == cols - 1
    ensures i > 0 ==> t == Index(i, j, cols) - cols
    ensures i < rows - 1 ==> b == Index(i, j, cols) + cols
    ensures l / cols == i && r / cols == i && t % cols == j && b % cols == j
  {
    var ti: nat := if i == 0 then i else i - 1;
    var bi: nat := if i == rows - 1 then i else i + 1;
    var lj: nat := if j == 0 then j else j - 1;
    var rj: nat := if j == cols - 1 then j else j + 1;
    SameColumn(i, ti, j, rows, cols);
    SameColumn(i, bi, j, rows, cols);
    SameRow(i, j, lj, rows, cols);
    SameRow(i, j, rj, rows, cols);
  }

  /** Cell (i2, j) of the same column: inside the buffer, in column j, and
      one row apart from (i, j) means cols positions apart. */
  lemma {:induction false} SameColumn(i: nat, i2: nat, j: nat, rows: nat, cols: nat)
    requires i < rows && i2 < rows && j < cols
    ensures 0 <= Index(i2, j, cols) < rows * cols
    ensures Index(i2, j, cols) % cols == j
    ensures Index(i2, j, cols) == Index(i, j, cols) <==> i2 == i
    ensures i2 == i + 1 ==> Index(i2, j, cols) == Index(i, j, cols) + cols
    ensures i == i2 + 1 ==> Index(i2, j, cols) == Index(i, j, cols) - cols
  {
    IndexInRange(i2, j, rows, cols);
    IndexDivMod(i2, j, cols);
    IndexDivMod(i, j, cols);
    if i2 == i + 1 {
      assert (i + 1) * cols == i * cols + cols;
    }
    if i == i2 + 1 {
      assert (i2 + 1) * cols == i2 * cols + cols;
    }
  }

  /** Cell (i, j2) of the same row: inside the buffer, in row i, and one
      column apart from (i, j) means one position apart. */
  lemma {:induction false} SameRow(i: nat, j: nat, j2: nat, rows: nat, cols: nat)
    requires i < rows && j < cols && j2 < cols
    ensures 0 <= Index(i, j2, cols) < rows * cols
    ensures Index(i, j2, cols) / cols == i
    ensures Index(i, j2, cols) == Index(i, j, cols) <==> j2 == j
  {
    IndexInRange(i, j2, rows, cols);
    IndexDivMod(i, j2, cols);
  }

  /** A square root for the non-negative reals, as `sqrt` from the C library
      behaves on them. */
  ghost predicate IsSqrt(sqrt: real -> real)
  {
    forall x: real :: 0.0 <= x ==> 0.0 <= sqrt(x) && sqrt(x) * sqrt(x) == x
  }

  /** The normal at sample (i, j): `cross(left - right, bottom - top)` over the
      positions in pos, divided by `sqrt` of its squared length unless that
      is 0. It is orthogonal to both tangents. */
  function NormalAt(pos: seq<Vec3>, rows: nat, cols: nat, i: nat, j: nat, sqrt: real -> real): (nrm: Vec3)
    requires rows >= 2 && cols >= 2 && i < rows && j < cols && |pos| == rows * cols
    ensures Dot(nrm, TangentU(pos, Neighbours(i, j, rows, cols))) == 0.0
    ensures Dot(nrm, TangentV(pos, Neighbours(i, j, rows, cols))) == 0.0
  {
    var nb := Neighbours(i, j, rows, cols);
    var a, b := TangentU(pos, nb), TangentV(pos, nb);
    var c := Cross(a, b);
    CrossNormalized(a, b, sqrt(Dot(c, c)))
  }

  /** With a true square root the normal is the zero vector exactly when the
      tangents are parallel, and a unit vector otherwise. */
  lemma {:induction false} NormalIsUnit(pos: seq<Vec3>, rows: nat, cols: nat, i: nat, j: nat, sqrt: real -> real)
    requires rows >= 2 && cols >= 2 && i < rows && j < cols && |pos| == rows * cols
    requires IsSqrt(sqrt)
    ensures var nb := Neighbours(i, j, rows, cols);
      NormalAt(pos, rows, cols, i, j, sqrt) == Zero3 <==> Cross(TangentU(pos, nb), TangentV(pos, nb)) == Zero3
    ensures NormalAt(pos, rows, cols, i, j, sqrt) == Zero3 || Dot(NormalAt(pos, rows, cols, i, j, sqrt), NormalAt(pos, rows, cols, i, j, sqrt)) == 1.0
  {
    var nb := Neighbours(i, j, rows, cols);
    var a, b := TangentU(pos, nb), TangentV(pos, nb);
    var d := Dot(Cross(a, b), Cross(a, b));
    ZeroLength(Cross(a, b));
    var len := sqrt(d);
    assert 0.0 <= len && len * len == d;
    CrossNormalizedUnit(a, b, len);
  }

  /** `vector_u`: left minus right. */
  function TangentU(pos: seq<Vec3>, nb: Neighbourhood): Vec3
    requires 0 <= nb.left < |pos| && 0 <= nb.right < |pos|
  {
    Sub(pos[nb.left], pos[nb.right])
  }

  /** `vector_v`: bottom minus top. */
  function TangentV(pos: seq<Vec3>, nb: Neighbourhood): Vec3
    requires 0 <= nb.top < |pos| && 0 <= nb.bottom < |pos|
  {
    Sub(pos[nb.bottom], pos[nb.top])
  }

  /** The positions of the buffer. */
  function Positions(disp: seq<Vertex>): (r: seq<Vec3>)
    ensures |r| == |disp|
    ensures forall k {:trigger r[k]} :: 0 <= k < |r| ==> r[k] == disp[k].pos
  {
    seq(|disp|, k requires 0 <= k < |disp| => disp[k].pos)
  }

  /** The normal for the sample at buffer position k. */
  function NormalOf(disp: seq<Vertex>, rows: nat, cols: nat, k: nat, sqrt: real -> real): Vec3
    requires rows >= 2 && cols >= 2 && k < rows * cols && |disp| == rows * cols
  {
    IndexCovers(k, rows, cols);
    NormalAt(Positions(disp), rows, cols, k / cols, k % cols, sqrt)
  }

  /** The normals written up to position done. */
  predicate Normalled(out: seq<Vertex>, disp: seq<Vertex>, rows: nat, cols: nat, done: nat, sqrt: real -> real)
    requires rows >= 2 && cols >= 2 && |disp| == rows * cols
  {
    && |out| == |disp|
    && forall k :: 0 <= k < |out| ==>
         out[k] == if k < done then disp[k].(normal := NormalOf(disp, rows, cols, k, sqrt)) else disp[k]
  }

  /** The normal pass of `update_scene`: each vertex gets the normal of its
      sample, computed from the positions around it, which this pass does
      not change. */
  method ComputeNormals(disp: seq<Vertex>, rows: nat, cols: nat, sqrt: real -> real) returns (out: seq<Vertex>)
    requires rows >= 2 && cols >= 2 && |disp| == rows * cols
    ensures |out| == |disp|
    ensures forall k :: 0 <= k < |out| ==> out[k] == disp[k].(normal := NormalOf(disp, rows, cols, k, sqrt))
  {
    out := disp;
    var i := 0;
    while i < rows
      invariant 0 <= i <= rows
      invariant Normalled(out, disp, rows, cols, Index(i, 0, cols), sqrt)
    {
      out := NormalRow(out, disp, rows, cols, i, sqrt);
      i := i + 1;
    }
  }

  /** The inner loop of the normal pass: row i, sample by sample. */
  method NormalRow(out0: seq<Vertex>, disp: seq<Vertex>, rows: nat, cols: nat, i: nat, sqrt: real -> real)
    returns (out: seq<Vertex>)
    requires rows >= 2 && cols >= 2 && |disp| == rows * cols && i < rows
    requires Normalled(out0, disp, rows, cols, Index(i, 0, cols), sqrt)
    ensures Normalled(out, disp, rows, cols, Index(i + 1, 0, cols), sqrt)
  {
    out := out0;
    var j := 0;
    while j < cols
      invariant 0 <= j <= cols
      invariant Normalled(out, disp, rows, cols, Index(i, j, cols), sqrt)
    {
      var nrm := NormalStep(out, disp, rows, cols, i, j, sqrt);
      var idx := i * cols + j;
      out := out[idx := out[idx].(normal := nrm)];
      j := j + 1;
    }
    assert Index(i, cols, cols) == Index(i + 1, 0, cols);
  }

  /** One turn of the normal loop: read the four neighbours' positions from
      the buffer being written, whose positions are still those of disp. */
  method NormalStep(out: seq<Vertex>, disp: seq<Vertex>, rows: nat, cols: nat, i: nat, j: nat, sqrt: real -> real)
    returns (nrm: Vec3)
    requires rows >= 2 && cols >= 2 && |disp| == rows * cols && i < rows && j < cols
    requires |out| == |disp| && forall k :: 0 <= k < |out| ==> out[k].pos == disp[k].pos
    ensures Index(i, j, cols) < rows * cols && nrm == NormalOf(disp, rows, cols, Index(i, j, cols), sqrt)
  {
    var pos := Positions(out);
    assert pos == Positions(disp);
    nrm := NormalAt(pos, rows, cols, i, j, sqrt);
    IndexInRange(i, j, rows, cols);
    IndexDivMod(i, j, cols);
  }
}
