/**
 The state of the surface demo (bezier_surface/src/scene.c): the control
 grid, its heights, its dimensions, the sampling resolution and the display
 buffer, with the operations that build it, animate it and resize it.

 `rand()` results are passed in as a sequence `rolls`, one per call in the
 order the source makes them; `sin` and `sqrt` are function arguments; a
 `malloc`/`realloc` block's fresh cells hold whatever an argument `junk`
 says, cell by cell, and whether each `realloc` succeeds is an argument.
 */
module Scene {
  import opened Wrappers
  import opened Geometry
  import BezierSurface
  import Display

  /** `MAX_DIM`: the largest control-grid dimension `change_dim` accepts. */
  const MaxDim: nat := 15

  /** The smallest control-grid dimension `change_dim` accepts. */
  const MinDim: nat := 2

  /** The fields of `Scene` that the surface code uses. */
  datatype Scene = Scene(points: seq<Vec3>, dz: seq<real>, dimN: nat, dimM: nat, res: nat, disp: seq<Vertex>)

  /** The number of samples along the first and the second axis. */
  function Rows(s: Scene): nat { s.dimN * s.res }
  function Cols(s: Scene): nat { s.dimM * s.res }

  /** The buffers have the sizes allocated for the dimensions, and each axis
      has at least two samples, so no sample parameter divides by zero. */
  predicate Sized(s: Scene)
  {
    && s.dimN >= 1 && s.dimM >= 1 && s.res >= 1 && Rows(s) >= 2 && Cols(s) >= 2
    && |s.points| == s.dimN * s.dimM && |s.dz| == s.dimN * s.dimM
    && |s.disp| == Rows(s) * Cols(s)
  }

  /** A sized scene whose dimensions are in the range `change_dim` keeps
      them in. */
  predicate Valid(s: Scene)
  {
    Sized(s) && MinDim <= s.dimN <= MaxDim && MinDim <= s.dimM <= MaxDim
  }

  /** Dimensions of at least 2 give at least two samples per axis at any
      resolution. */
  lemma {:induction false} ValidSamples(s: Scene)
    requires MinDim <= s.dimN && MinDim <= s.dimM && s.res >= 1
    ensures Rows(s) >= 2 && Cols(s) >= 2
  {
    MulAtLeastNat(s.res, s.dimN);
    MulAtLeastNat(s.res, s.dimM);
  }

  // ---------------------------------------------------------------------------
  // generate_surface
  // ---------------------------------------------------------------------------

  /** The height `10 / ((rand() % 10) + 1)`: an integer division, so the
      heights are 10, 5, 3, 2, 2, 1, 1, 1, 1, 1 for the ten residues. */
  function Height(roll: nat): real
  {
    (10 / ((roll % 10) + 1)) as real
  }

  /** Heights range over [1, 10]: 10 exactly for residue 0, and 1 exactly
      for residues 5 to 9. */
  lemma {:induction false} HeightRange(roll: nat)
    ensures 1.0 <= Height(roll) <= 10.0
    ensures Height(roll) == 10.0 <==> roll % 10 == 0
    ensures Height(roll) == 1.0 <==> roll % 10 >= 5
  {
    var d := (roll % 10) + 1;
    assert 1 <= d <= 10;
    assert 10 / d == if d == 1 then 10 else if d == 2 then 5 else if d == 3 then 3
      else if d <= 5 then 2 else 1;
  }

  /** The control point `generate_surface` places at buffer position k of an
      m-column grid: `(i, j, height)` for the cell (i, j) at k. */
  function GridPoint(k: nat, m: nat, rolls: seq<nat>): Vec3
    requires k < |rolls| && m >= 1
  {
    Vec3((k / m) as real, (k % m) as real, Height(rolls[k]))
  }

  /** Cell (i, j) gets the point `(i, j, height)` with the roll of its own
      `rand()` call, the (i * m + j)-th. */
  lemma {:induction false} GridPointAt(i: nat, j: nat, m: nat, rolls: seq<nat>)
    requires j < m && Index(i, j, m) < |rolls|
    ensures GridPoint(Index(i, j, m), m, rolls) == Vec3(i as real, j as real, Height(rolls[Index(i, j, m)]))
  {
    IndexDivMod(i, j, m);
  }

  predicate Generated(out: seq<Vec3>, dz: seq<real>, points0: seq<Vec3>, dz0: seq<real>,
                      m: nat, rolls: seq<nat>, done: nat)
    requires m >= 1 && |rolls| == |points0| == |dz0|
  {
    && |out| == |points0| && |dz| == |dz0|
    && (forall k :: 0 <= k < |out| ==> out[k] == if k < done then GridPoint(k, m, rolls) else points0[k])
    && (forall k :: 0 <= k < |dz| ==> dz[k] == if k < done then Height(rolls[k]) else dz0[k])
  }

  /** `generate_surface`: each cell (i, j) of the n x m grid becomes the point
      `(i, j, 10 / ((rand() % 10) + 1))`, and its height is copied to `dz`.
      The old contents do not matter: every cell is overwritten. */
  method GenerateSurface(points: seq<Vec3>, dz: seq<real>, n: nat, m: nat, rolls: seq<nat>)
    returns (points': seq<Vec3>, dz': seq<real>)
    requires m >= 1 && |points| == |dz| == n * m && |rolls| == n * m
    ensures |points'| == |dz'| == n * m
    ensures forall k :: 0 <= k < n * m ==> points'[k] == GridPoint(k, m, rolls)
    ensures forall k :: 0 <= k < n * m ==> dz'[k] == points'[k].z
    ensures forall k :: 0 <= k < n * m ==> 1.0 <= points'[k].z <= 10.0
  {
    points', dz' := points, dz;
    var i := 0;
    while i < n
      invariant 0 <= i <= n
      invariant Generated(points', dz', points, dz, m, rolls, Index(i, 0, m))
    {
      var j := 0;
      while j < m
        invariant 0 <= j <= m
        invariant Generated(points', dz', points, dz, m, rolls, Index(i, j, m))
      {
        var idx := i * m + j;
        IndexInRange(i, j, n, m);
        GridPointAt(i, j, m, rolls);
        points' := points'[idx := Vec3(i as real, j as real, Height(rolls[idx]))];
        dz' := dz'[idx := points'[idx].z];
        j := j + 1;
      }
      assert Index(i, m, m) == Index(i + 1, 0, m);
      i := i + 1;
    }
    forall k | 0 <= k < n * m
      ensures 1.0 <= points'[k].z <= 10.0
    {
      HeightRange(rolls[k]);
    }
  }

  // ---------------------------------------------------------------------------
  // init_surface and init_scene
  // ---------------------------------------------------------------------------

  /** What uninitialised memory holds: cell k of a fresh control-point,
      height or display block. Nothing is known about it, and each cell may
      differ from the others. */
  datatype Junk = Junk(points: nat -> Vec3, dz: nat -> real, disp: nat -> Vertex)

  /** A block of n cells from `malloc` or the grown part of a `realloc`:
      the first min(|xs|, n) cells keep the old contents, every later cell k
      holds fill(k). */
  function Resize<T>(xs: seq<T>, n: nat, fill: nat -> T): (r: seq<T>)
    ensures |r| == n
    ensures forall k :: 0 <= k < n ==> r[k] == if k < |xs| then xs[k] else fill(k)
  {
    if n <= |xs| then xs[..n] else xs + seq(n - |xs|, i requires 0 <= i => fill(|xs| + i))
  }

  /** The surface built from the rolls: generated control points, their
      heights in dz, and a display buffer whose texels are premapped. */
  predicate Fresh(s: Scene, rolls: seq<nat>)
    requires Sized(s)
  {
    && |rolls| == |s.points|
    && (forall k :: 0 <= k < |s.points| ==> s.points[k] == GridPoint(k, s.dimM, rolls))
    && (forall k :: 0 <= k < |s.dz| ==> s.dz[k] == s.points[k].z)
    && (forall k :: 0 <= k < |s.disp| ==> s.disp[k].texel == Display.TexelAt(k, Rows(s), Cols(s)))
  }

  /** `init_surface(scene, n, m, r)`: set the dimensions, allocate an n * m
      control grid and an (n * r) x (m * r) display buffer, generate the grid
      and premap the texels. */
  method InitSurface(n: nat, m: nat, r: nat, rolls: seq<nat>, junk: Junk) returns (s: Scene)
    requires n >= 1 && m >= 1 && r >= 1 && n * r >= 2 && m * r >= 2 && |rolls| == n * m
    ensures Sized(s) && Fresh(s, rolls)
    ensures MinDim <= n <= MaxDim && MinDim <= m <= MaxDim ==> Valid(s)
    ensures s.dimN == n && s.dimM == m && s.res == r
    ensures forall k :: 0 <= k < |s.disp| ==>
              s.disp[k].pos == junk.disp(k).pos && s.disp[k].normal == junk.disp(k).normal
  {
    var points := Resize([], n * m, junk.points);
    var dz := Resize([], n * m, junk.dz);
    var disp := Resize([], (n * r) * (m * r), junk.disp);
    s := Scene(points, dz, n, m, r, disp);
    s := Regenerate(s, rolls);
  }

  /** `generate_surface` followed by `premap_texture`, as `init_surface` and
      `change_dim` run them. Dimensions and buffer sizes do not change, and
      positions and normals of the display buffer are kept. */
  method Regenerate(s: Scene, rolls: seq<nat>) returns (s': Scene)
    requires Sized(s) && |rolls| == |s.points|
    ensures Sized(s') && Fresh(s', rolls)
    ensures s'.dimN == s.dimN && s'.dimM == s.dimM && s'.res == s.res
    ensures Valid(s) ==> Valid(s')
    ensures |s'.disp| == |s.disp|
    ensures forall k :: 0 <= k < |s.disp| ==> s'.disp[k].pos == s.disp[k].pos && s'.disp[k].normal == s.disp[k].normal
  {
    var points, dz := GenerateSurface(s.points, s.dz, s.dimN, s.dimM, rolls);
    var disp := Display.PremapTexture(s.disp, Rows(s), Cols(s));
    s' := s.(points := points, dz := dz, disp := disp);
  }

  /** `init_scene`'s surface: a 5 x 4 grid sampled ten times per cell. */
  method InitScene(rolls: seq<nat>, junk: Junk) returns (s: Scene)
    requires |rolls| == 20
    ensures Valid(s) && Fresh(s, rolls)
    ensures s.dimN == 5 && s.dimM == 4 && s.res == 10
    ensures |s.points| == 20 && |s.disp| == 2000
  {
    s := InitSurface(5, 4, 10, rolls, junk);
  }

  // ---------------------------------------------------------------------------
  // The animation step of update_scene
  // ---------------------------------------------------------------------------

  /** The height step as the source writes it, `0.01 + 1/(((rand() % 5) + 1)
      * 10)`: the second term is an integer division of 1 by at least 10. */
  function StepAsWritten(roll: nat): real
  {
    0.01 + (1 / (((roll % 5) + 1) * 10)) as real
  }

  /** The random part of the step is always 0: every frame adds exactly 0.01. */
  lemma {:induction false} StepAsWrittenIsConstant(roll: nat)
    ensures StepAsWritten(roll) == 0.01
  {
    var r := roll % 5;
    assert r == 0 || r == 1 || r == 2 || r == 3 || r == 4;
    assert 1 / ((r + 1) * 10) == 0;
  }

  /** The evidently intended step: 0.01 plus a random 1/10 to 1/50. */
  function Step(roll: nat): real
  {
    0.01 + 1.0 / (((roll % 5) + 1) * 10) as real
  }

  /** The intended step lies between 0.03 and 0.11, and the roll does move
      it: residue 0 gives the largest step and residue 4 the smallest. */
  lemma {:induction false} StepRange(roll: nat)
    ensures 0.03 <= Step(roll) <= 0.11
    ensures Step(roll) == 0.11 <==> roll % 5 == 0
    ensures Step(roll) == 0.03 <==> roll % 5 == 4
  {
    var r := roll % 5;
    assert 0 <= r < 5;
    assert Step(roll) == if r == 0 then 0.11 else if r == 1 then 0.06 else if r == 2 then 0.01 + 1.0 / 30.0
      else if r == 3 then 0.035 else 0.03;
  }

  /** A sine: values in [-1, 1]. */
  ghost predicate IsSine(sine: real -> real)
  {
    forall x: real :: -1.0 <= sine(x) <= 1.0
  }

  /** The height a control point is given from its phase: `((sin(dz) + 1) /
      2) * 2`. */
  function Oscillated(sine: real -> real, phase: real): real
  {
    ((sine(phase) + 1.0) / 2.0) * 2.0
  }

  /** With a true sine the oscillated height stays in [0, 2]. */
  lemma {:induction false} OscillatedRange(sine: real -> real, phase: real)
    requires IsSine(sine)
    ensures 0.0 <= Oscillated(sine, phase) <= 2.0
  {
    assert -1.0 <= sine(phase) <= 1.0;
  }

  predicate Animated(points: seq<Vec3>, dz: seq<real>, points0: seq<Vec3>, dz0: seq<real>,
                     rolls: seq<nat>, sine: real -> real, done: nat)
    requires |points0| == |dz0| == |rolls|
  {
    && |points| == |points0| && |dz| == |dz0|
    && (forall k :: 0 <= k < |dz| ==> dz[k] == if k < done then dz0[k] + Step(rolls[k]) else dz0[k])
    && (forall k :: 0 <= k < |points| ==>
          points[k] == if k < done then points0[k].(z := Oscillated(sine, dz[k])) else points0[k])
  }

  /** The animation loop of `update_scene`: each control point's phase
      advances by a random step and its height becomes the oscillated phase.
      Only heights change, and with a true sine they stay in [0, 2]. */
  method Oscillate(points: seq<Vec3>, dz: seq<real>, rolls: seq<nat>, sine: real -> real)
    returns (points': seq<Vec3>, dz': seq<real>)
    requires |points| == |dz| == |rolls|
    ensures |points'| == |points| && |dz'| == |dz|
    ensures forall k :: 0 <= k < |dz'| ==> dz'[k] == dz[k] + Step(rolls[k])
    ensures forall k :: 0 <= k < |points'| ==> points'[k] == points[k].(z := Oscillated(sine, dz'[k]))
    ensures IsSine(sine) ==> forall k :: 0 <= k < |points'| ==> 0.0 <= points'[k].z <= 2.0
  {
    points', dz' := points, dz;
    var i := 0;
    while i < |points|
      invariant 0 <= i <= |points|
      invariant Animated(points', dz', points, dz, rolls, sine, i)
    {
      dz' := dz'[i := dz'[i] + Step(rolls[i])];
      points' := points'[i := points'[i].(z := ((sine(dz'[i]) + 1.0) / 2.0) * 2.0)];
      i := i + 1;
    }
    if IsSine(sine) {
      forall k | 0 <= k < |points'|
        ensures 0.0 <= points'[k].z <= 2.0
      {
        OscillatedRange(sine, dz'[k]);
      }
    }
  }

  // ---------------------------------------------------------------------------
  // update_scene
  // ---------------------------------------------------------------------------

  /** `update_scene`: animate the control points, sample the surface into the
      display buffer, then compute every sample's normal from the new
      positions. Dimensions, sizes and texels are unchanged. */
  method UpdateScene(s: Scene, rolls: seq<nat>, sine: real -> real, sqrt: real -> real) returns (s': Scene)
    requires Sized(s) && |rolls| == |s.points|
    ensures Sized(s') && s'.dimN == s.dimN && s'.dimM == s.dimM && s'.res == s.res
    ensures Valid(s) ==> Valid(s')
    ensures forall k :: 0 <= k < |s'.dz| ==> s'.dz[k] == s.dz[k] + Step(rolls[k])
    ensures forall k :: 0 <= k < |s'.points| ==> s'.points[k] == s.points[k].(z := Oscillated(sine, s'.dz[k]))
    ensures |s'.disp| == |s.disp| && |s'.points| == BezierSurface.Cells(s'.dimN, s'.dimM)
    ensures Redrawn(s, s', sqrt)
  {
    var points, dz := Oscillate(s.points, s.dz, rolls, sine);
    var rows, cols := Rows(s), Cols(s);
    BezierSurface.CellsIsProduct(s.dimN, s.dimM);
    var disp := Display.SamplePositions(points, s.dimN, s.dimM, s.disp, rows, cols);
    var disp' := Display.ComputeNormals(disp, rows, cols, sqrt);
    s' := s.(points := points, dz := dz, disp := disp');
    SameShape(s, s');
    NormalsSeeNewPositions(disp, disp', rows, cols, sqrt);
  }

  /** A scene with the dimensions, resolution and buffer lengths of a sized
      scene is sized, and valid when that one is. */
  lemma {:induction false} SameShape(s: Scene, s': Scene)
    requires Sized(s)
    requires s'.dimN == s.dimN && s'.dimM == s.dimM && s'.res == s.res
    requires |s'.points| == |s.points| && |s'.dz| == |s.dz| && |s'.disp| == |s.disp|
    ensures Sized(s') && (Valid(s) ==> Valid(s'))
    ensures Rows(s') == Rows(s) && Cols(s') == Cols(s)
    ensures |s'.points| == BezierSurface.Cells(s'.dimN, s'.dimM)
  {
    BezierSurface.CellsIsProduct(s.dimN, s.dimM);
  }

  /** The display buffer of s' after `update_scene`: every vertex sits on the
      surface of the control points of s' at its sample parameters, carries
      the normal computed from the buffer's own positions and keeps the texel
      it had in s. */
  predicate Redrawn(s: Scene, s': Scene, sqrt: real -> real)
    requires Sized(s') && |s'.disp| == |s.disp| && |s'.points| == BezierSurface.Cells(s'.dimN, s'.dimM)
  {
    forall k :: 0 <= k < |s'.disp| ==>
      && s'.disp[k].pos == Display.SurfaceAt(s'.points, s'.dimN, s'.dimM, k, Rows(s'), Cols(s'))
      && s'.disp[k].normal == Display.NormalOf(s'.disp, Rows(s'), Cols(s'), k, sqrt)
      && s'.disp[k].texel == s.disp[k].texel
  }

  /** The normal pass reads positions only, so the normals computed from the
      buffer before the pass are those of the buffer after it. */
  lemma {:induction false} NormalsSeeNewPositions(disp: seq<Vertex>, disp': seq<Vertex>, rows: nat, cols: nat, sqrt: real -> real)
    requires rows >= 2 && cols >= 2 && |disp| == rows * cols
    requires |disp'| == |disp|
    requires forall k :: 0 <= k < |disp'| ==> disp'[k] == disp[k].(normal := Display.NormalOf(disp, rows, cols, k, sqrt))
    ensures forall k :: 0 <= k < |disp'| ==> Display.NormalOf(disp', rows, cols, k, sqrt) == Display.NormalOf(disp, rows, cols, k, sqrt)
  {
    assert Display.Positions(disp') == Display.Positions(disp);
  }

  // ---------------------------------------------------------------------------
  // change_dim
  // ---------------------------------------------------------------------------

  /** Whether each of the three `realloc` calls of `change_dim` succeeds. */
  datatype Allocation = Allocation(pointsOk: bool, dzOk: bool, dispOk: bool)

  /** The dimensions `change_dim(scene, target, size)` asks for, if the target
      names an axis and the new size is within [2, 15]. */
  function RequestedDims(s: Scene, target: int, size: int): (r: Option<(nat, nat)>)
    ensures r.Some? <==>
      || (target == 1 && MinDim <= s.dimN + size <= MaxDim)
      || (target == 2 && MinDim <= s.dimM + size <= MaxDim)
    ensures r.Some? && target == 1 ==> r.value == (s.dimN + size, s.dimM)
    ensures r.Some? && target == 2 ==> r.value == (s.dimN, s.dimM + size)
  {
    if target == 1 then
      var n := s.dimN + size;
      if n > MaxDim as int || n < MinDim as int then None else Some((n, s.dimM))
    else if target == 2 then
      var m := s.dimM + size;
      if m > MaxDim as int || m < MinDim as int then None else Some((s.dimN, m))
    else None
  }

  /** `change_dim`: resize one axis of the control grid by size. A target
      other than 1 or 2, a new size outside [2, 15] or a failed `realloc`
      leaves the scene as it is. Otherwise exactly the targeted dimension
      changes, the resolution stays, the buffers are resized to the new
      dimensions, and the surface is regenerated from the rolls. */
  method ChangeDim(s: Scene, target: int, size: int, alloc: Allocation, rolls: seq<nat>, junk: Junk)
    returns (s': Scene)
    requires Sized(s)
    requires RequestedDims(s, target, size).Some? ==>
      |rolls| == RequestedDims(s, target, size).value.0 * RequestedDims(s, target, size).value.1
    ensures Sized(s')
    ensures Valid(s) ==> Valid(s')
    ensures RequestedDims(s, target, size).None? ==> s' == s
    ensures !(alloc.pointsOk && alloc.dzOk && alloc.dispOk) ==> s' == s
    ensures s' != s ==> RequestedDims(s, target, size).Some? && alloc.pointsOk && alloc.dzOk && alloc.dispOk
    ensures RequestedDims(s, target, size).Some? && alloc.pointsOk && alloc.dzOk && alloc.dispOk ==>
      && (s'.dimN, s'.dimM) == RequestedDims(s, target, size).value
      && s'.res == s.res
      && Fresh(s', rolls)
  {
    var dims := RequestedDims(s, target, size);
    if dims.None? {
      return s;
    }
    var (n, m) := dims.value;
    if !(alloc.pointsOk && alloc.dzOk && alloc.dispOk) {
      return s;
    }
    MulAtLeastNat(s.res, n);
    MulAtLeastNat(s.res, m);
    var grown := Reallocate(s, n, m, junk);
    s' := Regenerate(grown, rolls);
  }

  /** The three `realloc` calls of a successful `change_dim`: the buffers get
      the sizes of the new dimensions, keep their old prefixes, and the
      grown part of each holds uninitialised memory. */
  function Reallocate(s: Scene, n: nat, m: nat, junk: Junk): (g: Scene)
    requires n >= 1 && m >= 1 && s.res >= 1 && n * s.res >= 2 && m * s.res >= 2
    ensures Sized(g) && g.dimN == n && g.dimM == m && g.res == s.res
    ensures forall k :: 0 <= k < |g.points| && k < |s.points| ==> g.points[k] == s.points[k]
    ensures forall k :: 0 <= k < |g.disp| && k < |s.disp| ==> g.disp[k] == s.disp[k]
    ensures forall k :: |s.points| <= k < |g.points| ==> g.points[k] == junk.points(k)
    ensures forall k :: |s.disp| <= k < |g.disp| ==> g.disp[k] == junk.disp(k)
  {
    Scene(Resize(s.points, n * m, junk.points), Resize(s.dz, n * m, junk.dz), n, m, s.res,
          Resize(s.disp, (n * s.res) * (m * s.res), junk.disp))
  }

  /** Growing an axis and shrinking it back by the same amount, with every
      reallocation succeeding, restores the dimensions, and the scene stays
      valid throughout. */
  method ChangeDimRoundTrip(s: Scene, target: int, size: int, rolls: seq<nat>, rollsBack: seq<nat>, junk: Junk, junkBack: Junk)
    returns (grown: Scene, back: Scene)
    requires Valid(s) && RequestedDims(s, target, size).Some?
    requires |rolls| == RequestedDims(s, target, size).value.0 * RequestedDims(s, target, size).value.1
    requires |rollsBack| == s.dimN * s.dimM
    ensures Valid(grown) && Valid(back)
    ensures back.dimN == s.dimN && back.dimM == s.dimM && back.res == s.res
    ensures Fresh(back, rollsBack)
  {
    var ok := Allocation(true, true, true);
    grown := ChangeDim(s, target, size, ok, rolls, junk);
    assert RequestedDims(grown, target, -size) == Some((s.dimN, s.dimM));
    back := ChangeDim(grown, target, -size, ok, rollsBack, junkBack);
  }
}
