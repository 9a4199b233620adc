# Parametric curves and a Bézier surface, modelled in Dafny

The repository holds four small graphics demos that share one numerical kernel.

- **Bernstein demo** (`bernstein/src/main.c`): evaluates a cubic Bézier curve in Bernstein form.
- **De Casteljau demo** (`bezier/src/main.c`): evaluates the same kind of curve by repeated blending.
- **B-spline demo** (`b_spline/src/main.c`): evaluates a B-spline curve by the Cox–de Boor recursion over a fixed knot vector.
- **Surface demo** (`bezier_surface`): samples a tensor-product Bézier surface over a resizable control grid, premaps its texture coordinates, computes per-sample normals from neighbour differences, animates the control heights and resizes the grid.

This project models that kernel with exact arithmetic. Every `double` and `float` is a `real`, and every integer is unbounded. Each routine becomes a Dafny function or method. Lemmas relate each routine to an independent reference:

- the binomial routines to `Choose`, defined by Pascal's rule;
- the Bernstein weights to their closed form;
- the de Casteljau point to the Bernstein-form point at `1 - t`;
- the B-spline basis to partition of unity and local support;
- the sampled surface to its corners, its bounding box and constant grids;
- the scene transitions to the validity invariant they preserve.

Modules, each in its own file:

| module | file | models |
|---|---|---|
| `Wrappers` | wrappers.dfy | the optional result of an operation that can fail or read undefined memory; no source counterpart |
| `Combinatorics` | combinatorics.dfy | factorial table, `binom`, `slow_binom`, `binomial_coefficient` |
| `Sums` | sums.dfy | weighted sums and their algebra; no source counterpart |
| `Geometry` | geometry.dfy | points, sample parameters, row-major indices, cross product |
| `BernsteinBasis` | bernstein.dfy | the Bernstein basis |
| `BernsteinCurve` | bernstein_curve.dfy | `bernstein`, `approx` and `interpolate_curve` of the Bernstein demo |
| `BezierCurve` | de_casteljau.dfy | `de_casteljau` and `interpolate_curve` of the De Casteljau demo |
| `BSpline` | b_spline.dfy | `base_spline`, `de_boor`, `interpolate_curve` and the demo's knots |
| `BezierSurface` | surface.dfy | `bernstein` and `bezier_surface` of the surface demo |
| `Display` | display.dfy | texture premapping, surface sampling, neighbour indices and normals |
| `Scene` | scene.dfy | `generate_surface`, `init_surface`, `init_scene`, the animation step, `update_scene`, `change_dim` |

`BezierSurface.Cells(n, m)` counts the cells of a grid of n rows of m columns, one row at a time. `BezierSurface.CellsIsProduct` proves that it equals `n * m`, the size `init_surface` allocates.

Calls the model cannot interpret become arguments:

- `rand()` results are a sequence of rolls, consumed in the order the source calls `rand()`.
- `sin` and `sqrt` are function arguments.
- The cells of a fresh `malloc` block, or of the grown part of a `realloc` block, hold arbitrary values given cell by cell as an argument.
- Whether each `realloc` succeeds is a boolean argument.

## Model

| member | source | states |
|---|---|---|
| Combinatorics.FactTableIsFactorial | bezier_surface/src/utils.c:5-27 | The table has exactly 21 entries, and entry i is i!. |
| Combinatorics.FactTableFitsU64 | bezier_surface/src/utils.c:5-27 | Every entry is below 2^64, and 21! would not be, so the table is as long as an unsigned 64-bit table can be. |
| Combinatorics.TableQuotientExact | bezier_surface/src/scene.c:98 | For 0 <= k <= n <= 20, the denominator fact[k]*fact[n-k] is at most fact[n] (so below 2^64). It divides fact[n] exactly, and the quotient is C(n,k). |
| Combinatorics.SlowBinom | bezier_surface/src/scene.c:83-91 | The multiply-then-divide loop returns C(n,k) for 0 <= k <= n, and 1 when k <= 0. Its invariant is res == C(n-k+i, i), so every division is exact. |
| Combinatorics.TableBinom | bezier_surface/src/scene.c:98 | The table quotient is C(n,k) for k <= n <= 20. |
| Combinatorics.BinomAsWritten | bezier_surface/src/scene.c:93-99 | `binom` with its original guard reads past the table exactly when n == 21 and 0 < k < 21. Otherwise it returns 0 outside 0..n and C(n,k) inside. |
| Combinatorics.Binom | bezier_surface/src/scene.c:93-99 | With the guard corrected, `binom` returns 0 when k < 0 or k > n, and C(n,k) otherwise. That is 1 at k == 0 and at k == n. |
| Combinatorics.BinomialCoefficient | bernstein/src/main.c:21-31 | `binomial_coefficient` returns 0 for k > n, 1 for negative k (unlike `binom`), and C(n,k) for 0 <= k <= n. |
| Combinatorics.BinomialCoefficientSymmetric | bernstein/src/main.c:21-31 | `binomial_coefficient(n,k) == binomial_coefficient(n,n-k)` for 0 <= k <= n. |
| BernsteinBasis.WeightIsBernstein | bernstein/src/main.c:34-37 | Weight k of the degree-n basis, built by de Casteljau's recurrence, equals the closed form C(n,k) t^k (1-t)^(n-k). |
| BernsteinBasis.WeightsClosedForm | bernstein/src/main.c:34-37 | The whole recurrence-built weight vector equals the closed-form vector. |
| BernsteinBasis.BernsteinPascal | bernstein/src/main.c:34-37 | The closed form satisfies Pascal's recurrence in the degree. |
| BernsteinBasis.PartitionOfUnity | bernstein/src/main.c:34-37 | The n+1 weights sum to 1 for every t. |
| BernsteinBasis.WeightsNonNegative | bernstein/src/main.c:34-37 | For t in [0,1] every weight is non-negative. |
| BernsteinBasis.WeightsAtZero | bernstein/src/main.c:34-37 | At t = 0, weight 0 is 1 and all others are 0. |
| BernsteinBasis.WeightsAtOne | bernstein/src/main.c:34-37 | At t = 1, weight n is 1 and all others are 0. |
| BernsteinBasis.BernsteinSymmetric | bernstein/src/main.c:34-37 | B(n,k,1-t) == B(n,n-k,t). |
| BernsteinBasis.BezierSplit | bezier/src/main.c:28-33 | A degree-n weighted sum is a blend of two degree n-1 sums, over the first n values and the last n values. This is the step that ties one blending round to the Bernstein form. |
| BernsteinBasis.CombineAtEnds | bernstein/src/main.c:39-50 | The weighted sum at t = 0 is the first value, and at t = 1 the last. |
| BernsteinBasis.CombineInHull | bernstein/src/main.c:39-50 | For t in [0,1] the weighted sum lies between the minimum and the maximum of the values. |
| BernsteinBasis.CombineConstant | bernstein/src/main.c:39-50 | Weighting equal values gives that value. |
| BernsteinCurve.BernsteinEval | bernstein/src/main.c:34-37 | `bernstein(n,k,t)` is weight k of the degree-n basis at t, and is non-negative on [0,1]. |
| BernsteinCurve.ApproxLoop | bernstein/src/main.c:39-50 | The accumulation loop returns the Bernstein-form point. It is points[0] at t = 0, the last point at t = 1, and inside the control points' bounding box for t in [0,1]. |
| BernsteinCurve.ApproxEnds | bernstein/src/main.c:39-50 | The curve starts at the first control point and ends at the last. |
| BernsteinCurve.ApproxInBoundingBox | bernstein/src/main.c:39-50 | For t in [0,1] the curve point lies in the control points' bounding box. |
| BernsteinCurve.ApproxConstant | bernstein/src/main.c:39-50 | If every control point is p, the curve is p everywhere. |
| BernsteinCurve.InterpolateCurve | bernstein/src/main.c:52-58 | Exactly `INTERP_RES` samples are written. Sample k is the curve at k/(INTERP_RES-1). The first is points[0], the last is the last point, and all lie in the bounding box. |
| BezierCurve.ReduceIsBernstein | bezier/src/main.c:22-35 | The demo's reversed blending reduces to the Bernstein-form point at 1 - t. |
| BezierCurve.ReduceEnds | bezier/src/main.c:28-34 | With the reversed blend, t = 1 gives points[0] and t = 0 gives the last point. |
| BezierCurve.ReduceInBoundingBox | bezier/src/main.c:28-33 | For t in [0,1] every round is a convex blend, so the result stays in the control points' bounding box. |
| BezierCurve.DeCasteljau | bezier/src/main.c:22-35 | The loop with the corrected inner bound returns the fully reduced point. That point is the Bernstein-form point at 1 - t and has the endpoint and bounding-box facts. The caller's points are not changed. |
| BezierCurve.BlendRoundAsWritten | bezier/src/main.c:29-32 | One round with the original bound reads past the array exactly when it works on the whole array. Its first len-1 entries are still the corrected round. |
| BezierCurve.DeCasteljauAsWritten | bezier/src/main.c:28-33 | With the original bound `i < N - k`, the loop reads one past the array exactly when there are at least two points. The result still equals the corrected one, whatever value lies past the array. |
| BezierCurve.CurveSample | bezier/src/main.c:40-44 | Sample k of this demo is sample INTERP_RES-1-k of the Bernstein demo, and it lies in the bounding box. |
| BezierCurve.InterpolateCurveAsWritten | bezier/src/main.c:37-49 | Every stored sample is the origin (0,0). Only the drawn points follow the curve, from the last control point back to the first. |
| BezierCurve.InterpolateCurve | bezier/src/main.c:37-49 | With the computed points stored, sample k is the mirrored Bernstein sample. The samples run from the last control point to the first and stay in the bounding box. |
| BezierCurve.CurveEnds | bezier/src/main.c:40 | The first and last sample parameters give the curve's two endpoints. |
| BSpline.PiecewiseConstant | b_spline/src/main.c:32-34 | At order 1 the basis is 1.0 exactly when knots[i] <= u < knots[i+1], and 0.0 otherwise. |
| BSpline.SkippedTermsVanish | b_spline/src/main.c:38-44 | When a knot-span denominator is zero, the lower-order spline that term would scale is zero, so skipping the term loses nothing. |
| BSpline.Support | b_spline/src/main.c:30-47 | For non-decreasing knots the basis is zero when u < knots[i] or u >= knots[i+k]. |
| BSpline.SplineNonNegative | b_spline/src/main.c:30-47 | For non-decreasing knots the basis is non-negative. |
| BSpline.SplinePartitionOfUnity | b_spline/src/main.c:30-59 | For non-decreasing knots and knots[a+k-1] <= u < knots[b], the order-k splines a..b-1 sum to 1. |
| BSpline.DeBoorInBoundingBox | b_spline/src/main.c:49-59 | Where the basis sums to 1, `de_boor`'s point lies in the control points' bounding box. |
| BSpline.DeBoorLoop | b_spline/src/main.c:49-59 | The accumulation loop returns the control points weighted by the order-`DEGREE` basis. For non-decreasing knots and t[DEGREE-1] <= u < t[n] the point lies in the control points' bounding box. With the demo's four points and clamped knots it does so for every u in [0,1], and it is the first control point at u = 0 and the last at u = 1. |
| BSpline.WeightedSum | b_spline/src/main.c:53-57 | The loop adds weight times point, coordinate by coordinate, over all points. |
| BSpline.DemoKnotsValid | b_spline/src/main.c:105-112 | The demo's knot vector has `N_KNOTS` = 7 entries and is non-decreasing. |
| BSpline.DemoWeightsAtEnds | b_spline/src/main.c:105-112 | With those knots the basis is (1,0,0,0) at u = 0 and (0,0,0,1) at u = 1. |
| BSpline.DemoEnds | b_spline/src/main.c:49-59 | With the demo's knots, `de_boor` returns points[0] at u = 0 and points[3] at u = 1. |
| BSpline.DemoInBoundingBox | b_spline/src/main.c:49-59 | With the demo's knots, every u in [0,1] gives a point in the bounding box. |
| BSpline.InterpolateCurve | b_spline/src/main.c:62-67 | Exactly `INTERP_RES` samples are written, sample k at u = k/(INTERP_RES-1). For the demo's data they run from points[0] to points[3] inside the bounding box. |
| BSpline.DemoSamples | b_spline/src/main.c:62-67 | Samples of the demo's curve start at points[0], end at points[3] and stay in the bounding box. |
| Geometry.SampleParamRange | bezier_surface/src/scene.c:158-161 | k/(count-1) lies in [0,1]. It is 0 exactly for the first sample and 1 exactly for the last, and it strictly increases with k. |
| Geometry.SampleParamMirror | bezier/src/main.c:40 | The parameter of sample count-1-k is one minus that of sample k. |
| Geometry.IndexInRange | bezier_surface/src/scene.c:162 | The write index i*M + j is below N*M, the size allocated for the buffer. |
| Geometry.IndexDivMod | bezier_surface/src/scene.c:114-119 | Row-major index i*m + j recovers row i by division and column j by remainder. |
| Geometry.IndexInjective | bezier_surface/src/scene.c:114-119 | Distinct cells have distinct row-major indices. |
| Geometry.IndexCovers | bezier_surface/src/scene.c:114-119 | Every index below rows*cols is the index of exactly one cell. |
| Geometry.CrossOrthogonal | bezier_surface/src/scene.c:126-131 | The raw cross product is orthogonal to both inputs. |
| Geometry.CrossNormalized | bezier_surface/src/scene.c:126-142 | With length 0 the raw cross product is returned undivided. In every case the result is orthogonal to both inputs. |
| Geometry.CrossNormalizedUnit | bezier_surface/src/scene.c:134-139 | When `len` is the true length, the result is zero exactly when the raw cross product is zero, and unit-length otherwise. |
| BezierSurface.BernsteinAt | bezier_surface/src/scene.c:102-105 | `bernstein(n,k,t)` is weight k of the degree-n basis, non-negative on [0,1]. |
| BezierSurface.CoordinateByRows | bezier_surface/src/scene.c:114-121 | The double sum over the row-major grid equals the Bernstein sum in u of each row's Bernstein sum in v. |
| BezierSurface.TensorPartitionOfUnity | bezier_surface/src/scene.c:114-116 | The products `B_i(u) * B_j(v)` over the grid sum to 1. |
| BezierSurface.TensorSum | bezier_surface/src/scene.c:114-116 | For any two weight vectors that each sum to 1, the row-major grid of their products sums to 1. |
| BezierSurface.SurfaceLoop | bezier_surface/src/scene.c:107-124 | The double loop returns the tensor-product surface point. It is points[0] at (0,0) and the last control point at (1,1), and inside the control points' bounding box on the unit square. |
| BezierSurface.SurfaceFacts | bezier_surface/src/scene.c:107-124 | The surface point at (0,0) is the first control point and at (1,1) the last. Anywhere on the unit square it lies in the control points' bounding box. |
| BezierSurface.SurfaceCorners | bezier_surface/src/scene.c:107-124 | The four parameter corners give the four corner control points: points[0], points[m-1], points[Cells(n-1,m)] (that is, (n-1)*m) and the last point. |
| BezierSurface.SurfaceConstant | bezier_surface/src/scene.c:107-124 | If every control point is p, the surface is p everywhere. |
| BezierSurface.SurfaceInBox | bezier_surface/src/scene.c:107-124 | On the unit square the surface lies in the control points' bounding box. |
| Display.TexelAtCell | bezier_surface/src/scene.c:345-350 | Sample (i, j) gets the texel (i/(N-1), j/(M-1)). |
| Display.TexelInUnitSquare | bezier_surface/src/scene.c:345-350 | Every texel lies in the unit square. The first is (0,0) and the last is (1,1). |
| Display.PremapTexture | bezier_surface/src/scene.c:339-352 | Every sample gets its grid texel, and positions and normals are unchanged. |
| Display.SamplePositions | bezier_surface/src/scene.c:156-164 | Every sample gets the surface point at its grid parameters, and texels and normals are unchanged. All positions lie in the control points' bounding box. The first sample is points[0] and the last is the last control point. |
| Display.SampledFacts | bezier_surface/src/scene.c:158-164 | A buffer sampled from the surface lies in the bounding box and starts and ends at the corner control points. |
| Display.Neighbours | bezier_surface/src/scene.c:172-190 | All four neighbour indices are in [0, N*M). Left and right stay in row i, and top and bottom stay in column j. A neighbour equals the sample only on its own edge; otherwise it is the sample index plus or minus 1 (left/right) or M (top/bottom). |
| Display.NormalAt | bezier_surface/src/scene.c:192-205 | The normal is orthogonal to the left-minus-right tangent and the bottom-minus-top tangent. |
| Display.NormalIsUnit | bezier_surface/src/scene.c:134-139 | With a true square root, the normal is zero exactly when the two tangents' cross product is zero, and unit-length otherwise. |
| Display.ComputeNormals | bezier_surface/src/scene.c:166-209 | Every sample gets the normal computed from the neighbours' positions. Positions and texels are unchanged, so the pass sees the same positions throughout. |
| Scene.ValidSamples | bezier_surface/src/scene.c:158-161 | With both dimensions at least 2 (the lower bound `change_dim` keeps), N = dim_n*res and M = dim_m*res are at least 2 at every resolution, so no sample parameter divides by zero. |
| Scene.HeightRange | bezier_surface/src/scene.c:332 | `10/((rand()%10)+1)` is an integer in [1,10]. It is 10 exactly for residue 0 and 1 exactly for residues 5 to 9. |
| Scene.GridPointAt | bezier_surface/src/scene.c:330-334 | Cell (i, j) gets the point (i, j, height), using the roll of its own, (i*m+j)-th, `rand()` call. |
| Scene.GenerateSurface | bezier_surface/src/scene.c:326-337 | Every cell is overwritten with its grid point. `dz` copies each height, every height is in [1,10], and old contents do not matter. |
| Scene.Resize | bezier_surface/src/scene.c:382-386 | A reallocated block has the new size and keeps the old contents up to the smaller of the two sizes. Each cell beyond the old size holds whatever uninitialised memory holds at that cell. |
| Scene.InitSurface | bezier_surface/src/scene.c:305-323 | The scene gets the given dimensions and resolution and buffers of the matching sizes. The grid is generated and the texels premapped. When both dimensions are in [2,15], the scene is also valid. Each sample's position and normal are whatever the fresh display block held at that cell. |
| Scene.Regenerate | bezier_surface/src/scene.c:406-408 | Generating and premapping keeps dimensions, sizes, positions and normals. It produces the generated grid and the premapped texels. |
| Scene.InitScene | bezier_surface/src/scene.c:36 | The initial scene is a valid 5 x 4 grid at resolution 10, with 20 control points and 2000 samples. |
| Scene.StepAsWrittenIsConstant | bezier_surface/src/scene.c:152 | The step as written is exactly 0.01 for every roll. |
| Scene.StepRange | bezier_surface/src/scene.c:152 | The intended step lies in [0.03, 0.11]. It is 0.11 exactly for residue 0 and 0.03 exactly for residue 4. |
| Scene.OscillatedRange | bezier_surface/src/scene.c:153 | With a true sine, `((sin(dz)+1)/2)*2` lies in [0,2]. |
| Scene.Oscillate | bezier_surface/src/scene.c:150-154 | Each phase advances by its step, and each height becomes the oscillated new phase. x and y are unchanged, and with a true sine every height lies in [0,2]. |
| Scene.UpdateScene | bezier_surface/src/scene.c:144-210 | A frame keeps the dimensions and buffer sizes, and a valid scene stays valid. The control points are animated. Every sample holds the new surface point, and its normal is computed from the new positions. Texels are unchanged. |
| Scene.NormalsSeeNewPositions | bezier_surface/src/scene.c:192-207 | The normal pass reads only positions, so the normals it writes are those of the buffer it leaves. |
| Scene.RequestedDims | bezier_surface/src/scene.c:362-378 | A request is accepted exactly when the target is 1 or 2 and the changed dimension stays in [2,15]. Only the targeted dimension changes, by `size`. |
| Scene.ChangeDim | bezier_surface/src/scene.c:356-410 | A rejected request or a failed reallocation leaves the scene untouched. Success changes exactly the targeted dimension and keeps `res`. It sizes the buffers for the new dimensions and regenerates the surface. Buffer sizes always match the dimensions, and validity (2 <= dims <= 15) is preserved in every case. |
| Scene.Reallocate | bezier_surface/src/scene.c:380-386 | After the three reallocations the buffers have sizes n*m, n*m and (n*res)*(m*res), and keep their old prefixes. The grown parts hold uninitialised memory. |
| Scene.ChangeDimRoundTrip | bezier_surface/src/scene.c:354-375 | In a valid scene, changing an axis by size and then by -size, with successful reallocations, restores the original dimensions and keeps the scene valid. The final grid is freshly generated. |

## Left out

- Rendering, windowing and input are not modelled. This covers all SDL and OpenGL calls, `render_scene`, `set_lighting`, `set_material`, `draw_curve`, the event loops, mouse dragging and texture loading. They are I/O against foreign libraries.
- Floating-point rounding is not modelled. `double`, `float` and the `float` fields of `vec3`/`texel_t` are all `real`.
  - All three curve demos compute the sample parameter as `(float)k / (INTERP_RES - 1)`, and `de_casteljau` takes its parameter as a `float`. The model computes these exactly, without rounding to single precision.
- The 64-bit wrap-around of the binomial loops is not modelled; integers are unbounded. The table is proved to fit in 64 bits.
- `sqrt`, `sin` and `rand` are arguments, because their values cannot be computed here.
  - `Display.NormalAt`: the normal is proved orthogonal to both tangents for any `sqrt`. Unit length is proved only for a true square root, in `Display.NormalIsUnit`.
- `BezierSurface.BernsteinAt` uses the corrected `binom` (see Findings). For n == 21 and 0 < k < 21 it returns the Bernstein weight, where the source reads `fact[21]`, one past the table. `change_dim` caps each dimension at 15, so the program never makes that call.
- `BezierSurface.SurfaceLoop` uses the same corrected weights. For a grid with 22 rows or 22 columns (degree 21) it returns the Bézier surface point, where the source reads `fact[21]`. Such a grid never arises, for the same reason.
- `Scene.Oscillate` and `Scene.UpdateScene` use the corrected animation step (see Findings). The step as written is modelled separately.
- Memory management is not modelled.
  - `malloc` in `init_surface` is never NULL-checked in the source. The model always allocates.
  - If an early `realloc` in `change_dim` moves its block and a later one fails, the source keeps a dangling pointer. The model only keeps the scene unchanged on failure; pointer aliasing is not modelled.
- `MAX_RES` (`scene.c:13`) is defined but never used, so the resolution is never bounded.
- The `Scene` record follows its use in `scene.c`. The declaration in `bezier_surface/include/scene.h` disagrees with that use.
  - Texture id, material and display flags are not modelled.
- The toggles (`toggle_control_polygon` and the other flags), `degree_to_radian` and the `printf` diagnostics are not modelled. None of them affects the geometry.
- `BSpline.DeBoorLoop`: the source fixes `N_POINTS` = 4 and `DEGREE` = 3. The model allows any number of points with enough knots, and proves the demo's fixed data as a special case.
- `BSpline`: the comment at `b_spline/src/main.c:27` calls `k` a degree. The code uses it as the order (k == 1 is piecewise constant), and the model follows the code.
- `BernsteinCurve.BernsteinEval`: the source's `bernstein` is only ever called with 0 <= k <= n. The model requires that range rather than modelling `pow` with a negative exponent.

## Findings

| source | as written | input that shows it | evidently intended | confidence | as-written member | corrected member |
|---|---|---|---|---|---|---|
| bezier_surface/src/scene.c:97-98 | The table branch is guarded by `n > 21 \|\| k > 21`, so n == 21 reads `fact[21]`. The table has 21 entries (indices 0..20). | `binom(21, 1)` | guard `n > 20` | high, not executed | Combinatorics.BinomAsWritten | Combinatorics.Binom |
| bezier/src/main.c:29-30 | The inner loop runs `i < N_POINTS - k`, so round 0 reads `pts[N_POINTS]`, one past the array. | any call, e.g. `de_casteljau(points, 0.5)` | bound `i < N_POINTS - 1 - k` (same result, no read past the array) | high, not executed | BezierCurve.DeCasteljauAsWritten | BezierCurve.DeCasteljau |
| bezier/src/main.c:41-44 | `interpolate_curve` stores (0,0) into every sample and never stores the computed point, so `draw_curve` draws the origin only. | any control points | `interp_points[k] = de_casteljau(points, t)` | high, not executed | BezierCurve.InterpolateCurveAsWritten | BezierCurve.InterpolateCurve |
| bezier_surface/src/scene.c:152 | `1/(((rand() % 5) + 1)*10)` is an integer division of 1 by at least 10, which is always 0, so every frame adds exactly 0.01. | any roll, e.g. `rand() == 0` gives 0.01 rather than 0.11 | `1.0/(((rand() % 5) + 1)*10)`: a random step between 0.03 and 0.11 | high, not executed | Scene.StepAsWrittenIsConstant | Scene.StepRange |
