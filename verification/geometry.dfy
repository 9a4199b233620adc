/**
 Points, vectors and the row-major index arithmetic shared by the demos.
 Floating-point values (`double` and `float` alike) are modelled as `real`.
 */
module Geometry {

  /** `Point` of the curve demos. */
  datatype Point = Point(x: real, y: real)

  /** `vec3` of the surface demo. */
  datatype Vec3 = Vec3(x: real, y: real, z: real)

  /** `texel_t`: a texture coordinate. */
  datatype Texel = Texel(u: real, v: real)

  /** `vertex_t`: one sample of the displayed surface. */
  datatype Vertex = Vertex(pos: Vec3, normal: Vec3, texel: Texel)

  const Origin: Point := Point(0.0, 0.0)
  const Zero3: Vec3 := Vec3(0.0, 0.0, 0.0)

  /** The coordinate columns of a point buffer. */
  function Xs(p: seq<Point>): (r: seq<real>)
    ensures |r| == |p| && forall i :: 0 <= i < |p| ==> r[i] == p[i].x
  {
    seq(|p|, i requires 0 <= i < |p| => p[i].x)
  }

  function Ys(p: seq<Point>): (r: seq<real>)
    ensures |r| == |p| && forall i :: 0 <= i < |p| ==> r[i] == p[i].y
  {
    seq(|p|, i requires 0 <= i < |p| => p[i].y)
  }

  function Xs3(p: seq<Vec3>): (r: seq<real>)
    ensures |r| == |p| && forall i :: 0 <= i < |p| ==> r[i] == p[i].x
  {
    seq(|p|, i requires 0 <= i < |p| => p[i].x)
  }

  function Ys3(p: seq<Vec3>): (r: seq<real>)
    ensures |r| == |p| && forall i :: 0 <= i < |p| ==> r[i] == p[i].y
  {
    seq(|p|, i requires 0 <= i < |p| => p[i].y)
  }

  function Zs3(p: seq<Vec3>): (r: seq<real>)
    ensures |r| == |p| && forall i :: 0 <= i < |p| ==> r[i] == p[i].z
  {
    seq(|p|, i requires 0 <= i < |p| => p[i].z)
  }

  // ---------------------------------------------------------------------------
  // Sampling parameters
  // ---------------------------------------------------------------------------

  /** The parameter of sample k out of count: `(double)k / (count - 1)`. */
  function SampleParam(k: nat, count: nat): real
    requires count >= 2
  {
    k as real / (count - 1) as real
  }

  /** Every sample parameter of a run of count >= 2 samples lies in [0,1]; the
      first is exactly 0 and the last exactly 1, and they increase with k. */
  lemma {:induction false} SampleParamRange(k: nat, count: nat)
    requires count >= 2 && k < count
    ensures 0.0 <= SampleParam(k, count) <= 1.0
    ensures SampleParam(k, count) == 0.0 <==> k == 0
    ensures SampleParam(k, count) == 1.0 <==> k == count - 1
    ensures k + 1 < count ==> SampleParam(k, count) < SampleParam(k + 1, count)
  {
    var d := (count - 1) as real;
    QuotientFacts(k as real, d);
    if k + 1 < count {
      QuotientFacts((k + 1) as real, d);
      QuotientMonotone(k as real, (k + 1) as real, d);
    }
  }

  /** Counting the samples from the other end mirrors the parameter:
      sample count - 1 - k sits at 1 minus the parameter of sample k. */
  lemma {:induction false} SampleParamMirror(k: nat, count: nat)
    requires count >= 2 && k < count
    ensures SampleParam(count - 1 - k, count) == 1.0 - SampleParam(k, count)
  {
    var d := (count - 1) as real;
    MirrorQuotient(k as real, (count - 1 - k) as real, d);
  }

  lemma {:induction false} MirrorQuotient(a: real, b: real, d: real)
    requires d > 0.0 && a + b == d
    ensures b / d == 1.0 - a / d
  {
    var qa, qb := a / d, b / d;
    assert qb * d == b && qa * d == a;
    Distribute3(qa, qb, 0.0, d);
    Cancel(qa + qb, 1.0, d);
  }

  lemma {:induction false} QuotientFacts(a: real, d: real)
    requires d > 0.0 && 0.0 <= a <= d
    ensures 0.0 <= a / d <= 1.0
    ensures a / d == 0.0 <==> a == 0.0
    ensures a / d == 1.0 <==> a == d
  {
    var q := a / d;
    assert q * d == a;
  }

  lemma {:induction false} QuotientMonotone(a: real, b: real, d: real)
    requires d > 0.0 && a < b
    ensures a / d < b / d
  {
    assert b / d - a / d == (b - a) / d;
  }

  // ---------------------------------------------------------------------------
  // Row-major indexing
  // ---------------------------------------------------------------------------

  /** `i * cols + j`: the position of cell (i, j) in a row-major buffer. */
  function Index(i: nat, j: nat, cols: nat): nat
  {
    i * cols + j
  }

  /** Every cell of a rows x cols grid lands inside the buffer of rows * cols
      elements. */
  lemma {:induction false} IndexInRange(i: nat, j: nat, rows: nat, cols: nat)
    requires i < rows && j < cols
    ensures Index(i, j, cols) < rows * cols
  {
    assert i * cols + cols <= rows * cols by {
      assert rows * cols - i * cols == (rows - i) * cols;
      MulAtLeastNat(rows - i, cols);
    }
  }

  lemma {:induction false} MulAtLeastNat(x: nat, d: nat)
    requires x >= 1
    ensures x * d >= d
  {
    assert x * d == (x - 1) * d + d;
  }

  /** Row and column are recovered from the index. */
  lemma {:induction false} IndexDivMod(i: nat, j: nat, cols: nat)
    requires j < cols
    ensures Index(i, j, cols) / cols == i
    ensures Index(i, j, cols) % cols == j
  {
    var idx := Index(i, j, cols);
    var q := idx / cols;
    var r := idx % cols;
    assert q * cols + r == i * cols + j;
    assert (q - i) * cols == j - r;
    if q - i >= 1 {
      MulAtLeastNat(q - i, cols);
    } else if i - q >= 1 {
      MulAtLeastNat(i - q, cols);
    }
  }

  /** Distinct cells have distinct indices: the map (i, j) -> i*cols + j is
      one-to-one on columns below cols. */
  lemma {:induction false} IndexInjective(i1: nat, j1: nat, i2: nat, j2: nat, cols: nat)
    requires j1 < cols && j2 < cols
    requires Index(i1, j1, cols) == Index(i2, j2, cols)
    ensures i1 == i2 && j1 == j2
  {
    IndexDivMod(i1, j1, cols);
    IndexDivMod(i2, j2, cols);
  }

  /** Every buffer position is the index of exactly the cell (idx / cols,
      idx % cols). */
  lemma {:induction false} IndexCovers(idx: nat, rows: nat, cols: nat)
    requires idx < rows * cols
    ensures cols > 0
    ensures idx / cols < rows && idx % cols < cols
    ensures Index(idx / cols, idx % cols, cols) == idx
  {
    assert cols != 0;
    var q := idx / cols;
    assert q * cols <= idx;
    MulMonotoneNat(rows, q, cols);
  }

  /** a >= b implies a * c >= b * c for naturals. */
  lemma {:induction false} MulMonotoneNat(a: nat, b: nat, c: nat)
    ensures a <= b ==> a * c <= b * c
  {
    if a <= b {
      assert b * c == a * c + (b - a) * c;
    }
  }

  // ---------------------------------------------------------------------------
  // Vector algebra
  // ---------------------------------------------------------------------------

  function Sub(a: Vec3, b: Vec3): Vec3
  {
    Vec3(a.x - b.x, a.y - b.y, a.z - b.z)
  }

  function Dot(a: Vec3, b: Vec3): real
  {
    a.x * b.x + a.y * b.y + a.z * b.z
  }

  /** The cross product before normalisation. */
  function Cross(a: Vec3, b: Vec3): Vec3
  {
    Vec3(a.y * b.z - a.z * b.y, a.z * b.x - a.x * b.z, a.x * b.y - a.y * b.x)
  }

  /** The raw cross product is orthogonal to both of its inputs. */
  lemma {:induction false} CrossOrthogonal(a: Vec3, b: Vec3)
    ensures Dot(Cross(a, b), a) == 0.0
    ensures Dot(Cross(a, b), b) == 0.0
  {
  }

  /** The squared length of a vector is never negative, and is zero exactly
      for the zero vector. */
  lemma {:induction false} ZeroLength(c: Vec3)
    ensures Dot(c, c) >= 0.0
    ensures Dot(c, c) == 0.0 <==> c == Zero3
  {
    var sx, sy, sz := c.x * c.x, c.y * c.y, c.z * c.z;
    SquareSign(c.x, sx);
    SquareSign(c.y, sy);
    SquareSign(c.z, sz);
    assert Dot(c, c) == sx + sy + sz;
    assert c == Vec3(c.x, c.y, c.z);
  }

  /** s = x * x is non-negative, and positive unless x is 0. */
  lemma {:induction false} SquareSign(x: real, s: real)
    requires s == x * x
    ensures s >= 0.0
    ensures x != 0.0 ==> s > 0.0
  {
    if x > 0.0 {
      calc { s; x * x; > { MulPos(x, x); } 0.0; }
    } else if x < 0.0 {
      calc { s; x * x; (-x) * (-x); > { MulPos(-x, -x); } 0.0; }
    }
  }

  lemma {:induction false} MulPos(a: real, b: real)
    requires a > 0.0 && b > 0.0
    ensures a * b > 0.0
  {
  }

  /** `cross`: the raw cross product divided by `len`, or returned unchanged
      when `len` is 0. In the source `len` is `sqrt` of the squared length, a
      library call that is not modelled: it is an argument here. Whatever its
      value, the result stays orthogonal to both inputs. */
  function CrossNormalized(a: Vec3, b: Vec3, len: real): (r: Vec3)
    ensures len == 0.0 ==> r == Cross(a, b)
    ensures Dot(r, a) == 0.0 && Dot(r, b) == 0.0
  {
    var c := Cross(a, b);
    CrossOrthogonal(a, b);
    if len != 0.0 then
      var r := Vec3(c.x / len, c.y / len, c.z / len);
      ScaledOrthogonal(c, a, len);
      ScaledOrthogonal(c, b, len);
      r
    else
      c
  }

  /** When `len` is the length of the cross product, the result is the zero
      vector (length 0, no division) or a unit vector. */
  lemma {:induction false} CrossNormalizedUnit(a: Vec3, b: Vec3, len: real)
    requires len >= 0.0 && len * len == Dot(Cross(a, b), Cross(a, b))
    ensures len == 0.0 <==> Cross(a, b) == Zero3
    ensures len == 0.0 <==> CrossNormalized(a, b, len) == Zero3
    ensures len != 0.0 ==> Dot(CrossNormalized(a, b, len), CrossNormalized(a, b, len)) == 1.0
  {
    var c := Cross(a, b);
    ZeroLength(c);
    SquareSign(len, len * len);
    if len != 0.0 {
      UnitAfterDivision(c, len);
    }
  }

  lemma {:induction false} UnitAfterDivision(c: Vec3, len: real)
    requires len > 0.0 && len * len == Dot(c, c)
    ensures Dot(Vec3(c.x / len, c.y / len, c.z / len), Vec3(c.x / len, c.y / len, c.z / len)) == 1.0
  {
    var r := Vec3(c.x / len, c.y / len, c.z / len);
    var l2 := len * len;
    SquareSign(len, l2);
    QuotientSquare(c.x, len, r.x * r.x, l2);
    QuotientSquare(c.y, len, r.y * r.y, l2);
    QuotientSquare(c.z, len, r.z * r.z, l2);
    var d := Dot(r, r);
    assert d == r.x * r.x + r.y * r.y + r.z * r.z;
    Distribute3(r.x * r.x, r.y * r.y, r.z * r.z, l2);
    assert d * l2 == Dot(c, c);
    Cancel(d, 1.0, l2);
  }

  lemma {:induction false} QuotientSquare(a: real, len: real, q: real, l2: real)
    requires len > 0.0 && q == (a / len) * (a / len) && l2 == len * len
    ensures q * l2 == a * a
  {
  }

  lemma {:induction false} Distribute3(a: real, b: real, d: real, f: real)
    ensures (a + b + d) * f == a * f + b * f + d * f
  {
  }

  lemma {:induction false} Cancel(a: real, b: real, f: real)
    requires f > 0.0 && a * f == b * f
    ensures a == b
  {
  }

  lemma {:induction false} ScaledOrthogonal(c: Vec3, a: Vec3, len: real)
    requires len != 0.0 && Dot(c, a) == 0.0
    ensures Dot(Vec3(c.x / len, c.y / len, c.z / len), a) == 0.0
  {
    var r := Vec3(c.x / len, c.y / len, c.z / len);
    assert r.x * len == c.x && r.y * len == c.y && r.z * len == c.z;
    assert Dot(r, a) * len == Dot(c, a);
  }
}
