/**
 Weighted sums of one coordinate: the accumulation `sum.x += p[i].x * w[i]`
 that every evaluator of the demos performs per coordinate, with the algebra
 the curve and surface proofs need (linearity, padding, convex bounds).
 */
module Sums {

  /** sum_{i < k} xs[i] * w[i], accumulated from index 0 upwards: the value of
      the accumulator after k turns of the loop. */
  function Partial(w: seq<real>, xs: seq<real>, k: nat): real
    requires k <= |w| == |xs|
  {
    if k == 0 then 0.0 else Partial(w, xs, k - 1) + xs[k - 1] * w[k - 1]
  }

  /** sum_{i < |w|} xs[i] * w[i]: the accumulator after the whole loop. */
  function Combine(w: seq<real>, xs: seq<real>): real
    requires |w| == |xs|
  {
    Partial(w, xs, |w|)
  }

  /** The constant sequence of length n. */
  function Const(n: nat, c: real): (r: seq<real>)
    ensures |r| == n
    ensures forall i :: 0 <= i < n ==> r[i] == c
  {
    seq(n, _ => c)
  }

  /** sum_{i < |w|} w[i]. */
  function Sum(w: seq<real>): real
  {
    Combine(w, Const(|w|, 1.0))
  }

  /** a * w, element by element. */
  function Scale(a: real, w: seq<real>): (r: seq<real>)
    ensures |r| == |w|
    ensures forall i {:trigger r[i]} :: 0 <= i < |r| ==> r[i] == a * w[i]
  {
    seq(|w|, i requires 0 <= i < |w| => a * w[i])
  }

  /** a * w1 + b * w2, element by element. */
  function Lin(a: real, w1: seq<real>, b: real, w2: seq<real>): (r: seq<real>)
    requires |w1| == |w2|
    ensures |r| == |w1|
    ensures forall i {:trigger r[i]} :: 0 <= i < |r| ==> r[i] == a * w1[i] + b * w2[i]
  {
    seq(|w1|, i requires 0 <= i < |w1| => a * w1[i] + b * w2[i])
  }

  /** The smallest and largest element of a non-empty sequence (see
      MinBounds and MaxBounds). */
  function Min(xs: seq<real>): real
    requires |xs| > 0
  {
    if |xs| == 1 then xs[0]
    else
      var m := Min(xs[..|xs| - 1]);
      if xs[|xs| - 1] < m then xs[|xs| - 1] else m
  }

  function Max(xs: seq<real>): real
    requires |xs| > 0
  {
    if |xs| == 1 then xs[0]
    else
      var m := Max(xs[..|xs| - 1]);
      if xs[|xs| - 1] > m then xs[|xs| - 1] else m
  }

  /** Min is at most every element and is one of them. */
  lemma {:induction false} MinBounds(xs: seq<real>)
    requires |xs| > 0
    ensures forall i :: 0 <= i < |xs| ==> Min(xs) <= xs[i]
    ensures exists i :: 0 <= i < |xs| && Min(xs) == xs[i]
    decreases |xs|
  {
    if |xs| > 1 {
      var p := xs[..|xs| - 1];
      MinBounds(p);
      var j :| 0 <= j < |p| && Min(p) == p[j];
      assert forall i :: 0 <= i < |p| ==> p[i] == xs[i];
      if xs[|xs| - 1] < Min(p) {
        assert Min(xs) == xs[|xs| - 1];
      } else {
        assert Min(xs) == xs[j];
      }
    } else {
      assert Min(xs) == xs[0];
    }
  }

  /** Max is at least every element and is one of them. */
  lemma {:induction false} MaxBounds(xs: seq<real>)
    requires |xs| > 0
    ensures forall i :: 0 <= i < |xs| ==> xs[i] <= Max(xs)
    ensures exists i :: 0 <= i < |xs| && Max(xs) == xs[i]
    decreases |xs|
  {
    if |xs| > 1 {
      var p := xs[..|xs| - 1];
      MaxBounds(p);
      var j :| 0 <= j < |p| && Max(p) == p[j];
      assert forall i :: 0 <= i < |p| ==> p[i] == xs[i];
      if xs[|xs| - 1] > Max(p) {
        assert Max(xs) == xs[|xs| - 1];
      } else {
        assert Max(xs) == xs[j];
      }
    } else {
      assert Max(xs) == xs[0];
    }
  }

  predicate NonNegative(w: seq<real>)
  {
    forall i :: 0 <= i < |w| ==> 0.0 <= w[i]
  }

  // ---------------------------------------------------------------------------
  // Sequences that agree on a prefix
  // ---------------------------------------------------------------------------

  /** The first k terms depend only on the first k weights and values. */
  lemma {:induction false} PartialAgree(w1: seq<real>, xs1: seq<real>, w2: seq<real>, xs2: seq<real>, k: nat)
    requires k <= |w1| == |xs1| && k <= |w2| == |xs2|
    requires forall i :: 0 <= i < k ==> w1[i] == w2[i] && xs1[i] == xs2[i]
    ensures Partial(w1, xs1, k) == Partial(w2, xs2, k)
  {
    if k > 0 {
      PartialAgree(w1, xs1, w2, xs2, k - 1);
    }
  }

  /** Peeling off the last term. */
  lemma {:induction false} CombineLast(w: seq<real>, xs: seq<real>)
    requires |w| == |xs| > 0
    ensures Combine(w, xs) == Combine(w[..|w| - 1], xs[..|xs| - 1]) + w[|w| - 1] * xs[|xs| - 1]
  {
    var n := |w| - 1;
    PartialAgree(w, xs, w[..n], xs[..n], n);
  }

  /** A zero weight appended after the last point contributes nothing. */
  lemma {:induction false} CombinePadRight(w: seq<real>, xs: seq<real>)
    requires |xs| == |w| + 1
    ensures Combine(w + [0.0], xs) == Combine(w, xs[..|w|])
  {
    var n := |w|;
    PartialAgree(w + [0.0], xs, w, xs[..n], n);
    assert Combine(w + [0.0], xs) == Partial(w + [0.0], xs, n) + xs[n] * 0.0;
  }

  /** A zero weight prepended before the first point contributes nothing. */
  lemma {:induction false} CombinePadLeft(w: seq<real>, xs: seq<real>)
    requires |xs| == |w| + 1
    ensures Combine([0.0] + w, xs) == Combine(w, xs[1..])
  {
    PartialPadLeft(w, xs, |w|);
  }

  lemma {:induction false} PartialPadLeft(w: seq<real>, xs: seq<real>, k: nat)
    requires |xs| == |w| + 1 && k <= |w|
    ensures Partial([0.0] + w, xs, k + 1) == Partial(w, xs[1..], k)
  {
    if k == 0 {
      assert Partial([0.0] + w, xs, 1) == 0.0 + xs[0] * 0.0;
    } else {
      PartialPadLeft(w, xs, k - 1);
      assert ([0.0] + w)[k] == w[k - 1] && xs[k] == xs[1..][k - 1];
    }
  }

  /** The accumulation over a concatenation is the sum of the two
      accumulations. */
  lemma {:induction false} CombineAppend(w1: seq<real>, xs1: seq<real>, w2: seq<real>, xs2: seq<real>)
    requires |w1| == |xs1| && |w2| == |xs2|
    ensures Combine(w1 + w2, xs1 + xs2) == Combine(w1, xs1) + Combine(w2, xs2)
  {
    PartialAppend(w1, xs1, w2, xs2, |w2|);
  }

  /** Splitting the points at the end of w1. */
  lemma {:induction false} CombineSplit(w1: seq<real>, w2: seq<real>, xs: seq<real>)
    requires |w1| + |w2| == |xs|
    ensures Combine(w1 + w2, xs) == Combine(w1, xs[..|w1|]) + Combine(w2, xs[|w1|..])
  {
    assert xs == xs[..|w1|] + xs[|w1|..];
    CombineAppend(w1, xs[..|w1|], w2, xs[|w1|..]);
  }

  /** Appending one point with its weight adds one term. */
  lemma {:induction false} CombineSnoc(w: seq<real>, xs: seq<real>, x: real)
    requires |w| == |xs| + 1
    ensures Combine(w, xs + [x]) == Combine(w[..|xs|], xs) + x * w[|xs|]
  {
    PartialAgree(w, xs + [x], w[..|xs|], xs, |xs|);
  }

  lemma {:induction false} PartialAppend(w1: seq<real>, xs1: seq<real>, w2: seq<real>, xs2: seq<real>, k: nat)
    requires |w1| == |xs1| && k <= |w2| == |xs2|
    ensures Partial(w1 + w2, xs1 + xs2, |w1| + k) == Combine(w1, xs1) + Partial(w2, xs2, k)
  {
    if k == 0 {
      PartialAgree(w1 + w2, xs1 + xs2, w1, xs1, |w1|);
    } else {
      PartialAppend(w1, xs1, w2, xs2, k - 1);
      assert (w1 + w2)[|w1| + k - 1] == w2[k - 1] && (xs1 + xs2)[|w1| + k - 1] == xs2[k - 1];
    }
  }

  // ---------------------------------------------------------------------------
  // Linearity in the weights
  // ---------------------------------------------------------------------------

  /** Combine is linear in the weights. */
  lemma {:induction false} CombineLin(a: real, w1: seq<real>, b: real, w2: seq<real>, xs: seq<real>)
    requires |w1| == |w2| == |xs|
    ensures Combine(Lin(a, w1, b, w2), xs) == a * Combine(w1, xs) + b * Combine(w2, xs)
  {
    PartialLin(a, w1, b, w2, xs, |xs|);
  }

  lemma {:induction false} PartialLin(a: real, w1: seq<real>, b: real, w2: seq<real>, xs: seq<real>, k: nat)
    requires |w1| == |w2| == |xs| && k <= |xs|
    ensures Partial(Lin(a, w1, b, w2), xs, k) == a * Partial(w1, xs, k) + b * Partial(w2, xs, k)
  {
    if k > 0 {
      PartialLin(a, w1, b, w2, xs, k - 1);
      PartialLinStep(a, b, w1, w2, Lin(a, w1, b, w2), xs, k);
    }
  }

  /** Scaling every weight by a scales the accumulation by a. */
  lemma {:induction false} CombineScale(a: real, w: seq<real>, xs: seq<real>)
    requires |w| == |xs|
    ensures Combine(Scale(a, w), xs) == a * Combine(w, xs)
  {
    PartialScale(a, w, xs, |w|);
  }

  lemma {:induction false} PartialScale(a: real, w: seq<real>, xs: seq<real>, k: nat)
    requires k <= |w| == |xs|
    ensures Partial(Scale(a, w), xs, k) == a * Partial(w, xs, k)
  {
    if k > 0 {
      PartialScale(a, w, xs, k - 1);
      ScaleTerm(a, Partial(w, xs, k - 1), xs[k - 1], w[k - 1]);
    }
  }

  lemma {:induction false} ScaleTerm(a: real, p: real, x: real, u: real)
    ensures a * p + x * (a * u) == a * (p + x * u)
  {
  }

  lemma {:induction false} PartialLinStep(a: real, b: real, w1: seq<real>, w2: seq<real>, l: seq<real>, xs: seq<real>, k: nat)
    requires |w1| == |w2| == |xs| == |l| && 0 < k <= |xs|
    requires l[k - 1] == a * w1[k - 1] + b * w2[k - 1]
    requires Partial(l, xs, k - 1) == a * Partial(w1, xs, k - 1) + b * Partial(w2, xs, k - 1)
    ensures Partial(l, xs, k) == a * Partial(w1, xs, k) + b * Partial(w2, xs, k)
  {
    LinStep(a, b, Partial(w1, xs, k - 1), Partial(w2, xs, k - 1), xs[k - 1], w1[k - 1], w2[k - 1], l[k - 1],
            Partial(l, xs, k), Partial(w1, xs, k), Partial(w2, xs, k));
  }

  lemma {:induction false} LinStep(a: real, b: real, c1: real, c2: real, x: real, u: real, v: real, m: real,
                cl: real, cw1: real, cw2: real)
    requires m == a * u + b * v && cl == (a * c1 + b * c2) + x * m
    requires cw1 == c1 + x * u && cw2 == c2 + x * v
    ensures cl == a * cw1 + b * cw2
  {
  }

  /** Weights and values play symmetric roles. */
  lemma {:induction false} CombineSwap(w: seq<real>, xs: seq<real>)
    requires |w| == |xs|
    ensures Combine(w, xs) == Combine(xs, w)
  {
    PartialSwap(w, xs, |w|);
  }

  lemma {:induction false} PartialSwap(w: seq<real>, xs: seq<real>, k: nat)
    requires k <= |w| == |xs|
    ensures Partial(w, xs, k) == Partial(xs, w, k)
  {
    if k > 0 {
      PartialSwap(w, xs, k - 1);
      assert xs[k - 1] * w[k - 1] == w[k - 1] * xs[k - 1];
    }
  }

  /** Combine is linear in the values as well. */
  lemma {:induction false} CombineLinValues(w: seq<real>, a: real, xs1: seq<real>, b: real, xs2: seq<real>)
    requires |w| == |xs1| == |xs2|
    ensures Combine(w, Lin(a, xs1, b, xs2)) == a * Combine(w, xs1) + b * Combine(w, xs2)
  {
    CombineSwap(w, Lin(a, xs1, b, xs2));
    CombineLin(a, xs1, b, xs2, w);
    CombineSwap(w, xs1);
    CombineSwap(w, xs2);
  }

  // ---------------------------------------------------------------------------
  // Special weights and values
  // ---------------------------------------------------------------------------

  /** Constant points: the combination is the constant times the total weight. */
  lemma {:induction false} CombineConst(w: seq<real>, xs: seq<real>, c: real)
    requires |w| == |xs|
    requires forall i :: 0 <= i < |xs| ==> xs[i] == c
    ensures Combine(w, xs) == c * Sum(w)
  {
    PartialConst(w, xs, Const(|w|, 1.0), c, |w|);
  }

  lemma {:induction false} PartialConst(w: seq<real>, xs: seq<real>, ones: seq<real>, c: real, k: nat)
    requires |w| == |xs| == |ones| && k <= |w|
    requires forall i :: 0 <= i < |xs| ==> xs[i] == c && ones[i] == 1.0
    ensures Partial(w, xs, k) == c * Partial(w, ones, k)
  {
    if k > 0 {
      PartialConst(w, xs, ones, c, k - 1);
      ConstStep(c, Partial(w, ones, k - 1), w[k - 1]);
    }
  }

  lemma {:induction false} ConstStep(c: real, s: real, u: real)
    ensures c * s + c * u == c * (s + 1.0 * u)
  {
  }

  /** A single unit weight selects its point. */
  lemma {:induction false} CombineUnit(w: seq<real>, xs: seq<real>, j: nat)
    requires |w| == |xs| && j < |w|
    requires forall i :: 0 <= i < |w| ==> w[i] == (if i == j then 1.0 else 0.0)
    ensures Combine(w, xs) == xs[j]
  {
    PartialUnit(w, xs, j, |w|);
  }

  lemma {:induction false} PartialUnit(w: seq<real>, xs: seq<real>, j: nat, k: nat)
    requires |w| == |xs| && j < |w| && k <= |w|
    requires forall i :: 0 <= i < |w| ==> w[i] == (if i == j then 1.0 else 0.0)
    ensures Partial(w, xs, k) == (if j < k then xs[j] else 0.0)
  {
    if k > 0 {
      PartialUnit(w, xs, j, k - 1);
    }
  }

  /** All-zero weights give zero. */
  lemma {:induction false} CombineZero(w: seq<real>, xs: seq<real>)
    requires |w| == |xs|
    requires forall i :: 0 <= i < |w| ==> w[i] == 0.0
    ensures Combine(w, xs) == 0.0
  {
    PartialZero(w, xs, |w|);
  }

  lemma {:induction false} PartialZero(w: seq<real>, xs: seq<real>, k: nat)
    requires |w| == |xs| && k <= |w|
    requires forall i :: 0 <= i < |w| ==> w[i] == 0.0
    ensures Partial(w, xs, k) == 0.0
  {
    if k > 0 {
      PartialZero(w, xs, k - 1);
    }
  }

  // ---------------------------------------------------------------------------
  // Bounds
  // ---------------------------------------------------------------------------

  /** Non-negative weights keep the combination between lo and hi times the
      total weight. */
  lemma {:induction false} CombineBounds(w: seq<real>, xs: seq<real>, lo: real, hi: real)
    requires |w| == |xs|
    requires NonNegative(w)
    requires forall i :: 0 <= i < |xs| ==> lo <= xs[i] <= hi
    ensures lo * Sum(w) <= Combine(w, xs) <= hi * Sum(w)
  {
    var ones := Const(|w|, 1.0);
    PartialLower(w, xs, ones, lo, |w|);
    PartialUpper(w, xs, ones, hi, |w|);
  }

  lemma {:induction false} PartialLower(w: seq<real>, xs: seq<real>, ones: seq<real>, lo: real, k: nat)
    requires |w| == |xs| == |ones| && k <= |w|
    requires NonNegative(w)
    requires forall i :: 0 <= i < |xs| ==> lo <= xs[i] && ones[i] == 1.0
    ensures lo * Partial(w, ones, k) <= Partial(w, xs, k)
  {
    if k > 0 {
      PartialLower(w, xs, ones, lo, k - 1);
      LowerStep(lo, Partial(w, ones, k - 1), Partial(w, xs, k - 1), xs[k - 1], w[k - 1]);
    }
  }

  lemma {:induction false} PartialUpper(w: seq<real>, xs: seq<real>, ones: seq<real>, hi: real, k: nat)
    requires |w| == |xs| == |ones| && k <= |w|
    requires NonNegative(w)
    requires forall i :: 0 <= i < |xs| ==> xs[i] <= hi && ones[i] == 1.0
    ensures Partial(w, xs, k) <= hi * Partial(w, ones, k)
  {
    if k > 0 {
      PartialUpper(w, xs, ones, hi, k - 1);
      UpperStep(hi, Partial(w, ones, k - 1), Partial(w, xs, k - 1), xs[k - 1], w[k - 1]);
    }
  }

  lemma {:induction false} LowerStep(lo: real, s0: real, c0: real, x: real, u: real)
    requires lo * s0 <= c0 && lo <= x && 0.0 <= u
    ensures lo * (s0 + 1.0 * u) <= c0 + x * u
  {
    Distribute(lo, s0, u);
    assert lo * u <= x * u;
  }

  lemma {:induction false} UpperStep(hi: real, s0: real, c0: real, x: real, u: real)
    requires c0 <= hi * s0 && x <= hi && 0.0 <= u
    ensures c0 + x * u <= hi * (s0 + 1.0 * u)
  {
    Distribute(hi, s0, u);
    assert x * u <= hi * u;
  }

  lemma {:induction false} Distribute(a: real, b: real, c: real)
    ensures a * (b + c) == a * b + a * c
  {
  }

  /** Convex combination: non-negative weights summing to one keep the result
      within the smallest and largest coordinate. */
  lemma {:induction false} ConvexCombination(w: seq<real>, xs: seq<real>)
    requires |w| == |xs| > 0
    requires NonNegative(w) && Sum(w) == 1.0
    ensures Min(xs) <= Combine(w, xs) <= Max(xs)
  {
    MinBounds(xs);
    MaxBounds(xs);
    CombineBounds(w, xs, Min(xs), Max(xs));
  }

  // ---------------------------------------------------------------------------
  // Algebra of Sum
  // ---------------------------------------------------------------------------

  lemma {:induction false} SumLin(a: real, w1: seq<real>, b: real, w2: seq<real>)
    requires |w1| == |w2|
    ensures Sum(Lin(a, w1, b, w2)) == a * Sum(w1) + b * Sum(w2)
  {
    CombineLin(a, w1, b, w2, Const(|w1|, 1.0));
  }

  lemma {:induction false} SumPadRight(w: seq<real>)
    ensures Sum(w + [0.0]) == Sum(w)
  {
    CombinePadRight(w, Const(|w| + 1, 1.0));
    assert Const(|w| + 1, 1.0)[..|w|] == Const(|w|, 1.0);
  }

  lemma {:induction false} SumPadLeft(w: seq<real>)
    ensures Sum([0.0] + w) == Sum(w)
  {
    CombinePadLeft(w, Const(|w| + 1, 1.0));
    assert Const(|w| + 1, 1.0)[1..] == Const(|w|, 1.0);
  }

  lemma {:induction false} SumNonNegative(w: seq<real>)
    requires NonNegative(w)
    ensures Sum(w) >= 0.0
  {
    var ones := Const(|w|, 1.0);
    PartialLower(w, ones, ones, 0.0, |w|);
  }
}
