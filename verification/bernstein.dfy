/**
 The Bernstein basis polynomials B(n, k, t) = C(n, k) t^k (1 - t)^(n - k)
 behind every Bezier evaluator of the demos, and the facts about them the
 curve and surface proofs rest on: Pascal's recurrence, partition of unity,
 non-negativity on [0, 1], the endpoint values and the mirror symmetry.

 Two definitions of the weights meet here: the closed form the demos
 evaluate (`BernsteinWeights`) and the weights generated by Pascal's rule
 (`Weights`). `WeightsClosedForm` proves them equal; the other facts are
 proved on whichever form makes them short.
 */
module BernsteinBasis {
  import opened Combinatorics
  import opened Sums

  /** `pow(x, k)` for a natural exponent; like `pow`, 0^0 is 1. */
  function Pow(x: real, k: nat): real
  {
    if k == 0 then 1.0 else Pow(x, k - 1) * x
  }

  /** `bernstein(n, k, t)`: the k-th Bernstein polynomial of degree n at t,
      evaluated as binomial * t^k * (1 - t)^(n - k). */
  function Bernstein(n: nat, k: nat, t: real): real
    requires k <= n
  {
    Choose(n, k) as real * Pow(t, k) * Pow(1.0 - t, n - k)
  }

  /** The n + 1 closed-form weights of degree n at t, in control-point order. */
  function BernsteinWeights(n: nat, t: real): (r: seq<real>)
    ensures |r| == n + 1
  {
    seq(n + 1, k requires 0 <= k <= n => Bernstein(n, k, t))
  }

  /** The weights of degree n generated by Pascal's rule: those of degree
      n - 1 blended with themselves shifted by one place. */
  function Weights(n: nat, t: real): (r: seq<real>)
    ensures |r| == n + 1
  {
    PascalRow(n, t)
  }

  /** The recursion behind `Weights`. Keeping it apart lets every mention of
      `Weights(n, t)` denote one and the same term, whatever the context. */
  function PascalRow(n: nat, t: real): (r: seq<real>)
    ensures |r| == n + 1
  {
    if n == 0 then [1.0]
    else Lin(1.0 - t, PascalRow(n - 1, t) + [0.0], t, [0.0] + PascalRow(n - 1, t))
  }

  // ---------------------------------------------------------------------------
  // Powers
  // ---------------------------------------------------------------------------

  lemma {:induction false} PowNonNegative(x: real, k: nat)
    requires x >= 0.0
    ensures Pow(x, k) >= 0.0
  {
    if k > 0 {
      PowNonNegative(x, k - 1);
      MulNonNegative(Pow(x, k - 1), x);
    }
  }

  lemma {:induction false} MulNonNegative(a: real, b: real)
    requires a >= 0.0 && b >= 0.0
    ensures a * b >= 0.0
  {
  }

  /** A positive power of 0 is 0 and every power of 1 is 1. */
  lemma {:induction false} PowZeroOne(k: nat)
    ensures k > 0 ==> Pow(0.0, k) == 0.0
    ensures Pow(1.0, k) == 1.0
  {
    if k > 0 {
      PowZeroOne(k - 1);
    }
  }

  // ---------------------------------------------------------------------------
  // Pascal's recurrence for the closed form
  // ---------------------------------------------------------------------------

  /** The blend (1 - t) p + t q by which Pascal's rule combines two
      neighbouring weights of the degree below. */
  function PascalBlend(t: real, p: real, q: real): real
  {
    (1.0 - t) * p + t * q
  }

  /** B(n, k) = (1 - t) B(n - 1, k) + t B(n - 1, k - 1), where a term whose
      index falls outside 0..n-1 is absent. */
  lemma {:induction false} BernsteinPascal(n: nat, k: nat, t: real)
    requires 1 <= n && k <= n
    ensures Bernstein(n, k, t)
         == PascalBlend(t, if k < n then Bernstein(n - 1, k, t) else 0.0,
                           if 0 < k then Bernstein(n - 1, k - 1, t) else 0.0)
  {
    if k == 0 {
      PascalFirst(n, t);
    } else if k == n {
      PascalLast(n, t);
    } else {
      PascalInterior(n, k, t);
    }
  }

  lemma {:induction false} PascalFirst(n: nat, t: real)
    requires 1 <= n
    ensures Bernstein(n, 0, t) == (1.0 - t) * Bernstein(n - 1, 0, t)
  {
    var s := 1.0 - t;
    ScaleStep(1.0 * 1.0, Pow(s, n - 1), s, Bernstein(n, 0, t), Bernstein(n - 1, 0, t));
  }

  lemma {:induction false} PascalLast(n: nat, t: real)
    requires 1 <= n
    ensures Bernstein(n, n, t) == t * Bernstein(n - 1, n - 1, t)
  {
    ChooseDiagonal(n);
    ChooseDiagonal(n - 1);
    var p := Pow(t, n - 1);
    assert Bernstein(n, n, t) == 1.0 * (p * t) * 1.0;
    assert Bernstein(n - 1, n - 1, t) == 1.0 * p * 1.0;
    ScaleStep(1.0, p, t, Bernstein(n, n, t), Bernstein(n - 1, n - 1, t));
  }

  lemma {:induction false} ScaleStep(c: real, p: real, s: real, b: real, b1: real)
    requires b == c * (p * s) || b == c * (p * s) * 1.0
    requires b1 == c * p || b1 == c * p * 1.0
    ensures b == s * b1
  {
  }

  lemma {:induction false} PascalInterior(n: nat, k: nat, t: real)
    requires 0 < k < n
    ensures Bernstein(n, k, t) == PascalBlend(t, Bernstein(n - 1, k, t), Bernstein(n - 1, k - 1, t))
  {
    var s := 1.0 - t;
    PascalAlgebra(Choose(n, k) as real, Choose(n - 1, k) as real, Choose(n - 1, k - 1) as real,
                  Pow(t, k), Pow(t, k - 1), Pow(s, n - k), Pow(s, n - 1 - k), t, s,
                  Bernstein(n, k, t), Bernstein(n - 1, k, t), Bernstein(n - 1, k - 1, t));
  }

  lemma {:induction false} PascalAlgebra(c: real, c1: real, c2: real, pk: real, a: real, pnk: real, b: real, t: real, s: real,
                      bn: real, b1: real, b2: real)
    requires c == c1 + c2 && pk == a * t && pnk == b * s && s == 1.0 - t
    requires bn == c * pk * pnk && b1 == c1 * pk * b && b2 == c2 * a * pnk
    ensures bn == PascalBlend(t, b1, b2)
  {
  }

  // ---------------------------------------------------------------------------
  // The two definitions agree
  // ---------------------------------------------------------------------------

  /** The weights generated by Pascal's rule are the closed-form weights. */
  lemma {:induction false} WeightsClosedForm(n: nat, t: real)
    ensures Weights(n, t) == BernsteinWeights(n, t)
  {
    var w, b := Weights(n, t), BernsteinWeights(n, t);
    if n == 0 {
      assert b[0] == 1.0 * 1.0 * 1.0;
    } else {
      WeightsClosedForm(n - 1, t);
      forall k | 0 <= k <= n
        ensures w[k] == b[k]
      {
        var v := Weights(n - 1, t);
        var p := if k < n then Bernstein(n - 1, k, t) else 0.0;
        var q := if 0 < k then Bernstein(n - 1, k - 1, t) else 0.0;
        assert (v + [0.0])[k] == p;
        assert ([0.0] + v)[k] == q;
        BernsteinPascal(n, k, t);
        BlendEntry(k, t, v, w, p, q, Bernstein(n, k, t));
      }
    }
  }

  /** Weight k of degree n is the closed-form Bernstein polynomial B(n, k, t). */
  lemma {:induction false} WeightIsBernstein(n: nat, k: nat, t: real)
    requires k <= n
    ensures Weights(n, t)[k] == Bernstein(n, k, t)
  {
    WeightsClosedForm(n, t);
  }

  /** Entry k of a Pascal step: blending v with itself shifted by one place
      gives, at k, the blend of the two entries of v that meet there. The
      values are parameters, so no closed form is in sight of the arithmetic. */
  lemma {:induction false} BlendEntry(k: nat, t: real, v: seq<real>, w: seq<real>, p: real, q: real, x: real)
    requires k <= |v| && w == Lin(1.0 - t, v + [0.0], t, [0.0] + v)
    requires (v + [0.0])[k] == p && ([0.0] + v)[k] == q
    requires x == PascalBlend(t, p, q)
    ensures w[k] == x
  {
  }

  // ---------------------------------------------------------------------------
  // Partition of unity, sign, endpoints, symmetry
  // ---------------------------------------------------------------------------

  /** For every t the weights of any degree add up to one. */
  lemma {:induction false} PartitionOfUnity(n: nat, t: real)
    ensures Sum(Weights(n, t)) == 1.0
  {
    var w := Weights(n, t);
    if n == 0 {
      assert Sum(w) == Partial(w, Const(1, 1.0), 0) + 1.0 * 1.0;
    } else {
      var v := Weights(n - 1, t);
      PartitionOfUnity(n - 1, t);
      SumLin(1.0 - t, v + [0.0], t, [0.0] + v);
      SumPadRight(v);
      SumPadLeft(v);
    }
  }

  /** On [0, 1] no weight is negative. */
  lemma {:induction false} WeightsNonNegative(n: nat, t: real)
    requires 0.0 <= t <= 1.0
    ensures NonNegative(Weights(n, t))
  {
    if n > 0 {
      var v := Weights(n - 1, t);
      WeightsNonNegative(n - 1, t);
      BlendNonNegative(1.0 - t, v + [0.0], t, [0.0] + v);
    }
  }

  /** A blend with non-negative factors of non-negative sequences is non-negative. */
  lemma {:induction false} BlendNonNegative(a: real, w1: seq<real>, b: real, w2: seq<real>)
    requires |w1| == |w2| && 0.0 <= a && 0.0 <= b
    requires NonNegative(w1) && NonNegative(w2)
    ensures NonNegative(Lin(a, w1, b, w2))
  {
    var l := Lin(a, w1, b, w2);
    forall i | 0 <= i < |l|
      ensures 0.0 <= l[i]
    {
      MulNonNegative(a, w1[i]);
      MulNonNegative(b, w2[i]);
    }
  }

  /** At t = 0 all weight sits on the first control point. */
  lemma {:induction false} WeightsAtZero(n: nat)
    ensures forall k :: 0 <= k <= n ==> Weights(n, 0.0)[k] == (if k == 0 then 1.0 else 0.0)
  {
    if n > 0 {
      WeightsAtZero(n - 1);
      var v := Weights(n - 1, 0.0);
      assert forall k :: 0 <= k <= n ==> Weights(n, 0.0)[k] == 1.0 * (v + [0.0])[k] + 0.0 * ([0.0] + v)[k];
    }
  }

  /** At t = 1 all weight sits on the last control point. */
  lemma {:induction false} WeightsAtOne(n: nat)
    ensures forall k :: 0 <= k <= n ==> Weights(n, 1.0)[k] == (if k == n then 1.0 else 0.0)
  {
    if n > 0 {
      WeightsAtOne(n - 1);
      var v := Weights(n - 1, 1.0);
      assert forall k :: 0 <= k <= n ==> Weights(n, 1.0)[k] == 0.0 * (v + [0.0])[k] + 1.0 * ([0.0] + v)[k];
    }
  }

  /** Mirroring the parameter mirrors the basis: B(n, k, 1 - t) = B(n, n - k, t). */
  lemma {:induction false} BernsteinSymmetric(n: nat, k: nat, t: real)
    requires k <= n
    ensures Bernstein(n, k, 1.0 - t) == Bernstein(n, n - k, t)
  {
    ChooseSymmetric(n, k);
    assert 1.0 - (1.0 - t) == t;
    SwapStep(Choose(n, k) as real, Pow(1.0 - t, k), Pow(t, n - k));
  }

  lemma {:induction false} SwapStep(c: real, a: real, b: real)
    ensures c * a * b == c * b * a
  {
  }

  // ---------------------------------------------------------------------------
  // Evaluation against the weights
  // ---------------------------------------------------------------------------

  /** Evaluating against the degree-n weights splits into a blend of the
      degree-(n-1) evaluations of the first n and of the last n points. */
  lemma {:induction false} BezierSplit(n: nat, t: real, xs: seq<real>)
    requires n >= 1 && |xs| == n + 1
    ensures Combine(Weights(n, t), xs)
         == (1.0 - t) * Combine(Weights(n - 1, t), xs[..n]) + t * Combine(Weights(n - 1, t), xs[1..])
  {
    SplitBlend(Weights(n, t), Weights(n - 1, t), 1.0 - t, t, xs);
  }

  /** The linear-algebra half of BezierSplit, for any weights w built from v
      by Pascal's rule with blend factors a and b. */
  lemma {:induction false} SplitBlend(w: seq<real>, v: seq<real>, a: real, b: real, xs: seq<real>)
    requires |xs| == |v| + 1
    requires w == Lin(a, v + [0.0], b, [0.0] + v)
    ensures Combine(w, xs) == a * Combine(v, xs[..|v|]) + b * Combine(v, xs[1..])
  {
    CombineLin(a, v + [0.0], b, [0.0] + v, xs);
    CombinePadRight(v, xs);
    CombinePadLeft(v, xs);
  }

  /** Evaluating at t = 0 or t = 1 returns the first or the last value. */
  lemma {:induction false} CombineAtEnds(n: nat, xs: seq<real>)
    requires |xs| == n + 1
    ensures Combine(Weights(n, 0.0), xs) == xs[0]
    ensures Combine(Weights(n, 1.0), xs) == xs[n]
  {
    WeightsAtZero(n);
    WeightsAtOne(n);
    CombineUnit(Weights(n, 0.0), xs, 0);
    CombineUnit(Weights(n, 1.0), xs, n);
  }

  /** On [0, 1] the evaluation stays between the smallest and the largest value. */
  lemma {:induction false} CombineInHull(n: nat, t: real, xs: seq<real>)
    requires |xs| == n + 1 && 0.0 <= t <= 1.0
    ensures Min(xs) <= Combine(Weights(n, t), xs) <= Max(xs)
  {
    WeightsNonNegative(n, t);
    PartitionOfUnity(n, t);
    ConvexCombination(Weights(n, t), xs);
  }

  /** Equal values evaluate to that value for every t. */
  lemma {:induction false} CombineConstant(n: nat, t: real, xs: seq<real>, c: real)
    requires |xs| == n + 1
    requires forall i :: 0 <= i < |xs| ==> xs[i] == c
    ensures Combine(Weights(n, t), xs) == c
  {
    CombineConst(Weights(n, t), xs, c);
    PartitionOfUnity(n, t);
  }
}
