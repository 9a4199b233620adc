/**
 Integer combinatorics shared by the demos: the factorial lookup table of the
 surface demo, its two binomial routines (`binom` with the table and the
 multiplicative fallback `slow_binom`), and the loop-only
 `binomial_coefficient` of the Bernstein curve demo.

 All integers are unbounded; 64-bit wrap-around of the multiplicative loop is
 not modelled (see README).
 */
module Combinatorics {
  import opened Wrappers

  /** n! */
  function Fact(n: nat): (r: nat)
    ensures r >= 1
  {
    if n == 0 then 1 else n * Fact(n - 1)
  }

  /** The binomial coefficient, defined by Pascal's rule: the reference
      definition every routine below is proved against. */
  function Choose(n: nat, k: nat): nat
  {
    if k == 0 then 1
    else if n == 0 then 0
    else Choose(n - 1, k - 1) + Choose(n - 1, k)
  }

  /** The factorial table `fact[]`: 0! .. 20!. */
  const FactTable: seq<nat> := [
    1, 1, 2, 6, 24, 120, 720, 5040, 40320, 362880, 3628800,
    39916800, 479001600, 6227020800, 87178291200, 1307674368000,
    20922789888000, 355687428096000, 6402373705728000,
    121645100408832000, 2432902008176640000
  ]

  /** 2^64: one more than the largest `unsigned long long`. */
  const U64Limit: nat := 0x1_0000_0000_0000_0000

  // ---------------------------------------------------------------------------
  // Facts about Choose
  // ---------------------------------------------------------------------------

  lemma {:induction false} ChooseAboveN(n: nat, k: nat)
    requires k > n
    ensures Choose(n, k) == 0
  {
    if n > 0 {
      ChooseAboveN(n - 1, k - 1);
      ChooseAboveN(n - 1, k);
    }
  }

  lemma {:induction false} ChooseDiagonal(n: nat)
    ensures Choose(n, n) == 1
  {
    if n > 0 {
      ChooseDiagonal(n - 1);
      ChooseAboveN(n - 1, n);
    }
  }

  lemma {:induction false} ChoosePositive(n: nat, k: nat)
    requires k <= n
    ensures Choose(n, k) >= 1
  {
    if k > 0 {
      ChoosePositive(n - 1, k - 1);
    }
  }

  /** C(n,k) * k! * (n-k)! == n! */
  lemma {:induction false} ChooseFactorial(n: nat, k: nat)
    requires k <= n
    ensures Choose(n, k) * (Fact(k) * Fact(n - k)) == Fact(n)
  {
    if k == 0 {
    } else if k == n {
      ChooseDiagonal(n);
    } else {
      ChooseFactorial(n - 1, k - 1);
      ChooseFactorial(n - 1, k);
      var a := Choose(n - 1, k - 1);
      var b := Choose(n - 1, k);
      var fk1 := Fact(k - 1);
      var fnk1 := Fact(n - 1 - k);
      assert Fact(k) == k * fk1;
      assert Fact(n - k) == (n - k) * fnk1;
      assert a * (fk1 * ((n - k) * fnk1)) == Fact(n - 1);
      assert b * ((k * fk1) * fnk1) == Fact(n - 1);
      FactorialStep(a, b, k, n, fk1, fnk1, Fact(n - 1));
    }
  }

  /** Absorption: i * C(m, i) == m * C(m-1, i-1), the step that makes every
      division of the multiplicative loop exact. */
  lemma {:induction false} ChooseAbsorption(m: nat, i: nat)
    requires 1 <= i <= m
    ensures i * Choose(m, i) == m * Choose(m - 1, i - 1)
  {
    ChooseFactorial(m, i);
    ChooseFactorial(m - 1, i - 1);
    var c := Choose(m, i);
    var d := Choose(m - 1, i - 1);
    var fi1 := Fact(i - 1);
    var fmi := Fact(m - i);
    assert Fact(i) == i * fi1;
    assert Fact(m) == m * Fact(m - 1);
    assert m - 1 - (i - 1) == m - i;
    AbsorptionStep(c, d, i, m, fi1, fmi, Fact(m - 1));
  }

  lemma {:induction false} AbsorptionStep(c: int, d: int, i: int, m: int, fi1: int, fmi: int, f1: int)
    requires fi1 > 0 && fmi > 0
    requires c * ((i * fi1) * fmi) == m * f1
    requires d * (fi1 * fmi) == f1
    ensures i * c == m * d
  {
    var f := fi1 * fmi;
    assert f > 0;
    assert (i * c) * f == c * ((i * fi1) * fmi);
    assert (m * d) * f == m * (d * (fi1 * fmi));
    MulCancel(i * c, m * d, f);
  }

  lemma {:induction false} FactorialStep(a: int, b: int, k: int, n: int, fk1: int, fnk1: int, f: int)
    requires a * (fk1 * ((n - k) * fnk1)) == f
    requires b * ((k * fk1) * fnk1) == f
    ensures (a + b) * ((k * fk1) * ((n - k) * fnk1)) == n * f
  {
    assert (a + b) * ((k * fk1) * ((n - k) * fnk1))
        == k * (a * (fk1 * ((n - k) * fnk1))) + (n - k) * (b * ((k * fk1) * fnk1));
  }

  lemma {:induction false} MulAtLeast(x: int, d: int)
    requires x >= 1 && d >= 0
    ensures x * d >= d
  {
    assert x * d == (x - 1) * d + d;
    assert (x - 1) * d >= 0;
  }

  lemma {:induction false} MulCancel(a: int, b: int, f: int)
    requires f > 0 && a * f == b * f
    ensures a == b
  {
    assert (a - b) * f == 0;
  }

  lemma {:induction false} DivExact(c: nat, d: nat)
    requires d > 0
    ensures (c * d) / d == c
  {
    var q := (c * d) / d;
    var r := (c * d) % d;
    assert c * d == q * d + r;
    assert (c - q) * d == r;
    if c - q >= 1 {
      MulAtLeast(c - q, d);
    } else if c - q <= -1 {
      MulAtLeast(q - c, d);
    }
  }

  /** Symmetry C(n,k) == C(n,n-k). */
  lemma {:induction false} ChooseSymmetric(n: nat, k: nat)
    requires k <= n
    ensures Choose(n, k) == Choose(n, n - k)
  {
    ChooseFactorial(n, k);
    ChooseFactorial(n, n - k);
    assert Fact(k) * Fact(n - k) == Fact(n - k) * Fact(n - (n - k));
    assert Fact(k) * Fact(n - k) > 0;
    MulCancel(Choose(n, k), Choose(n, n - k), Fact(k) * Fact(n - k));
  }

  // ---------------------------------------------------------------------------
  // The factorial table (bezier_surface/src/utils.c)
  // ---------------------------------------------------------------------------

  /** The table has 21 entries and entry i is i!. */
  lemma {:induction false} FactTableIsFactorial()
    ensures |FactTable| == 21
    ensures forall i :: 0 <= i < |FactTable| ==> FactTable[i] == Fact(i)
  {
    assert FactTable == [
      Fact(0), Fact(1), Fact(2), Fact(3), Fact(4), Fact(5), Fact(6), Fact(7), Fact(8), Fact(9), Fact(10),
      Fact(11), Fact(12), Fact(13), Fact(14), Fact(15), Fact(16), Fact(17), Fact(18), Fact(19), Fact(20)];
  }

  /** Every entry fits in an unsigned 64-bit integer, while the next factorial,
      21!, would not: the table is as long as it can be. */
  lemma {:induction false} FactTableFitsU64()
    ensures forall i :: 0 <= i < |FactTable| ==> FactTable[i] < U64Limit
    ensures 21 * FactTable[20] >= U64Limit
  {
  }

  /** k!(n-k)! divides n! with quotient C(n,k), and is at most n!. */
  lemma {:induction false} FactQuotientExact(n: nat, k: nat)
    requires k <= n
    ensures Fact(k) * Fact(n - k) <= Fact(n)
    ensures Fact(n) / (Fact(k) * Fact(n - k)) == Choose(n, k)
  {
    ChooseFactorial(n, k);
    ChoosePositive(n, k);
    var d := Fact(k) * Fact(n - k);
    assert d > 0;
    MulAtLeast(Choose(n, k), d);
    DivExact(Choose(n, k), d);
  }

  /** For 0 <= k <= n <= 20 the table quotient used by `binom` is exact and its
      denominator fact[k] * fact[n-k] is at most fact[n] < 2^64, so it does not
      overflow. */
  lemma {:induction false} TableQuotientExact(n: nat, k: nat)
    requires k <= n <= 20
    ensures TableDenominator(n, k) <= FactLookup(n) < U64Limit
    ensures FactLookup(n) % TableDenominator(n, k) == 0
    ensures FactLookup(n) / TableDenominator(n, k) == Choose(n, k)
  {
    var fn := FactLookup(n);
    TableEntry(n);
    ChooseFactorial(n, k);
    ChoosePositive(n, k);
    ExactQuotient(fn, TableDenominator(n, k), Choose(n, k));
  }

  /** `fact[k] * fact[n - k]`, the denominator of the table branch. */
  function TableDenominator(n: nat, k: nat): (d: nat)
    requires k <= n <= 20
    ensures d >= 1 && d == Fact(k) * Fact(n - k)
  {
    var fk, fnk := FactLookup(k), FactLookup(n - k);
    MulAtLeast(fk, fnk);
    fk * fnk
  }

  /** Entry i of the table is i! and fits in 64 bits. */
  lemma {:induction false} TableEntry(i: nat)
    requires i <= 20
    ensures |FactTable| == 21 && FactTable[i] == Fact(i) && FactTable[i] < U64Limit
  {
    FactTableIsFactorial();
    FactTableFitsU64();
  }

  /** If a == c * d with c >= 1 and d >= 1, then d divides a with quotient c
      and d <= a. */
  lemma {:induction false} ExactQuotient(a: nat, d: nat, c: nat)
    requires d > 0 && c >= 1 && a == c * d
    ensures d <= a && a % d == 0 && a / d == c
  {
    MulAtLeast(c, d);
    DivExact(c, d);
    DivisibleRemainder(c, d);
  }

  lemma {:induction false} DivisibleRemainder(c: nat, d: nat)
    requires d > 0
    ensures (c * d) % d == 0
  {
    DivExact(c, d);
  }

  // ---------------------------------------------------------------------------
  // The multiplicative loop shared by `slow_binom` and `binomial_coefficient`
  // ---------------------------------------------------------------------------

  /** `res = 1; for i in 1..k: res *= n - (k - i); res /= i`.
      After step i, res == C(n-k+i, i); every division is exact. For k <= 0 the
      loop does not run and the result is 1. */
  method SlowBinom(n: int, k: int) returns (r: nat)
    requires k <= n
    ensures k <= 0 ==> r == 1
    ensures k >= 0 ==> r == Choose(n, k)
  {
    r := 1;
    var i := 1;
    while i <= k
      invariant 1 <= i
      invariant k >= 0 ==> i <= k + 1
      invariant k <= 0 ==> r == 1
      invariant k >= 0 ==> r == Choose(n - k + i - 1, i - 1)
    {
      var m: nat := n - k + i;
      MultiplyDivideStep(r, m, i);
      r := r * m;
      r := r / i;
      i := i + 1;
    }
  }

  /** One turn of the loop: from C(m-1, i-1), multiplying by m and then
      dividing by i gives C(m, i) with no remainder. */
  lemma {:induction false} MultiplyDivideStep(r: nat, m: nat, i: nat)
    requires 1 <= i <= m && r == Choose(m - 1, i - 1)
    ensures (r * m) % i == 0 && (r * m) / i == Choose(m, i)
  {
    ChooseAbsorption(m, i);
    var c := Choose(m, i);
    assert r * m == c * i;
    DivExact(c, i);
    DivisibleRemainder(c, i);
  }

  // ---------------------------------------------------------------------------
  // `binom` (bezier_surface/src/scene.c), as written and corrected
  // ---------------------------------------------------------------------------

  /** `fact[i]`: a read of the table, which holds i! and stays below 2^64. */
  function FactLookup(i: nat): (r: nat)
    requires i <= 20
    ensures r == Fact(i)
  {
    TableEntry(i);
    FactTable[i]
  }

  /** The table branch `fact[n] / (fact[k] * fact[n - k])`, for indices inside
      the table. */
  method TableBinom(n: nat, k: nat) returns (r: nat)
    requires k <= n <= 20
    ensures r == Choose(n, k)
  {
    TableQuotientExact(n, k);
    r := FactLookup(n) / TableDenominator(n, k);
  }

  /** `binom` exactly as written: the table branch is guarded by
      `n > 21 || k > 21`, so n == 21 reaches `fact[21]`, one past the table.
      That read is reported as None (undefined behaviour); every other input
      yields the binomial coefficient. */
  method BinomAsWritten(n: int, k: int) returns (r: Option<nat>)
    ensures r.None? <==> (n == 21 && 0 < k < 21)
    ensures r.Some? && (k < 0 || k > n) ==> r.value == 0
    ensures r.Some? && 0 <= k <= n ==> r.value == Choose(n, k)
  {
    if k < 0 || k > n {
      return Some(0);
    }
    if k == 0 || k == n {
      if k == n { ChooseDiagonal(n); }
      return Some(1);
    }
    if n > 21 || k > 21 {
      var s := SlowBinom(n, k);
      return Some(s);
    }
    if n > 20 {
      return None;
    }
    var q := TableBinom(n, k);
    return Some(q);
  }

  /** `binom` with the table guard corrected to `n > 20`: every table read is
      in range and the result is the binomial coefficient, 0 outside
      0 <= k <= n. */
  method Binom(n: int, k: int) returns (r: nat)
    ensures (k < 0 || k > n) ==> r == 0
    ensures 0 <= k <= n ==> r == Choose(n, k)
    ensures k == 0 && n >= 0 ==> r == 1
    ensures k == n && n >= 0 ==> r == 1
  {
    if k < 0 || k > n {
      return 0;
    }
    if k == 0 || k == n {
      if k == n { ChooseDiagonal(n); }
      return 1;
    }
    if n > 20 {
      r := SlowBinom(n, k);
      return;
    }
    r := TableBinom(n, k);
  }

  // ---------------------------------------------------------------------------
  // `binomial_coefficient` (bernstein/src/main.c)
  // ---------------------------------------------------------------------------

  /** Returns 0 for k > n and 1 for k == 0 or k == n; a negative k falls
      through to the loop, which does not run, so the result is 1 (where
      `binom` returns 0). */
  method BinomialCoefficient(n: int, k: int) returns (r: nat)
    ensures k > n ==> r == 0
    ensures k <= n && k < 0 ==> r == 1
    ensures 0 <= k <= n ==> r == Choose(n, k)
  {
    if k > n {
      return 0;
    }
    if k == 0 || k == n {
      if k == n && k >= 0 { ChooseDiagonal(n); }
      return 1;
    }
    r := SlowBinom(n, k);
  }

  /** Symmetry of `binomial_coefficient` on 0 <= k <= n, stated through the
      method's contract: both calls return C(n,k) == C(n,n-k). */
  method BinomialCoefficientSymmetric(n: nat, k: nat) returns (a: nat, b: nat)
    requires k <= n
    ensures a == b
    ensures a == Choose(n, k)
  {
    a := BinomialCoefficient(n, k);
    b := BinomialCoefficient(n, n - k);
    ChooseSymmetric(n, k);
  }
}
