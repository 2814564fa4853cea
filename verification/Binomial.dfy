/** scripts/gold-logits.py, the exact tests on a fair coin: `mcnemar_exact`, `sign_test_one_sided` and
    `large_disagreement`, over the rationals. */
module Binomial {
  import opened Sums

  // ----- binomials

  /** `math.comb(n, k)`. */
  function Comb(n: nat, k: nat): nat
  {
    if k == 0 then 1 else if n == 0 then 0 else Comb(n - 1, k - 1) + Comb(n - 1, k)
  }

  function Pow2(n: nat): (r: nat)
    ensures r > 0
  {
    if n == 0 then 1 else 2 * Pow2(n - 1)
  }

  /** `sum(math.comb(n, j) for j in range(lo, hi))`. */
  function Row(n: nat, lo: nat, hi: nat): nat
    decreases hi - lo
  {
    if lo >= hi then 0 else Comb(n, lo) + Row(n, lo + 1, hi)
  }

  function Factorial(n: nat): (r: nat)
    ensures r > 0
  {
    if n == 0 then 1 else n * Factorial(n - 1)
  }

  /** `math.comb(n, k)` counts what it should: n! = comb(n, k) k! (n - k)!. */
  lemma {:induction false} CombFactorial(n: nat, k: nat)
    requires k <= n
    ensures Comb(n, k) * Factorial(k) * Factorial(n - k) == Factorial(n)
  {
    hide Comb, Factorial;
    CombDiagonal(n);
    if 0 < k < n {
      CombFactorial(n - 1, k - 1);
      CombFactorial(n - 1, k);
      CombStep(n, k);
      FactorialStep(n);
      FactorialStep(k);
      FactorialStep(n - k);
      PascalStep(n, k, Comb(n - 1, k - 1), Comb(n - 1, k), Factorial(k - 1), Factorial(n - k - 1), Factorial(n - 1));
    }
  }

  lemma {:induction false} CombDiagonal(n: nat)
    ensures Comb(n, 0) == 1 && Comb(n, n) == 1 && Factorial(0) == 1
  {
    if n > 0 {
      CombBeyond(n - 1, n);
      CombDiagonal(n - 1);
    }
  }

  lemma CombStep(n: nat, k: nat)
    requires 0 < k && 0 < n
    ensures Comb(n, k) == Comb(n - 1, k - 1) + Comb(n - 1, k)
  {
  }

  lemma FactorialStep(n: nat)
    requires n > 0
    ensures Factorial(n) == n * Factorial(n - 1)
  {
  }

  lemma PascalStep(n: nat, k: nat, x: nat, y: nat, f: nat, g: nat, h: nat)
    requires 0 < k < n
    requires x * f * ((n - k) * g) == h && y * (k * f) * g == h
    ensures (x + y) * (k * f) * ((n - k) * g) == n * h
  {
    var m := n - k;
    calc {
      (x + y) * (k * f) * (m * g);
      x * (k * f) * (m * g) + y * (k * f) * (m * g);
      { assert x * (k * f) * (m * g) == k * (x * f * (m * g)); assert y * (k * f) * (m * g) == m * (y * (k * f) * g); }
      k * h + m * h;
      (k + m) * h;
    }
  }

  lemma {:induction false} CombBeyond(n: nat, k: nat)
    requires k > n
    ensures Comb(n, k) == 0
  {
    if n > 0 {
      CombBeyond(n - 1, k - 1);
      CombBeyond(n - 1, k);
    }
  }

  lemma {:induction false} CombPositive(n: nat, k: nat)
    requires k <= n
    ensures Comb(n, k) > 0
  {
    if k > 0 { CombPositive(n - 1, k - 1); }
  }

  lemma {:induction false} CombFull(n: nat)
    ensures Comb(n, n) == 1
  {
    if n > 0 {
      CombFull(n - 1);
      CombBeyond(n - 1, n);
    }
  }

  lemma {:induction false} CombSymmetric(n: nat, k: nat)
    requires k <= n
    ensures Comb(n, k) == Comb(n, n - k)
  {
    if k == 0 || k == n {
      CombFull(n);
    } else {
      CombSymmetric(n - 1, k - 1);
      CombSymmetric(n - 1, k);
    }
  }

  lemma {:induction false} RowSplit(n: nat, lo: nat, mid: nat, hi: nat)
    requires lo <= mid <= hi
    ensures Row(n, lo, hi) == Row(n, lo, mid) + Row(n, mid, hi)
    decreases mid - lo
  {
    if lo < mid { RowSplit(n, lo + 1, mid, hi); }
  }

  lemma RowLast(n: nat, lo: nat, hi: nat)
    requires lo <= hi
    ensures Row(n, lo, hi + 1) == Row(n, lo, hi) + Comb(n, hi)
  {
    RowSplit(n, lo, hi, hi + 1);
  }

  /** A stretch of a row, read from the other end. */
  lemma {:induction false} RowReversed(n: nat, lo: nat, hi: nat)
    requires lo <= hi <= n + 1
    ensures Row(n, lo, hi) == Row(n, n + 1 - hi, n + 1 - lo)
    decreases hi - lo
  {
    if lo < hi {
      RowReversed(n, lo + 1, hi);
      CombSymmetric(n, lo);
      RowLast(n, n + 1 - hi, n - lo);
    }
  }

  /** Pascal's rule for a stretch from the left end. */
  lemma {:induction false} RowPascal(n: nat, m: nat)
    ensures Row(n + 1, 0, m + 1) == Row(n, 0, m + 1) + Row(n, 0, m)
  {
    RowLast(n + 1, 0, m);
    RowLast(n, 0, m);
    if m > 0 {
      RowPascal(n, m - 1);
      RowLast(n, 0, m - 1);
    }
  }

  lemma {:induction false} RowSum(n: nat)
    ensures Row(n, 0, n + 1) == Pow2(n)
  {
    if n > 0 {
      RowPascal(n - 1, n);
      RowSum(n - 1);
      RowLast(n - 1, 0, n);
      CombBeyond(n - 1, n);
    }
  }

  // ----- the tests

  function Min(x: real, y: real): real { if y < x then y else x }

  function McNemar(b: nat, c: nat): real
  {
    var n := b + c;
    if n == 0 then 1.0
    else Min(1.0, 2.0 * Row(n, 0, (if b < c then b else c) + 1) as real / Pow2(n) as real)
  }

  function SignTest(k: nat, n: nat): real
  {
    if n == 0 then 1.0 else Min(1.0, Row(n, k, n + 1) as real / Pow2(n) as real)
  }

  lemma Quotients(x: nat, y: nat, p: nat)
    requires p > 0
    ensures x as real / p as real + y as real / p as real == (x + y) as real / p as real
    ensures x as real / p as real <= y as real / p as real <==> x <= y
    ensures p as real / p as real == 1.0
    ensures 2.0 * x as real / p as real == (2 * x) as real / p as real
  {
    if x as real / p as real <= y as real / p as real {
      assert x as real == (x as real / p as real) * p as real <= (y as real / p as real) * p as real == y as real;
    }
  }

  lemma Doubled(x: nat, p: nat)
    requires p > 0
    ensures 2.0 * x as real / p as real == 2.0 * (x as real / p as real)
  {
  }

  /** The upper tail of a row of `n` is at most the row. */
  lemma TailIsProbability(k: nat, n: nat)
    requires n > 0
    ensures SignTest(k, n) == Row(n, k, n + 1) as real / Pow2(n) as real <= 1.0
    ensures k <= n + 1 ==> Row(n, k, n + 1) + Row(n, 0, k) == Pow2(n)
  {
    RowSum(n);
    if k <= n + 1 { RowSplit(n, 0, k, n + 1); }
    Quotients(Row(n, k, n + 1), Pow2(n), Pow2(n));
  }

  /** The two-sided test is symmetric, and twice the one-sided test of the larger count, capped at one. */
  lemma McNemarIsTwoSided(b: nat, c: nat)
    ensures McNemar(b, c) == McNemar(c, b)
    ensures McNemar(b, c) == Min(1.0, 2.0 * SignTest(if b < c then c else b, b + c))
  {
    var n := b + c;
    if n > 0 {
      var low, high := if b < c then b else c, if b < c then c else b;
      TailIsProbability(high, n);
      RowReversed(n, 0, low + 1);
      assert n - low == high;
      Doubled(Row(n, high, n + 1), Pow2(n));
      hide Row, Pow2;
    }
  }

  /** Twice the lower tail of the smaller count against the whole row. */
  lemma TwiceTheTail(m: nat, d: nat)
    ensures 2 * Row(2 * m + d, 0, m + 1) >= Pow2(2 * m + d) <==> d <= 1
  {
    var n := 2 * m + d;
    RowSum(n);
    RowSplit(n, 0, m + 1, n + 1);
    RowReversed(n, m + 1, n + 1);
    if d == 0 {
      RowLast(n, 0, m);
    } else {
      RowSplit(n, 0, m + 1, m + d);
      if d > 1 { CombPositive(n, m + 1); }
    }
  }

  /** The two-sided test is one exactly when the counts differ by at most one. */
  lemma McNemarIsOne(b: nat, c: nat)
    ensures McNemar(b, c) == 1.0 <==> -1 <= b - c <= 1
  {
    var n := b + c;
    if n > 0 {
      var m, d := if b < c then b else c, if b < c then c - b else b - c;
      TwiceTheTail(m, d);
      Quotients(Row(n, 0, m + 1), 0, Pow2(n));
      Quotients(Pow2(n), 2 * Row(n, 0, m + 1), Pow2(n));
    }
  }

  /** P(X >= k) and P(X >= n - k + 1) make one, unless there is no trial. */
  lemma TailsComplement(k: nat, n: nat)
    requires k <= n + 1
    ensures SignTest(k, n) + SignTest(n + 1 - k, n) == 1.0 <==> n > 0
    ensures n == 0 ==> SignTest(k, n) == SignTest(n + 1 - k, n) == 1.0
  {
    if n > 0 {
      TailIsProbability(k, n);
      TailIsProbability(n + 1 - k, n);
      RowReversed(n, 0, k);
      Quotients(Row(n, k, n + 1), Row(n, 0, k), Pow2(n));
      Quotients(Pow2(n), Pow2(n), Pow2(n));
    }
  }

  /** A larger count is less likely. */
  lemma SignTestFalls(k: nat, m: nat, n: nat)
    requires 0 < n && k <= m <= n + 1
    ensures SignTest(m, n) <= SignTest(k, n)
    ensures k < m ==> SignTest(m, n) < SignTest(k, n)
  {
    TailIsProbability(k, n);
    TailIsProbability(m, n);
    RowSplit(n, k, m, n + 1);
    if k < m { CombPositive(n, k); }
    Quotients(Row(n, m, n + 1), Row(n, k, n + 1), Pow2(n));
    Quotients(Row(n, k, n + 1), Row(n, m, n + 1), Pow2(n));
  }

  // ----- large disagreement

  const LARGE_DISAGREEMENT_NATS: real := 1.0

  datatype Position = Position(a: real, b: real)

  datatype Disagreement = Disagreement(positions: nat, aWorse: nat, bWorse: nat, pAWorse: real, pBWorse: real)

  /** The positions at which side b's divergence exceeds side a's by more than the threshold. */
  function BWorse(rows: seq<Position>): nat
  {
    if rows == [] then 0 else (if rows[0].b - rows[0].a > LARGE_DISAGREEMENT_NATS then 1 else 0) + BWorse(rows[1..])
  }

  function AWorse(rows: seq<Position>): nat
  {
    if rows == [] then 0 else (if rows[0].b - rows[0].a < -LARGE_DISAGREEMENT_NATS then 1 else 0) + AWorse(rows[1..])
  }

  function LargeDisagreement(rows: seq<Position>): Disagreement
  {
    var a, b := AWorse(rows), BWorse(rows);
    Disagreement(a + b, a, b, SignTest(a, a + b), SignTest(b, a + b))
  }

  function Swapped(rows: seq<Position>): (r: seq<Position>)
    ensures |r| == |rows| && forall i :: 0 <= i < |r| ==> r[i] == Position(rows[i].b, rows[i].a)
  {
    seq(|rows|, i requires 0 <= i < |rows| => Position(rows[i].b, rows[i].a))
  }

  lemma {:induction false} CountsSwap(rows: seq<Position>)
    ensures AWorse(Swapped(rows)) == BWorse(rows) && BWorse(Swapped(rows)) == AWorse(rows)
  {
    if rows != [] {
      assert Swapped(rows)[1..] == Swapped(rows[1..]);
      CountsSwap(rows[1..]);
    }
  }

  /** The report of the sides swapped is the report, swapped. */
  lemma SidesSwap(rows: seq<Position>)
    ensures var r := LargeDisagreement(rows);
            LargeDisagreement(Swapped(rows)) == Disagreement(r.positions, r.bWorse, r.aWorse, r.pBWorse, r.pAWorse)
  {
    CountsSwap(rows);
    var r := LargeDisagreement(rows);
    assert r.bWorse + r.aWorse == r.positions;
  }

  /** The side that is worse more often has the smaller chance, twice of which is the two-sided test; the
      two chances exceed one by that of the split itself. */
  lemma ChancesOfSides(rows: seq<Position>)
    ensures var r := LargeDisagreement(rows);
            && r.positions <= |rows|
            && (r.positions > 0 ==> (r.pAWorse < r.pBWorse <==> r.aWorse > r.bWorse))
            && McNemar(r.aWorse, r.bWorse) == Min(1.0, 2.0 * Min(r.pAWorse, r.pBWorse))
            && (r.positions > 0 ==>
                r.pAWorse + r.pBWorse == 1.0 + Comb(r.positions, r.aWorse) as real / Pow2(r.positions) as real)
  {
    var r := LargeDisagreement(rows);
    var a, b, n := r.aWorse, r.bWorse, r.positions;
    hide Row, Pow2, AWorse, BWorse, Comb;
    CountsFit(rows);
    McNemarIsTwoSided(a, b);
    if n > 0 {
      if a <= b { SignTestFalls(a, b, n); } else { SignTestFalls(b, a, n); }
      TailIsProbability(a, n);
      TailIsProbability(b, n);
      TailIsProbability(a + 1, n);
      RowReversed(n, b, n + 1);
      RowLast(n, 0, a);
      Quotients(Row(n, a, n + 1), Row(n, b, n + 1), Pow2(n));
      Quotients(Pow2(n), Comb(n, a), Pow2(n));
    }
  }

  lemma {:induction false} CountsFit(rows: seq<Position>)
    ensures AWorse(rows) + BWorse(rows) <= |rows|
  {
    if rows != [] { CountsFit(rows[1..]); }
  }

  // ----- which side is counted

  lemma {:induction false} WorseAreSums(rows: seq<Position>)
    ensures BWorse(rows) == Sum(rows, (r: Position) => if r.b > r.a + 1.0 then 1 else 0)
    ensures AWorse(rows) == Sum(rows, (r: Position) => if r.a > r.b + 1.0 then 1 else 0)
  {
    if rows != [] { WorseAreSums(rows[1..]); }
  }

  /** Side b is counted worse where its divergence exceeds side a's by more than one nat, and side a where
      its exceeds side b's. */
  lemma WorseSideIsLarger(rows: seq<Position>)
    ensures var r := LargeDisagreement(rows);
            && r.bWorse == |set i | 0 <= i < |rows| && rows[i].b > rows[i].a + 1.0|
            && r.aWorse == |set i | 0 <= i < |rows| && rows[i].a > rows[i].b + 1.0|
            && r.positions == r.aWorse + r.bWorse
  {
    WorseAreSums(rows);
    var b, a := (r: Position) => r.b > r.a + 1.0, (r: Position) => r.a > r.b + 1.0;
    SumCounts(rows, (r: Position) => if r.b > r.a + 1.0 then 1 else 0, b);
    SumCounts(rows, (r: Position) => if r.a > r.b + 1.0 then 1 else 0, a);
    assert Places(rows, b) == set i | 0 <= i < |rows| && rows[i].b > rows[i].a + 1.0;
    assert Places(rows, a) == set i | 0 <= i < |rows| && rows[i].a > rows[i].b + 1.0;
  }

  /** With side b worse by more than one nat at every row, all rows speak against side b. */
  lemma BWorseThroughout(rows: seq<Position>)
    requires rows != [] && forall i :: 0 <= i < |rows| ==> rows[i].b > rows[i].a + 1.0
    ensures var r := LargeDisagreement(rows);
            r.bWorse == r.positions == |rows| && r.aWorse == 0 && r.pBWorse < r.pAWorse == 1.0
  {
    BCounted(rows);
    var n := |rows|;
    ChancesOfSides(rows);
    TailIsProbability(0, n);
    Quotients(Pow2(n), Pow2(n), Pow2(n));
    hide AWorse, BWorse, Pow2;
    RowSum(n);
  }

  lemma {:induction false} BCounted(rows: seq<Position>)
    requires forall i :: 0 <= i < |rows| ==> rows[i].b > rows[i].a + 1.0
    ensures BWorse(rows) == |rows| && AWorse(rows) == 0
  {
    if rows != [] { BCounted(rows[1..]); }
  }
}
