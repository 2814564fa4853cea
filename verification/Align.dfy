/** Alignment arithmetic: the division form, the bit-mask form and the padding remainder. */
module Align {
  function RoundUp(x: nat, a: nat): (r: nat)
    requires a > 0
  {
    (x + a - 1) / a * a
  }

  /** The two facts that pin rounding up: it is the least multiple of `a` not below `x`. */
  lemma RoundUpIs(x: nat, a: nat)
    requires a > 0
    ensures x <= RoundUp(x, a) < x + a
    ensures RoundUp(x, a) % a == 0
  {
    var q := (x + a - 1) / a;
    assert x + a - 1 == q * a + (x + a - 1) % a;
    MultipleMod(q, a);
  }

  lemma {:induction false} MultipleMod(q: nat, a: nat)
    requires a > 0
    ensures q * a % a == 0
  {
    if q > 0 {
      MultipleMod(q - 1, a);
      assert q * a == (q - 1) * a + a;
      AddMod((q - 1) * a, a);
    }
  }

  lemma AddMod(x: nat, a: nat)
    requires a > 0
    ensures (x + a) % a == x % a
  {
    var q, r := x / a, x % a;
    assert x + a == (q + 1) * a + r by { assert (q + 1) * a == q * a + a; }
    DivModUnique(x + a, a, q + 1, r);
  }

  lemma Distribute(x: nat, y: nat, a: nat)
    ensures (x + y) * a == x * a + y * a
  {
  }

  lemma NonNegative(x: nat, a: nat)
    ensures x * a >= 0
  {
  }

  lemma StepApart(j: nat, k: nat, a: nat)
    ensures j < k ==> j * a + a <= k * a
  {
    if j < k {
      var d: nat := k - j - 1;
      Distribute(d, j + 1, a);
      Distribute(j, 1, a);
      NonNegative(d, a);
    }
  }

  lemma DivModUnique(x: nat, a: nat, q: nat, r: nat)
    requires a > 0 && r < a && x == q * a + r
    ensures x / a == q && x % a == r
  {
    StepApart(x / a, q, a);
    StepApart(q, x / a, a);
    assert x == x / a * a + x % a;
  }

  lemma LeastMultiple(x: nat, a: nat, m: nat)
    requires a > 0 && m % a == 0 && x <= m
    ensures RoundUp(x, a) <= m
    ensures m < x + a ==> m == RoundUp(x, a)
  {
    RoundUpIs(x, a);
    var r := RoundUp(x, a);
    var k, j := m / a, r / a;
    assert m == k * a && r == j * a;
    StepApart(k, j, a);
    StepApart(j, k, a);
  }

  lemma RoundUpMonotone(x: nat, y: nat, a: nat)
    requires a > 0 && x <= y
    ensures RoundUp(x, a) <= RoundUp(y, a)
  {
    RoundUpIs(y, a);
    LeastMultiple(x, a, RoundUp(y, a));
  }

  lemma MultipleFixed(m: nat, a: nat)
    requires a > 0 && m % a == 0
    ensures RoundUp(m, a) == m
  {
    LeastMultiple(m, a, m);
  }

  lemma SumOfMultiples(x: nat, y: nat, a: nat)
    requires a > 0 && x % a == 0 && y % a == 0
    ensures (x + y) % a == 0
  {
    var j, k := x / a, y / a;
    assert x + y == (j + k) * a by { assert (j + k) * a == j * a + k * a; }
    MultipleMod(j + k, a);
  }

  /** Rounding commutes with adding a multiple. */
  lemma RoundUpShift(m: nat, x: nat, a: nat)
    requires a > 0 && m % a == 0
    ensures RoundUp(m + x, a) == m + RoundUp(x, a)
  {
    RoundUpIs(x, a);
    SumOfMultiples(m, RoundUp(x, a), a);
    LeastMultiple(m + x, a, m + RoundUp(x, a));
  }

  /** `(-n) % a`, the number of padding bytes after `n` bytes. */
  function Pad(n: nat, a: nat): nat
    requires a > 0
  {
    (0 - n as int) % a
  }

  lemma PadIs(n: nat, a: nat)
    requires a > 0
    ensures n + Pad(n, a) == RoundUp(n, a)
  {
    var q := (0 - n as int) / a;
    assert 0 - n == q * a + Pad(n, a);
    assert n + Pad(n, a) == (0 - q) * a;
    assert 0 - q >= 0;
    MultipleMod(0 - q, a);
    LeastMultiple(n, a, n + Pad(n, a));
  }

  /** `x & ~m` on non-negative integers, bit by bit. */
  function AndNot(x: nat, m: nat): nat
  {
    if x == 0 then 0
    else (if x % 2 == 1 && m % 2 == 0 then 1 else 0) + 2 * AndNot(x / 2, m / 2)
  }

  /** `(x + a - 1) & ~(a - 1)`, the scripts' usual way to round up. */
  function MaskUp(x: nat, a: nat): nat
    requires a > 0
  {
    AndNot(x + a - 1, a - 1)
  }

  predicate IsPowerOfTwo(a: nat)
  {
    a == 1 || (a > 1 && a % 2 == 0 && IsPowerOfTwo(a / 2))
  }

  lemma HalfDiv(x: nat, c: nat)
    requires c > 0
    ensures x / (2 * c) == x / 2 / c
  {
    var q, r := x / 2 / c, x / 2 % c;
    assert x / 2 == q * c + r;
    assert x == q * (2 * c) + (2 * r + x % 2) by { assert q * (2 * c) == 2 * (q * c); }
    DivModUnique(x, 2 * c, q, 2 * r + x % 2);
  }

  lemma {:induction false} AndNotDrops(x: nat, a: nat)
    requires IsPowerOfTwo(a)
    ensures AndNot(x, a - 1) == x / a * a
    decreases x
  {
    if x == 0 {
      DivModUnique(0, a, 0, 0);
    } else if a == 1 {
      AndNotDrops(x / 2, 1);
    } else {
      var c := a / 2;
      AndNotDrops(x / 2, c);
      assert (a - 1) / 2 == c - 1 && (a - 1) % 2 == 1;
      HalfDiv(x, c);
      var q := x / 2 / c;
      assert 2 * (q * c) == q * (2 * c);
    }
  }

  /** The mask rounds up for every power of two. */
  lemma MaskUpRounds(x: nat, a: nat)
    requires IsPowerOfTwo(a)
    ensures MaskUp(x, a) == RoundUp(x, a)
  {
    AndNotDrops(x + a - 1, a);
  }

  /** The alignment of a file that declares none. */
  lemma DefaultIsPowerOfTwo()
    ensures IsPowerOfTwo(32)
  {
    assert IsPowerOfTwo(2) && IsPowerOfTwo(8);
  }
}
