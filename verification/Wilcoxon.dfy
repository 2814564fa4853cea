/** scripts/gold-logits.py, `wilcoxon_signed_rank`: tie-averaged ranks and the signed-rank sum, over the
    rationals. */
module Wilcoxon {
  import opened Wrappers
  import opened Sorting
  import opened Sums

  // ----- ranks

  function IsBelow(x: real): real -> int { t => if Abs(t) < x then 1 else 0 }

  function IsUpTo(x: real): real -> int { t => if Abs(t) <= x then 1 else 0 }

  /** How many values are smaller than `x` in magnitude. */
  function Below(d: seq<real>, x: real): int { Sum(d, IsBelow(x)) }

  /** How many are not larger. */
  function UpTo(d: seq<real>, x: real): int { Sum(d, IsUpTo(x)) }

  /** Twice the rank of a value among `d`: the mean of the places its ties share, counted from one. */
  function TwiceRank(d: seq<real>, t: real): int { Below(d, Abs(t)) + UpTo(d, Abs(t)) + 1 }

  function Rank(d: seq<real>, t: real): real { TwiceRank(d, t) as real / 2.0 }

  // ----- the loops

  function Range(n: nat): (r: seq<nat>)
    ensures |r| == n && forall i :: 0 <= i < n ==> r[i] == i
  {
    seq(n, i requires 0 <= i < n => i)
  }

  function At(d: seq<real>): nat -> real { (i: nat) => if i < |d| then d[i] else 0.0 }

  function Magnitude(d: seq<real>): nat -> real { (i: nat) => Abs(At(d)(i)) }

  /** The indices of `d`, each once, by magnitude, ties in any order. */
  predicate IsOrder(d: seq<real>, order: seq<nat>)
  {
    multiset(order) == multiset(Range(|d|)) && SortedBy(order, Magnitude(d))
  }

  lemma OrderHas(d: seq<real>, order: seq<nat>)
    requires IsOrder(d, order)
    ensures |order| == |d|
    ensures forall k :: 0 <= k < |order| ==> order[k] < |d|
    ensures forall i :: 0 <= i < |d| ==> i in order
  {
    SameLength(order, Range(|d|));
    forall k | 0 <= k < |order| ensures order[k] < |d| {
      assert order[k] in multiset(order);
      assert order[k] in multiset(Range(|d|));
    }
    forall i: nat | i < |d| ensures i in order {
      assert Range(|d|)[i] == i;
      assert i in multiset(Range(|d|));
      assert i in multiset(order);
    }
  }

  lemma SumOrdered(d: seq<real>, order: seq<nat>, f: real -> int)
    requires IsOrder(d, order)
    ensures Sum(Map(order, At(d)), f) == Sum(d, f)
  {
    MapPermutation(order, Range(|d|), At(d));
    assert Map(Range(|d|), At(d)) == d;
    SumPermutation(Map(order, At(d)), d, f);
  }

  /** The rank of a group of ties that stands at places `i` to `j`. */
  lemma GroupRank(d: seq<real>, order: seq<nat>, i: nat, j: nat)
    requires IsOrder(d, order) && i <= j < |order|
    requires forall k :: i <= k <= j ==> Magnitude(d)(order[k]) == Magnitude(d)(order[i])
    requires i > 0 ==> Magnitude(d)(order[i - 1]) < Magnitude(d)(order[i])
    requires j + 1 < |order| ==> Magnitude(d)(order[j + 1]) != Magnitude(d)(order[i])
    ensures forall k :: i <= k <= j ==> Rank(d, At(d)(order[k])) == (i + j) as real / 2.0 + 1.0
  {
    var x := Magnitude(d)(order[i]);
    FirstCount(d, order, IsBelow(x), i) by {
      forall k | 0 <= k < |order| ensures Magnitude(d)(order[k]) < x <==> k < i { Placed(d, order, i, k); }
    }
    FirstCount(d, order, IsUpTo(x), j + 1) by {
      forall k | 0 <= k < |order| ensures Magnitude(d)(order[k]) <= x <==> k <= j { Placed(d, order, j, k); }
    }
    hide Sum, At;
  }

  lemma Placed(d: seq<real>, order: seq<nat>, i: nat, k: nat)
    requires IsOrder(d, order) && i < |order| && k < |order|
    ensures k <= i ==> Magnitude(d)(order[k]) <= Magnitude(d)(order[i])
    ensures i < k ==> Magnitude(d)(order[i + 1]) <= Magnitude(d)(order[k])
    ensures k < i ==> Magnitude(d)(order[k]) <= Magnitude(d)(order[i - 1])
    ensures i <= k ==> Magnitude(d)(order[i]) <= Magnitude(d)(order[k])
  {
  }

  /** Counting values that come first in an order. */
  lemma FirstCount(d: seq<real>, order: seq<nat>, f: real -> int, m: nat)
    requires IsOrder(d, order) && m <= |order|
    requires forall k :: 0 <= k < |order| ==> f(At(d)(order[k])) == if k < m then 1 else 0
    ensures Sum(d, f) == m
  {
    var p := Map(order, At(d));
    SumPrefix(p, f, _ => 1, m);
    SumConstant(p[..m], _ => 1, 1);
    SumOrdered(d, order, f);
  }

  /** The ranks of one group of ties, which stands at places `i` to `j`. */
  method Share(d: seq<real>, order: seq<nat>, ranks: array<real>, i: nat, j: nat)
    requires i <= j < |order| && ranks.Length == |d| && forall k :: 0 <= k < |order| ==> order[k] < |d|
    requires forall k :: i <= k <= j ==> Rank(d, d[order[k]]) == (i + j) as real / 2.0 + 1.0
    requires forall k :: 0 <= k < i ==> ranks[order[k]] == Rank(d, d[order[k]])
    modifies ranks
    ensures forall k :: 0 <= k < j + 1 ==> ranks[order[k]] == Rank(d, d[order[k]])
  {
    hide Rank;
    var r := (i + j) as real / 2.0 + 1.0;
    for k := i to j + 1
      invariant forall m :: 0 <= m < k ==> ranks[order[m]] == Rank(d, d[order[m]])
    {
      ranks[order[k]] := r;
    }
  }

  /** Whatever order the ties are left in, every index gets the rank of its value. */
  method Ranks(d: seq<real>, order: seq<nat>) returns (ranks: array<real>)
    requires IsOrder(d, order)
    ensures fresh(ranks) && ranks.Length == |d|
    ensures forall i :: 0 <= i < |d| ==> ranks[i] == Rank(d, d[i])
  {
    OrderHas(d, order);
    hide Rank, IsOrder;
    var n := |d|;
    ranks := new real[n](_ => 0.0);
    var key := Magnitude(d);
    var i := 0;
    while i < n
      invariant i <= n
      invariant i > 0 && i < n ==> key(order[i - 1]) < key(order[i])
      invariant forall k :: 0 <= k < i ==> ranks[order[k]] == Rank(d, d[order[k]])
    {
      var j := i;
      while j + 1 < n && key(order[j + 1]) == key(order[i])
        invariant i <= j < n
        invariant forall k :: i <= k <= j ==> key(order[k]) == key(order[i])
      {
        j := j + 1;
      }
      GroupRank(d, order, i, j);
      Share(d, order, ranks, i, j);
      assert j + 1 < n ==> key(order[j]) < key(order[j + 1]) by { Next(d, order, j); }
      i := j + 1;
    }
    forall q | 0 <= q < n ensures ranks[q] == Rank(d, d[q]) {
      assert q in order;
      var k :| 0 <= k < |order| && order[k] == q;
    }
  }

  lemma Next(d: seq<real>, order: seq<nat>, j: nat)
    requires IsOrder(d, order)
    ensures j + 1 < |order| ==> Magnitude(d)(order[j]) <= Magnitude(d)(order[j + 1])
  {
  }

  // ----- the statistic

  function TwicePositive(d: seq<real>): real -> int { t => if t > 0.0 then TwiceRank(d, t) else 0 }

  function TwiceAll(d: seq<real>): real -> int { t => TwiceRank(d, t) }

  /** The sum of the ranks of the positive differences. */
  function SignedRankSum(d: seq<real>): real { Sum(d, TwicePositive(d)) as real / 2.0 }

  function Kept(t: real): seq<real> { if t != 0.0 then [t] else [] }

  function Nonzero(diffs: seq<real>): seq<real>
  {
    if diffs == [] then [] else Kept(diffs[0]) + Nonzero(diffs[1..])
  }

  /** The statistic, its mean when the signs are fair, and the number of differences it is made of. */
  datatype Statistic = Statistic(w: real, mu: real, n: nat)

  function SignedRank(diffs: seq<real>): Option<Statistic>
  {
    var d := Nonzero(diffs);
    if |d| < 5 then None else Some(Statistic(SignedRankSum(d), (|d| * (|d| + 1)) as real / 4.0, |d|))
  }

  method PositiveSum(d: seq<real>, ranks: array<real>) returns (w: real)
    requires ranks.Length == |d| && forall i :: 0 <= i < |d| ==> ranks[i] == Rank(d, d[i])
    ensures w == SignedRankSum(d)
  {
    hide Sum, TwiceRank;
    w := 0.0;
    ghost var f := TwicePositive(d);
    SumNone(f);
    for i := 0 to |d|
      invariant w == Sum(d[..i], f) as real / 2.0
    {
      SumNext(d, i, f);
      assert f(d[i]) == if d[i] > 0.0 then TwiceRank(d, d[i]) else 0;
      if d[i] > 0.0 { w := w + ranks[i]; }
    }
    assert d[..|d|] == d;
  }

  method WilcoxonSignedRank(diffs: seq<real>) returns (r: Option<Statistic>)
    ensures r == SignedRank(diffs)
  {
    hide Nonzero, SignedRankSum, Rank, SortBy;
    var d := Nonzero(diffs);
    var n := |d|;
    if n < 5 { return None; }
    var order := SortBy(Range(n), Magnitude(d));
    SortIsSorted(Range(n), Magnitude(d));
    var ranks := Ranks(d, order);
    var w := PositiveSum(d, ranks);
    r := Some(Statistic(w, (n * (n + 1)) as real / 4.0, n));
  }

  // ----- what it promises

  /** Below and up-to counts of `y`'s values, over all of `x`. */
  function Pairs(y: seq<real>): real -> int { t => Below(y, Abs(t)) + UpTo(y, Abs(t)) }

  /** Of two values, one is counted by the other's rank twice, or each by the other's once. */
  lemma {:induction false} PairsWithOne(a: real, y: seq<real>)
    ensures Below(y, Abs(a)) + UpTo(y, Abs(a)) + Sum(y, Pairs([a])) == 2 * |y|
  {
    if y != [] {
      PairsWithOne(a, y[1..]);
      var t := y[0];
      SumFirst(a, [], IsBelow(Abs(t)));
      SumFirst(a, [], IsUpTo(Abs(t)));
      assert IsBelow(Abs(a))(t) + IsUpTo(Abs(a))(t) + Pairs([a])(t) == 2;
    }
  }

  lemma {:induction false} PairsSplit(y: seq<real>, a: real, x: seq<real>)
    ensures Sum(y, Pairs([a] + x)) == Sum(y, Pairs([a])) + Sum(y, Pairs(x))
  {
    if y != [] {
      PairsSplit(y[1..], a, x);
      var t := y[0];
      SumFirst(a, x, IsBelow(Abs(t)));
      SumFirst(a, x, IsUpTo(Abs(t)));
      assert Pairs([a] + x)(t) == Pairs([a])(t) + Pairs(x)(t);
    }
  }

  lemma {:induction false} PairsBothWays(x: seq<real>, y: seq<real>)
    ensures Sum(x, Pairs(y)) + Sum(y, Pairs(x)) == 2 * |x| * |y|
  {
    if x == [] {
      assert forall t: real :: Pairs(x)(t) == 0;
      SumConstant(y, Pairs(x), 0);
    } else {
      PairsBothWays(x[1..], y);
      assert x == [x[0]] + x[1..];
      PairsSplit(y, x[0], x[1..]);
      PairsWithOne(x[0], y);
      assert 2 * |x| * |y| == 2 * |x[1..]| * |y| + 2 * |y|;
    }
  }

  lemma {:induction false} OneMore(s: seq<real>, d: seq<real>)
    ensures Sum(s, TwiceAll(d)) == Sum(s, Pairs(d)) + |s|
  {
    if s != [] { OneMore(s[1..], d); }
  }

  /** The ranks of `n` values sum to n(n + 1) / 2, whatever their ties. */
  lemma RanksSum(d: seq<real>)
    ensures Sum(d, TwiceAll(d)) == |d| * (|d| + 1)
  {
    OneMore(d, d);
    PairsBothWays(d, d);
  }

  function Negated(d: seq<real>): (r: seq<real>)
    ensures |r| == |d| && forall i :: 0 <= i < |r| ==> r[i] == -d[i]
  {
    seq(|d|, i requires 0 <= i < |d| => -d[i])
  }

  lemma {:induction false} MagnitudesStay(d: seq<real>, f: real -> int)
    requires forall t :: f(-t) == f(t)
    ensures Sum(Negated(d), f) == Sum(d, f)
  {
    if d != [] {
      assert Negated(d)[1..] == Negated(d[1..]);
      MagnitudesStay(d[1..], f);
    }
  }

  lemma RankOfNegated(d: seq<real>, t: real)
    ensures TwiceRank(Negated(d), -t) == TwiceRank(d, t)
  {
    MagnitudesStay(d, IsBelow(Abs(t)));
    MagnitudesStay(d, IsUpTo(Abs(t)));
  }

  /** A nonzero value is positive in the differences or in their negations. */
  lemma {:induction false} PositiveOnOneSide(s: seq<real>, d: seq<real>)
    requires forall i :: 0 <= i < |s| ==> s[i] != 0.0
    ensures Sum(s, TwicePositive(d)) + Sum(Negated(s), TwicePositive(Negated(d))) == Sum(s, TwiceAll(d))
  {
    hide TwiceRank;
    if s != [] {
      assert Negated(s)[1..] == Negated(s[1..]);
      PositiveOnOneSide(s[1..], d);
      RankOfNegated(d, s[0]);
    }
  }

  lemma NegatedConcat(x: seq<real>, y: seq<real>)
    ensures Negated(x + y) == Negated(x) + Negated(y)
  {
  }

  lemma {:induction false} NonzeroNegated(diffs: seq<real>)
    ensures Nonzero(Negated(diffs)) == Negated(Nonzero(diffs))
  {
    if diffs != [] {
      var rest := diffs[1..];
      NonzeroNegated(rest);
      NegatedConcat(Kept(diffs[0]), Nonzero(rest));
      assert Negated(diffs)[1..] == Negated(rest);
      assert Kept(-diffs[0]) == Negated(Kept(diffs[0]));
    }
  }

  lemma {:induction false} NonzeroIs(diffs: seq<real>)
    ensures forall i :: 0 <= i < |Nonzero(diffs)| ==> Nonzero(diffs)[i] != 0.0
  {
    if diffs != [] { NonzeroIs(diffs[1..]); }
  }

  /** Negating all differences, which swaps the sides, negates the statistic's distance from its mean. */
  lemma NegatingNegates(diffs: seq<real>)
    ensures var r, s := SignedRank(diffs), SignedRank(Negated(diffs));
            && (r.None? <==> s.None?)
            && (r.Some? ==> s.value.w - s.value.mu == -(r.value.w - r.value.mu) && s.value.n == r.value.n)
  {
    hide Sum;
    NonzeroNegated(diffs);
    NonzeroIs(diffs);
    var d := Nonzero(diffs);
    PositiveOnOneSide(d, d);
    RanksSum(d);
  }

  /** The statistic does not depend on the order of the differences. */
  lemma OrderFree(x: seq<real>, y: seq<real>)
    requires multiset(x) == multiset(y)
    ensures SignedRank(x) == SignedRank(y)
  {
    hide Nonzero, Sum;
    NonzeroPermutation(x, y);
    var a, b := Nonzero(x), Nonzero(y);
    SameLength(a, b);
    forall t ensures TwicePositive(a)(t) == TwicePositive(b)(t) {
      SumPermutation(a, b, IsBelow(Abs(t)));
      SumPermutation(a, b, IsUpTo(Abs(t)));
    }
    SumPermutation(a, b, TwicePositive(a));
    SumEqual(b, TwicePositive(a), TwicePositive(b));
  }

  lemma {:induction false} NonzeroCounts(s: seq<real>, t: real)
    ensures multiset(Nonzero(s))[t] == if t == 0.0 then 0 else multiset(s)[t]
  {
    if s != [] {
      NonzeroCounts(s[1..], t);
      assert s == [s[0]] + s[1..];
    }
  }

  lemma NonzeroPermutation(x: seq<real>, y: seq<real>)
    requires multiset(x) == multiset(y)
    ensures multiset(Nonzero(x)) == multiset(Nonzero(y))
  {
    forall t ensures multiset(Nonzero(x))[t] == multiset(Nonzero(y))[t] {
      NonzeroCounts(x, t);
      NonzeroCounts(y, t);
    }
  }

  // ----- which way it points

  lemma {:induction false} NonzeroConcat(x: seq<real>, y: seq<real>)
    ensures Nonzero(x + y) == Nonzero(x) + Nonzero(y)
  {
    if x == [] {
      assert x + y == y;
    } else {
      assert (x + y)[1..] == x[1..] + y;
      NonzeroConcat(x[1..], y);
    }
  }

  lemma NonzeroAround(x: seq<real>, a: real, y: seq<real>)
    ensures Nonzero(x + ([a] + y)) == if a == 0.0 then Nonzero(x) + Nonzero(y) else Nonzero(x) + ([a] + Nonzero(y))
  {
    hide Nonzero;
    NonzeroConcat(x, [a] + y);
    NonzeroConcat([a], y);
    NonzeroOne(a);
    assert [] + Nonzero(y) == Nonzero(y);
  }

  lemma NonzeroOne(a: real)
    ensures Nonzero([a]) == if a == 0.0 then [] else [a]
  {
    assert [a][1..] == [];
  }

  /** A difference of zero changes nothing. */
  lemma ZerosDropOut(x: seq<real>, y: seq<real>)
    ensures SignedRank(x + ([0.0] + y)) == SignedRank(x + y)
  {
    NonzeroAround(x, 0.0, y);
    NonzeroConcat(x, y);
  }

  lemma {:induction false} SameCounts(x: seq<real>, a: real, y: seq<real>, f: real -> int)
    requires f(-a) == f(a)
    ensures Sum(x + ([-a] + y), f) == Sum(x + ([a] + y), f)
  {
    SumOfParts(x, a, y, f);
    SumOfParts(x, -a, y, f);
  }

  /** Turning one negative difference positive raises the statistic by exactly its rank, and leaves its
      mean and its count. */
  lemma FlippingRaises(x: seq<real>, a: real, y: seq<real>)
    requires a < 0.0 && SignedRank(x + ([a] + y)).Some?
    ensures var d := Nonzero(x + ([a] + y));
            var r, s := SignedRank(x + ([a] + y)), SignedRank(x + ([-a] + y));
            s == Some(Statistic(r.value.w + Rank(d, a), r.value.mu, r.value.n))
  {
    hide Sum, Nonzero;
    NonzeroAround(x, a, y);
    NonzeroAround(x, -a, y);
    var u, v := Nonzero(x), Nonzero(y);
    var d, e := u + ([a] + v), u + ([-a] + v);
    forall t ensures TwiceRank(e, t) == TwiceRank(d, t) {
      SameCounts(u, a, v, IsBelow(Abs(t)));
      SameCounts(u, a, v, IsUpTo(Abs(t)));
    }
    SumEqual(e, TwicePositive(e), TwicePositive(d));
    SumOfParts(u, a, v, TwicePositive(d));
    SumOfParts(u, -a, v, TwicePositive(d));
    FlippedRank(d, a);
  }

  lemma FlippedRank(d: seq<real>, a: real)
    requires a < 0.0
    ensures TwicePositive(d)(a) == 0 && TwicePositive(d)(-a) == TwiceRank(d, a)
  {
    hide Below, UpTo;
  }

  lemma {:induction false} NoneNegative(diffs: seq<real>)
    requires forall i :: 0 <= i < |diffs| ==> diffs[i] >= 0.0
    ensures forall i :: 0 <= i < |Nonzero(diffs)| ==> Nonzero(diffs)[i] > 0.0
  {
    if diffs != [] { NoneNegative(diffs[1..]); }
  }

  lemma {:induction false} NonePositive(diffs: seq<real>)
    requires forall i :: 0 <= i < |diffs| ==> diffs[i] <= 0.0
    ensures forall i :: 0 <= i < |Nonzero(diffs)| ==> Nonzero(diffs)[i] < 0.0
  {
    if diffs != [] { NonePositive(diffs[1..]); }
  }

  lemma {:induction false} NothingPositive(s: seq<real>, d: seq<real>)
    requires forall i :: 0 <= i < |s| ==> s[i] < 0.0
    ensures Sum(s, TwicePositive(d)) == 0
  {
    if s != [] { NothingPositive(s[1..], d); }
  }

  lemma {:induction false} EverythingPositive(s: seq<real>, d: seq<real>)
    requires forall i :: 0 <= i < |s| ==> s[i] > 0.0
    ensures Sum(s, TwicePositive(d)) == Sum(s, TwiceAll(d))
  {
    if s != [] { EverythingPositive(s[1..], d); }
  }

  /** The statistic is the sum of all ranks when no difference is negative, so that side a is the closer
      one, and nothing when none is positive. */
  lemma OneSidedExtremes(diffs: seq<real>)
    requires SignedRank(diffs).Some?
    ensures var r := SignedRank(diffs).value;
            && ((forall i :: 0 <= i < |diffs| ==> diffs[i] >= 0.0) ==> r.w == (r.n * (r.n + 1)) as real / 2.0)
            && ((forall i :: 0 <= i < |diffs| ==> diffs[i] <= 0.0) ==> r.w == 0.0)
            && ((forall i :: 0 <= i < |diffs| ==> diffs[i] != 0.0) ==> r.n == |diffs|)
            && r.mu == (r.n * (r.n + 1)) as real / 4.0
  {
    hide Sum, Nonzero, TwicePositive, TwiceAll;
    var d := Nonzero(diffs);
    RanksSum(d);
    if forall i :: 0 <= i < |diffs| ==> diffs[i] >= 0.0 {
      NoneNegative(diffs);
      EverythingPositive(d, d);
    }
    if forall i :: 0 <= i < |diffs| ==> diffs[i] <= 0.0 {
      NonePositive(diffs);
      NothingPositive(d, d);
    }
    if forall i :: 0 <= i < |diffs| ==> diffs[i] != 0.0 { NonzeroKeeps(diffs); }
  }

  lemma {:induction false} NonzeroKeeps(diffs: seq<real>)
    requires forall i :: 0 <= i < |diffs| ==> diffs[i] != 0.0
    ensures Nonzero(diffs) == diffs
  {
    if diffs != [] { NonzeroKeeps(diffs[1..]); }
  }

  lemma {:induction false} NonzeroCounted(diffs: seq<real>)
    ensures |Nonzero(diffs)| == Sum(diffs, (t: real) => if t != 0.0 then 1 else 0)
  {
    if diffs != [] { NonzeroCounted(diffs[1..]); }
  }

  /** There is a statistic exactly when at least five differences are not zero. */
  lemma FiveAreEnough(diffs: seq<real>)
    ensures SignedRank(diffs).Some? <==> |set i | 0 <= i < |diffs| && diffs[i] != 0.0| >= 5
  {
    NonzeroCounted(diffs);
    SumCounts(diffs, (t: real) => if t != 0.0 then 1 else 0, (t: real) => t != 0.0);
    assert Places(diffs, (t: real) => t != 0.0) == set i | 0 <= i < |diffs| && diffs[i] != 0.0;
  }
}
