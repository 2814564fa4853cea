/** Sums over sequences, and what a rearrangement leaves alone. */
module Sums {
  function Abs(x: real): real { if x < 0.0 then -x else x }

  function Sum<T>(s: seq<T>, f: T -> int): int
  {
    if s == [] then 0 else f(s[0]) + Sum(s[1..], f)
  }

  function Map<T, U>(s: seq<T>, f: T -> U): (r: seq<U>)
    ensures |r| == |s| && forall i :: 0 <= i < |r| ==> r[i] == f(s[i])
  {
    seq(|s|, i requires 0 <= i < |s| => f(s[i]))
  }

  lemma {:induction false} SumConcat<T>(x: seq<T>, y: seq<T>, f: T -> int)
    ensures Sum(x + y, f) == Sum(x, f) + Sum(y, f)
  {
    if x == [] {
      assert x + y == y;
    } else {
      assert (x + y)[1..] == x[1..] + y;
      SumConcat(x[1..], y, f);
    }
  }

  /** Taking element `k` out. */
  function Drop<T>(s: seq<T>, k: nat): seq<T>
    requires k < |s|
  {
    s[..k] + s[k + 1..]
  }

  lemma DropIs<T>(s: seq<T>, k: nat, f: T -> int)
    requires k < |s|
    ensures multiset(s) == multiset(Drop(s, k)) + multiset{s[k]}
    ensures Sum(s, f) == f(s[k]) + Sum(Drop(s, k), f)
  {
    hide Sum;
    var x, y := s[..k], s[k + 1..];
    assert s == x + ([s[k]] + y);
    SumOfParts(x, s[k], y, f);
    OneOut(x, s[k], y);
  }

  lemma OneOut<T>(x: seq<T>, e: T, y: seq<T>)
    ensures multiset(x + ([e] + y)) == multiset(x + y) + multiset{e}
  {
  }

  lemma SumOfParts<T>(x: seq<T>, e: T, y: seq<T>, f: T -> int)
    ensures Sum(x + ([e] + y), f) == f(e) + Sum(x + y, f)
  {
    SumConcat(x, [e] + y, f);
    SumFirst(e, y, f);
    SumConcat(x, y, f);
  }

  lemma SameLength<T>(x: seq<T>, y: seq<T>)
    requires multiset(x) == multiset(y)
    ensures |x| == |y|
  {
    assert |multiset(x)| == |x| && |multiset(y)| == |y|;
  }

  /** Where the first element of `x` stands in a rearrangement `y`. */
  lemma Partner<T>(x: seq<T>, y: seq<T>) returns (k: nat)
    requires x != [] && multiset(x) == multiset(y)
    ensures k < |y| && y[k] == x[0] && multiset(x[1..]) == multiset(Drop(y, k))
  {
    assert x[0] in multiset(y);
    k :| 0 <= k < |y| && y[k] == x[0];
    assert x == [x[0]] + x[1..];
    assert multiset(x[1..]) == multiset(x) - multiset{x[0]};
    DropIs(y, k, _ => 0);
    assert multiset(Drop(y, k)) == multiset(y) - multiset{y[k]};
  }

  lemma {:induction false} SumPermutation<T>(x: seq<T>, y: seq<T>, f: T -> int)
    requires multiset(x) == multiset(y)
    ensures Sum(x, f) == Sum(y, f)
    decreases |x|
  {
    SameLength(x, y);
    if x != [] {
      var k := Partner(x, y);
      DropIs(y, k, f);
      SumPermutation(x[1..], Drop(y, k), f);
    }
  }

  lemma {:induction false} MapPermutation<T, U>(x: seq<T>, y: seq<T>, f: T -> U)
    requires multiset(x) == multiset(y)
    ensures multiset(Map(x, f)) == multiset(Map(y, f))
    decreases |x|
  {
    SameLength(x, y);
    if x != [] {
      var k := Partner(x, y);
      MapPermutation(x[1..], Drop(y, k), f);
      assert Map(x, f) == [f(x[0])] + Map(x[1..], f);
      DropIs(Map(y, f), k, _ => 0);
      assert Drop(Map(y, f), k) == Map(Drop(y, k), f);
    }
  }

  lemma {:induction false} SumConstant<T>(s: seq<T>, f: T -> int, c: int)
    requires forall i :: 0 <= i < |s| ==> f(s[i]) == c
    ensures Sum(s, f) == c * |s|
  {
    if s != [] {
      SumConstant(s[1..], f, c);
      assert c * |s| == c + c * |s[1..]|;
    }
  }

  /** A sum that only the first `m` elements add to. */
  lemma SumPrefix<T>(s: seq<T>, f: T -> int, g: T -> int, m: nat)
    requires m <= |s|
    requires forall k :: 0 <= k < m ==> f(s[k]) == g(s[k])
    requires forall k :: m <= k < |s| ==> f(s[k]) == 0
    ensures Sum(s, f) == Sum(s[..m], g)
  {
    SumConcat(s[..m], s[m..], f);
    assert s == s[..m] + s[m..];
    SumEqual(s[..m], f, g);
    SumConstant(s[m..], f, 0);
  }

  lemma {:induction false} SumEqual<T>(s: seq<T>, f: T -> int, g: T -> int)
    requires forall i :: 0 <= i < |s| ==> f(s[i]) == g(s[i])
    ensures Sum(s, f) == Sum(s, g)
  {
    if s != [] { SumEqual(s[1..], f, g); }
  }

  /** The places at which a property holds. */
  function Places<T>(s: seq<T>, p: T -> bool): set<int> { set i | 0 <= i < |s| && p(s[i]) }

  lemma NoPlaces<T>(p: T -> bool)
    ensures Places([], p) == {}
  {
  }

  lemma PlacesNext<T>(s: seq<T>, x: T, p: T -> bool)
    ensures Places(s + [x], p) == Places(s, p) + if p(x) then {|s|} else {}
  {
    assert (s + [x])[|s|] == x && forall i :: 0 <= i < |s| ==> (s + [x])[i] == s[i];
  }

  /** A sum of ones and zeros counts places. */
  lemma {:induction false} SumCounts<T>(s: seq<T>, f: T -> int, p: T -> bool)
    requires forall i :: 0 <= i < |s| ==> f(s[i]) == if p(s[i]) then 1 else 0
    ensures Sum(s, f) == |Places(s, p)|
    decreases |s|
  {
    if s == [] {
      NoPlaces(p);
    } else {
      var n := |s| - 1;
      SumCounts(s[..n], f, p);
      SumNext(s, n, f);
      assert s[..n + 1] == s == s[..n] + [s[n]];
      PlacesNext(s[..n], s[n], p);
    }
  }

  lemma SumNone<T>(f: T -> int)
    ensures Sum([], f) == 0
  {
  }

  lemma SumFirst<T>(a: T, x: seq<T>, f: T -> int)
    ensures Sum([a] + x, f) == f(a) + Sum(x, f) && Sum([a], f) == f(a)
  {
    assert ([a] + x)[1..] == x && [a][1..] == [];
  }

  lemma SumNext<T>(s: seq<T>, i: nat, f: T -> int)
    requires i < |s|
    ensures Sum(s[..i + 1], f) == Sum(s[..i], f) + f(s[i])
  {
    assert s[..i + 1] == s[..i] + [s[i]];
    SumConcat(s[..i], [s[i]], f);
  }
}
