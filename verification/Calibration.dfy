/** scripts/cl-calibration.py: `certificate`, the tie-grouped threshold scan, and `summarize`, the
    reliability bins, over the rationals. */
module Calibration {
  import opened Wrappers
  import opened Sorting
  import opened Sums

  datatype Decision = Decision(conf: real, hit: bool, brier: real)

  function Hit(): Decision -> int { (d: Decision) => if d.hit then 1 else 0 }

  // ----- the certificate

  function IsAbove(t: real): Decision -> int { (d: Decision) => if d.conf >= t then 1 else 0 }

  function IsRightAbove(t: real): Decision -> int { (d: Decision) => if d.conf >= t && d.hit then 1 else 0 }

  /** How many decisions stand at or above a confidence. */
  function Above(ds: seq<Decision>, t: real): int { Sum(ds, IsAbove(t)) }

  /** How many of them are right. */
  function RightAbove(ds: seq<Decision>, t: real): int { Sum(ds, IsRightAbove(t)) }

  predicate Observed(ds: seq<Decision>, t: real) { exists i :: 0 <= i < |ds| && ds[i].conf == t }

  lemma {:induction false} AboveCounts(ds: seq<Decision>, t: real)
    ensures 0 <= RightAbove(ds, t) <= Above(ds, t) <= |ds|
    ensures Observed(ds, t) ==> Above(ds, t) > 0
  {
    if ds != [] {
      AboveCounts(ds[1..], t);
      if i :| 0 <= i < |ds| && ds[i].conf == t {
        if i > 0 { assert ds[1..][i - 1].conf == t; }
      }
    }
  }

  /** The slice at or above an observed confidence meets the target. */
  predicate Meets(ds: seq<Decision>, t: real, target: real)
    requires Observed(ds, t)
  {
    AboveCounts(ds, t);
    RightAbove(ds, t) as real / Above(ds, t) as real >= target
  }

  /** Every top slice down to `t` meets the target. */
  ghost predicate Good(ds: seq<Decision>, t: real, target: real)
  {
    Observed(ds, t) && forall c :: c >= t && Observed(ds, c) ==> Meets(ds, c, target)
  }

  /** The report; without a threshold even the most confident decisions miss the target. */
  datatype Certificate =
    | Missed(n: nat)
    | Certified(threshold: real, covered: nat, coverage: real, accuracy: real, n: nat)

  /** What the report means. */
  ghost predicate IsCertificate(ds: seq<Decision>, target: real, r: Certificate)
  {
    && r.n == |ds|
    && match r
       case Missed(_) => forall t :: !Good(ds, t, target)
       case Certified(t, covered, coverage, accuracy, n) =>
         && Good(ds, t, target) && (forall c :: c < t ==> !Good(ds, c, target))
         && covered == Above(ds, t) && covered > 0 && n > 0
         && coverage == covered as real / n as real
         && accuracy == RightAbove(ds, t) as real / covered as real
  }

  function Falling(): Decision -> real { (d: Decision) => -d.conf }

  predicate IsRanking(ds: seq<Decision>, order: seq<Decision>)
  {
    multiset(order) == multiset(ds) && SortedBy(order, Falling())
  }

  lemma Descends(ds: seq<Decision>, order: seq<Decision>)
    requires IsRanking(ds, order)
    ensures |order| == |ds| && forall i, k :: 0 <= i <= k < |order| ==> order[k].conf <= order[i].conf
  {
    SameLength(order, ds);
    forall i, k | 0 <= i < k < |order| ensures order[k].conf <= order[i].conf {
      assert Falling()(order[i]) <= Falling()(order[k]);
    }
  }

  lemma ObservedAlike(x: seq<Decision>, y: seq<Decision>, t: real)
    requires multiset(x) == multiset(y)
    ensures Observed(x, t) ==> Observed(y, t)
  {
    if i :| 0 <= i < |x| && x[i].conf == t {
      assert x[i] in multiset(x);
      assert x[i] in multiset(y);
      var k :| 0 <= k < |y| && y[k] == x[i];
    }
  }

  lemma Alike(x: seq<Decision>, y: seq<Decision>, t: real)
    requires multiset(x) == multiset(y)
    ensures Above(x, t) == Above(y, t) && RightAbove(x, t) == RightAbove(y, t) && (Observed(x, t) <==> Observed(y, t))
  {
    SumPermutation(x, y, IsAbove(t));
    SumPermutation(x, y, IsRightAbove(t));
    ObservedAlike(x, y, t);
    ObservedAlike(y, x, t);
  }

  /** A group of equal confidences at places `i` to `j` of a ranking: the slice above it is the first `j`. */
  lemma GroupSlice(ds: seq<Decision>, order: seq<Decision>, i: nat, j: nat)
    requires IsRanking(ds, order) && i < j <= |order|
    requires forall k :: i <= k < j ==> order[k].conf == order[i].conf
    requires j < |order| ==> order[j].conf != order[i].conf
    ensures Observed(ds, order[i].conf)
    ensures Above(ds, order[i].conf) == j && RightAbove(ds, order[i].conf) == Sum(order[..j], Hit())
  {
    var t := order[i].conf;
    Alike(order, ds, t);
    assert forall k :: 0 <= k < |order| ==> Falling()(order[k]) == -order[k].conf;
    SumPrefix(order, IsAbove(t), _ => 1, j);
    SumConstant(order[..j], _ => 1, 1);
    SumPrefix(order, IsRightAbove(t), Hit(), j);
    hide Sum;
  }

  /** Confidences above a place of a ranking stand in front of it. */
  lemma InFront(ds: seq<Decision>, order: seq<Decision>, i: nat, c: real)
    requires IsRanking(ds, order) && i <= |order| && Observed(ds, c)
    requires i < |order| ==> c > order[i].conf
    ensures exists k :: 0 <= k < i && order[k].conf == c
  {
    ObservedAlike(ds, order, c);
    Descends(ds, order);
    var k :| 0 <= k < |order| && order[k].conf == c;
  }

  ghost predicate AllMeet(ds: seq<Decision>, order: seq<Decision>, i: nat, target: real)
    requires i <= |order|
  {
    forall k :: 0 <= k < i ==> Observed(ds, order[k].conf) && Meets(ds, order[k].conf, target)
  }

  /** What is known when the scan stands at a group. */
  ghost predicate Scanned(ds: seq<Decision>, order: seq<Decision>, i: nat, target: real,
      best: Option<(real, nat, real)>)
    requires i <= |order|
  {
    && AllMeet(ds, order, i, target)
    && match best
       case None => i == 0
       case Some((t, k, acc)) =>
         i > 0 && t == order[i - 1].conf && k == i == Above(ds, t) && acc == RightAbove(ds, t) as real / k as real
  }

  lemma StopsAt(ds: seq<Decision>, order: seq<Decision>, i: nat, target: real, best: Option<(real, nat, real)>)
    requires IsRanking(ds, order) && i <= |order| == |ds| && Scanned(ds, order, i, target, best)
    requires i > 0 && i < |order| ==> order[i].conf < order[i - 1].conf
    requires i < |order| ==> Observed(ds, order[i].conf) && !Meets(ds, order[i].conf, target)
    ensures best.None? ==> forall t :: !Good(ds, t, target)
    ensures best.Some? ==> Good(ds, best.value.0, target) && forall c :: c < best.value.0 ==> !Good(ds, c, target)
  {
    hide Meets, Above, RightAbove;
    Descends(ds, order);
    forall c | Observed(ds, c) && (i == |order| || c > order[i].conf)
        ensures exists k :: 0 <= k < i && order[k].conf == c {
      InFront(ds, order, i, c);
    }
    if best.Some? { assert Observed(ds, order[i - 1].conf); }
  }

  method FindCertificate(ds: seq<Decision>, target: real) returns (r: Certificate)
    ensures IsCertificate(ds, target, r)
  {
    hide Sum, SortBy, Good, Scanned, Observed, IsRanking;
    if |ds| == 0 {
      NothingGood(ds, target);
      return Missed(0);
    }
    var order := SortBy(ds, Falling());
    SortIsSorted(ds, Falling());
    assert IsRanking(ds, order) by { Ranking(ds, order); }
    Descends(ds, order);
    var n := |order|;
    var best: Option<(real, nat, real)> := None;
    var hits, i := 0, 0;
    assert Scanned(ds, order, 0, target, best) by { ScanStarts(ds, order, target); }
    SumNone(Hit());
    assert order[..0] == [];
    while i < n
      invariant i <= n && Scanned(ds, order, i, target, best) && hits == Sum(order[..i], Hit())
      invariant i > 0 && i < n ==> order[i].conf < order[i - 1].conf
    {
      var j := i;
      while j < n && order[j].conf == order[i].conf
        invariant i <= j <= n && hits == Sum(order[..j], Hit())
        invariant forall k :: i <= k < j ==> order[k].conf == order[i].conf
      {
        SumNext(order, j, Hit());
        hits := hits + if order[j].hit then 1 else 0;
        j := j + 1;
      }
      GroupSlice(ds, order, i, j);
      var acc := hits as real / j as real;
      if acc >= target {
        ScanOn(ds, order, i, j, target, best);
        best := Some((order[i].conf, j, acc));
      } else {
        break;
      }
      i := j;
    }
    StopsAt(ds, order, i, target, best);
    ScanEnds(ds, order, i, target, best);
    match best
    case None => r := Missed(n);
    case Some((t, k, acc)) => r := Certified(t, k, k as real / n as real, acc, n);
  }

  lemma NothingGood(ds: seq<Decision>, target: real)
    requires ds == []
    ensures forall t :: !Good(ds, t, target)
  {
  }

  lemma Ranking(ds: seq<Decision>, order: seq<Decision>)
    requires multiset(order) == multiset(ds) && SortedBy(order, Falling())
    ensures IsRanking(ds, order)
  {
  }

  lemma ScanStarts(ds: seq<Decision>, order: seq<Decision>, target: real)
    ensures Scanned(ds, order, 0, target, None)
  {
  }

  /** A group that meets the target is passed. */
  lemma ScanOn(ds: seq<Decision>, order: seq<Decision>, i: nat, j: nat, target: real, best: Option<(real, nat, real)>)
    requires i < j <= |order| && Scanned(ds, order, i, target, best)
    requires forall k :: i <= k < j ==> order[k].conf == order[i].conf
    requires Observed(ds, order[i].conf) && Meets(ds, order[i].conf, target) && Above(ds, order[i].conf) == j
    ensures Scanned(ds, order, j, target, Some((order[i].conf, j, RightAbove(ds, order[i].conf) as real / j as real)))
  {
    hide Observed, Meets, Above, RightAbove;
  }

  lemma ScanEnds(ds: seq<Decision>, order: seq<Decision>, i: nat, target: real, best: Option<(real, nat, real)>)
    requires i <= |order| && Scanned(ds, order, i, target, best)
    ensures best.Some? ==> var (t, k, acc) := best.value;
              k == i == Above(ds, t) && i > 0 && acc == RightAbove(ds, t) as real / k as real
  {
  }

  // ----- what it promises

  /** A report means one thing. */
  lemma CertificateIsUnique(ds: seq<Decision>, target: real, r: Certificate, s: Certificate)
    requires IsCertificate(ds, target, r) && IsCertificate(ds, target, s)
    ensures r == s
  {
    hide Good;
    if r.Certified? && s.Certified? {
      assert !(r.threshold < s.threshold) && !(s.threshold < r.threshold);
    }
  }

  /** The certificate depends only on which decisions there are, not on their order. */
  lemma CertificateIsOrderFree(x: seq<Decision>, y: seq<Decision>, target: real, r: Certificate, s: Certificate)
    requires multiset(x) == multiset(y) && IsCertificate(x, target, r) && IsCertificate(y, target, s)
    ensures r == s
  {
    forall t ensures Good(x, t, target) <==> Good(y, t, target) {
      GoodAlike(x, y, t, target);
      GoodAlike(y, x, t, target);
    }
    SameLength(x, y);
    if r.Certified? { Alike(x, y, r.threshold); }
    hide Good;
    assert IsCertificate(y, target, r);
    CertificateIsUnique(y, target, r, s);
  }

  lemma GoodAlike(x: seq<Decision>, y: seq<Decision>, t: real, target: real)
    requires multiset(x) == multiset(y)
    ensures Good(x, t, target) ==> Good(y, t, target)
  {
    if Good(x, t, target) {
      Alike(x, y, t);
      forall c | c >= t && Observed(y, c) ensures Meets(y, c, target) {
        Alike(x, y, c);
      }
    }
  }

  /** Right below the threshold the target is missed: at the next lower confidence observed, if any. */
  lemma NextLowerMisses(ds: seq<Decision>, target: real, r: Certificate, c: real)
    requires IsCertificate(ds, target, r) && r.Certified? && Observed(ds, c) && c < r.threshold
    requires forall b :: c < b < r.threshold ==> !Observed(ds, b)
    ensures !Meets(ds, c, target)
  {
    if Meets(ds, c, target) {
      assert Good(ds, c, target);
    }
  }

  // ----- the same in numbers of decisions

  function Covered(ds: seq<Decision>, t: real): set<int> { set i | 0 <= i < |ds| && ds[i].conf >= t }

  function RightlyCovered(ds: seq<Decision>, t: real): set<int>
  {
    set i | 0 <= i < |ds| && ds[i].conf >= t && ds[i].hit
  }

  /** Of the decisions at or above `t`, at least the target's share is right. */
  predicate Enough(ds: seq<Decision>, t: real, target: real)
  {
    |RightlyCovered(ds, t)| as real >= target * |Covered(ds, t)| as real
  }

  lemma SlicesCounted(ds: seq<Decision>, t: real)
    ensures Above(ds, t) == |Covered(ds, t)| && RightAbove(ds, t) == |RightlyCovered(ds, t)|
  {
    var p, q := (d: Decision) => d.conf >= t, (d: Decision) => d.conf >= t && d.hit;
    SumCounts(ds, IsAbove(t), p);
    SumCounts(ds, IsRightAbove(t), q);
    assert Places(ds, p) == Covered(ds, t) && Places(ds, q) == RightlyCovered(ds, t);
  }

  lemma MeetsInCounts(ds: seq<Decision>, t: real, target: real)
    requires Observed(ds, t)
    ensures Meets(ds, t, target) <==> Enough(ds, t, target)
  {
    hide Above, RightAbove, Covered, RightlyCovered;
    SlicesCounted(ds, t);
    AboveCounts(ds, t);
    Share(RightAbove(ds, t) as real, Above(ds, t) as real, target);
  }

  lemma Share(x: real, y: real, target: real)
    requires y > 0.0
    ensures x / y >= target <==> x >= target * y
  {
    assert (x / y) * y == x;
    if x / y >= target { Widen(target, x / y, y); } else { Widen(x / y, target, y); }
  }

  lemma Widen(x: real, y: real, z: real)
    requires z > 0.0
    ensures x <= y ==> x * z <= y * z
    ensures x < y ==> x * z < y * z
  {
  }

  /** The certificate in numbers of decisions, at the confidence of decision `i`: from the threshold on
      the target's share is right; below it, or when there is no threshold, the share is missed at the
      confidence of some decision `k`, no lower than this one and still below the threshold. Coverage and
      accuracy are those of the decisions down to the threshold, which is one decision's confidence. */
  lemma CertificateInCounts(ds: seq<Decision>, target: real, r: Certificate, i: nat) returns (k: nat)
    requires IsCertificate(ds, target, r) && i < |ds|
    ensures r.n == |ds|
    ensures r.Missed? || ds[i].conf < r.threshold ==>
              && k < |ds| && ds[i].conf <= ds[k].conf && (r.Certified? ==> ds[k].conf < r.threshold)
              && !Enough(ds, ds[k].conf, target)
    ensures r.Certified? ==>
              && (ds[i].conf >= r.threshold ==> Enough(ds, ds[i].conf, target))
              && (exists m :: 0 <= m < |ds| && ds[m].conf == r.threshold)
              && r.covered == |Covered(ds, r.threshold)| > 0
              && r.coverage * |ds| as real == r.covered as real
              && r.accuracy * r.covered as real == |RightlyCovered(ds, r.threshold)| as real
  {
    hide Meets, Enough, Above, RightAbove, Covered, RightlyCovered, Good;
    k := 0;
    if r.Missed? || ds[i].conf < r.threshold { k := MissedAbove(ds, target, r, i); }
    if r.Certified? {
      SlicesCounted(ds, r.threshold);
      CertifiedSlices(ds, target, r);
    }
  }

  lemma MissedAbove(ds: seq<Decision>, target: real, r: Certificate, i: nat) returns (k: nat)
    requires IsCertificate(ds, target, r) && i < |ds| && (r.Certified? ==> ds[i].conf < r.threshold)
    ensures k < |ds| && ds[i].conf <= ds[k].conf && (r.Certified? ==> ds[k].conf < r.threshold)
    ensures !Enough(ds, ds[k].conf, target)
  {
    hide Meets, Enough, Above, RightAbove;
    assert !Good(ds, ds[i].conf, target);
    assert Observed(ds, ds[i].conf);
    var c :| c >= ds[i].conf && Observed(ds, c) && !Meets(ds, c, target);
    k :| 0 <= k < |ds| && ds[k].conf == c;
    MeetsInCounts(ds, c, target);
  }

  lemma CertifiedSlices(ds: seq<Decision>, target: real, r: Certificate)
    requires IsCertificate(ds, target, r) && r.Certified?
    ensures exists i :: 0 <= i < |ds| && ds[i].conf == r.threshold
    ensures forall i :: 0 <= i < |ds| && ds[i].conf >= r.threshold ==> Enough(ds, ds[i].conf, target)
    ensures r.coverage * |ds| as real == r.covered as real
    ensures r.accuracy * r.covered as real == RightAbove(ds, r.threshold) as real
  {
    hide Meets, Enough, Above, RightAbove;
    forall i | 0 <= i < |ds| && ds[i].conf >= r.threshold ensures Enough(ds, ds[i].conf, target) {
      assert Observed(ds, ds[i].conf);
      MeetsInCounts(ds, ds[i].conf, target);
    }
    Times(r.covered as real, |ds| as real);
    Times(RightAbove(ds, r.threshold) as real, r.covered as real);
  }

  lemma Times(x: real, y: real)
    requires y > 0.0
    ensures x / y * y == x
  {
  }

  // ----- the lowest confidence that meets the target

  /** The threshold is the lowest confidence observed whose slice meets the target; there is none when
      no slice does. */
  ghost predicate IsLowest(ds: seq<Decision>, target: real, r: Certificate)
  {
    match r
    case Missed(_) => forall c :: Observed(ds, c) ==> !Meets(ds, c, target)
    case Certified(t, _, _, _, _) =>
      Observed(ds, t) && Meets(ds, t, target) && forall c :: c < t && Observed(ds, c) ==> !Meets(ds, c, target)
  }

  /** A slice that misses the target is not followed by a longer one that meets it. */
  ghost predicate NeverRecovers(ds: seq<Decision>, target: real)
  {
    forall c, d :: Observed(ds, c) && Observed(ds, d) && d < c && !Meets(ds, c, target) ==> !Meets(ds, d, target)
  }

  /** The certificate is the lowest confidence whose slice meets the target exactly when no slice
      recovers from a miss. */
  lemma LowestExactlyWhen(ds: seq<Decision>, target: real, r: Certificate)
    requires IsCertificate(ds, target, r)
    ensures IsLowest(ds, target, r) <==> NeverRecovers(ds, target)
  {
    hide Meets, Observed, Above, RightAbove;
    if NeverRecovers(ds, target) {
      forall c | Observed(ds, c) && (r.Certified? ==> c < r.threshold) ensures !Meets(ds, c, target) {
        assert !Good(ds, c, target);
      }
    }
  }

  /** The recovering list: right at 0.9, 0.7 and 0.6, wrong at 0.8. */
  function Recovering(): seq<Decision>
  {
    [Decision(0.9, true, 0.0), Decision(0.8, false, 0.0), Decision(0.7, true, 0.0), Decision(0.6, true, 0.0)]
  }

  lemma SumOfFour(a: Decision, b: Decision, c: Decision, d: Decision, f: Decision -> int)
    ensures Sum([a, b, c, d], f) == f(a) + f(b) + f(c) + f(d)
  {
    SumFirst(a, [b, c, d], f);
    SumFirst(b, [c, d], f);
    SumFirst(c, [d], f);
    assert [a] + [b, c, d] == [a, b, c, d] && [b] + [c, d] == [b, c, d] && [c] + [d] == [c, d];
    SumFirst(d, [], f);
  }

  /** Of a target of 0.7 it makes a threshold of 0.9, though the slice down to 0.6 meets it. */
  lemma LowestIsMissed()
    ensures IsCertificate(Recovering(), 0.7, Certified(0.9, 1, 0.25, 1.0, 4))
    ensures !IsLowest(Recovering(), 0.7, Certified(0.9, 1, 0.25, 1.0, 4))
  {
    var ds := Recovering();
    SliceOfFour(0.9);
    SliceOfFour(0.8);
    SliceOfFour(0.6);
    assert ds[0].conf == 0.9 && ds[1].conf == 0.8 && ds[2].conf == 0.7 && ds[3].conf == 0.6;
    assert Observed(ds, 0.9) && Observed(ds, 0.8) && Observed(ds, 0.6);
    hide Sum, Above, RightAbove;
    assert Meets(ds, 0.9, 0.7) && !Meets(ds, 0.8, 0.7) && Meets(ds, 0.6, 0.7);
    forall c | c >= 0.9 && Observed(ds, c) ensures c == 0.9 {
    }
    forall c | c < 0.9 ensures !Good(ds, c, 0.7) {
      if Observed(ds, c) { assert 0.8 >= c; }
    }
  }

  lemma SliceOfFour(t: real)
    ensures Above(Recovering(), t) == (if 0.9 >= t then 1 else 0) + (if 0.8 >= t then 1 else 0)
                                      + (if 0.7 >= t then 1 else 0) + (if 0.6 >= t then 1 else 0)
    ensures RightAbove(Recovering(), t)
        == (if 0.9 >= t then 1 else 0) + (if 0.7 >= t then 1 else 0) + (if 0.6 >= t then 1 else 0)
  {
    var ds := Recovering();
    SumOfFour(ds[0], ds[1], ds[2], ds[3], IsAbove(t));
    SumOfFour(ds[0], ds[1], ds[2], ds[3], IsRightAbove(t));
    hide Sum;
  }
}
