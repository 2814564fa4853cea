/** scripts/cl-calibration.py, `summarize`: decisions tallied in bins of equal width, and the calibration
    error of the bins, over the rationals. */
module Reliability {
  import opened Wrappers
  import opened Sums
  import opened Calibration

  /** Count, hits, and the sum of the confidences. */
  datatype Bin = Bin(n: nat, hits: nat, mass: real)

  /** `int(x)`, which cuts towards zero. */
  function Truncate(x: real): int { if x >= 0.0 then x.Floor else -(-x).Floor }

  /** The bin `min(int(x), bins - 1)` names; a negative index counts from the end, `None` standing for
      the `IndexError` of one too low. */
  function BinAt(x: real, bins: nat): (b: Option<nat>)
    ensures b.Some? ==> b.value < bins
  {
    var t := Truncate(x);
    var i := if t < bins - 1 then t else bins - 1;
    if i >= 0 then Some(i) else if i + bins >= 0 then Some(i + bins) else None
  }

  function Scale(conf: real, bins: nat): real { conf * bins as real }

  function BinOf(conf: real, bins: nat): (b: Option<nat>)
    ensures b.Some? ==> b.value < bins
  {
    BinAt(Scale(conf, bins), bins)
  }

  /** The statistics of a report; `None` for the values of no decisions at all. */
  datatype Summary = Empty | Summary(n: nat, accuracy: real, brier: real, ece: real, table: seq<Bin>)

  function Hits(ds: seq<Decision>): (h: nat)
    ensures h <= |ds|
  {
    if ds == [] then 0 else Hits(ds[..|ds| - 1]) + if ds[|ds| - 1].hit then 1 else 0
  }

  function Mass(ds: seq<Decision>): real
  {
    if ds == [] then 0.0 else Mass(ds[..|ds| - 1]) + ds[|ds| - 1].conf
  }

  function Brier(ds: seq<Decision>): real
  {
    if ds == [] then 0.0 else Brier(ds[..|ds| - 1]) + ds[|ds| - 1].brier
  }

  /** The decisions of one bin. */
  function InBin(ds: seq<Decision>, bins: nat, b: nat): seq<Decision>
  {
    if ds == [] then []
    else
      InBin(ds[..|ds| - 1], bins, b) + if BinOf(ds[|ds| - 1].conf, bins) == Some(b) then [ds[|ds| - 1]] else []
  }

  predicate AllBinned(ds: seq<Decision>, bins: nat) { forall i :: 0 <= i < |ds| ==> BinOf(ds[i].conf, bins).Some? }

  /** Each bin says what the decisions that fall into it are. */
  predicate IsTally(ds: seq<Decision>, bins: nat, table: seq<Bin>)
  {
    && |table| == bins
    && forall b :: 0 <= b < bins ==>
         var part := InBin(ds, bins, b);
         table[b] == Bin(|part|, Hits(part), Mass(part))
  }

  /** `sum(c * abs(h / c - m / c) for c, h, m in table if c)`. */
  function Error(table: seq<Bin>): real
  {
    if table == [] then 0.0
    else
      var last := table[|table| - 1];
      Error(table[..|table| - 1])
      + if last.n == 0 then 0.0
        else last.n as real * Abs(last.hits as real / last.n as real - last.mass / last.n as real)
  }

  lemma Next(d: Decision, ds: seq<Decision>)
    ensures Hits(ds + [d]) == Hits(ds) + (if d.hit then 1 else 0)
    ensures Mass(ds + [d]) == Mass(ds) + d.conf && Brier(ds + [d]) == Brier(ds) + d.brier
  {
    assert (ds + [d])[..|ds|] == ds;
  }

  lemma InBinNext(ds: seq<Decision>, i: nat, bins: nat, b: nat)
    requires i < |ds|
    ensures InBin(ds[..i + 1], bins, b)
         == InBin(ds[..i], bins, b) + if BinOf(ds[i].conf, bins) == Some(b) then [ds[i]] else []
  {
    assert ds[..i + 1][..i] == ds[..i];
  }

  /** One more decision counted. */
  lemma TallyNext(ds: seq<Decision>, i: nat, bins: nat, table: seq<Bin>, b: nat)
    requires i < |ds| && IsTally(ds[..i], bins, table) && BinOf(ds[i].conf, bins) == Some(b)
    ensures IsTally(ds[..i + 1], bins,
                    table[b := Bin(table[b].n + 1, table[b].hits + (if ds[i].hit then 1 else 0),
                        table[b].mass + ds[i].conf)])
  {
    hide InBin, BinOf, Hits, Mass;
    forall c: nat { InBinNext(ds, i, bins, c); }
    Next(ds[i], InBin(ds[..i], bins, b));
    forall c: nat | c != b ensures InBin(ds[..i + 1], bins, c) == InBin(ds[..i], bins, c) {
      assert InBin(ds[..i], bins, c) + [] == InBin(ds[..i], bins, c);
    }
  }

  lemma TallyNone(bins: nat, table: seq<Bin>)
    requires |table| == bins && forall b :: 0 <= b < bins ==> table[b] == Bin(0, 0, 0.0)
    ensures IsTally([], bins, table)
  {
  }

  /** What the report of some decisions says. */
  predicate IsSummary(ds: seq<Decision>, bins: nat, r: Summary)
    requires ds != []
  {
    && r.Summary? && r.n == |ds|
    && r.accuracy == Hits(ds) as real / |ds| as real && r.brier == Brier(ds) / |ds| as real
    && IsTally(ds, bins, r.table) && r.ece == Error(r.table) / |ds| as real
  }

  method Summarize(ds: seq<Decision>, bins: nat) returns (r: Option<Summary>)
    ensures ds == [] ==> r == Some(Empty)
    ensures ds != [] ==> (r.Some? <==> AllBinned(ds, bins))
    ensures ds != [] && r.Some? ==> IsSummary(ds, bins, r.value)
  {
    hide IsTally, BinOf, Error;
    var n := |ds|;
    if n == 0 { return Some(Empty); }
    var table := seq(bins, _ => Bin(0, 0, 0.0));
    var hits: nat, brier := 0, 0.0;
    TallyNone(bins, table);
    assert ds[..0] == [];
    for i := 0 to n
      invariant IsTally(ds[..i], bins, table) && AllBinned(ds[..i], bins)
      invariant |table| == bins
      invariant hits == Hits(ds[..i]) && brier == Brier(ds[..i])
    {
      assert ds[..i + 1] == ds[..i] + [ds[i]];
      Next(ds[i], ds[..i]);
      var b := BinOf(ds[i].conf, bins);
      if b.None? { return None; }
      TallyNext(ds, i, bins, table, b.value);
      var was := table[b.value];
      table := table[b.value := Bin(was.n + 1, was.hits + (if ds[i].hit then 1 else 0), was.mass + ds[i].conf)];
      hits := hits + if ds[i].hit then 1 else 0;
      brier := brier + ds[i].brier;
    }
    assert ds[..n] == ds;
    r := Some(Summary(n, hits as real / n as real, brier / n as real, Error(table) / n as real, table));
  }

  // ----- what it promises

  function Total(table: seq<Bin>): Bin
  {
    if table == [] then Bin(0, 0, 0.0)
    else
      var t, last := Total(table[..|table| - 1]), table[|table| - 1];
      Bin(t.n + last.n, t.hits + last.hits, t.mass + last.mass)
  }

  /** Adding to one bin adds to the total. */
  lemma {:induction false} TotalUpdate(table: seq<Bin>, b: nat, n: nat, hits: nat, mass: real)
    requires b < |table|
    ensures Total(table[b := Bin(table[b].n + n, table[b].hits + hits, table[b].mass + mass)])
         == Bin(Total(table).n + n, Total(table).hits + hits, Total(table).mass + mass)
  {
    var last := |table| - 1;
    var next := table[b := Bin(table[b].n + n, table[b].hits + hits, table[b].mass + mass)];
    if b == last {
      assert next[..last] == table[..last];
    } else {
      TotalUpdate(table[..last], b, n, hits, mass);
      assert next[..last] == table[..last][b := next[b]];
    }
  }

  lemma {:induction false} TotalNone(table: seq<Bin>)
    requires forall b :: 0 <= b < |table| ==> table[b] == Bin(0, 0, 0.0)
    ensures Total(table) == Bin(0, 0, 0.0)
  {
    if table != [] { TotalNone(table[..|table| - 1]); }
  }

  lemma TallyIsUnique(ds: seq<Decision>, bins: nat, x: seq<Bin>, y: seq<Bin>)
    requires IsTally(ds, bins, x) && IsTally(ds, bins, y)
    ensures x == y
  {
  }

  /** The bins share the decisions out: their counts, hits and confidences add up to all of them. */
  lemma {:induction false} BinsConserve(ds: seq<Decision>, bins: nat, table: seq<Bin>)
    requires AllBinned(ds, bins) && IsTally(ds, bins, table)
    ensures Total(table) == Bin(|ds|, Hits(ds), Mass(ds))
    decreases |ds|
  {
    hide InBin, BinOf, Total;
    if ds == [] {
      NoneBinned(bins);
      TotalNone(table);
    } else {
      var i := |ds| - 1;
      assert ds[..i + 1] == ds && ds == ds[..i] + [ds[i]];
      var before := TallyOf(ds[..i], bins);
      var b := BinOf(ds[i].conf, bins).value;
      TallyNext(ds, i, bins, before, b);
      var now := before[b := Bin(before[b].n + 1, before[b].hits + (if ds[i].hit then 1 else 0),
          before[b].mass + ds[i].conf)];
      TallyIsUnique(ds, bins, table, now);
      TotalUpdate(before, b, 1, if ds[i].hit then 1 else 0, ds[i].conf);
      BinsConserve(ds[..i], bins, before);
    }
  }

  lemma NoneBinned(bins: nat)
    ensures forall b: nat :: InBin([], bins, b) == []
  {
  }

  lemma TallyOf(ds: seq<Decision>, bins: nat) returns (table: seq<Bin>)
    ensures IsTally(ds, bins, table)
  {
    table := seq(bins, b requires 0 <= b < bins => var part := InBin(ds, bins, b); Bin(|part|, Hits(part), Mass(part)));
  }

  lemma BinError(b: Bin)
    requires b.n == 0 ==> b.hits == 0 && b.mass == 0.0
    ensures (if b.n == 0 then 0.0 else b.n as real * Abs(b.hits as real / b.n as real - b.mass / b.n as real))
         == Abs(b.hits as real - b.mass)
  {
    if b.n > 0 {
      var n, h, m := b.n as real, b.hits as real, b.mass;
      var x := h / n - m / n;
      assert n * (h / n) == h && n * (m / n) == m;
      assert n * x == h - m;
      if x < 0.0 { assert n * x < 0.0; } else { assert n * x >= 0.0; }
    }
  }

  /** Hits minus confidences of a bin, by its number. */
  function Gap(table: seq<Bin>): nat -> real
  {
    (b: nat) => if b < |table| then Abs(table[b].hits as real - table[b].mass) else 0.0
  }

  /** The sum of `f` over 0 .. `n` - 1. */
  function Over(n: nat, f: nat -> real): real
  {
    if n == 0 then 0.0 else Over(n - 1, f) + f(n - 1)
  }

  lemma {:induction false} OverSame(n: nat, f: nat -> real, g: nat -> real)
    requires forall b: nat :: b < n ==> f(b) == g(b)
    ensures Over(n, f) == Over(n, g)
  {
    if n > 0 { OverSame(n - 1, f, g); }
  }

  lemma ErrorLast(table: seq<Bin>)
    requires table != []
    requires table[|table| - 1].n == 0 ==> table[|table| - 1].hits == 0 && table[|table| - 1].mass == 0.0
    ensures Error(table)
         == Error(table[..|table| - 1]) + Abs(table[|table| - 1].hits as real - table[|table| - 1].mass)
  {
    BinError(table[|table| - 1]);
  }

  lemma {:induction false} ErrorIsGaps(table: seq<Bin>)
    requires forall b :: 0 <= b < |table| ==> table[b].n == 0 ==> table[b].hits == 0 && table[b].mass == 0.0
    ensures Error(table) == Over(|table|, Gap(table))
  {
    hide Error, Abs;
    if table == [] {
      NoError();
    } else {
      var init := table[..|table| - 1];
      ErrorLast(table);
      ErrorIsGaps(init);
      OverSame(|init|, Gap(init), Gap(table));
    }
  }

  lemma NoError()
    ensures Error([]) == 0.0
  {
  }

  /** A decision's part in the gap of bin `b`: between the bin's edges, or from 1 on in the last bin,
      its hit less its confidence. */
  function Part(d: Decision, bins: nat, b: nat): real
    requires bins > 0
  {
    if b as real / bins as real <= d.conf
       && (d.conf < (b + 1) as real / bins as real || (b == bins - 1 && d.conf >= 1.0))
    then (if d.hit then 1.0 else 0.0) - d.conf
    else 0.0
  }

  function Parts(ds: seq<Decision>, bins: nat, b: nat): real
    requires bins > 0
  {
    if ds == [] then 0.0 else Part(ds[0], bins, b) + Parts(ds[1..], bins, b)
  }

  lemma {:induction false} PartsLast(ds: seq<Decision>, bins: nat, b: nat)
    requires bins > 0 && ds != []
    ensures Parts(ds, bins, b) == Parts(ds[..|ds| - 1], bins, b) + Part(ds[|ds| - 1], bins, b)
  {
    if |ds| > 1 {
      PartsLast(ds[1..], bins, b);
      assert ds[1..][..|ds| - 2] == ds[..|ds| - 1][1..];
    }
  }

  lemma EdgesAscend(i: nat, j: nat, bins: nat)
    requires bins > 0 && i <= j
    ensures Edge(i, bins) <= Edge(j, bins)
  {
    Quotient(i as real, j as real, bins as real);
  }

  /** The bin whose edges hold a confidence is its bin. */
  lemma {:induction false} BinByEdges(conf: real, bins: nat, b: nat)
    requires bins > 0 && 0.0 <= conf && b < bins
    ensures BinOf(conf, bins) == Some(b)
       <==> Edge(b, bins) <= conf && (conf < Edge(b + 1, bins) || (b == bins - 1 && conf >= 1.0))
  {
    hide BinOf, Edge;
    BinHolds(conf, bins);
    var c := BinOf(conf, bins).value;
    if b < c { EdgesAscend(b + 1, c, bins); }
    if c < b {
      EdgesAscend(c + 1, b, bins);
    }
  }

  lemma {:induction false} BinParts(ds: seq<Decision>, bins: nat, b: nat)
    requires bins > 0 && b < bins && forall i :: 0 <= i < |ds| ==> ds[i].conf >= 0.0
    ensures Hits(InBin(ds, bins, b)) as real - Mass(InBin(ds, bins, b)) == Parts(ds, bins, b)
  {
    if ds != [] {
      var last, front := ds[|ds| - 1], ds[..|ds| - 1];
      BinParts(front, bins, b);
      PartsLast(ds, bins, b);
      BinByEdges(last.conf, bins, b);
      assert Edge(b, bins) == b as real / bins as real && Edge(b + 1, bins) == (b + 1) as real / bins as real;
      Next(last, InBin(front, bins, b));
      hide BinOf, Parts, Hits, Mass, Edge;
      assert InBin(front, bins, b) + [] == InBin(front, bins, b);
    }
  }

  /** The calibration error, before it is divided by the number of decisions: over the bins, the
      absolute sum of hits less confidences of the decisions between the bin's edges. */
  lemma {:induction false} ErrorIs(ds: seq<Decision>, bins: nat, table: seq<Bin>)
    requires bins > 0 && (forall i :: 0 <= i < |ds| ==> ds[i].conf >= 0.0) && IsTally(ds, bins, table)
    ensures Error(table) == Over(bins, (b: nat) => Abs(Parts(ds, bins, b)))
  {
    hide InBin, Parts, Error;
    forall b | 0 <= b < |table| && table[b].n == 0 ensures table[b].hits == 0 && table[b].mass == 0.0 {
      assert InBin(ds, bins, b) == [];
    }
    ErrorIsGaps(table);
    forall b: nat | b < bins ensures Gap(table)(b) == Abs(Parts(ds, bins, b)) { BinParts(ds, bins, b); }
    OverSame(bins, Gap(table), (b: nat) => Abs(Parts(ds, bins, b)));
  }

  lemma OneDecision(d: Decision)
    ensures Hits([]) == 0 && Mass([]) == 0.0 && Brier([]) == 0.0
    ensures Hits([d]) == (if d.hit then 1 else 0) && Mass([d]) == d.conf && Brier([d]) == d.brier
  {
    Next(d, []);
    assert [] + [d] == [d];
  }

  /** Hits, confidences and scores add up; those of one decision are its own. */
  lemma {:induction false} SumsAdd(x: seq<Decision>, y: seq<Decision>, d: Decision)
    ensures Hits(x + y) == Hits(x) + Hits(y) && Mass(x + y) == Mass(x) + Mass(y)
    ensures Brier(x + y) == Brier(x) + Brier(y)
    ensures Hits([d]) == (if d.hit then 1 else 0) && Mass([d]) == d.conf && Brier([d]) == d.brier
    decreases |y|
  {
    hide Hits, Mass, Brier;
    OneDecision(d);
    if y == [] {
      assert x + y == x;
    } else {
      var front, last := y[..|y| - 1], y[|y| - 1];
      SumsAdd(x, front, d);
      assert x + y == (x + front) + [last] && y == front + [last];
      Next(last, x + front);
      Next(last, front);
    }
  }

  /** What a report of decisions with confidences from zero on says of the decisions themselves. */
  lemma {:induction false} SummaryReads(ds: seq<Decision>, bins: nat, r: Summary)
    requires ds != [] && bins > 0 && IsSummary(ds, bins, r) && forall i :: 0 <= i < |ds| ==> ds[i].conf >= 0.0
    ensures r.n == |ds| && |r.table| == bins
    ensures r.accuracy * |ds| as real == |set i | 0 <= i < |ds| && ds[i].hit| as real
    ensures r.brier * |ds| as real == Brier(ds)
    ensures r.ece * |ds| as real == Over(bins, (b: nat) => Abs(Parts(ds, bins, b)))
  {
    hide Error, Brier, Parts, Over, IsTally;
    ErrorIs(ds, bins, r.table);
    HitsCounted(ds);
    Undivided(Hits(ds) as real, |ds| as real);
    Undivided(Brier(ds), |ds| as real);
    Undivided(Error(r.table), |ds| as real);
    TableLength(ds, bins, r.table);
  }

  lemma TableLength(ds: seq<Decision>, bins: nat, table: seq<Bin>)
    requires IsTally(ds, bins, table)
    ensures |table| == bins
  {
  }

  lemma Undivided(x: real, n: real)
    requires n > 0.0
    ensures x / n * n == x
  {
  }

  lemma {:induction false} HitsCounted(ds: seq<Decision>)
    ensures Hits(ds) == |set i | 0 <= i < |ds| && ds[i].hit|
  {
    var p := (d: Decision) => d.hit;
    HitsAreSum(ds);
    SumCounts(ds, Hit(), p);
    assert Places(ds, p) == set i | 0 <= i < |ds| && ds[i].hit;
  }

  lemma {:induction false} HitsAreSum(ds: seq<Decision>)
    ensures Hits(ds) == Sum(ds, Hit())
  {
    if ds == [] {
      SumNone(Hit());
    } else {
      hide Sum;
      var n := |ds| - 1;
      HitsAreSum(ds[..n]);
      SumNext(ds, n, Hit());
      assert ds[..n + 1] == ds;
    }
  }

  /** Below zero the index is cut towards zero and counts from the end of the table. */
  lemma BinBelowZero(conf: real, bins: nat, k: nat)
    requires bins > 0 && -((k + 1) as real) < conf * bins as real <= -(k as real)
    ensures BinOf(conf, bins) == if k == 0 then Some(0) else if k <= bins then Some(bins - k) else None
  {
    var x := Scale(conf, bins);
    assert x == 0.0 || (-x).Floor == k;
  }

  lemma {:induction false} ErrorCovers(table: seq<Bin>)
    requires forall b :: 0 <= b < |table| ==> table[b].n == 0 ==> table[b].hits == 0 && table[b].mass == 0.0
    ensures Abs(Total(table).hits as real - Total(table).mass) <= Error(table)
  {
    if table != [] {
      var init, last := table[..|table| - 1], table[|table| - 1];
      ErrorCovers(init);
      var e := if last.n == 0 then 0.0
          else last.n as real * Abs(last.hits as real / last.n as real - last.mass / last.n as real);
      assert Error(table) == Error(init) + e;
      assert e == Abs(last.hits as real - last.mass) by { BinError(last); }
      hide Error;
    }
  }

  /** The accuracy is within the calibration error of the mean confidence. */
  lemma {:induction false} ErrorBoundsGap(ds: seq<Decision>, bins: nat, table: seq<Bin>)
    requires ds != [] && AllBinned(ds, bins) && IsTally(ds, bins, table)
    ensures Abs(Hits(ds) as real / |ds| as real - Mass(ds) / |ds| as real) <= Error(table) / |ds| as real
  {
    BinsConserve(ds, bins, table);
    forall b | 0 <= b < |table| && table[b].n == 0 ensures table[b].hits == 0 && table[b].mass == 0.0 {
      assert InBin(ds, bins, b) == [];
    }
    ErrorCovers(table);
    var n, h, m := |ds| as real, Hits(ds) as real, Mass(ds);
    Scaled(h, m, Error(table), n);
  }

  lemma Scaled(h: real, m: real, e: real, n: real)
    requires n > 0.0 && Abs(h - m) <= e
    ensures Abs(h / n - m / n) <= e / n
  {
    assert h / n - m / n == (h - m) / n;
    Quotient(h - m, e, n);
    Quotient(m - h, e, n);
    assert (m - h) / n == -((h - m) / n);
  }

  lemma Quotient(x: real, y: real, n: real)
    requires n > 0.0 && x <= y
    ensures x / n <= y / n
  {
  }

  lemma BinEdges(x: real, bins: nat)
    requires bins > 0 && x >= 0.0
    ensures BinAt(x, bins).Some? && BinAt(x, bins).value as real <= x
    ensures x < bins as real ==> x < (BinAt(x, bins).value + 1) as real
    ensures x >= bins as real ==> BinAt(x, bins).value == bins - 1
  {
    assert x.Floor >= 0;
  }

  lemma ScaledBy(x: real, y: real, n: real)
    requires n > 0.0
    ensures x <= y ==> x * n <= y * n
    ensures x < y ==> x * n < y * n
  {
  }

  /** Where a bin begins, and where the one before it ends. */
  function Edge(i: nat, bins: nat): real
    requires bins > 0
  {
    i as real / bins as real
  }

  lemma EdgeReached(conf: real, bins: nat, i: nat)
    requires bins > 0
    ensures i as real <= Scale(conf, bins) ==> Edge(i, bins) <= conf
    ensures Scale(conf, bins) < i as real ==> conf < Edge(i, bins)
  {
    var n, q := bins as real, Edge(i, bins);
    assert q * n == i as real;
    ScaledBy(conf, q, n);
    ScaledBy(q, conf, n);
  }

  lemma ScaleIs(conf: real, bins: nat)
    requires bins > 0
    ensures 0.0 <= conf ==> 0.0 <= Scale(conf, bins)
    ensures conf < 1.0 <==> Scale(conf, bins) < bins as real
  {
    ScaledBy(0.0, conf, bins as real);
    ScaledBy(1.0, conf, bins as real);
    ScaledBy(conf, 1.0, bins as real);
  }

  /** A confidence from 0 up to 1 falls into the bin whose edges hold it; from 1 on it falls into the
      last. */
  lemma {:induction false} BinHolds(conf: real, bins: nat)
    requires bins > 0 && 0.0 <= conf
    ensures var b := BinOf(conf, bins);
            && b.Some?
            && Edge(b.value, bins) <= conf
            && (conf < 1.0 ==> conf < Edge(b.value + 1, bins))
            && (conf >= 1.0 ==> b.value == bins - 1)
  {
    hide BinAt, Scale, Edge;
    ScaleIs(conf, bins);
    BinEdges(Scale(conf, bins), bins);
    var b := BinOf(conf, bins).value;
    EdgeReached(conf, bins, b);
    EdgeReached(conf, bins, b + 1);
  }
}
