/** scripts/gguf-blockorder.py, the ordering half: the canonical order of tensor names. */
module BlockOrder {
  import opened Wrappers
  import opened Bytes
  import opened Names
  import opened Sorting

  type Name = seq<byte>

  function TokenEmbd(): Name { Ascii("token_embd.weight") }
  function OutputNorm(): Name { Ascii("output_norm.weight") }
  function Output(): Name { Ascii("output.weight") }

  /** The block number of a name matching `blk\.(\d+)\.`. */
  function BlkOf(name: Name): Option<nat>
  {
    if !(Blk() <= name) then None
    else
      var d := DotFrom(name, 4);
      if d < |name| && AllDigits(name[4..d]) then Digits(name[4..d]) else None
  }

  /** The head and tail names are pairwise different and are in no block. */
  lemma SpecialNames()
    ensures TokenEmbd() != OutputNorm() && TokenEmbd() != Output() && OutputNorm() != Output()
    ensures BlkOf(TokenEmbd()) == None && BlkOf(OutputNorm()) == None && BlkOf(Output()) == None
  {
    assert TokenEmbd()[0] == 116 && OutputNorm()[0] == 111 && Output()[0] == 111 && Blk()[0] == 98;
    assert |OutputNorm()| == 18 && |Output()| == 13;
  }

  /** Every name that starts with `blk.`, digits and a dot is in the block the digits write. */
  lemma BlkOfNumbered(d: seq<byte>, rest: seq<byte>)
    requires AllDigits(d) && d != []
    ensures BlkOf(Ascii("blk.") + (d + ([46] + rest))) == Some(Decimal(d))
  {
    hide Digits, Decimal, DotFrom, LayerText, RestOf, Ascii;
    var name := Blk() + (d + ([DOT] + rest));
    NumberedParts(d, rest);
    assert name[4..4 + |d|] == d;
    DigitsAreDecimal(d);
  }

  /** No other name is in a block. */
  lemma BlkOfOnlyNumbered(name: Name) returns (d: seq<byte>, rest: seq<byte>)
    requires BlkOf(name).Some?
    ensures AllDigits(d) && d != [] && name == Ascii("blk.") + (d + ([46] + rest))
    ensures BlkOf(name) == Some(Decimal(d))
  {
    hide Digits, Decimal;
    var e := DotFrom(name, 4);
    d, rest := name[4..e], name[e + 1..];
    assert d != [] by { NoDigits(d); }
    DigitsAreDecimal(d);
    assert name == Blk() + (d + ([DOT] + rest));
  }

  // ----- ranks

  /** Where the canonical order puts a name: its group, and its number when it is in a block. */
  datatype Rank = Rank(group: nat, block: nat)

  function RankOf(name: Name): Rank
  {
    match BlkOf(name)
    case Some(b) => Rank(1, b)
    case None =>
      if name == TokenEmbd() then Rank(0, 0)
      else if name == OutputNorm() then Rank(3, 0)
      else if name == Output() then Rank(4, 0)
      else Rank(2, 0)
  }

  predicate Before(r: Rank, q: Rank)
  {
    r.group < q.group || (r.group == q.group && r.block <= q.block)
  }

  predicate Ranked(names: seq<Name>)
  {
    forall i, j :: 0 <= i < j < |names| ==> Before(RankOf(names[i]), RankOf(names[j]))
  }

  /** The names of one rank, in their order. */
  function OfRank(names: seq<Name>, r: Rank): (s: seq<Name>)
    ensures forall i :: 0 <= i < |s| ==> RankOf(s[i]) == r
  {
    if names == [] then []
    else
      var last := |names| - 1;
      OfRank(names[..last], r) + if RankOf(names[last]) == r then [names[last]] else []
  }

  predicate Distinct(names: seq<Name>)
  {
    forall i, j :: 0 <= i < j < |names| ==> names[i] != names[j]
  }

  // ----- canonical_order

  function Once(name: Name, names: seq<Name>): seq<Name>
  {
    if name in names then [name] else []
  }

  /** The blocks below `hi`, in ascending order, each in its input order. */
  function BlocksBelow(names: seq<Name>, hi: nat): seq<Name>
  {
    if hi == 0 then [] else BlocksBelow(names, hi - 1) + OfRank(names, Rank(1, hi - 1))
  }

  /** One more than the largest block number. */
  function BlockBound(names: seq<Name>): (hi: nat)
    ensures forall n :: n in names && BlkOf(n).Some? ==> BlkOf(n).value < hi
  {
    if names == [] then 0
    else
      var last := names[|names| - 1];
      var hi := BlockBound(names[..|names| - 1]);
      assert forall n :: n in names ==> n == last || n in names[..|names| - 1];
      if BlkOf(last).Some? && BlkOf(last).value >= hi then BlkOf(last).value + 1 else hi
  }

  function Canonical(names: seq<Name>): seq<Name>
  {
    Once(TokenEmbd(), names) + BlocksBelow(names, BlockBound(names)) + OfRank(names, Rank(2, 0))
    + (Once(OutputNorm(), names) + Once(Output(), names))
  }

  lemma {:induction false} OfRankConcat(x: seq<Name>, y: seq<Name>, r: Rank)
    ensures OfRank(x + y, r) == OfRank(x, r) + OfRank(y, r)
    decreases |y|
  {
    if y == [] {
      assert x + y == x;
    } else {
      OfRankConcat(x, y[..|y| - 1], r);
      assert (x + y)[..|x + y| - 1] == x + y[..|y| - 1];
    }
  }

  lemma {:induction false} OfRankUniform(s: seq<Name>, r: Rank, q: Rank)
    requires forall i :: 0 <= i < |s| ==> RankOf(s[i]) == r
    ensures OfRank(s, q) == if q == r then s else []
  {
    if s != [] { OfRankUniform(s[..|s| - 1], r, q); }
  }

  lemma {:induction false} BlocksOfRank(names: seq<Name>, hi: nat, r: Rank)
    ensures OfRank(BlocksBelow(names, hi), r)
         == if r.group == 1 && r.block < hi then OfRank(names, r) else []
  {
    hide OfRank, RankOf;
    if hi > 0 {
      BlocksOfRank(names, hi - 1, r);
      OfRankConcat(BlocksBelow(names, hi - 1), OfRank(names, Rank(1, hi - 1)), r);
      OfRankUniform(OfRank(names, Rank(1, hi - 1)), Rank(1, hi - 1), r);
    } else {
      NoneOfRank(r);
    }
  }

  lemma NoneOfRank(r: Rank)
    ensures OfRank([], r) == []
  {
  }

  lemma {:induction false} OfRankEmpty(names: seq<Name>, r: Rank)
    requires forall i :: 0 <= i < |names| ==> RankOf(names[i]) != r
    ensures OfRank(names, r) == []
  {
    if names != [] { OfRankEmpty(names[..|names| - 1], r); }
  }

  /** Among distinct names a head or tail name occurs at most once. */
  lemma {:induction false} OnceIsOfRank(name: Name, names: seq<Name>)
    requires Distinct(names) && (name == TokenEmbd() || name == OutputNorm() || name == Output())
    ensures OfRank(names, RankOf(name)) == Once(name, names)
  {
    SpecialNames();
    hide BlkOf;
    if names != [] {
      var last := |names| - 1;
      OnceIsOfRank(name, names[..last]);
      assert forall n :: n in names <==> n == names[last] || n in names[..last];
    }
  }

  lemma OnceOfRank(name: Name, names: seq<Name>, r: Rank)
    requires Distinct(names) && (name == TokenEmbd() || name == OutputNorm() || name == Output())
    ensures OfRank(Once(name, names), r) == if r == RankOf(name) then OfRank(names, r) else []
  {
    OnceIsOfRank(name, names);
    OfRankUniform(Once(name, names), RankOf(name), r);
  }

  lemma SpecialRanks()
    ensures RankOf(TokenEmbd()) == Rank(0, 0) && RankOf(OutputNorm()) == Rank(3, 0) && RankOf(Output()) == Rank(4, 0)
  {
    SpecialNames();
  }

  /** No name has a rank outside the five groups or in a block past the bound. */
  lemma NoOtherRank(names: seq<Name>, r: Rank)
    requires (r.group == 1 && r.block >= BlockBound(names)) || r.group > 4 || (r.group != 1 && r.block > 0)
    ensures OfRank(names, r) == []
  {
    OfRankEmpty(names, r);
  }

  lemma OfRankParts(t: seq<Name>, blocks: seq<Name>, rest: seq<Name>, o: seq<Name>, w: seq<Name>, r: Rank)
    ensures OfRank(t + blocks + rest + (o + w), r)
         == OfRank(t, r) + OfRank(blocks, r) + OfRank(rest, r) + (OfRank(o, r) + OfRank(w, r))
  {
    hide OfRank;
    OfRankConcat(o, w, r);
    OfRankConcat(t, blocks, r);
    OfRankConcat(t + blocks, rest, r);
    OfRankConcat(t + blocks + rest, o + w, r);
  }

  /** Every rank keeps its names in their input order: the reordering is stable. */
  lemma CanonicalIsStable(names: seq<Name>, r: Rank)
    requires Distinct(names)
    ensures OfRank(Canonical(names), r) == OfRank(names, r)
  {
    hide BlocksBelow, OfRank, Once, RankOf, TokenEmbd, OutputNorm, Output, BlockBound;
    var t, o, w := Once(TokenEmbd(), names), Once(OutputNorm(), names), Once(Output(), names);
    var blocks, rest := BlocksBelow(names, BlockBound(names)), OfRank(names, Rank(2, 0));
    SpecialRanks();
    OnceOfRank(TokenEmbd(), names, r);
    OnceOfRank(OutputNorm(), names, r);
    OnceOfRank(Output(), names, r);
    BlocksOfRank(names, BlockBound(names), r);
    OfRankUniform(rest, Rank(2, 0), r);
    OfRankParts(t, blocks, rest, o, w, r);
    if (r.group == 1 && r.block >= BlockBound(names)) || r.group > 4 || (r.group != 1 && r.block > 0) {
      NoOtherRank(names, r);
    }
  }

  // ----- ascending ranks

  lemma RankedConcat(x: seq<Name>, y: seq<Name>, r: Rank)
    requires Ranked(x) && Ranked(y)
    requires forall i :: 0 <= i < |x| ==> Before(RankOf(x[i]), r)
    requires forall i :: 0 <= i < |y| ==> Before(r, RankOf(y[i]))
    ensures Ranked(x + y)
  {
    hide RankOf;
  }

  lemma {:induction false} BlocksRanked(names: seq<Name>, hi: nat)
    ensures Ranked(BlocksBelow(names, hi))
    ensures forall i :: 0 <= i < |BlocksBelow(names, hi)| ==>
              RankOf(BlocksBelow(names, hi)[i]).group == 1 && RankOf(BlocksBelow(names, hi)[i]).block < hi
  {
    hide RankOf, OfRank;
    if hi > 0 {
      BlocksRanked(names, hi - 1);
      RankedConcat(BlocksBelow(names, hi - 1), OfRank(names, Rank(1, hi - 1)), Rank(1, hi - 1));
    }
  }

  /** Token embedding, blocks ascending, the rest, output norm, output. */
  lemma CanonicalIsRanked(names: seq<Name>)
    ensures Ranked(Canonical(names))
  {
    hide BlocksBelow, OfRank, RankOf, TokenEmbd, OutputNorm, Output;
    var t, o, w := Once(TokenEmbd(), names), Once(OutputNorm(), names), Once(Output(), names);
    var blocks, rest := BlocksBelow(names, BlockBound(names)), OfRank(names, Rank(2, 0));
    SpecialRanks();
    BlocksRanked(names, BlockBound(names));
    RankedConcat(t, blocks, Rank(1, 0));
    RankedConcat(t + blocks, rest, Rank(2, 0));
    RankedConcat(o, w, Rank(4, 0));
    RankedConcat(t + blocks + rest, o + w, Rank(3, 0));
  }

  /** What the order says of two names, the first one in front: by the literal names and the digits
      behind `blk.`. */
  lemma CanonicalReads(names: seq<Name>, i: nat, j: nat)
    requires i < j < |Canonical(names)|
    ensures var x, y := Canonical(names)[i], Canonical(names)[j];
            && (y == Ascii("token_embd.weight") ==> x == y) && (x == Ascii("output.weight") ==> y == x)
            && (x == Ascii("output_norm.weight") ==> y == x || y == Ascii("output.weight"))
            && (BlkOf(y).Some? ==> BlkOf(x).Some? || x == Ascii("token_embd.weight"))
            && (BlkOf(y).Some? && BlkOf(x).Some? ==> BlkOf(x).value <= BlkOf(y).value)
  {
    hide Canonical, BlkOf;
    CanonicalIsRanked(names);
    SpecialNames();
    assert Before(RankOf(Canonical(names)[i]), RankOf(Canonical(names)[j]));
  }

  // ----- what stability and rank determine

  lemma {:induction false} OfRankCounts(names: seq<Name>, n: Name)
    ensures multiset(OfRank(names, RankOf(n)))[n] == multiset(names)[n]
  {
    if names != [] {
      hide RankOf;
      var last := |names| - 1;
      OfRankCounts(names[..last], n);
      assert names == names[..last] + [names[last]];
    }
  }

  /** The same names rank by rank are the same names. */
  lemma SameRanksSameNames(x: seq<Name>, y: seq<Name>)
    requires forall r :: OfRank(x, r) == OfRank(y, r)
    ensures multiset(x) == multiset(y)
  {
    forall n: Name ensures multiset(x)[n] == multiset(y)[n] {
      OfRankCounts(x, n);
      OfRankCounts(y, n);
    }
  }

  lemma BothWays(r: Rank, q: Rank)
    requires Before(r, q) && Before(q, r)
    ensures r == q
  {
  }

  lemma LastsAgree(x: seq<Name>, y: seq<Name>)
    requires x != [] && y != [] && Ranked(x) && Ranked(y) && multiset(x) == multiset(y)
    requires forall r :: OfRank(x, r) == OfRank(y, r)
    ensures x[|x| - 1] == y[|y| - 1]
  {
    hide OfRank, Ranked, RankOf;
    LastRank(x, y);
    LastRank(y, x);
    var a, b := x[|x| - 1], y[|y| - 1];
    BothWays(RankOf(a), RankOf(b));
    hide Before;
    FrontOfRank(x, RankOf(a));
    FrontOfRank(y, RankOf(a));
  }

  lemma FrontsAgree(x: seq<Name>, y: seq<Name>, r: Rank)
    requires x != [] && y != [] && x[|x| - 1] == y[|y| - 1] && OfRank(x, r) == OfRank(y, r)
    ensures OfRank(x[..|x| - 1], r) == OfRank(y[..|y| - 1], r)
  {
    hide RankOf, OfRank;
    FrontOfRank(x, r);
    FrontOfRank(y, r);
  }

  /** Only one sequence ascends in rank and has given names in given order within every rank. */
  lemma {:induction false} RankedIsUnique(x: seq<Name>, y: seq<Name>)
    requires Ranked(x) && Ranked(y) && forall r :: OfRank(x, r) == OfRank(y, r)
    ensures x == y
    decreases |x|
  {
    SameRanksSameNames(x, y);
    assert |multiset(x)| == |x| && |multiset(y)| == |y|;
    hide OfRank;
    if x != [] {
      LastsAgree(x, y);
      RankedFront(x);
      RankedFront(y);
      hide Ranked;
      var x', y' := x[..|x| - 1], y[..|y| - 1];
      forall r ensures OfRank(x', r) == OfRank(y', r) { FrontsAgree(x, y, r); }
      RankedIsUnique(x', y');
      assert x == x' + [x[|x| - 1]] && y == y' + [x[|x| - 1]];
    }
  }

  lemma FrontOfRank(x: seq<Name>, r: Rank)
    requires x != []
    ensures var last := |x| - 1;
            OfRank(x[..last], r) == if RankOf(x[last]) == r then OfRank(x, r)[..|OfRank(x, r)| - 1] else OfRank(x, r)
    ensures RankOf(x[|x| - 1]) == r ==> OfRank(x, r) == OfRank(x[..|x| - 1], r) + [x[|x| - 1]]
  {
    hide RankOf;
  }

  lemma RankedFront(x: seq<Name>)
    requires x != [] && Ranked(x)
    ensures Ranked(x[..|x| - 1])
  {
  }

  lemma LastRank(x: seq<Name>, y: seq<Name>)
    requires x != [] && y != [] && Ranked(x) && multiset(x) == multiset(y)
    ensures Before(RankOf(y[|y| - 1]), RankOf(x[|x| - 1]))
  {
    hide RankOf;
    assert y[|y| - 1] in multiset(x);
  }

  /** The target is a permutation of the input names. */
  lemma CanonicalIsPermutation(names: seq<Name>)
    requires Distinct(names)
    ensures multiset(Canonical(names)) == multiset(names) && |Canonical(names)| == |names|
  {
    hide Canonical, OfRank, Distinct;
    forall r ensures OfRank(Canonical(names), r) == OfRank(names, r) { CanonicalIsStable(names, r); }
    SameRanksSameNames(Canonical(names), names);
    assert |multiset(Canonical(names))| == |multiset(names)|;
  }

  lemma {:induction false} OneOfEach(names: seq<Name>, n: Name)
    requires Distinct(names)
    ensures multiset(names)[n] <= 1
  {
    if names != [] {
      var last := |names| - 1;
      assert names == names[..last] + [names[last]];
      OneOfEach(names[..last], n);
      if n == names[last] { assert n !in names[..last]; }
    }
  }

  lemma PermutationDistinct(x: seq<Name>, y: seq<Name>)
    requires Distinct(x) && multiset(x) == multiset(y)
    ensures Distinct(y)
  {
    forall i, j | 0 <= i < j < |y| ensures y[i] != y[j] {
      if y[i] == y[j] {
        TwiceIn(y, i, j);
        OneOfEach(x, y[i]);
      }
    }
  }

  /** A file already in canonical order stays as it is. */
  lemma CanonicalIsIdempotent(names: seq<Name>)
    requires Distinct(names)
    ensures Canonical(Canonical(names)) == Canonical(names)
  {
    var c := Canonical(names);
    CanonicalIsPermutation(names);
    PermutationDistinct(names, c);
    CanonicalIsRanked(names);
    CanonicalIsRanked(c);
    forall r ensures OfRank(Canonical(c), r) == OfRank(c, r) { CanonicalIsStable(c, r); }
    hide Canonical;
    RankedIsUnique(Canonical(c), c);
  }

  /** `--order-from`: a reference that names every tensor of the file and no more entries than it
      has is a permutation of the file's names, by counting. */
  lemma OrderFromIsPermutation(names: seq<Name>, reference: seq<Name>)
    requires Distinct(names) && |reference| == |names|
    requires forall n :: n in names ==> n in reference
    ensures multiset(reference) == multiset(names) && Distinct(reference)
  {
    forall n: Name ensures multiset(names)[n] <= multiset(reference)[n] {
      OneOfEach(names, n);
      if n in names { assert n in reference; }
    }
    assert multiset(names) <= multiset(reference);
    assert multiset(reference) == multiset(names) + (multiset(reference) - multiset(names));
    assert |multiset(reference) - multiset(names)| == 0;
    PermutationDistinct(names, reference);
  }

  // ----- the script's loops

  /** The names outside every block, in order. */
  function Unblocked(names: seq<Name>): seq<Name>
  {
    if names == [] then []
    else
      var last := |names| - 1;
      Unblocked(names[..last]) + if BlkOf(names[last]).None? then [names[last]] else []
  }

  /** `[n for n in rest if n not in head and n not in tail]`. */
  function Without(rest: seq<Name>, special: seq<Name>): seq<Name>
  {
    if rest == [] then []
    else
      var last := |rest| - 1;
      Without(rest[..last], special) + if rest[last] in special then [] else [rest[last]]
  }

  /** `sorted(keys)`, for keys below `hi`. */
  function Ascending(keys: set<nat>, hi: nat): (r: seq<nat>)
    ensures forall i :: 0 <= i < |r| ==> r[i] in keys
  {
    if hi == 0 then [] else Ascending(keys, hi - 1) + if hi - 1 in keys then [hi - 1] else []
  }

  function Extended(blocks: map<nat, seq<Name>>, ks: seq<nat>): seq<Name>
    requires forall i :: 0 <= i < |ks| ==> ks[i] in blocks
  {
    if ks == [] then [] else Extended(blocks, ks[..|ks| - 1]) + blocks[ks[|ks| - 1]]
  }

  /** The dictionary of blocks after reading `names`. */
  ghost predicate Grouped(blocks: map<nat, seq<Name>>, names: seq<Name>)
  {
    forall b: nat ::
      && (b in blocks <==> OfRank(names, Rank(1, b)) != [])
      && (b in blocks ==> blocks[b] == OfRank(names, Rank(1, b)))
  }

  lemma {:induction false} ExtendedIsBlocks(blocks: map<nat, seq<Name>>, names: seq<Name>, hi: nat)
    requires Grouped(blocks, names)
    ensures Extended(blocks, Ascending(blocks.Keys, hi)) == BlocksBelow(names, hi)
  {
    hide OfRank, Grouped, RankOf;
    if hi > 0 {
      ExtendedIsBlocks(blocks, names, hi - 1);
      hide Extended, Ascending, BlocksBelow;
      OneMoreBlock(blocks, names, hi - 1);
    } else {
      assert Ascending(blocks.Keys, hi) == [];
    }
  }

  lemma OneMoreBlock(blocks: map<nat, seq<Name>>, names: seq<Name>, b: nat)
    requires Grouped(blocks, names)
    requires Extended(blocks, Ascending(blocks.Keys, b)) == BlocksBelow(names, b)
    ensures Extended(blocks, Ascending(blocks.Keys, b + 1)) == BlocksBelow(names, b + 1)
  {
    var ks, below, part := Ascending(blocks.Keys, b), BlocksBelow(names, b), OfRank(names, Rank(1, b));
    assert Ascending(blocks.Keys, b + 1) == ks + if b in blocks then [b] else [];
    assert BlocksBelow(names, b + 1) == below + part;
    assert if b in blocks then blocks[b] == part else part == [];
    hide Ascending, BlocksBelow, OfRank, Extended, Grouped;
    if b in blocks {
      ExtendedStep(blocks, ks, b);
    } else {
      assert ks + [] == ks && below + [] == below;
    }
  }

  lemma ExtendedStep(blocks: map<nat, seq<Name>>, ks: seq<nat>, k: nat)
    requires k in blocks && forall i :: 0 <= i < |ks| ==> ks[i] in blocks
    ensures Extended(blocks, ks + [k]) == Extended(blocks, ks) + blocks[k]
  {
    assert (ks + [k])[..|ks|] == ks;
  }

  lemma {:induction false} UnblockedMembers(names: seq<Name>, n: Name)
    ensures n in Unblocked(names) <==> n in names && BlkOf(n).None?
  {
    if names != [] {
      hide BlkOf;
      UnblockedMembers(names[..|names| - 1], n);
      assert n in names <==> n == names[|names| - 1] || n in names[..|names| - 1];
    }
  }

  /** Dropping the head and tail names from the unblocked ones leaves the rank of the rest. */
  lemma {:induction false} WithoutIsRest(names: seq<Name>, special: seq<Name>)
    requires forall n :: n in names && BlkOf(n).None? ==>
               (n in special <==> n == TokenEmbd() || n == OutputNorm() || n == Output())
    ensures Without(Unblocked(names), special) == OfRank(names, Rank(2, 0))
  {
    if names != [] {
      hide BlkOf, TokenEmbd, OutputNorm, Output;
      var last := |names| - 1;
      WithoutIsRest(names[..last], special);
      var u := Unblocked(names[..last]);
      assert names[last] in names;
      if BlkOf(names[last]).None? {
        assert (u + [names[last]])[..|u|] == u;
      } else {
        assert u + [] == u;
      }
    }
  }

  lemma GroupedStep(blocks: map<nat, seq<Name>>, names: seq<Name>, i: nat)
    requires i < |names| && Grouped(blocks, names[..i])
    ensures match BlkOf(names[i])
            case None => Grouped(blocks, names[..i + 1])
            case Some(b) =>
              Grouped(blocks[b := (if b in blocks then blocks[b] else []) + [names[i]]], names[..i + 1])
  {
    hide BlkOf;
    assert names[..i + 1][..i] == names[..i];
  }

  lemma UnblockedNone()
    ensures Unblocked([]) == []
  {
  }

  lemma UnblockedStep(names: seq<Name>, i: nat)
    requires i < |names|
    ensures Unblocked(names[..i + 1]) == Unblocked(names[..i]) + if BlkOf(names[i]).None? then [names[i]] else []
  {
    hide BlkOf;
    assert names[..i + 1][..i] == names[..i];
  }

  /** The dictionary of blocks and the list of the other names. */
  method Group(names: seq<Name>) returns (blocks: map<nat, seq<Name>>, rest: seq<Name>)
    ensures Grouped(blocks, names) && rest == Unblocked(names)
  {
    blocks, rest := map[], [];
    var i := 0;
    assert Grouped(blocks, names[..i]);
    hide BlkOf, Grouped, OfRank, RankOf, Unblocked;
    assert rest == Unblocked(names[..i]) by { UnblockedNone(); }
    while i < |names|
      invariant i <= |names| && rest == Unblocked(names[..i]) && Grouped(blocks, names[..i])
    {
      UnblockedStep(names, i);
      GroupedStep(blocks, names, i);
      var b := BlkOf(names[i]);
      if b.None? {
        rest := rest + [names[i]];
      } else {
        blocks := blocks[b.value := (if b.value in blocks then blocks[b.value] else []) + [names[i]]];
      }
      i := i + 1;
    }
    assert names[..i] == names;
  }

  /** The head, the blocks in ascending order, the rest and the tail. */
  method CanonicalOrder(names: seq<Name>) returns (out: seq<Name>)
    ensures out == Canonical(names)
  {
    var blocks, rest := Group(names);
    hide BlkOf, TokenEmbd, OutputNorm, Output, Grouped, OfRank, Unblocked, Without, BlocksBelow, Ascending;
    SpecialNames();
    UnblockedMembers(names, TokenEmbd());
    UnblockedMembers(names, OutputNorm());
    UnblockedMembers(names, Output());
    var head := if TokenEmbd() in rest then [TokenEmbd()] else [];
    var tail := (if OutputNorm() in rest then [OutputNorm()] else []) + if Output() in rest then [Output()] else [];
    WithoutIsRest(names, head + tail);
    rest := Without(rest, head + tail);
    out := ExtendWith(head, blocks, Ascending(blocks.Keys, BlockBound(names)));
    ExtendedIsBlocks(blocks, names, BlockBound(names));
    out := out + rest + tail;
  }

  method ExtendWith(head: seq<Name>, blocks: map<nat, seq<Name>>, ks: seq<nat>) returns (out: seq<Name>)
    requires forall i :: 0 <= i < |ks| ==> ks[i] in blocks
    ensures out == head + Extended(blocks, ks)
  {
    out := head;
    var i := 0;
    assert out == head + Extended(blocks, ks[..0]);
    while i < |ks|
      invariant i <= |ks| && out == head + Extended(blocks, ks[..i])
    {
      assert ks[..i + 1] == ks[..i] + [ks[i]];
      ExtendedStep(blocks, ks[..i], ks[i]);
      out := out + blocks[ks[i]];
      i := i + 1;
    }
    assert ks[..i] == ks;
  }
}
