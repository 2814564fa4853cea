/** scripts/gguf-blockorder.py, the file half: tensor sizes, the upload prefix, the rewrite and its
    re-reading. */
module BlockOrderFile {
  import opened Wrappers
  import opened Bytes
  import opened Align
  import opened Names
  import opened Gguf
  import opened GgufReader
  import opened BlockOrder
  import opened Sums

  /** A directory entry with the bytes its tensor occupies. */
  datatype Sized = Sized(t: Tensor, n: nat)

  function NamesOf(ss: seq<Sized>): (r: seq<Name>)
    ensures |r| == |ss| && forall i :: 0 <= i < |r| ==> r[i] == ss[i].t.name
  {
    seq(|ss|, i requires 0 <= i < |ss| => ss[i].t.name)
  }

  // ----- the upload prefix

  /** Whether a split of blocks 0 .. `last` uploads the tensor. */
  predicate Needed(name: Name, last: nat)
  {
    (BlkOf(name).Some? && BlkOf(name).value <= last) || name == TokenEmbd()
  }

  /** Bytes uploaded: from byte 0 through the farthest needed tensor. */
  function Prefix(ss: seq<Sized>, start: nat, last: nat): nat
  {
    if ss == [] then 0
    else
      var end := Prefix(ss[..|ss| - 1], start, last);
      var s := ss[|ss| - 1];
      if Needed(s.t.name, last) && start + s.t.off + s.n > end then start + s.t.off + s.n else end
  }

  method PrefixToBlocks(ss: seq<Sized>, start: nat, last: nat) returns (end: nat)
    ensures end == Prefix(ss, start, last)
  {
    hide Needed;
    end := 0;
    var i := 0;
    while i < |ss|
      invariant i <= |ss| && end == Prefix(ss[..i], start, last)
    {
      assert ss[..i + 1][..i] == ss[..i];
      if Needed(ss[i].t.name, last) && start + ss[i].t.off + ss[i].n > end {
        end := start + ss[i].t.off + ss[i].n;
      }
      i := i + 1;
    }
    assert ss[..i] == ss;
  }

  lemma {:induction false} PrefixCovers(ss: seq<Sized>, start: nat, last: nat, i: nat)
    requires i < |ss| && Needed(ss[i].t.name, last)
    ensures start + ss[i].t.off + ss[i].n <= Prefix(ss, start, last)
  {
    hide Needed;
    if i < |ss| - 1 { PrefixCovers(ss[..|ss| - 1], start, last, i); }
  }

  /** The prefix ends at a needed tensor, or is empty when nothing is needed. */
  lemma {:induction false} PrefixBound(ss: seq<Sized>, start: nat, last: nat, bound: nat)
    requires forall i :: 0 <= i < |ss| && Needed(ss[i].t.name, last) ==> start + ss[i].t.off + ss[i].n <= bound
    ensures Prefix(ss, start, last) <= bound
  {
    if ss != [] {
      hide Needed;
      PrefixBound(ss[..|ss| - 1], start, last, bound);
    }
  }

  // ----- the new directory

  /** The tensors in order, at offsets recomputed from `off`. */
  function Arrange(ss: seq<Sized>, a: nat, off: nat): (r: seq<Sized>)
    requires a > 0
    ensures |r| == |ss|
  {
    if ss == [] then []
    else [Sized(ss[0].t.(off := off), ss[0].n)] + Arrange(ss[1..], a, RoundUp(off + ss[0].n, a))
  }

  lemma {:induction false} ArrangeKeeps(ss: seq<Sized>, a: nat, off: nat, i: nat)
    requires a > 0 && i < |ss|
    ensures var r := Arrange(ss, a, off)[i];
            r.n == ss[i].n && r.t == ss[i].t.(off := r.t.off) && off <= r.t.off
  {
    if i > 0 {
      RoundUpIs(off + ss[0].n, a);
      ArrangeKeeps(ss[1..], a, RoundUp(off + ss[0].n, a), i - 1);
    }
  }

  /** `by_name[name]`. */
  function ByName(ss: seq<Sized>, name: Name): Sized
  {
    if ss == [] then Sized(Tensor(name, [], 0, 0), 0)
    else if ss[|ss| - 1].t.name == name then ss[|ss| - 1]
    else ByName(ss[..|ss| - 1], name)
  }

  function Finder(ss: seq<Sized>): Name -> Sized { name => ByName(ss, name) }

  function InOrder(ss: seq<Sized>, target: seq<Name>): (r: seq<Sized>)
    ensures |r| == |target|
  {
    Map(target, Finder(ss))
  }

  lemma {:induction false} ByNameFinds(ss: seq<Sized>, i: nat)
    requires i < |ss| && Distinct(NamesOf(ss))
    ensures ByName(ss, ss[i].t.name) == ss[i]
  {
    if i < |ss| - 1 {
      assert NamesOf(ss[..|ss| - 1]) == NamesOf(ss)[..|ss| - 1];
      assert NamesOf(ss)[i] != NamesOf(ss)[|ss| - 1];
      ByNameFinds(ss[..|ss| - 1], i);
    }
  }

  /** Reordering by a permutation of the names permutes the tensors. */
  lemma InOrderPermutes(ss: seq<Sized>, target: seq<Name>)
    requires Distinct(NamesOf(ss)) && multiset(target) == multiset(NamesOf(ss))
    ensures multiset(InOrder(ss, target)) == multiset(ss) && |target| == |ss|
    ensures NamesOf(InOrder(ss, target)) == target
  {
    forall i | 0 <= i < |ss| ensures Finder(ss)(NamesOf(ss)[i]) == ss[i] { ByNameFinds(ss, i); }
    assert Map(NamesOf(ss), Finder(ss)) == ss;
    MapPermutation(target, NamesOf(ss), Finder(ss));
    assert |multiset(target)| == |multiset(NamesOf(ss))|;
    forall k | 0 <= k < |target| ensures InOrder(ss, target)[k].t.name == target[k] {
      assert target[k] in multiset(NamesOf(ss));
      var i :| 0 <= i < |ss| && NamesOf(ss)[i] == target[k];
    }
  }

  // ----- packing

  /** Neither tensor's bytes overlap the other's. */
  predicate Apart(x: Sized, y: Sized)
  {
    x.n == 0 || y.n == 0 || x.t.off + x.n <= y.t.off || y.t.off + y.n <= x.t.off
  }

  /** A layout a file may have: aligned offsets, no two tensors overlapping. */
  predicate Packed(ss: seq<Sized>, a: nat)
    requires a > 0
  {
    && (forall i :: 0 <= i < |ss| ==> ss[i].t.off % a == 0)
    && forall i, j :: 0 <= i < j < |ss| ==> Apart(ss[i], ss[j])
  }

  /** Aligned bytes a tensor takes of an upload. */
  function Cost(last: nat, a: nat): Sized -> int
    requires a > 0
  {
    (s: Sized) => if Needed(s.t.name, last) then RoundUp(s.n, a) else 0
  }

  lemma PackedWithout(ss: seq<Sized>, a: nat, k: nat)
    requires a > 0 && k < |ss| && Packed(ss, a)
    ensures Packed(Drop(ss, k), a)
  {
  }

  /** The needed, non-empty tensor with the largest offset, if there is one. */
  lemma {:induction false} Farthest(ss: seq<Sized>, last: nat) returns (k: nat)
    ensures k <= |ss|
    ensures k < |ss| ==> Needed(ss[k].t.name, last) && ss[k].n > 0
    ensures forall i :: 0 <= i < |ss| && Needed(ss[i].t.name, last) && ss[i].n > 0 ==>
              k < |ss| && ss[i].t.off <= ss[k].t.off
    decreases |ss|
  {
    hide Needed;
    if ss == [] { return 0; }
    var m := |ss| - 1;
    k := Farthest(ss[..m], last);
    if Needed(ss[m].t.name, last) && ss[m].n > 0 && (k == m || ss[k].t.off <= ss[m].t.off) {
      k := m;
    } else if k == m {
      k := |ss|;
    }
  }

  lemma {:induction false} CostOfNothing(ss: seq<Sized>, last: nat, a: nat)
    requires a > 0 && forall i :: 0 <= i < |ss| ==> !(Needed(ss[i].t.name, last) && ss[i].n > 0)
    ensures Sum(ss, Cost(last, a)) == 0
  {
    if ss != [] {
      MultipleFixed(0, a);
      CostOfNothing(ss[1..], last, a);
    }
  }

  /** Disjoint aligned tensors that end by `bound` take no more than `bound`, rounded up. */
  lemma {:induction false} PackingBound(ss: seq<Sized>, last: nat, a: nat, bound: nat)
    requires a > 0 && Packed(ss, a)
    requires forall i :: 0 <= i < |ss| && Needed(ss[i].t.name, last) && ss[i].n > 0 ==> ss[i].t.off + ss[i].n <= bound
    ensures Sum(ss, Cost(last, a)) <= RoundUp(bound, a)
    decreases |ss|
  {
    var k := Farthest(ss, last);
    if k == |ss| {
      CostOfNothing(ss, last, a);
    } else {
      var s, rest := ss[k], Drop(ss, k);
      hide Needed;
      PackedWithout(ss, a, k);
      forall i | 0 <= i < |rest| && Needed(rest[i].t.name, last) && rest[i].n > 0
        ensures rest[i].t.off + rest[i].n <= s.t.off
      {
        var j := if i < k then i else i + 1;
        assert rest[i] == ss[j] && Apart(ss[j], s);
      }
      PackingBound(rest, last, a, s.t.off);
      DropIs(ss, k, Cost(last, a));
      MultipleFixed(s.t.off, a);
      RoundUpShift(s.t.off, s.n, a);
      RoundUpMonotone(s.t.off + s.n, bound, a);
    }
  }

  // ----- the canonical layout

  lemma NeededIsDownward(x: Name, y: Name, last: nat)
    requires Before(RankOf(x), RankOf(y)) && Needed(y, last)
    ensures Needed(x, last)
  {
    SpecialNames();
  }

  /** A split of blocks 0 .. `last` needs the tensors numbered up to `last`, the token embedding, and
      no other tensor. */
  lemma NeededReads(d: seq<byte>, rest: seq<byte>, last: nat)
    requires AllDigits(d) && d != []
    ensures Needed(Ascii("blk.") + (d + ([46] + rest)), last) <==> Decimal(d) <= last
    ensures Needed(Ascii("token_embd.weight"), last)
  {
    SpecialNames();
    BlkOfNumbered(d, rest);
    hide BlkOf;
  }

  lemma NoOtherIsNeeded(name: Name, last: nat)
    requires Needed(name, last) && name != Ascii("token_embd.weight")
    ensures exists d, rest ::
              AllDigits(d) && d != [] && name == Ascii("blk.") + (d + ([46] + rest)) && Decimal(d) <= last
  {
    hide BlkOf, Decimal;
    var d, rest := BlkOfOnlyNumbered(name);
  }

  lemma {:induction false} NoneNeeded(ss: seq<Sized>, start: nat, last: nat)
    requires forall i :: 0 <= i < |ss| ==> !Needed(ss[i].t.name, last)
    ensures Prefix(ss, start, last) == 0
  {
    if ss != [] { NoneNeeded(ss[..|ss| - 1], start, last); }
  }

  lemma CostIsPositive(ss: seq<Sized>, last: nat, a: nat)
    requires a > 0
    ensures Sum(ss, Cost(last, a)) >= 0
  {
    if ss != [] {
      CostIsPositive(ss[1..], last, a);
    }
  }

  /** In rank order the needed tensors come first, so each ends within their own aligned bytes. */
  lemma {:induction false} ArrangedEnds(ss: seq<Sized>, last: nat, a: nat, off: nat, i: nat)
    requires a > 0 && off % a == 0 && i < |ss| && Ranked(NamesOf(ss)) && Needed(ss[i].t.name, last)
    ensures Arrange(ss, a, off)[i].t.off + ss[i].n <= off + Sum(ss, Cost(last, a))
  {
    var next := RoundUp(off + ss[0].n, a);
    RoundUpShift(off, ss[0].n, a);
    RoundUpIs(ss[0].n, a);
    RoundUpIs(off + ss[0].n, a);
    CostIsPositive(ss[1..], last, a);
    if i > 0 {
      assert Before(RankOf(NamesOf(ss)[0]), RankOf(NamesOf(ss)[i]));
      NeededIsDownward(ss[0].t.name, ss[i].t.name, last);
      hide Needed, RankOf;
      assert NamesOf(ss[1..]) == NamesOf(ss)[1..];
      ArrangedEnds(ss[1..], last, a, next, i - 1);
    }
  }

  /** Names and sizes, whatever the layout. */
  function Contents(ss: seq<Sized>): (r: seq<(Name, nat)>)
    ensures |r| == |ss| && forall i :: 0 <= i < |r| ==> r[i] == (ss[i].t.name, ss[i].n)
  {
    seq(|ss|, i requires 0 <= i < |ss| => (ss[i].t.name, ss[i].n))
  }

  function PairCost(last: nat, a: nat): ((Name, nat)) -> int
    requires a > 0
  {
    (p: (Name, nat)) => if Needed(p.0, last) then RoundUp(p.1, a) else 0
  }

  lemma {:induction false} CostOfContents(ss: seq<Sized>, last: nat, a: nat)
    requires a > 0
    ensures Sum(ss, Cost(last, a)) == Sum(Contents(ss), PairCost(last, a))
  {
    if ss != [] {
      hide Needed;
      assert Contents(ss)[1..] == Contents(ss[1..]);
      CostOfContents(ss[1..], last, a);
    }
  }

  /** The canonical layout of a file's tensors. */
  function CanonicalLayout(ss: seq<Sized>, a: nat): seq<Sized>
    requires a > 0
  {
    Arrange(InOrder(ss, Canonical(NamesOf(ss))), a, 0)
  }

  /** For every split, no layout of the same tensors uploads less than the canonical one, in
      aligned bytes; in bytes the canonical one is less than one alignment above any of them. */
  lemma CanonicalIsOptimal(ss: seq<Sized>, other: seq<Sized>, a: nat, start: nat, last: nat)
    requires a > 0 && start % a == 0 && Distinct(NamesOf(ss))
    requires multiset(Contents(other)) == multiset(Contents(ss)) && Packed(other, a)
    ensures var best := Prefix(CanonicalLayout(ss, a), start, last);
            var its := Prefix(other, start, last);
            RoundUp(best, a) <= RoundUp(its, a) && (best == 0 || best < its + a)
  {
    hide Canonical, Ranked, RankOf, Packed, Distinct, Needed, Arrange, Prefix, Cost, Contents, InOrder, NamesOf;
    var names := NamesOf(ss);
    var ordered := InOrder(ss, Canonical(names));
    var canon := Arrange(ordered, a, 0);
    var its := Prefix(other, start, last);
    CanonicalIsPermutation(names);
    CanonicalIsRanked(names);
    InOrderPermutes(ss, Canonical(names));
    SameTotal(ss, ordered, other, last, a);
    CostIsPositive(ordered, last, a);
    var total := Sum(ordered, Cost(last, a));
    if k :| 0 <= k < |ordered| && Needed(ordered[k].t.name, last) {
      CanonicalEnd(ordered, last, a, start);
      NeededSomewhere(ss, ordered, other, last, k, start);
      UploadHolds(other, last, a, start);
      CompareRounded(Prefix(canon, start, last), its, start, total, a);
    } else {
      forall i | 0 <= i < |canon| ensures !Needed(canon[i].t.name, last) { ArrangeKeeps(ordered, a, 0, i); }
      NoneNeeded(canon, start, last);
      RoundUpMonotone(0, its, a);
    }
  }

  lemma SameTotal(ss: seq<Sized>, ordered: seq<Sized>, other: seq<Sized>, last: nat, a: nat)
    requires a > 0 && multiset(ordered) == multiset(ss) && multiset(Contents(other)) == multiset(Contents(ss))
    ensures Sum(ordered, Cost(last, a)) == Sum(other, Cost(last, a))
  {
    SumPermutation(ordered, ss, Cost(last, a));
    CostOfContents(ss, last, a);
    CostOfContents(other, last, a);
    SumPermutation(Contents(ss), Contents(other), PairCost(last, a));
  }

  /** What any layout uploads holds every needed tensor. */
  lemma UploadHolds(other: seq<Sized>, last: nat, a: nat, start: nat)
    requires a > 0 && Packed(other, a) && start <= Prefix(other, start, last)
    ensures Sum(other, Cost(last, a)) <= RoundUp(Prefix(other, start, last) - start, a)
  {
    hide Needed;
    forall i | 0 <= i < |other| && Needed(other[i].t.name, last)
      ensures start + other[i].t.off + other[i].n <= Prefix(other, start, last)
    {
      PrefixCovers(other, start, last, i);
    }
    PackingBound(other, last, a, Prefix(other, start, last) - start);
  }

  lemma CompareRounded(best: nat, its: nat, start: nat, total: nat, a: nat)
    requires a > 0 && start % a == 0 && start <= its
    requires best <= start + total && total <= RoundUp(its - start, a)
    ensures RoundUp(best, a) <= RoundUp(its, a) && best < its + a
  {
    RoundUpShift(start, its - start, a);
    RoundUpIs(its, a);
    RoundUpMonotone(best, RoundUp(its, a), a);
    MultipleFixed(RoundUp(its, a), a);
  }

  lemma CanonicalEnd(ordered: seq<Sized>, last: nat, a: nat, start: nat)
    requires a > 0 && Ranked(NamesOf(ordered))
    ensures Prefix(Arrange(ordered, a, 0), start, last) <= start + Sum(ordered, Cost(last, a))
  {
    hide Needed, Ranked;
    CostIsPositive(ordered, last, a);
    forall i | 0 <= i < |ordered| && Needed(Arrange(ordered, a, 0)[i].t.name, last)
      ensures start + Arrange(ordered, a, 0)[i].t.off + Arrange(ordered, a, 0)[i].n
           <= start + Sum(ordered, Cost(last, a))
    {
      ArrangeKeeps(ordered, a, 0, i);
      ArrangedEnds(ordered, last, a, 0, i);
    }
    PrefixBound(Arrange(ordered, a, 0), start, last, start + Sum(ordered, Cost(last, a)));
  }

  /** A needed tensor is in every layout, so every prefix reaches the data section. */
  lemma NeededSomewhere(ss: seq<Sized>, ordered: seq<Sized>, other: seq<Sized>, last: nat, k: nat, start: nat)
    requires k < |ordered| && Needed(ordered[k].t.name, last) && multiset(ordered) == multiset(ss)
    requires multiset(Contents(other)) == multiset(Contents(ss))
    ensures start <= Prefix(other, start, last)
  {
    hide Needed;
    assert ordered[k] in multiset(ss);
    var i :| 0 <= i < |ss| && ss[i] == ordered[k];
    assert Contents(ss)[i] in multiset(Contents(other));
    var j :| 0 <= j < |other| && Contents(other)[j] == Contents(ss)[i];
    PrefixCovers(other, start, last, j);
  }

  // ----- read_header

  /** ggml type -> (block width, bytes per block). */
  function Block(tt: nat): Option<(nat, nat)>
  {
    match tt
    case 0 => Some((1, 4)) case 1 => Some((1, 2)) case 2 => Some((32, 18)) case 3 => Some((32, 20))
    case 6 => Some((32, 22)) case 7 => Some((32, 24)) case 8 => Some((32, 34)) case 9 => Some((32, 36))
    case 10 => Some((256, 84)) case 11 => Some((256, 110)) case 12 => Some((256, 144)) case 13 => Some((256, 176))
    case 14 => Some((256, 210)) case 15 => Some((256, 292)) case 16 => Some((256, 66)) case 17 => Some((256, 74))
    case 18 => Some((256, 98)) case 19 => Some((256, 50)) case 20 => Some((32, 18)) case 21 => Some((256, 110))
    case 22 => Some((256, 82)) case 23 => Some((256, 136)) case 24 => Some((1, 1)) case 25 => Some((1, 2))
    case 26 => Some((1, 4)) case 27 => Some((1, 8)) case 28 => Some((1, 8)) case 29 => Some((256, 56))
    case 30 => Some((1, 2)) case 39 => Some((32, 17))
    case _ => None
  }

  function RowBytes(tt: nat, ne0: nat): Result<nat, Error>
  {
    match Block(tt)
    case None => Err(UnsupportedType)
    case Some((width, size)) =>
      if width == 0 || ne0 % width != 0 then Err(BadRowWidth) else Ok(ne0 / width * size)
  }

  function Product(ds: seq<nat>): nat
  {
    if ds == [] then 1 else Product(ds[..|ds| - 1]) * ds[|ds| - 1]
  }

  function TensorBytes(t: Tensor): Result<nat, Error>
  {
    if t.ne == [] then Err(NoDims)
    else
      match RowBytes(t.tt, t.ne[0])
      case Err(e) => Err(e)
      case Ok(row) => Ok(row * Product(t.ne[1..]))
  }

  function SizeAll(ts: seq<Tensor>): (r: Result<seq<Sized>, Error>)
    ensures r.Ok? ==> |r.value| == |ts| && forall i :: 0 <= i < |ts| ==>
              r.value[i].t == ts[i] && TensorBytes(ts[i]) == Ok(r.value[i].n)
  {
    if ts == [] then Ok([])
    else
      var last := |ts| - 1;
      match SizeAll(ts[..last])
      case Err(e) => Err(e)
      case Ok(ss) =>
        match TensorBytes(ts[last])
        case Err(e) => Err(e)
        case Ok(n) => Ok(ss + [Sized(ts[last], n)])
  }

  /** The last `general.alignment` of type u32; an entry of any other type is skipped. */
  function AlignmentOf(kvs: seq<Kv>): Result<nat, Error>
  {
    if kvs == [] then Ok(32)
    else
      var kv := kvs[|kvs| - 1];
      if kv.key == AlignmentKey() && kv.t == 4 then
        if kv.val.Scalar? && |kv.val.raw| == 4 then Ok(FromLe(kv.val.raw)) else Err(Truncated)
      else AlignmentOf(kvs[..|kvs| - 1])
  }

  /** What `read_header` returns; `header` is the file up to the end of the directory. */
  datatype Input = Input(kvEnd: nat, a: nat, tensors: seq<Sized>, start: nat, header: seq<byte>)

  function ReadInput(raw: seq<byte>): (r: Result<Input, Error>)
    ensures r.Ok? ==> r.value.a > 0 && r.value.kvEnd <= |r.value.header| <= r.value.start
                      && r.value.header <= raw
  {
    match ParseHeader(BLOCK_ORDER, raw)
    case Err(e) => Err(e)
    case Ok(p) =>
      if p.h.version != 3 then Err(BadVersion)
      else
        match AlignmentOf(p.h.kvs)
        case Err(e) => Err(e)
        case Ok(a) =>
          match SizeAll(p.h.tensors)
          case Err(e) => Err(e)
          case Ok(ss) =>
            if a == 0 then Err(DivisionByZero)
            else
              RoundUpIs(p.dirEnd, a);
              Ok(Input(p.metaEnd, a, ss, RoundUp(p.dirEnd, a), raw[..p.dirEnd]))
  }

  // ----- the rewrite

  function TensorsOf(ss: seq<Sized>): (r: seq<Tensor>)
    ensures |r| == |ss| && forall i :: 0 <= i < |r| ==> r[i] == ss[i].t
  {
    seq(|ss|, i requires 0 <= i < |ss| => ss[i].t)
  }

  /** The tensor's bytes are all in the file; an empty tensor asks for none. */
  predicate InFile(s: Sized, raw: seq<byte>, start: nat)
  {
    s.n == 0 || start + s.t.off + s.n <= |raw|
  }

  function DataOf(s: Sized, raw: seq<byte>, start: nat): (r: seq<byte>)
    requires InFile(s, raw, start)
    ensures |r| == s.n
  {
    if s.n == 0 then [] else raw[start + s.t.off..start + s.t.off + s.n]
  }

  predicate AllInFile(ss: seq<Sized>, raw: seq<byte>, start: nat)
  {
    forall i :: 0 <= i < |ss| ==> InFile(ss[i], raw, start)
  }

  /** The data written from position `pos` on, the next tensor going to offset `off`. */
  function Body(ss: seq<Sized>, raw: seq<byte>, start: nat, a: nat, off: nat, pos: nat): seq<byte>
    requires a > 0 && pos <= off && AllInFile(ss, raw, start)
  {
    if ss == [] then []
    else
      var s := ss[0];
      RoundUpIs(off + s.n, a);
      Zeros(off - pos) + (DataOf(s, raw, start) + Body(ss[1..], raw, start, a, RoundUp(off + s.n, a), off + s.n))
  }

  /** The file written for an input and a target order. */
  function Rewrite(raw: seq<byte>, target: seq<Name>): Result<seq<byte>, Error>
  {
    match ReadInput(raw)
    case Err(e) => Err(e)
    case Ok(inp) =>
      if exists n :: n in target && n !in NamesOf(inp.tensors) then Err(KeyError)
      else
        var ss := InOrder(inp.tensors, target);
        var dir := TensorsOf(Arrange(ss, inp.a, 0));
        if !TensorsOk(dir) then Err(StructError)
        else if inp.kvEnd + |EncTensors(dir)| != |inp.header| then Err(DirectoryResized)
        else if !AllInFile(ss, raw, inp.start) then Err(ShortRead)
        else Ok(inp.header[..inp.kvEnd] + (EncTensors(dir) + (Zeros(inp.start - |inp.header|)
                + Body(ss, raw, inp.start, inp.a, 0, 0))))
  }

  const CHUNK: nat := 0x10_0000

  /** Copies `n` bytes from position `q` in chunks; not `ok` when the file ends first. */
  method CopyBytes(raw: seq<byte>, q: nat, n: nat) returns (ok: bool, out: seq<byte>)
    ensures ok <==> n == 0 || q + n <= |raw|
    ensures ok ==> out == if n == 0 then [] else raw[q..q + n]
  {
    var left: nat, p: nat := n, q;
    out := [];
    while left != 0
      invariant left <= n && p == q + (n - left)
      invariant left < n ==> p <= |raw| && out == raw[q..p]
      invariant left == n ==> out == []
      decreases left
    {
      if p >= |raw| {
        return false, out;
      }
      var want := if CHUNK < left then CHUNK else left;
      var end := if p + want <= |raw| then p + want else |raw|;
      var buf := raw[p..end];
      assert raw[q..end] == raw[q..p] + buf;
      out, left, p := out + buf, left - |buf|, end;
    }
    ok := true;
  }

  method CopyTensor(s: Sized, raw: seq<byte>, start: nat) returns (ok: bool, out: seq<byte>)
    ensures ok <==> InFile(s, raw, start)
    ensures ok ==> out == DataOf(s, raw, start)
  {
    ok, out := CopyBytes(raw, start + s.t.off, s.n);
  }

  /** The data loop: gap, bytes, gap, bytes. The position never passes the wanted offset. */
  method WriteBody(ss: seq<Sized>, raw: seq<byte>, start: nat, a: nat) returns (r: Result<seq<byte>, Error>)
    requires a > 0
    ensures AllInFile(ss, raw, start) ==> r == Ok(Body(ss, raw, start, a, 0, 0))
    ensures !AllInFile(ss, raw, start) ==> r == Err(ShortRead)
  {
    hide InFile, Body, Zeros, RoundUp;
    var out, i := [], 0;
    var off: nat, pos: nat := 0, 0;
    while i < |ss|
      invariant i <= |ss| && pos <= off && AllInFile(ss[..i], raw, start)
      invariant AllInFile(ss, raw, start) ==> AllInFile(ss[i..], raw, start)
      invariant AllInFile(ss, raw, start) ==>
                  Body(ss, raw, start, a, 0, 0) == out + Body(ss[i..], raw, start, a, off, pos)
    {
      if pos > off {
        return Err(WentBackwards);
      }
      var ok, data := CopyTensor(ss[i], raw, start);
      if !ok {
        return Err(ShortRead);
      }
      RoundUpIs(off + ss[i].n, a);
      var next := RoundUp(off + ss[i].n, a);
      assert ss[i..][1..] == ss[i + 1..] && ss[..i + 1] == ss[..i] + [ss[i]];
      if AllInFile(ss, raw, start) {
        BodyStep(out, ss[i..], raw, start, a, off, pos);
      }
      out := out + Zeros(off - pos) + data;
      pos, off, i := off + ss[i].n, next, i + 1;
    }
    assert ss[..i] == ss;
    BodyOfNone(raw, start, a, off, pos);
    assert ss[i..] == [] && out + [] == out;
    r := Ok(out);
  }

  lemma BodyOfNone(raw: seq<byte>, start: nat, a: nat, off: nat, pos: nat)
    requires a > 0 && pos <= off
    ensures Body([], raw, start, a, off, pos) == []
  {
  }

  lemma BodyStep(out: seq<byte>, ss: seq<Sized>, raw: seq<byte>, start: nat, a: nat, off: nat, pos: nat)
    requires a > 0 && pos <= off && ss != [] && AllInFile(ss, raw, start)
    ensures AllInFile(ss[1..], raw, start) && off + ss[0].n <= RoundUp(off + ss[0].n, a)
    ensures out + Body(ss, raw, start, a, off, pos)
         == out + Zeros(off - pos) + DataOf(ss[0], raw, start)
            + Body(ss[1..], raw, start, a, RoundUp(off + ss[0].n, a), off + ss[0].n)
  {
    hide RoundUp, Zeros, DataOf, InFile;
    RoundUpIs(off + ss[0].n, a);
  }

  method RewriteFile(raw: seq<byte>, target: seq<Name>) returns (r: Result<seq<byte>, Error>)
    ensures r == Rewrite(raw, target)
  {
    hide ParseHeader, AlignmentOf, SizeAll, Arrange, InOrder, EncTensors, Body, AllInFile, TensorsOk;
    var read := ReadBlockHeader(raw);
    if read.Err? { return Err(read.error); }
    var inp := read.value;
    if exists n :: n in target && n !in NamesOf(inp.tensors) { return Err(KeyError); }
    var ss := InOrder(inp.tensors, target);
    var dir := TensorsOf(Arrange(ss, inp.a, 0));
    if !TensorsOk(dir) { return Err(StructError); }
    var out := inp.header[..inp.kvEnd] + EncTensors(dir);
    if |out| != |inp.header| { return Err(DirectoryResized); }
    var body := WriteBody(ss, raw, inp.start, inp.a);
    if body.Err? { return Err(body.error); }
    r := Ok(inp.header[..inp.kvEnd] + (EncTensors(dir) + (Zeros(inp.start - |inp.header|) + body.value)));
  }

  method ReadBlockHeader(raw: seq<byte>) returns (r: Result<Input, Error>)
    ensures r == ReadInput(raw)
  {
    hide ParseHeader, AlignmentOf, SizeAll;
    var p := ReadHeader(BLOCK_ORDER, raw);
    if p.Err? { return Err(p.error); }
    var h := p.value.h;
    if h.version != 3 { return Err(BadVersion); }
    var alignment := AlignmentOf(h.kvs);
    if alignment.Err? { return Err(alignment.error); }
    var ss := SizeAll(h.tensors);
    if ss.Err? { return Err(ss.error); }
    if alignment.value == 0 { return Err(DivisionByZero); }
    r := Ok(Input(p.value.metaEnd, alignment.value, ss.value, RoundUp(p.value.dirEnd, alignment.value),
        raw[..p.value.dirEnd]));
  }

  // ----- nothing but the order changes

  /** Where each tensor's bytes stand in the written data. */
  lemma {:induction false} BodyFindsData(ss: seq<Sized>, raw: seq<byte>, start: nat, a: nat, off: nat, pos: nat,
                                         out: seq<byte>, base: nat, i: nat)
    requires a > 0 && pos <= off && AllInFile(ss, raw, start) && i < |ss|
    requires At(out, base + pos, Body(ss, raw, start, a, off, pos))
    ensures At(out, base + Arrange(ss, a, off)[i].t.off, DataOf(ss[i], raw, start))
  {
    hide At, Zeros, DataOf, InFile;
    var s := ss[0];
    var next := RoundUp(off + s.n, a);
    RoundUpIs(off + s.n, a);
    hide RoundUp;
    AtSplit3(out, base + pos, Zeros(off - pos), DataOf(s, raw, start), Body(ss[1..], raw, start, a, next, off + s.n));
    if i > 0 {
      BodyFindsData(ss[1..], raw, start, a, next, off + s.n, out, base, i - 1);
    }
  }

  /** Bytes of a directory entry: the same whatever its offset. */
  function EntrySize(t: Tensor): nat { |EncTensor(t)| }

  lemma EntrySizeOf(t: Tensor, off: nat)
    ensures EntrySize(t.(off := off)) == EntrySize(t)
  {
    TensorFields([], 0, t);
    TensorFields([], 0, t.(off := off));
  }

  function SizeOfEntry(): Sized -> int { (s: Sized) => EntrySize(s.t) }

  lemma {:induction false} DirectoryLength(ss: seq<Sized>)
    ensures |EncTensors(TensorsOf(ss))| == Sum(ss, SizeOfEntry())
  {
    if ss != [] {
      hide EncTensor;
      assert TensorsOf(ss)[1..] == TensorsOf(ss[1..]);
      DirectoryLength(ss[1..]);
    }
  }

  lemma {:induction false} ArrangedLength(ss: seq<Sized>, a: nat, off: nat)
    requires a > 0
    ensures Sum(Arrange(ss, a, off), SizeOfEntry()) == Sum(ss, SizeOfEntry())
  {
    if ss != [] {
      EntrySizeOf(ss[0].t, off);
      hide EntrySize;
      ArrangedLength(ss[1..], a, RoundUp(off + ss[0].n, a));
      assert Arrange(ss, a, off)[1..] == Arrange(ss[1..], a, RoundUp(off + ss[0].n, a));
    }
  }

  /** The directory keeps its size under every permutation. */
  lemma DirectoryKeepsSize(ss: seq<Sized>, target: seq<Name>, a: nat)
    requires a > 0 && Distinct(NamesOf(ss)) && multiset(target) == multiset(NamesOf(ss))
    ensures |EncTensors(TensorsOf(Arrange(InOrder(ss, target), a, 0)))| == |EncTensors(TensorsOf(ss))|
  {
    hide EncTensors, Arrange, InOrder;
    var ordered := InOrder(ss, target);
    InOrderPermutes(ss, target);
    DirectoryLength(Arrange(ordered, a, 0));
    DirectoryLength(ss);
    ArrangedLength(ordered, a, 0);
    SumPermutation(ordered, ss, SizeOfEntry());
  }

  lemma {:induction false} SizeAllOf(ss: seq<Sized>)
    requires forall i :: 0 <= i < |ss| ==> TensorBytes(ss[i].t) == Ok(ss[i].n)
    ensures SizeAll(TensorsOf(ss)) == Ok(ss)
  {
    hide TensorBytes, SizeAll, TensorsOf;
    if ss == [] {
      SizeNone();
    } else {
      var last := |ss| - 1;
      SizeAllOf(ss[..last]);
      assert TensorsOf(ss)[..last] == TensorsOf(ss[..last]);
      SizeLast(TensorsOf(ss));
      assert ss == ss[..last] + [Sized(ss[last].t, ss[last].n)];
    }
  }

  lemma SizeNone()
    ensures TensorsOf([]) == [] && SizeAll([]) == Ok([])
  {
  }

  lemma SizeLast(ts: seq<Tensor>)
    requires ts != [] && SizeAll(ts[..|ts| - 1]).Ok? && TensorBytes(ts[|ts| - 1]).Ok?
    ensures SizeAll(ts)
         == Ok(SizeAll(ts[..|ts| - 1]).value + [Sized(ts[|ts| - 1], TensorBytes(ts[|ts| - 1]).value)])
  {
    hide TensorBytes;
  }

  /** A complete input: no read came up short, every tensor's bytes are in the file, the names are
      distinct, and the recomputed offsets fit their field. */
  predicate Complete(raw: seq<byte>, target: seq<Name>)
  {
    && ReadInput(raw).Ok? && ParseHeader(STRICT, raw).Ok?
    && var inp := ReadInput(raw).value;
       && Distinct(NamesOf(inp.tensors))
       && AllInFile(inp.tensors, raw, inp.start)
       && TensorsOk(TensorsOf(Arrange(InOrder(inp.tensors, target), inp.a, 0)))
  }

  lemma PermutedInFile(ss: seq<Sized>, ordered: seq<Sized>, raw: seq<byte>, start: nat)
    requires multiset(ordered) == multiset(ss) && AllInFile(ss, raw, start)
    ensures AllInFile(ordered, raw, start)
  {
    hide InFile;
    forall i | 0 <= i < |ordered| ensures InFile(ordered[i], raw, start) {
      assert ordered[i] in multiset(ss);
    }
  }

  /** The rewrite runs through for every permutation of the names: neither of its two internal
      errors can occur. */
  lemma RewriteSucceeds(raw: seq<byte>, target: seq<Name>)
    requires Complete(raw, target) && multiset(target) == multiset(NamesOf(ReadInput(raw).value.tensors))
    ensures Rewrite(raw, target).Ok?
  {
    hide ReadInput, ParseHeader, AllInFile, TensorsOk, EncTensors, Arrange, InOrder, Body, Distinct, NamesOf, HeaderOk,
         AlignmentOf, SizeAll, EncHeader, EncKvs, RoundUp;
    var inp := ReadInput(raw).value;
    InputIs(raw);
    SameMembers(target, NamesOf(inp.tensors));
    InOrderPermutes(inp.tensors, target);
    PermutedInFile(inp.tensors, InOrder(inp.tensors, target), raw, inp.start);
    DirectoryKeepsSize(inp.tensors, target, inp.a);
  }

  lemma SameMembers(x: seq<Name>, y: seq<Name>)
    requires multiset(x) == multiset(y)
    ensures forall n :: n in x ==> n in y
  {
    forall n | n in x ensures n in y { assert n in multiset(x); }
  }

  lemma HeaderLength(h: Header)
    ensures |EncHeader(h)| == 24 + |EncKvs(h.kvs)| + |EncTensors(h.tensors)|
  {
    CountsLength(h.version, |h.tensors|, |h.kvs|);
    hide EncCounts, EncKvs, EncTensors;
  }

  /** A complete input's header, printed. */
  lemma InputIs(raw: seq<byte>)
    requires ReadInput(raw).Ok? && ParseHeader(STRICT, raw).Ok?
    ensures var inp := ReadInput(raw).value;
            var h := ParseHeader(STRICT, raw).value.h;
            && HeaderOk(STRICT, h) && h.version == 3 && AlignmentOf(h.kvs) == Ok(inp.a)
            && h.tensors == TensorsOf(inp.tensors) && SizeAll(h.tensors) == Ok(inp.tensors)
            && inp.header == EncHeader(h) && inp.kvEnd == 24 + |EncKvs(h.kvs)|
            && inp.kvEnd + |EncTensors(h.tensors)| == |inp.header|
            && inp.start == RoundUp(|inp.header|, inp.a)
  {
    hide ParseHeader, HeaderOk, AlignmentOf, SizeAll, EncHeader, EncKvs, EncTensors, RoundUp, TensorBytes;
    ForgivingAgrees(BLOCK_ORDER, raw);
    PrintOfParse(STRICT, raw);
    var h := ParseHeader(STRICT, raw).value.h;
    HeaderLength(h);
    assert h.tensors == TensorsOf(ReadInput(raw).value.tensors);
  }

  // ----- the target order

  /** The canonical order, or with `--order-from` the reference file's, which must name exactly this
      file's tensors. */
  function Target(raw: seq<byte>, reference: Option<seq<byte>>): Result<seq<Name>, Error>
  {
    match ReadInput(raw)
    case Err(e) => Err(e)
    case Ok(inp) =>
      var names := NamesOf(inp.tensors);
      if reference.None? then Ok(Canonical(names))
      else
        match ReadInput(reference.value)
        case Err(e) => Err(e)
        case Ok(from) =>
          var order := NamesOf(from.tensors);
          if (exists n :: n in names && n !in order) || |order| != |names| then Err(OrderMismatch)
          else Ok(order)
  }

  /** Either way the target is a permutation of the input's names. */
  lemma TargetIsPermutation(raw: seq<byte>, reference: Option<seq<byte>>)
    requires Target(raw, reference).Ok? && Distinct(NamesOf(ReadInput(raw).value.tensors))
    ensures multiset(Target(raw, reference).value) == multiset(NamesOf(ReadInput(raw).value.tensors))
  {
    hide ReadInput, Canonical, Distinct;
    var names := NamesOf(ReadInput(raw).value.tensors);
    if reference.None? {
      CanonicalIsPermutation(names);
    } else {
      OrderFromIsPermutation(names, Target(raw, reference).value);
    }
  }

  // ----- reading the output back

  /** The output's entry for a tensor: its name, shape, type and size, and its bytes at its place. */
  predicate Moved(was: Sized, now: Sized, raw: seq<byte>, out: seq<byte>, start: nat)
  {
    && now == Sized(was.t.(off := now.t.off), was.n)
    && InFile(was, raw, start) && InFile(now, out, start)
    && DataOf(now, out, start) == DataOf(was, raw, start)
  }

  /** The new directory in the old header's place. */
  lemma NewHead(h: Header, dir: seq<Tensor>, kvEnd: nat)
    requires |dir| == |h.tensors| && kvEnd == 24 + |EncKvs(h.kvs)|
    ensures kvEnd <= |EncHeader(h)|
    ensures EncHeader(h)[..kvEnd] + EncTensors(dir) == EncHeader(h.(tensors := dir))
    ensures EncHeader(h.(tensors := dir))[..kvEnd] == EncHeader(h)[..kvEnd]
  {
    var counts := EncCounts(h.version, |h.tensors|, |h.kvs|);
    CountsLength(h.version, |h.tensors|, |h.kvs|);
    hide EncCounts, EncKvs, EncTensors;
    AppendAssoc3(counts, EncKvs(h.kvs), EncTensors(h.tensors));
    AppendAssoc3(counts, EncKvs(h.kvs), EncTensors(dir));
  }

  /** The rewritten header, and the body after it. */
  lemma RewriteIs(raw: seq<byte>, target: seq<Name>)
    requires Complete(raw, target) && Rewrite(raw, target).Ok? && |target| == |ReadInput(raw).value.tensors|
    ensures var inp := ReadInput(raw).value;
            var h := ParseHeader(STRICT, raw).value.h;
            var ss := InOrder(inp.tensors, target);
            var h' := h.(tensors := TensorsOf(Arrange(ss, inp.a, 0)));
            && AllInFile(ss, raw, inp.start) && |EncHeader(h')| == |inp.header|
            && EncHeader(h')[..inp.kvEnd] == inp.header[..inp.kvEnd]
            && Rewrite(raw, target)
               == Ok(EncHeader(h') + (Zeros(inp.start - |inp.header|) + Body(ss, raw, inp.start, inp.a, 0, 0)))
  {
    hide ReadInput, ParseHeader, AllInFile, Arrange, InOrder, Body, EncHeader, EncKvs, EncTensors, Zeros, TensorsOk,
         Distinct, RoundUp, HeaderOk, SizeAll, AlignmentOf;
    InputIs(raw);
    var inp := ReadInput(raw).value;
    var h := ParseHeader(STRICT, raw).value.h;
    var ss := InOrder(inp.tensors, target);
    var dir := TensorsOf(Arrange(ss, inp.a, 0));
    NewHead(h, dir, inp.kvEnd);
    AppendAssoc3(inp.header[..inp.kvEnd], EncTensors(dir),
        Zeros(inp.start - |inp.header|) + Body(ss, raw, inp.start, inp.a, 0, 0));
  }

  lemma CountsLength(version: nat, nt: nat, nk: nat)
    ensures |EncCounts(version, nt, nk)| == 24
  {
  }

  lemma AppendAssoc3(x: seq<byte>, y: seq<byte>, z: seq<byte>)
    ensures x + (y + z) == (x + y) + z
    ensures (x + (y + z))[..|x| + |y|] == x + y
  {
  }

  /** Re-reading the output gives the same metadata, alignment and data start, the target order, and
      every tensor's bytes at its recorded offset. */
  lemma RewriteKeepsEverything(raw: seq<byte>, target: seq<Name>)
    requires Complete(raw, target) && multiset(target) == multiset(NamesOf(ReadInput(raw).value.tensors))
    ensures Rewrite(raw, target).Ok?
    ensures var inp, out := ReadInput(raw).value, Rewrite(raw, target).value;
            && ReadInput(out).Ok?
            && var now := ReadInput(out).value;
               && now.kvEnd == inp.kvEnd && now.header[..now.kvEnd] == inp.header[..inp.kvEnd]
               && now.a == inp.a && now.start == inp.start
               && now.tensors == Arrange(InOrder(inp.tensors, target), inp.a, 0) && NamesOf(now.tensors) == target
               && forall i :: 0 <= i < |target| ==>
                    Moved(ByName(inp.tensors, target[i]), now.tensors[i], raw, out, inp.start)
  {
    hide ReadInput, ParseHeader, AllInFile, Arrange, InOrder, Body, Zeros, TensorsOk, Distinct, Rewrite, EncHeader,
         HeaderOk, AlignmentOf, SizeAll, RoundUp, ByName, At, EncKvs, EncTensors;
    var inp := ReadInput(raw).value;
    var h := ParseHeader(STRICT, raw).value.h;
    RewriteSucceeds(raw, target);
    InputIs(raw);
    InOrderPermutes(inp.tensors, target);
    RewriteIs(raw, target);
    var ss := InOrder(inp.tensors, target);
    var arranged := Arrange(ss, inp.a, 0);
    var h' := h.(tensors := TensorsOf(arranged));
    var out := Rewrite(raw, target).value;
    OrderedSizes(inp.tensors, ss);
    NewHeaderReads(h, ss, inp.a, out);
    OrderedIs(inp.tensors, target);
    forall i | 0 <= i < |target|
      ensures Moved(ByName(inp.tensors, target[i]), arranged[i], raw, out, inp.start)
      ensures arranged[i].t.name == target[i]
    {
      TensorMoved(ss, raw, inp.start, inp.a, EncHeader(h'), out, i);
    }
    assert NamesOf(arranged) == target;
  }

  /** For every split, the upload read back from the file rewritten in the canonical order is, in
      aligned bytes, no longer than that of any packed file of the same tensors and data start: the
      input itself, when it is packed, or another arrangement of it. */
  lemma RewriteUploadsLeast(raw: seq<byte>, other: seq<byte>, last: nat)
    requires ReadInput(raw).Ok? && Complete(raw, Canonical(NamesOf(ReadInput(raw).value.tensors)))
    requires ReadInput(other).Ok?
    requires var inp, its := ReadInput(raw).value, ReadInput(other).value;
             && its.a == inp.a && its.start == inp.start && Packed(its.tensors, its.a)
             && multiset(Contents(its.tensors)) == multiset(Contents(inp.tensors))
    ensures var r := Rewrite(raw, Canonical(NamesOf(ReadInput(raw).value.tensors)));
            && r.Ok? && ReadInput(r.value).Ok?
            && var now, its := ReadInput(r.value).value, ReadInput(other).value;
               var best := Prefix(now.tensors, now.start, last);
               && now.a == its.a
               && RoundUp(best, its.a) <= RoundUp(Prefix(its.tensors, its.start, last), its.a)
               && (best == 0 || best < Prefix(its.tensors, its.start, last) + its.a)
  {
    hide ReadInput, Complete, Canonical, Packed, Contents, Distinct, Rewrite, Prefix, Arrange, InOrder, RoundUp, Moved;
    var inp := ReadInput(raw).value;
    var names := NamesOf(inp.tensors);
    assert Distinct(names) && inp.start % inp.a == 0 by { CompleteIsAligned(raw, Canonical(names)); }
    CanonicalIsPermutation(names);
    RewriteKeepsEverything(raw, Canonical(names));
    CanonicalIsOptimal(inp.tensors, ReadInput(other).value.tensors, inp.a, inp.start, last);
  }

  lemma CompleteIsAligned(raw: seq<byte>, target: seq<Name>)
    requires Complete(raw, target)
    ensures ReadInput(raw).Ok? && Distinct(NamesOf(ReadInput(raw).value.tensors))
    ensures ReadInput(raw).value.start % ReadInput(raw).value.a == 0
  {
    hide ReadInput, ParseHeader, AllInFile, TensorsOk, Distinct, EncHeader, HeaderOk, AlignmentOf, SizeAll, RoundUp;
    InputIs(raw);
    RoundUpIs(|ReadInput(raw).value.header|, ReadInput(raw).value.a);
  }

  lemma OrderedIs(ss: seq<Sized>, target: seq<Name>)
    ensures forall i :: 0 <= i < |target| ==> InOrder(ss, target)[i] == ByName(ss, target[i])
  {
    hide ByName;
  }

  lemma OrderedSizes(ss: seq<Sized>, ordered: seq<Sized>)
    requires multiset(ordered) == multiset(ss) && SizeAll(TensorsOf(ss)) == Ok(ss)
    ensures forall i :: 0 <= i < |ordered| ==> TensorBytes(ordered[i].t) == Ok(ordered[i].n)
  {
    hide TensorBytes, SizeAll;
    forall i | 0 <= i < |ordered| ensures TensorBytes(ordered[i].t) == Ok(ordered[i].n) {
      assert ordered[i] in multiset(ss);
      var j :| 0 <= j < |ss| && ss[j] == ordered[i];
      assert TensorsOf(ss)[j] == ss[j].t;
    }
  }

  /** The output parses to the new directory, and the sizes come out the same. */
  lemma NewHeaderReads(h: Header, ss: seq<Sized>, a: nat, out: seq<byte>)
    requires a > 0 && HeaderOk(STRICT, h) && h.version == 3 && AlignmentOf(h.kvs) == Ok(a)
    requires |ss| == |h.tensors| && TensorsOk(TensorsOf(Arrange(ss, a, 0)))
    requires forall i :: 0 <= i < |ss| ==> TensorBytes(ss[i].t) == Ok(ss[i].n)
    requires EncHeader(h.(tensors := TensorsOf(Arrange(ss, a, 0)))) <= out
    ensures var h' := h.(tensors := TensorsOf(Arrange(ss, a, 0)));
            ReadInput(out)
                == Ok(Input(24 + |EncKvs(h.kvs)|, a, Arrange(ss, a, 0), RoundUp(|EncHeader(h')|, a), EncHeader(h')))
  {
    hide EncHeader, ParseHeader, AlignmentOf, TensorOk, KvOk, TensorBytes, RoundUp, SizeAll, ValOk;
    var arranged := Arrange(ss, a, 0);
    var h' := h.(tensors := TensorsOf(arranged));
    forall i | 0 <= i < |h.kvs| ensures KvOk(BLOCK_ORDER, h.kvs[i]) {
      KvOkForgiving(h.kvs[i]);
    }
    ParseOfPrint(BLOCK_ORDER, out, h');
    forall i | 0 <= i < |arranged| ensures TensorBytes(arranged[i].t) == Ok(arranged[i].n) {
      ArrangeKeeps(ss, a, 0, i);
      BytesOfMoved(ss[i].t, arranged[i].t.off);
    }
    SizeAllOf(arranged);
    assert HeaderOk(BLOCK_ORDER, h');
    assert ParseHeader(BLOCK_ORDER, out) == Ok(Parsed(h', 24 + |EncKvs(h.kvs)|, |EncHeader(h')|));
    assert out[..|EncHeader(h')|] == EncHeader(h');
  }

  lemma KvOkForgiving(kv: Kv)
    requires KvOk(STRICT, kv)
    ensures KvOk(BLOCK_ORDER, kv)
  {
    OkInMode(STRICT, BLOCK_ORDER, kv.val, kv.t);
  }

  lemma BytesOfMoved(t: Tensor, off: nat)
    ensures TensorBytes(t.(off := off)) == TensorBytes(t)
  {
  }

  lemma TensorMoved(ss: seq<Sized>, raw: seq<byte>, start: nat, a: nat, head: seq<byte>, out: seq<byte>, i: nat)
    requires a > 0 && AllInFile(ss, raw, start) && i < |ss| && |head| <= start
    requires out == head + (Zeros(start - |head|) + Body(ss, raw, start, a, 0, 0))
    ensures Moved(ss[i], Arrange(ss, a, 0)[i], raw, out, start)
  {
    hide Body, Zeros, Arrange, At;
    ArrangeKeeps(ss, a, 0, i);
    AtIsSlice(out, 0, out);
    AtSplit3(out, 0, head, Zeros(start - |head|), Body(ss, raw, start, a, 0, 0));
    BodyFindsData(ss, raw, start, a, 0, 0, out, start, i);
    AtIsSlice(out, start + Arrange(ss, a, 0)[i].t.off, DataOf(ss[i], raw, start));
  }

  // ----- the script's own verification

  /** Each tensor's digest by name, in directory order. */
  function Digests(ss: seq<Sized>, file: seq<byte>, start: nat, digest: seq<byte> -> int): map<Name, int>
    requires AllInFile(ss, file, start)
  {
    if ss == [] then map[]
    else
      var last := |ss| - 1;
      Digests(ss[..last], file, start, digest)[ss[last].t.name := digest(DataOf(ss[last], file, start))]
  }

  /** The re-read: same metadata region, data start and alignment, the target order, and equal
      digests; false also stands for an output that cannot be read back. */
  function Verified(raw: seq<byte>, out: seq<byte>, target: seq<Name>, digest: seq<byte> -> int): bool
    requires ReadInput(raw).Ok?
        && AllInFile(InOrder(ReadInput(raw).value.tensors, target), raw, ReadInput(raw).value.start)
  {
    match ReadInput(out)
    case Err(_) => false
    case Ok(now) =>
      var inp := ReadInput(raw).value;
      && now.header[..now.kvEnd] == inp.header[..inp.kvEnd] && now.start == inp.start && now.a == inp.a
      && AllInFile(now.tensors, out, now.start)
      && NamesOf(now.tensors) == target
      && Digests(now.tensors, out, now.start, digest)
         == Digests(InOrder(inp.tensors, target), raw, inp.start, digest)
  }

  lemma {:induction false} SameDigests(was: seq<Sized>, now: seq<Sized>, raw: seq<byte>, out: seq<byte>, start: nat,
      digest: seq<byte> -> int)
    requires |was| == |now| && AllInFile(was, raw, start) && AllInFile(now, out, start)
    requires forall i :: 0 <= i < |was| ==> Moved(was[i], now[i], raw, out, start)
    ensures Digests(was, raw, start, digest) == Digests(now, out, start, digest)
  {
    if was != [] {
      hide InFile, DataOf;
      var last := |was| - 1;
      SameDigests(was[..last], now[..last], raw, out, start, digest);
      assert Moved(was[last], now[last], raw, out, start);
    }
  }

  /** The verification accepts every rewrite of a complete input, whatever the digest. */
  lemma RewriteVerifies(raw: seq<byte>, target: seq<Name>, digest: seq<byte> -> int)
    requires Complete(raw, target) && multiset(target) == multiset(NamesOf(ReadInput(raw).value.tensors))
    ensures Rewrite(raw, target).Ok?
    ensures AllInFile(InOrder(ReadInput(raw).value.tensors, target), raw, ReadInput(raw).value.start)
    ensures Verified(raw, Rewrite(raw, target).value, target, digest)
  {
    hide ReadInput, ParseHeader, TensorsOk, Distinct, Rewrite, ByName, InFile, InOrder, Digests;
    var inp := ReadInput(raw).value;
    RewriteKeepsEverything(raw, target);
    var out := Rewrite(raw, target).value;
    var now := ReadInput(out).value;
    var ss := InOrder(inp.tensors, target);
    OrderedIs(inp.tensors, target);
    assert AllInFile(ss, raw, inp.start) && AllInFile(now.tensors, out, inp.start) by {
      forall i | 0 <= i < |target|
        ensures InFile(ss[i], raw, inp.start) && InFile(now.tensors[i], out, inp.start)
      {
        assert Moved(ByName(inp.tensors, target[i]), now.tensors[i], raw, out, inp.start);
      }
    }
    SameDigests(ss, now.tensors, raw, out, inp.start, digest);
  }
}
