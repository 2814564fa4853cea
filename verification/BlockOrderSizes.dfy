/** scripts/gguf-blockorder.py on whole files: what a tensor's size is in elements, and the rewrite of
    a file that `write_gguf` wrote. */
module BlockOrderSizes {
  import opened Wrappers
  import opened Bytes
  import opened Align
  import opened Gguf
  import opened Layout
  import opened Fixture
  import opened BlockOrder
  import opened BlockOrderFile
  import opened Sums

  // ----- sizes

  /** Elements of a tensor: all its dimensions multiplied. */
  function Elements(ne: seq<nat>): nat
  {
    if ne == [] then 1 else ne[0] * Elements(ne[1..])
  }

  /** Types without blocks, types in blocks of 32, types in blocks of 256. */
  predicate Plain(tt: nat) { tt in {0, 1, 24, 25, 26, 27, 28, 30} }
  predicate By32(tt: nat) { tt in {2, 3, 6, 7, 8, 9, 20, 39} }
  predicate By256(tt: nat) { tt in {10, 11, 12, 13, 14, 15, 16, 17, 18, 19, 21, 22, 23, 29} }

  /** Bytes of one element of a plain type, or of one block of the others. */
  function UnitBytes(tt: nat): nat
  {
    if tt in {0, 26} then 4 else if tt in {1, 25, 30} then 2 else if tt == 24 then 1 else if tt in {27, 28} then 8
    else if tt in {2, 20} then 18 else if tt == 3 then 20 else if tt == 6 then 22 else if tt == 7 then 24
    else if tt == 8 then 34 else if tt == 9 then 36 else if tt == 39 then 17
    else if tt == 10 then 84 else if tt in {11, 21} then 110 else if tt == 12 then 144 else if tt == 13 then 176
    else if tt == 14 then 210 else if tt == 15 then 292 else if tt == 16 then 66 else if tt == 17 then 74
    else if tt == 18 then 98 else if tt == 19 then 50 else if tt == 22 then 82 else if tt == 23 then 136
    else if tt == 29 then 56 else 0
  }

  /** `n` bytes hold every element of a tensor of these dimensions, rows being whole blocks. */
  predicate HoldsAll(tt: nat, ne: seq<nat>, n: nat)
  {
    && ne != []
    && (Plain(tt) || (By32(tt) && ne[0] % 32 == 0) || (By256(tt) && ne[0] % 256 == 0))
    && (Plain(tt) ==> n == UnitBytes(tt) * Elements(ne))
    && (By32(tt) ==> 32 * n == UnitBytes(tt) * Elements(ne))
    && (By256(tt) ==> 256 * n == UnitBytes(tt) * Elements(ne))
  }

  lemma {:induction false} ProductIsElements(ne: seq<nat>)
    ensures Product(ne) == Elements(ne)
  {
    if |ne| > 1 {
      var m, front := |ne| - 1, ne[..|ne| - 1];
      ProductIsElements(front);
      ProductIsElements(ne[1..]);
      ProductIsElements(front[1..]);
      assert front[1..] == ne[1..][..m - 1];
      Commute(ne[0], Product(front[1..]), ne[m]);
    }
  }

  lemma {:induction false} Commute(x: nat, y: nat, z: nat)
    ensures (x * y) * z == x * (y * z)
  {
  }

  /** Bytes of `rows` rows, counted in elements. */
  lemma {:induction false} RowsHold(ne0: nat, width: nat, size: nat, rows: nat)
    requires width > 0 && ne0 % width == 0
    ensures width * (ne0 / width * size * rows) == size * (ne0 * rows)
  {
    var q := ne0 / width;
    assert ne0 == q * width;
    calc {
      width * (q * size * rows);
      == { Commute(q, size, rows); Commute(width, q, size * rows); }
      (q * width) * (size * rows);
      == { Commute(ne0, size, rows); Commute(size, ne0, rows); }
      size * (ne0 * rows);
    }
  }

  /** The table: widths 1, 32 and 256 with their bytes. */
  lemma {:induction false} TableIs(tt: nat)
    ensures Plain(tt) ==> Block(tt) == Some((1, UnitBytes(tt)))
    ensures By32(tt) ==> Block(tt) == Some((32, UnitBytes(tt)))
    ensures By256(tt) ==> Block(tt) == Some((256, UnitBytes(tt)))
    ensures !Plain(tt) && !By32(tt) && !By256(tt) ==> Block(tt) == None
    ensures !(Plain(tt) && By32(tt)) && !(Plain(tt) && By256(tt)) && !(By32(tt) && By256(tt))
  {
  }

  /** A size is given exactly when the type is listed and the rows are whole blocks, and it holds all
      the elements: an F32 tensor takes 4 bytes per element, a q8_0 tensor 34 bytes per 32. */
  lemma {:induction false} SizeHoldsAll(t: Tensor, n: nat)
    ensures TensorBytes(t) == Ok(n) <==> HoldsAll(t.tt, t.ne, n)
  {
    TableIs(t.tt);
    hide Block, UnitBytes, Plain, By32, By256;
    if t.ne != [] && Block(t.tt).Some? {
      var (width, size) := Block(t.tt).value;
      ProductIsElements(t.ne[1..]);
      if t.ne[0] % width == 0 {
        RowsHold(t.ne[0], width, size, Product(t.ne[1..]));
      }
    }
  }

  /** Which of the three errors a refused tensor gives. */
  lemma {:induction false} SizeRefused(t: Tensor)
    ensures TensorBytes(t) == Err(NoDims) <==> t.ne == []
    ensures TensorBytes(t) == Err(UnsupportedType) <==> t.ne != [] && !Plain(t.tt) && !By32(t.tt) && !By256(t.tt)
    ensures TensorBytes(t) == Err(BadRowWidth) <==>
              t.ne != [] && ((By32(t.tt) && t.ne[0] % 32 != 0) || (By256(t.tt) && t.ne[0] % 256 != 0))
  {
  }

  // ----- a file that write_gguf wrote

  function BlobNames(blobs: seq<Blob>): (r: seq<Name>)
    ensures |r| == |blobs| && forall i :: 0 <= i < |r| ==> r[i] == blobs[i].name
  {
    seq(|blobs|, i requires 0 <= i < |blobs| => blobs[i].name)
  }

  /** A file of fewer than 2^64 bytes with distinct names, whole payloads, and no declared alignment
      other than the one it was laid out with. */
  ghost predicate Sound(blobs: seq<Blob>, es: seq<Entry>)
  {
    && AllFit(es)
    && (forall i :: 0 <= i < |es| && es[i].KU? && es[i].k == AlignmentKey() ==> es[i].u == 32)
    && FileFits(blobs, Encoded(es)) && |WrittenFile(blobs, es)| < U64_LIMIT
    && Distinct(BlobNames(blobs))
    && forall i :: 0 <= i < |blobs| ==> HoldsAll(blobs[i].tt, blobs[i].ne, |blobs[i].data|)
  }

  /** The written directory with the payloads' lengths. */
  function Laid(blobs: seq<Blob>): (r: seq<Sized>)
    ensures |r| == |blobs|
    ensures forall i :: 0 <= i < |r| ==> r[i] == Sized(Place(blobs, ALIGNMENT, 0)[i], |blobs[i].data|)
  {
    seq(|blobs|, i requires 0 <= i < |blobs| => Sized(Place(blobs, ALIGNMENT, 0)[i], |blobs[i].data|))
  }

  lemma {:induction false} EntryDeclares(e: Entry)
    requires EntryFits(e)
    ensures KvOf(e).key == e.k && (KvOf(e).t == 4 <==> e.KU?)
    ensures e.KU? ==> KvOf(e).val.Scalar? && |KvOf(e).val.raw| == 4 && FromLe(KvOf(e).val.raw) == e.u
  {
    hide FromLe, PackI, Flag;
    if e.KU? { UnpackU(e.u, 4); }
  }

  /** The last u32 entry for the alignment decides; without one it is 32, whatever entries of other
      types say. */
  lemma {:induction false} AlignmentReads(es: seq<Entry>)
    requires AllFit(es)
    ensures (forall i :: 0 <= i < |es| && es[i].KU? ==> es[i].k != AlignmentKey()) ==> AlignmentOf(KvsOf(es)) == Ok(32)
    ensures forall i :: 0 <= i < |es| && es[i].KU? && es[i].k == AlignmentKey()
                        && (forall j :: i < j < |es| && es[j].KU? ==> es[j].k != AlignmentKey()) ==>
              AlignmentOf(KvsOf(es)) == Ok(es[i].u)
  {
    hide AlignmentKey, FromLe, KvOf, EntryFits;
    if es != [] {
      var n := |es| - 1;
      AlignmentReads(es[..n]);
      assert KvsOf(es)[..n] == KvsOf(es[..n]);
      EntryDeclares(es[n]);
      if !(es[n].KU? && es[n].k == AlignmentKey()) {
        forall i | 0 <= i < |es| && es[i].KU? && es[i].k == AlignmentKey()
                   && (forall j :: i < j < |es| && es[j].KU? ==> es[j].k != AlignmentKey())
          ensures AlignmentOf(KvsOf(es)) == Ok(es[i].u)
        {
          assert es[..n][i] == es[i] && forall j :: i < j < n ==> es[..n][j] == es[j];
        }
      }
    }
  }

  lemma {:induction false} DeclaredAlignment(es: seq<Entry>)
    requires AllFit(es)
    requires forall i :: 0 <= i < |es| && es[i].KU? && es[i].k == AlignmentKey() ==> es[i].u == 32
    ensures AlignmentOf(KvsOf(es)) == Ok(32)
  {
    hide AlignmentKey, KvOf, EntryFits, AlignmentOf, KvsOf;
    AlignmentReads(es);
    var k := LastDeclared(es);
  }

  lemma {:induction false} LastDeclared(es: seq<Entry>) returns (k: nat)
    ensures k < |es| ==> es[k].KU? && es[k].k == AlignmentKey()
    ensures forall j :: 0 <= j < |es| && (j > k || k >= |es|) && es[j].KU? ==> es[j].k != AlignmentKey()
  {
    hide AlignmentKey;
    if es == [] { return 0; }
    var n := |es| - 1;
    if es[n].KU? && es[n].k == AlignmentKey() { return n; }
    k := LastDeclared(es[..n]);
    if k >= n { k := |es|; }
  }

  lemma {:induction false} StrictlyOk(blobs: seq<Blob>, es: seq<Entry>)
    requires AllFit(es)
    requires FileFits(blobs, Encoded(es))
    ensures HeaderOk(STRICT, FileHeader(VERSION, KvsOf(es), blobs, ALIGNMENT))
    ensures HeaderOk(BLOCK_ORDER, FileHeader(VERSION, KvsOf(es), blobs, ALIGNMENT))
  {
    hide EntryFits, KvOf, ValOk, TensorsOk;
    HeaderFits(blobs, es);
    forall i | 0 <= i < |es| ensures KvOk(STRICT, KvsOf(es)[i]) && KvOk(BLOCK_ORDER, KvsOf(es)[i]) {
      var kv := KvsOf(es)[i];
      assert KvOk(FIXTURE, kv);
      OkInMode(FIXTURE, STRICT, kv.val, kv.t);
      OkInMode(FIXTURE, BLOCK_ORDER, kv.val, kv.t);
    }
  }

  lemma {:induction false} LaidSizes(blobs: seq<Blob>)
    requires forall i :: 0 <= i < |blobs| ==> HoldsAll(blobs[i].tt, blobs[i].ne, |blobs[i].data|)
    ensures TensorsOf(Laid(blobs)) == Place(blobs, ALIGNMENT, 0)
    ensures SizeAll(Place(blobs, ALIGNMENT, 0)) == Ok(Laid(blobs))
    ensures NamesOf(Laid(blobs)) == BlobNames(blobs)
  {
    hide HoldsAll, TensorBytes, SizeAll, Place;
    forall i | 0 <= i < |blobs|
      ensures TensorBytes(Laid(blobs)[i].t) == Ok(Laid(blobs)[i].n)
      ensures NamesOf(Laid(blobs))[i] == BlobNames(blobs)[i]
    {
      PlaceKeepsFields(blobs, ALIGNMENT, 0, i);
      SizeHoldsAll(Laid(blobs)[i].t, |blobs[i].data|);
    }
    assert TensorsOf(Laid(blobs)) == Place(blobs, ALIGNMENT, 0);
    SizeAllOf(Laid(blobs));
  }

  /** What the tool reads from the written file. */
  lemma {:induction false} WrittenIsRead(blobs: seq<Blob>, es: seq<Entry>)
    requires Sound(blobs, es)
    ensures var raw, head := WrittenFile(blobs, es), HeadBytes(blobs, Encoded(es));
            && ParseHeader(STRICT, raw).Ok? && ReadInput(raw).Ok?
            && Finds(raw, RoundUp(|head|, 32), Place(blobs, ALIGNMENT, 0), blobs, 32)
            && var inp := ReadInput(raw).value;
               inp.a == 32 && inp.tensors == Laid(blobs) && inp.start == RoundUp(|head|, 32)
  {
    hide HeaderOk, EncHeader, FileBytes, ParseHeader, Place, Finds, AlignmentOf, SizeAll, Laid, RoundUp, FileFits,
         HeadBytes, EntryFits, HoldsAll, Encoded, KvsOf, Distinct;
    var kvs := KvsOf(es);
    StrictlyOk(blobs, es);
    DefaultIsPowerOfTwo();
    WrittenFileReads(STRICT, VERSION, kvs, blobs, ALIGNMENT);
    WrittenFileReads(BLOCK_ORDER, VERSION, kvs, blobs, ALIGNMENT);
    HeaderIsWritten(blobs, es);
    DeclaredAlignment(es);
    LaidSizes(blobs);
  }

  // ----- the new offsets fit

  function Room(): Sized -> int { (s: Sized) => RoundUp(s.n, 32) }

  lemma {:induction false} PaddedRoom(blobs: seq<Blob>)
    ensures |Padded(blobs, 32)| == Sum(Laid(blobs), Room())
  {
    LengthsRoom(blobs, Laid(blobs));
  }

  lemma {:induction false} LengthsRoom(blobs: seq<Blob>, ss: seq<Sized>)
    requires |ss| == |blobs| && forall i :: 0 <= i < |ss| ==> ss[i].n == |blobs[i].data|
    ensures |Padded(blobs, 32)| == Sum(ss, Room())
  {
    if blobs != [] {
      PadIs(|blobs[0].data|, 32);
      LengthsRoom(blobs[1..], ss[1..]);
    }
  }

  lemma {:induction false} ArrangedWithin(ss: seq<Sized>, off: nat, i: nat)
    requires off % 32 == 0 && i < |ss|
    ensures Arrange(ss, 32, off)[i].t.off <= off + Sum(ss, Room())
  {
    RoundUpIs(ss[0].n, 32);
    RoundUpIs(off + ss[0].n, 32);
    RoundUpShift(off, ss[0].n, 32);
    hide RoundUp;
    RoomIsNatural(ss[1..]);
    if i > 0 { ArrangedWithin(ss[1..], RoundUp(off + ss[0].n, 32), i - 1); }
  }

  lemma {:induction false} RoomIsNatural(ss: seq<Sized>)
    ensures Sum(ss, Room()) >= 0
  {
    if ss != [] { RoomIsNatural(ss[1..]); }
  }

  lemma {:induction false} NewDirectoryFits(blobs: seq<Blob>, ordered: seq<Sized>)
    requires TensorsOk(Place(blobs, ALIGNMENT, 0)) && multiset(ordered) == multiset(Laid(blobs))
    requires |Padded(blobs, 32)| < U64_LIMIT
    ensures TensorsOk(TensorsOf(Arrange(ordered, 32, 0)))
  {
    hide Place, Arrange, Padded;
    PaddedRoom(blobs);
    SumPermutation(ordered, Laid(blobs), Room());
    var arranged := Arrange(ordered, 32, 0);
    forall i | 0 <= i < |arranged| ensures TensorOk(arranged[i].t) {
      ArrangeKeeps(ordered, 32, 0, i);
      ArrangedWithin(ordered, 0, i);
      assert ordered[i] in multiset(Laid(blobs));
      var j :| 0 <= j < |Laid(blobs)| && Laid(blobs)[j] == ordered[i];
      assert TensorOk(Place(blobs, ALIGNMENT, 0)[j]);
    }
  }

  lemma {:induction false} PayloadInFile(blob: Blob, t: Tensor, raw: seq<byte>, start: nat)
    requires FindsOne(raw, start, t, blob, 32)
    ensures InFile(Sized(t, |blob.data|), raw, start)
    ensures DataOf(Sized(t, |blob.data|), raw, start) == blob.data
  {
    AtIsSlice(raw, start + t.off, blob.data);
  }

  lemma {:induction false} PayloadsInFile(blobs: seq<Blob>, raw: seq<byte>, start: nat)
    requires Finds(raw, start, Place(blobs, ALIGNMENT, 0), blobs, 32)
    ensures AllInFile(Laid(blobs), raw, start)
    ensures forall i :: 0 <= i < |blobs| ==> DataOf(Laid(blobs)[i], raw, start) == blobs[i].data
  {
    hide Place, InFile, DataOf, FindsOne;
    forall i | 0 <= i < |blobs|
      ensures InFile(Laid(blobs)[i], raw, start)
      ensures DataOf(Laid(blobs)[i], raw, start) == blobs[i].data
    {
      PayloadInFile(blobs[i], Place(blobs, ALIGNMENT, 0)[i], raw, start);
    }
  }

  /** A written file is a complete input for every permutation of its names. */
  lemma {:induction false} WrittenIsComplete(blobs: seq<Blob>, es: seq<Entry>, target: seq<Name>)
    requires Sound(blobs, es) && multiset(target) == multiset(BlobNames(blobs))
    ensures Complete(WrittenFile(blobs, es), target)
    ensures NamesOf(ReadInput(WrittenFile(blobs, es)).value.tensors) == BlobNames(blobs)
  {
    hide ParseHeader, ReadInput, Place, Finds, Laid, AllInFile, TensorsOk, Distinct, Arrange, InOrder, Encoded,
         HoldsAll, EntryFits, RoundUp, HeadBytes, Padded;
    var raw := WrittenFile(blobs, es);
    WrittenIsRead(blobs, es);
    PayloadsInFile(blobs, raw, ReadInput(raw).value.start);
    LaidSizes(blobs);
    InOrderPermutes(Laid(blobs), target);
    NewDirectoryFits(blobs, InOrder(Laid(blobs), target));
  }

  /** The rewritten file's entry for a payload: its name, dimensions and type, and the whole payload
      at the entry's offset. */
  predicate Stands(out: seq<byte>, start: nat, t: Tensor, blob: Blob)
  {
    && t.name == blob.name && t.ne == blob.ne && t.tt == blob.tt
    && (blob.data == [] || At(out, start + t.off, blob.data))
  }

  /** Rewriting a written file succeeds for every order of its names, keeps alignment and data start,
      and leaves every payload whole at its new offset. */
  lemma {:induction false} WrittenIsRewritten(blobs: seq<Blob>, es: seq<Entry>, target: seq<Name>)
    requires Sound(blobs, es) && multiset(target) == multiset(BlobNames(blobs))
    ensures var r := Rewrite(WrittenFile(blobs, es), target);
            && r.Ok? && ReadInput(r.value).Ok?
            && var now := ReadInput(r.value).value;
               && now.a == 32 && now.start == RoundUp(|HeadBytes(blobs, Encoded(es))|, 32)
               && NamesOf(now.tensors) == target
               && forall i, j :: 0 <= i < |target| && 0 <= j < |blobs| && target[i] == blobs[j].name ==>
                    Stands(r.value, now.start, now.tensors[i].t, blobs[j])
  {
    hide ParseHeader, ReadInput, Place, Finds, Laid, AllInFile, TensorsOk, Distinct, Arrange, InOrder, Encoded,
         HoldsAll, EntryFits, RoundUp, HeadBytes, Rewrite, Complete, Moved, Stands, WrittenFile, ByName;
    var raw := WrittenFile(blobs, es);
    WrittenIsRead(blobs, es);
    WrittenIsComplete(blobs, es, target);
    RewriteKeepsEverything(raw, target);
    var out := Rewrite(raw, target).value;
    var now := ReadInput(out).value;
    forall i, j | 0 <= i < |target| && 0 <= j < |blobs| && target[i] == blobs[j].name
      ensures Stands(out, now.start, now.tensors[i].t, blobs[j])
    {
      PayloadMoved(blobs, raw, out, now.start, now.tensors[i], j);
    }
  }

  lemma {:induction false} PayloadMoved(blobs: seq<Blob>, raw: seq<byte>, out: seq<byte>, start: nat, now: Sized,
      j: nat)
    requires j < |blobs| && Distinct(NamesOf(Laid(blobs)))
    requires Finds(raw, start, Place(blobs, ALIGNMENT, 0), blobs, 32)
    requires NamesOf(Laid(blobs))[j] == blobs[j].name
    requires Moved(ByName(Laid(blobs), blobs[j].name), now, raw, out, start)
    ensures Stands(out, start, now.t, blobs[j])
  {
    hide Place, Distinct;
    ByNameFinds(Laid(blobs), j);
    PayloadsInFile(blobs, raw, start);
    PlaceKeepsFields(blobs, ALIGNMENT, 0, j);
    AtIsSlice(out, start + now.t.off, blobs[j].data);
  }
}
