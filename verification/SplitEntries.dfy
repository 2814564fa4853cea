/** scripts/gguf-split.py on files of `write_gguf`: what a shard read back says, entry by entry and
    tensor by tensor. */
module SplitEntries {
  import opened Wrappers
  import opened Bytes
  import opened Align
  import opened Gguf
  import opened Layout
  import opened Fixture
  import DepthSlice
  import opened Split

  /** A written file that declares no other alignment than the one it is laid out with. */
  ghost predicate Laid(blobs: seq<Blob>, es: seq<Entry>)
  {
    && AllFit(es) && FileFits(blobs, Encoded(es))
    && forall i :: 0 <= i < |es| && es[i].k == Ascii("general.alignment") ==> es[i].KU? && es[i].u == 32
  }

  lemma {:induction false} EntryTyped(e: Entry)
    requires EntryFits(e)
    ensures KvOf(e).key == e.k
    ensures e.KU? ==> && KvOf(e).t == 4 && KvOf(e).val.Scalar? && |KvOf(e).val.raw| == 4
                      && FromLe(KvOf(e).val.raw) == e.u
  {
    hide FromLe, PackI, Flag;
    if e.KU? { UnpackU(e.u, 4); }
  }

  lemma {:induction false} EntryOk(e: Entry)
    requires EntryFits(e)
    ensures KvOk(SPLIT, KvOf(e))
  {
  }

  lemma {:induction false} Declares32(es: seq<Entry>, n: nat)
    requires AllFit(es) && n <= |es|
    requires forall i :: 0 <= i < |es| && es[i].k == Ascii("general.alignment") ==> es[i].KU? && es[i].u == 32
    ensures DeclaredAlignment(KvsOf(es), n) == 32
  {
    hide Ascii, KvOf, EntryFits, FromLe, DeclaredAlignment;
    if n > 0 {
      Declares32(es, n - 1);
      EntryTyped(es[n - 1]);
      DeclaredStep(KvsOf(es), n);
    } else {
      DeclaredNone(KvsOf(es));
    }
  }

  lemma DeclaredNone(kvs: seq<Kv>)
    ensures DeclaredAlignment(kvs, 0) == 32
  {
  }

  lemma DeclaredStep(kvs: seq<Kv>, n: nat)
    requires 0 < n <= |kvs|
    ensures DeclaredAlignment(kvs, n)
         == if kvs[n - 1].key == AlignmentKey() && kvs[n - 1].val.Scalar? then FromLe(kvs[n - 1].val.raw)
            else DeclaredAlignment(kvs, n - 1)
  {
  }

  lemma {:induction false} HeaderFitsSplit(blobs: seq<Blob>, es: seq<Entry>)
    requires Laid(blobs, es)
    ensures HeaderOk(SPLIT, FileHeader(VERSION, KvsOf(es), blobs, ALIGNMENT)) && AlignmentTyped(KvsOf(es))
  {
    assert AlignmentKey() == Ascii("general.alignment");
    hide EntryFits, KvOf, TensorsOk, AlignmentKey, Ascii, FromLe;
    forall i | 0 <= i < |es|
      ensures KvOk(SPLIT, KvsOf(es)[i])
      ensures KvsOf(es)[i].key == AlignmentKey() ==>
                KvsOf(es)[i].t == 4 && KvsOf(es)[i].val.Scalar? && |KvsOf(es)[i].val.raw| == 4
    {
      EntryTyped(es[i]);
      EntryOk(es[i]);
    }
  }

  lemma {:induction false} PaddedAt(blobs: seq<Blob>, head: seq<byte>, i: nat)
    requires i < |blobs|
    ensures var raw, start, off := FileBytes(head, blobs, 32), RoundUp(|head|, 32), Place(blobs, 32, 0)[i].off;
            && start + off + |PaddedData(blobs[i], 32)| <= |raw|
            && raw[start + off..start + off + |PaddedData(blobs[i], 32)|] == PaddedData(blobs[i], 32)
            && (i + 1 == |blobs| ==> start + off + |PaddedData(blobs[i], 32)| == |raw|)
  {
    hide Place, Padded, Zeros, Pad, PaddedData, RoundUp, IsPowerOfTwo;
    DefaultIsPowerOfTwo();
    var raw, start := FileBytes(head, blobs, 32), RoundUp(|head|, 32);
    AtIsSlice(raw, 0, raw);
    AtSplit3(raw, 0, head, Zeros(Pad(|head|, 32)), Padded(blobs, 32));
    PadIs(|head|, 32);
    OffsetsFindPadded(blobs, 32, 0, raw, start, i);
    AtIsSlice(raw, start + Place(blobs, 32, 0)[i].off, PaddedData(blobs[i], 32));
    DepthSlice.PlaceAscends(blobs, 32, 0, i);
  }

  /** A tensor's slice of the file: its payload with the padding behind it. */
  lemma {:induction false} SliceIsPadded(blobs: seq<Blob>, head: seq<byte>, i: nat)
    requires i < |blobs|
    ensures var raw := FileBytes(head, blobs, 32);
            BlobOf(Place(blobs, 32, 0), i, raw, RoundUp(|head|, 32)) == DepthSlice.PadBlob(blobs[i], 32)
  {
    hide Place, FileBytes, PaddedData, RoundUp, IsPowerOfTwo;
    DefaultIsPowerOfTwo();
    PaddedAt(blobs, head, i);
    DepthSlice.PlaceAscends(blobs, 32, 0, i);
    PlaceKeepsFields(blobs, 32, 0, i);
  }

  /** The written file as the script reads it. */
  lemma {:induction false} SourceOfWritten(blobs: seq<Blob>, es: seq<Entry>)
    requires Laid(blobs, es)
    ensures ReadSource(WrittenFile(blobs, es)).Ok? && Conforms(WrittenFile(blobs, es))
    ensures var src := ReadSource(WrittenFile(blobs, es)).value;
            && src.h == FileHeader(3, KvsOf(es), blobs, 32) && src.a == 32
            && src.blobs == DepthSlice.PadAll(blobs, 32)
  {
    hide HeaderOk, EncHeader, ParseHeader, Place, Padded, RoundUp, MaskUp, KvsOf, Encoded, HeadBytes, AlignmentTyped,
         ReadAlignment, DeclaredAlignment, Blobs, FileFits, EntryFits, IsPowerOfTwo, Finds, Ascii;
    DefaultIsPowerOfTwo();
    HeaderFitsSplit(blobs, es);
    HeaderIsWritten(blobs, es);
    var kvs, raw := KvsOf(es), WrittenFile(blobs, es);
    var h := FileHeader(3, kvs, blobs, 32);
    var head := EncHeader(h);
    WrittenFileReads(SPLIT, 3, kvs, blobs, 32);
    assert head <= raw;
    AlignmentOfPrinted(raw, h, |kvs|);
    Declares32(es, |es|);
    MaskUpRounds(|head|, 32);
    BlobsArePadded(blobs, head);
  }

  lemma {:induction false} BlobsArePadded(blobs: seq<Blob>, head: seq<byte>)
    ensures Blobs(Place(blobs, 32, 0), FileBytes(head, blobs, 32), RoundUp(|head|, 32)) == DepthSlice.PadAll(blobs, 32)
  {
    hide Place, FileBytes, BlobOf, RoundUp;
    forall i | 0 <= i < |blobs|
      ensures BlobOf(Place(blobs, 32, 0), i, FileBytes(head, blobs, 32), RoundUp(|head|, 32))
           == DepthSlice.PadBlob(blobs[i], 32)
    {
      SliceIsPadded(blobs, head, i);
    }
  }

  // ----- the dictionary of a shard

  lemma {:induction false} DictNext(kvs: seq<Kv>, kv: Kv)
    ensures DictOf(kvs + [kv]) == DictOf(kvs)[kv.key := (kv.t, Decode(kv.t, kv.val))]
  {
    hide Decode;
    assert (kvs + [kv])[..|kvs|] == kvs;
  }

  /** The three split keys beside the caller's dictionary, or alone. */
  function ShardDict(es: seq<Entry>, i: nat, count: nat, total: nat, sparse: bool): Dict
  {
    (if i == 0 || !sparse then GivenDict(es) else map[])
      [Ascii("split.no") := (2, Int(i))]
      [Ascii("split.count") := (2, Int(count))]
      [Ascii("split.tensors.count") := (5, Int(total))]
  }

  lemma {:induction false} Counters(i: nat, total: nat)
    requires i < U16 && total < I32
    ensures Decode(2, Scalar(Le(i, 2))) == Int(i) && Decode(5, Scalar(Le(total, 4))) == Int(total)
  {
    Widths();
    FromLeOfLe(i, 2);
    FromLeOfLe(total, 4);
    hide Le, FromLe;
  }

  lemma {:induction false} ShardDictRead(es: seq<Entry>, i: nat, count: nat, total: nat, sparse: bool)
    requires AllFit(es) && i < U16 && count < U16 && total < I32
    ensures DictOf(ShardKvs(KvsOf(es), i, count, total, sparse)) == ShardDict(es, i, count, total, sparse)
  {
    hide DictOf, GivenDict, KvsOf, EntryFits, Decode, Le, Ascii;
    Counters(i, total);
    Counters(count, total);
    DictIsGiven(es);
    var base := if i == 0 || !sparse then KvsOf(es) else [];
    var e := Extra(i, count, total);
    DictNone();
    DictNext(base, e[0]);
    DictNext(base + [e[0]], e[1]);
    DictNext(base + [e[0]] + [e[1]], e[2]);
    assert base + e == base + [e[0]] + [e[1]] + [e[2]];
  }

  lemma DictNone()
    ensures DictOf([]) == map[]
  {
  }

  // ----- a shard read back

  /** Entry `t` of a shard names the blob, and the blob's payload stands at its offset. */
  predicate Carries(file: seq<byte>, start: nat, t: Tensor, blob: Blob)
  {
    && t.name == blob.name && t.ne == blob.ne && t.tt == blob.tt
    && t.off % 32 == 0 && At(file, start + t.off, blob.data)
  }

  /** The bytes of shard `s`: a header of its own and its part of the padded payloads. */
  lemma {:induction false} ShardBytes(blobs: seq<Blob>, es: seq<Entry>, k: nat, sparse: bool, s: nat)
    returns (count: nat, g: seq<Blob>)
    requires Laid(blobs, es) && SplitFile(WrittenFile(blobs, es), k, sparse).Ok?
    requires s < |SplitFile(WrittenFile(blobs, es), k, sparse).value|
    ensures 0 < k <= |blobs| && s < U16 && count < U16 && |blobs| < I32
    ensures count == |SplitFile(WrittenFile(blobs, es), k, sparse).value|
    ensures var h := FileHeader(3, ShardKvs(KvsOf(es), s, count, |blobs|, sparse), g, 32);
            && HeaderOk(FIXTURE, h)
            && SplitFile(WrittenFile(blobs, es), k, sparse).value[s] == FileBytes(EncHeader(h), g, 32)
    ensures var per := PerShard(|blobs|, k);
            && 0 <= s * per < |blobs| && |g| == (if s * per + per <= |blobs| then per else |blobs| - s * per)
            && g == DepthSlice.PadAll(blobs, 32)[s * per..s * per + |g|]
  {
    hide ReadSource, Groups, PerShard, TensorsOk, EncHeader, ShardKvs, FileBytes, SplitFile, Place, HeaderOk,
         KvsOf, EntryFits, Encoded, FileFits, WrittenFile, KvsOk, AlignmentTyped, DeclaredAlignment, Ascii;
    var raw := WrittenFile(blobs, es);
    SourceOfWritten(blobs, es);
    SourceFits(raw);
    ShardIs(raw, k, sparse, s);
    var padded, per := DepthSlice.PadAll(blobs, 32), PerShard(|blobs|, k);
    var gs := Groups(padded, per);
    count, g := |gs|, gs[s];
    var kvs := ShardKvs(KvsOf(es), s, count, |blobs|, sparse);
    assert KvsOk(SPLIT, KvsOf(es)) by { hide *; SplitKvs(blobs, es); }
    ShardMetadata(KvsOf(es), s, count, |blobs|, sparse);
    GroupNoLonger(padded, per, s);
    GroupSlice(padded, per, s);
    ShardFits(kvs, g);
  }

  lemma {:induction false} SplitKvs(blobs: seq<Blob>, es: seq<Entry>)
    requires Laid(blobs, es)
    ensures KvsOk(SPLIT, KvsOf(es))
  {
    hide KvsOk, KvsOf, EntryFits, FileFits;
    HeaderFitsSplit(blobs, es);
  }

  /** Shard `s` of a written file, read back: the caller's dictionary, when the shard carries it, with
      the shard's number, their count and the number of tensors; and from tensor `s * per` on the next
      `per` tensors, or what is left, each with its own dimensions, type and payload. */
  lemma {:induction false} ShardOfWritten(blobs: seq<Blob>, es: seq<Entry>, k: nat, sparse: bool, s: nat)
    requires Laid(blobs, es) && SplitFile(WrittenFile(blobs, es), k, sparse).Ok?
    requires s < |SplitFile(WrittenFile(blobs, es), k, sparse).value|
    ensures 0 < k <= |blobs|
    ensures var shards, per := SplitFile(WrittenFile(blobs, es), k, sparse).value, PerShard(|blobs|, k);
            && ReadTyped(shards[s]).Ok? && 0 <= s * per < |blobs|
            && var (dict, ts, end) := ReadTyped(shards[s]).value;
               && dict == ShardDict(es, s, |shards|, |blobs|, sparse)
               && |ts| == (if s * per + per <= |blobs| then per else |blobs| - s * per)
               && forall j :: 0 <= j < |ts| ==> Carries(shards[s], RoundUp(end, 32), ts[j], blobs[s * per + j])
  {
    hide ParseHeader, PerShard, EncHeader, ShardKvs, Finds, FileBytes, SplitFile, Place, RoundUp, KvsOf, HeaderOk,
         EntryFits, Encoded, FileFits, ShardDict, DictOf, WrittenFile, Ascii, Carries;
    var count, g := ShardBytes(blobs, es, k, sparse, s);
    var kvs := ShardKvs(KvsOf(es), s, count, |blobs|, sparse);
    var file := SplitFile(WrittenFile(blobs, es), k, sparse).value[s];
    DefaultIsPowerOfTwo();
    WrittenFileReads(FIXTURE, 3, kvs, g, 32);
    ShardDictRead(es, s, count, |blobs|, sparse);
    GroupCarries(file, RoundUp(|EncHeader(FileHeader(3, kvs, g, 32))|, 32), blobs, g, s * PerShard(|blobs|, k));
  }

  lemma {:induction false} GroupSlice(xs: seq<Blob>, per: nat, s: nat)
    requires per > 0 && s < |Groups(xs, per)|
    ensures var g := Groups(xs, per)[s];
            && 0 <= s * per < |xs| && |g| == (if s * per + per <= |xs| then per else |xs| - s * per)
            && g == xs[s * per..s * per + |g|]
  {
    GroupHolds(xs, per, s);
  }

  lemma {:induction false} GroupCarries(file: seq<byte>, start: nat, blobs: seq<Blob>, g: seq<Blob>, from: nat)
    requires from + |g| <= |blobs| && g == DepthSlice.PadAll(blobs, 32)[from..from + |g|]
    requires Finds(file, start, Place(g, 32, 0), g, 32)
    ensures forall j :: 0 <= j < |g| ==> Carries(file, start, Place(g, 32, 0)[j], blobs[from + j])
  {
    hide Place, Finds, Carries;
    forall j | 0 <= j < |g| ensures Carries(file, start, Place(g, 32, 0)[j], blobs[from + j]) {
      PaddedCarries(file, start, g, j, blobs[from + j]);
    }
  }

  lemma {:induction false} ShardFits(kvs: seq<Kv>, g: seq<Blob>)
    requires KvsOk(SPLIT, kvs) && |kvs| < U64_LIMIT && |g| < U64_LIMIT && TensorsOk(Place(g, 32, 0))
    ensures HeaderOk(FIXTURE, FileHeader(3, kvs, g, 32))
  {
    hide ValOk, TensorsOk;
    forall i | 0 <= i < |kvs| ensures KvOk(FIXTURE, kvs[i]) {
      assert KvOk(SPLIT, kvs[i]);
      OkInMode(SPLIT, FIXTURE, kvs[i].val, kvs[i].t);
    }
  }

  lemma {:induction false} PaddedCarries(file: seq<byte>, start: nat, g: seq<Blob>, j: nat, blob: Blob)
    requires j < |g| && g[j] == DepthSlice.PadBlob(blob, 32) && Finds(file, start, Place(g, 32, 0), g, 32)
    ensures Carries(file, start, Place(g, 32, 0)[j], blob)
  {
    hide Place, Zeros, Pad;
    assert FindsOne(file, start, Place(g, 32, 0)[j], g[j], 32);
    AtSplit(file, start + Place(g, 32, 0)[j].off, blob.data, Zeros(Pad(|blob.data|, 32)));
  }

  // ----- refusals

  /** A group's directory fits its fields when the whole directory does. */
  lemma {:induction false} GroupFits(blobs: seq<Blob>, from: nat, g: seq<Blob>)
    requires from + |g| <= |blobs| && g == DepthSlice.PadAll(blobs, 32)[from..from + |g|]
    requires TensorsOk(Place(blobs, 32, 0)) && |Padded(blobs, 32)| < U64_LIMIT
    ensures TensorsOk(Place(g, 32, 0))
  {
    DefaultIsPowerOfTwo();
    hide Place, Padded, PaddedData, IsPowerOfTwo;
    var all := DepthSlice.PadAll(blobs, 32);
    DepthSlice.LayoutOfPadded(blobs, 32, 0);
    assert all == all[..from] + g + all[from + |g|..];
    PaddedConcat(all[..from] + g, all[from + |g|..], 32);
    PaddedConcat(all[..from], g, 32);
    forall j | 0 <= j < |g| ensures TensorOk(Place(g, 32, 0)[j]) {
      DepthSlice.PlaceWithin(g, 32, j);
      PlaceKeepsFields(g, 32, 0, j);
      PlaceKeepsFields(blobs, 32, 0, from + j);
      assert TensorOk(Place(blobs, 32, 0)[from + j]);
    }
  }

  lemma {:induction false} ShardWritten(kvs: seq<Kv>, g: seq<Blob>, i: nat, count: nat, total: nat, sparse: bool)
    requires |kvs| + 3 < U64_LIMIT && total < I32 && i < U16 && count < U16 && TensorsOk(Place(g, 32, 0))
    ensures Shard(3, kvs, g, i, count, total, sparse, 32).Ok?
  {
    hide Place, FileBytes, EncHeader, Extra, TensorsOk;
  }

  lemma {:induction false} ShardsWritten(kvs: seq<Kv>, gs: seq<seq<Blob>>, total: nat, sparse: bool, i: nat)
    requires |kvs| + 3 < U64_LIMIT && total < I32 && i <= |gs| < U16
    requires forall j :: 0 <= j < |gs| ==> TensorsOk(Place(gs[j], 32, 0))
    ensures Shards(3, kvs, gs, i, total, sparse, 32).Ok?
  {
    hide Place, TensorsOk, Shard;
    if i > 0 {
      ShardsWritten(kvs, gs, total, sparse, i - 1);
      ShardWritten(kvs, gs[i - 1], i - 1, |gs|, total, sparse);
    }
  }

  lemma {:induction false} PaddedGroupsFit(blobs: seq<Blob>, k: nat)
    requires TensorsOk(Place(blobs, 32, 0)) && |Padded(blobs, 32)| < U64_LIMIT && 0 < k <= |blobs|
    ensures var padded, per := DepthSlice.PadAll(blobs, 32), PerShard(|blobs|, k);
            && per > 0 && |Groups(padded, per)| <= k
            && forall j :: 0 <= j < |Groups(padded, per)| ==> TensorsOk(Place(Groups(padded, per)[j], 32, 0))
  {
    hide Groups, PerShard, TensorsOk, Place, Padded;
    var padded, per := DepthSlice.PadAll(blobs, 32), PerShard(|blobs|, k);
    GroupsFit(padded, k);
    var gs := Groups(padded, per);
    forall j | 0 <= j < |gs| ensures TensorsOk(Place(gs[j], 32, 0)) {
      GroupSlice(padded, per, j);
      GroupFits(blobs, j * per, gs[j]);
    }
  }

  /** A written file of fewer than 2^64 bytes is split unless more shards than tensors are asked for, or
      none; in fewer than 2^16 shards and with fewer than 2^31 tensors no field overflows. */
  lemma {:induction false} SplitOfWritten(blobs: seq<Blob>, es: seq<Entry>, k: nat, sparse: bool)
    requires Laid(blobs, es) && |WrittenFile(blobs, es)| < U64_LIMIT && |es| + 3 < U64_LIMIT
    requires k < 0x1_0000 && |blobs| < 0x8000_0000
    ensures k > |blobs| ==> SplitFile(WrittenFile(blobs, es), k, sparse) == Err(TooManyShards)
    ensures k == 0 ==> SplitFile(WrittenFile(blobs, es), k, sparse) == Err(DivisionByZero)
    ensures 0 < k <= |blobs| ==> SplitFile(WrittenFile(blobs, es), k, sparse).Ok?
  {
    hide ReadSource, Groups, PerShard, TensorsOk, EncHeader, Place, KvsOf, EntryFits, Encoded, AlignmentTyped,
         DeclaredAlignment, Ascii, Shards, Padded, HeadBytes;
    SourceOfWritten(blobs, es);
    if 0 < k <= |blobs| {
      PaddedGroupsFit(blobs, k);
      var gs := Groups(DepthSlice.PadAll(blobs, 32), PerShard(|blobs|, k));
      ShardsWritten(KvsOf(es), gs, |blobs|, sparse, |gs|);
    }
  }
}
