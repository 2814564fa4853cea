/** scripts/gguf-split.py: splitting a GGUF file into shards. */
module Split {
  import opened Wrappers
  import opened Bytes
  import opened Align
  import opened Gguf
  import opened GgufReader
  import opened Layout

  // ----- groups

  /** `[xs[i:i + per] for i in range(0, len(xs), per)]`. */
  function Groups<T>(xs: seq<T>, per: nat): (r: seq<seq<T>>)
    requires per > 0
    ensures forall i :: 0 <= i < |r| ==> 0 < |r[i]| <= per
  {
    if xs == [] then []
    else if |xs| <= per then [xs]
    else [xs[..per]] + Groups(xs[per..], per)
  }

  function Flatten<T>(gs: seq<seq<T>>): seq<T>
  {
    if gs == [] then [] else gs[0] + Flatten(gs[1..])
  }

  /** The groups hold every element once, in order. */
  lemma {:induction false} GroupsFlatten<T>(xs: seq<T>, per: nat)
    requires per > 0
    ensures Flatten(Groups(xs, per)) == xs
  {
    if |xs| > per {
      GroupsFlatten(xs[per..], per);
      assert Groups(xs, per)[1..] == Groups(xs[per..], per);
      assert xs == xs[..per] + xs[per..];
    } else if xs != [] {
      assert Groups(xs, per)[1..] == [];
      assert xs + [] == xs;
    }
  }

  lemma {:induction false} GroupsFew<T>(xs: seq<T>, per: nat, k: nat)
    requires per > 0 && |xs| <= k * per
    ensures |Groups(xs, per)| <= k
    decreases k
  {
    if xs != [] {
      assert k > 0;
      assert k * per == (k - 1) * per + per;
      if |xs| > per {
        GroupsFew(xs[per..], per, k - 1);
      }
    }
  }

  /** `(n + k - 1) // k`. */
  function PerShard(n: nat, k: nat): nat
    requires k > 0
  {
    (n + k - 1) / k
  }

  /** At most the requested number of shards, and at least one tensor in each. */
  lemma GroupsFit<T>(xs: seq<T>, k: nat)
    requires k > 0
    ensures var per := PerShard(|xs|, k);
            xs != [] ==> per > 0 && |Groups(xs, per)| <= k
  {
    if xs != [] {
      var per := PerShard(|xs|, k);
      assert |xs| + k - 1 == per * k + (|xs| + k - 1) % k;
      assert per * k == k * per;
      GroupsFew(xs, per, k);
    }
  }

  lemma {:induction false} GroupsMany<T>(xs: seq<T>, per: nat, k: nat)
    requires per > 0 && |xs| > k * per
    ensures |Groups(xs, per)| > k
    decreases k
  {
    if k > 0 {
      assert k * per == (k - 1) * per + per && (k - 1) * per >= 0;
      GroupsMany(xs[per..], per, k - 1);
    }
  }

  /** No smaller size of the shards keeps to the requested number. */
  lemma PerShardIsLeast<T>(xs: seq<T>, k: nat, per: nat)
    requires k > 0 && 0 < per < PerShard(|xs|, k)
    ensures |Groups(xs, per)| > k
  {
    var q := PerShard(|xs|, k);
    assert |xs| + k - 1 == q * k + (|xs| + k - 1) % k;
    StepApart(per, q, k);
    assert per * k == k * per;
    GroupsMany(xs, per, k);
  }

  /** Group `i` begins at element `i * per`, and every group but the last is full. */
  lemma {:induction false} GroupHolds<T>(xs: seq<T>, per: nat, i: nat)
    requires per > 0 && i < |Groups(xs, per)|
    ensures 0 <= i * per < |xs|
    ensures Groups(xs, per)[i] == if i * per + per <= |xs| then xs[i * per..i * per + per] else xs[i * per..]
    decreases i
  {
    hide Groups;
    GroupsStep(xs, per);
    if i > 0 {
      var from := (i - 1) * per;
      assert i * per == from + per;
      GroupHolds(xs[per..], per, i - 1);
      Suffix(xs, per, from);
    }
  }

  lemma GroupsStep<T>(xs: seq<T>, per: nat)
    requires per > 0
    ensures Groups(xs, per)
         == if xs == [] then [] else if |xs| <= per then [xs] else [xs[..per]] + Groups(xs[per..], per)
  {
  }

  lemma Suffix<T>(xs: seq<T>, per: nat, from: nat)
    requires per + from <= |xs|
    ensures xs[per..][from..] == xs[from + per..]
    ensures from + 2 * per <= |xs| ==> xs[per..][from..from + per] == xs[from + per..from + 2 * per]
  {
  }

  // ----- reading

  /** The value bytes of entry `i` start here. */
  function ValueAt(kvs: seq<Kv>, i: nat): nat
    requires i < |kvs|
  {
    24 + |EncKvs(kvs[..i])| + |EncText(kvs[i].key)| + 4
  }

  /** The last alignment entry's first four value bytes, whatever its type. */
  function ReadAlignment(raw: seq<byte>, kvs: seq<Kv>, n: nat): Result<nat, Error>
    requires n <= |kvs|
  {
    if n == 0 then Ok(32)
    else if kvs[n - 1].key == AlignmentKey() then
      if ValueAt(kvs, n - 1) + 4 <= |raw| then Ok(IntAt(raw, ValueAt(kvs, n - 1), 4)) else Err(StructError)
    else ReadAlignment(raw, kvs, n - 1)
  }

  /** `raw[lo:hi]` for non-negative bounds. */
  function PySlice(raw: seq<byte>, lo: nat, hi: nat): seq<byte>
  {
    var h := if hi <= |raw| then hi else |raw|;
    if lo <= h then raw[lo..h] else []
  }

  /** Each tensor with the bytes up to the next tensor's offset, or to the end of the file. */
  function BlobOf(ts: seq<Tensor>, i: nat, raw: seq<byte>, start: nat): Blob
    requires i < |ts|
  {
    var hi := if i + 1 < |ts| then start + ts[i + 1].off else |raw|;
    Blob(ts[i].name, ts[i].ne, ts[i].tt, PySlice(raw, start + ts[i].off, hi))
  }

  function Blobs(ts: seq<Tensor>, raw: seq<byte>, start: nat): (r: seq<Blob>)
    ensures |r| == |ts| && forall i :: 0 <= i < |r| ==> r[i] == BlobOf(ts, i, raw, start)
  {
    seq(|ts|, i requires 0 <= i < |ts| => BlobOf(ts, i, raw, start))
  }

  // ----- one shard

  const U16: nat := 0x1_0000
  const I32: nat := 0x8000_0000

  /** `split.no`, `split.count` and `split.tensors.count`. */
  function Extra(i: nat, count: nat, total: nat): (r: seq<Kv>)
    requires i < U16 && count < U16 && total < I32
    ensures |r| == 3
  {
    [Kv(Ascii("split.no"), 2, Scalar(Le(i, 2))),
     Kv(Ascii("split.count"), 2, Scalar(Le(count, 2))),
     Kv(Ascii("split.tensors.count"), 5, Scalar(Le(total, 4)))]
  }

  function ShardKvs(kvs: seq<Kv>, i: nat, count: nat, total: nat, sparse: bool): seq<Kv>
    requires i < U16 && count < U16 && total < I32
  {
    (if i == 0 || !sparse then kvs else []) + Extra(i, count, total)
  }

  function Shard(version: nat, kvs: seq<Kv>, g: seq<Blob>, i: nat, count: nat, total: nat, sparse: bool,
      a: nat): Result<seq<byte>, Error>
    requires a > 0
  {
    if i >= U16 || count >= U16 || total >= I32 then Err(StructError)
    else
      var h := FileHeader(version, ShardKvs(kvs, i, count, total, sparse), g, a);
      if |h.kvs| >= U64_LIMIT || !TensorsOk(h.tensors) then Err(StructError)
      else Ok(FileBytes(EncHeader(h), g, a))
  }

  /** Shards `0 .. i`; the first that cannot be written stops the run. */
  function Shards(version: nat, kvs: seq<Kv>, gs: seq<seq<Blob>>, i: nat, total: nat, sparse: bool, a: nat):
      (r: Result<seq<seq<byte>>, Error>)
    requires a > 0 && i <= |gs|
    ensures r.Ok? ==> |r.value| == i
  {
    if i == 0 then Ok([])
    else
      match Shards(version, kvs, gs, i - 1, total, sparse, a)
      case Err(e) => Err(e)
      case Ok(done) =>
        match Shard(version, kvs, gs[i - 1], i - 1, |gs|, total, sparse, a)
        case Err(e) => Err(e)
        case Ok(file) => Ok(done + [file])
  }

  lemma {:induction false} ShardsAre(version: nat, kvs: seq<Kv>, gs: seq<seq<Blob>>, i: nat, total: nat, sparse: bool,
      a: nat, j: nat)
    requires a > 0 && j < i <= |gs| && Shards(version, kvs, gs, i, total, sparse, a).Ok?
    ensures Shard(version, kvs, gs[j], j, |gs|, total, sparse, a)
         == Ok(Shards(version, kvs, gs, i, total, sparse, a).value[j])
  {
    hide Shard;
    if j < i - 1 { ShardsAre(version, kvs, gs, i - 1, total, sparse, a, j); }
  }

  // ----- the whole split

  /** The input as the script reads it: header, alignment and the tensors' bytes. */
  datatype Source = Source(h: Header, a: nat, blobs: seq<Blob>, start: nat)

  function ReadSource(raw: seq<byte>): (r: Result<Source, Error>)
    ensures r.Ok? ==> r.value.a > 0 && |r.value.blobs| == |r.value.h.tensors|
  {
    match ParseHeader(SPLIT, raw)
    case Err(e) => Err(e)
    case Ok(p) =>
      match ReadAlignment(raw, p.h.kvs, |p.h.kvs|)
      case Err(e) => Err(e)
      case Ok(a) =>
        if a == 0 then Err(DivisionByZero)
        else
          var start := MaskUp(p.dirEnd, a);
          Ok(Source(p.h, a, Blobs(p.h.tensors, raw, start), start))
  }

  function SplitFile(raw: seq<byte>, k: nat, sparse: bool): Result<seq<seq<byte>>, Error>
  {
    match ReadSource(raw)
    case Err(e) => Err(e)
    case Ok(src) =>
      var n := |src.blobs|;
      if k > n then Err(TooManyShards)
      else if k == 0 then Err(DivisionByZero)
      else
        GroupsFit(src.blobs, k);
        var gs := Groups(src.blobs, PerShard(n, k));
        Shards(src.h.version, src.h.kvs, gs, |gs|, n, sparse, src.a)
  }

  // ----- what each shard holds

  lemma {:induction false} EncKvsConcat(x: seq<Kv>, y: seq<Kv>)
    ensures EncKvs(x + y) == EncKvs(x) + EncKvs(y)
  {
    if x == [] {
      assert x + y == y;
    } else {
      hide EncKv;
      EncKvsConcat(x[1..], y);
      assert (x + y)[1..] == x[1..] + y;
      AppendAssoc(EncKv(x[0]), EncKvs(x[1..]), EncKvs(y));
    }
  }

  /** Every alignment entry is a u32, as the format demands. */
  predicate AlignmentTyped(kvs: seq<Kv>)
  {
    forall i :: 0 <= i < |kvs| && kvs[i].key == AlignmentKey() ==>
        kvs[i].t == 4 && kvs[i].val.Scalar? && |kvs[i].val.raw| == 4
  }

  lemma ExtraOk(i: nat, count: nat, total: nat)
    requires i < U16 && count < U16 && total < I32
    ensures KvsOk(SPLIT, Extra(i, count, total))
    ensures forall j :: 0 <= j < 3 ==> Extra(i, count, total)[j].key != AlignmentKey()
  {
    var e := Extra(i, count, total);
    assert AlignmentKey()[0] == 103 && e[0].key[0] == 115 && e[1].key[0] == 115 && e[2].key[0] == 115;
  }

  /** The alignment read from a printed header is the value of the last typed entry. */
  function DeclaredAlignment(kvs: seq<Kv>, n: nat): nat
    requires n <= |kvs|
  {
    if n == 0 then 32
    else if kvs[n - 1].key == AlignmentKey() && kvs[n - 1].val.Scalar? then FromLe(kvs[n - 1].val.raw)
    else DeclaredAlignment(kvs, n - 1)
  }

  lemma {:induction false} AlignmentOfPrinted(raw: seq<byte>, h: Header, n: nat)
    requires n <= |h.kvs| && EncHeader(h) <= raw && AlignmentTyped(h.kvs)
    ensures ReadAlignment(raw, h.kvs, n) == Ok(DeclaredAlignment(h.kvs, n))
  {
    if n > 0 {
      if h.kvs[n - 1].key == AlignmentKey() {
        ValueBytes(raw, h, n - 1);
        AtIsSlice(raw, ValueAt(h.kvs, n - 1), h.kvs[n - 1].val.raw);
        FromLeIsIntAt(raw, ValueAt(h.kvs, n - 1), 4);
      } else {
        AlignmentOfPrinted(raw, h, n - 1);
      }
    }
  }

  /** Where the bytes of a value stand in a file that starts with the header. */
  lemma ValueBytes(raw: seq<byte>, h: Header, i: nat)
    requires i < |h.kvs| && EncHeader(h) <= raw
    ensures At(raw, ValueAt(h.kvs, i), EncVal(h.kvs[i].val))
  {
    hide EncKvs, EncVal, EncText;
    var kv := h.kvs[i];
    AtIsSlice(raw, 0, EncHeader(h));
    HeaderParts(raw, h);
    assert h.kvs == h.kvs[..i] + ([kv] + h.kvs[i + 1..]);
    hide At, EncHeader;
    KvsFirst(kv, h.kvs[i + 1..]);
    EncKvsConcat(h.kvs[..i], [kv] + h.kvs[i + 1..]);
    AtSplit3(raw, 24, EncKvs(h.kvs[..i]), EncKv(kv), EncKvs(h.kvs[i + 1..]));
    AtSplit3(raw, 24 + |EncKvs(h.kvs[..i])|, EncText(kv.key), U32(kv.t), EncVal(kv.val));
  }

  lemma KvsFirst(kv: Kv, rest: seq<Kv>)
    ensures EncKvs([kv] + rest) == EncKv(kv) + EncKvs(rest)
  {
    assert ([kv] + rest)[1..] == rest;
  }

  lemma {:induction false} DeclaredInFront(kvs: seq<Kv>, extra: seq<Kv>, n: nat)
    requires n <= |extra| && forall i :: 0 <= i < |extra| ==> extra[i].key != AlignmentKey()
    ensures DeclaredAlignment(kvs + extra, |kvs| + n) == DeclaredAlignment(kvs, |kvs|)
  {
    if n > 0 {
      DeclaredInFront(kvs, extra, n - 1);
    } else {
      SamePrefix(kvs, extra, |kvs|);
    }
  }

  lemma {:induction false} SamePrefix(kvs: seq<Kv>, extra: seq<Kv>, n: nat)
    requires n <= |kvs|
    ensures DeclaredAlignment(kvs + extra, n) == DeclaredAlignment(kvs, n)
  {
    if n > 0 { SamePrefix(kvs, extra, n - 1); }
  }

  /** Shard `i` of a successful split, unfolded. */
  lemma ShardIs(raw: seq<byte>, k: nat, sparse: bool, i: nat)
    requires SplitFile(raw, k, sparse).Ok? && i < |SplitFile(raw, k, sparse).value|
    ensures ReadSource(raw).Ok? && 0 < k <= |ReadSource(raw).value.blobs|
    ensures var src, n := ReadSource(raw).value, |ReadSource(raw).value.blobs|;
            var gs := Groups(src.blobs, PerShard(n, k));
            && PerShard(n, k) > 0 && |SplitFile(raw, k, sparse).value| == |gs|
            && i < U16 && |gs| < U16 && n < I32
            && var h := FileHeader(src.h.version, ShardKvs(src.h.kvs, i, |gs|, n, sparse), gs[i], src.a);
               && |h.kvs| < U64_LIMIT && TensorsOk(h.tensors)
               && SplitFile(raw, k, sparse).value[i] == FileBytes(EncHeader(h), gs[i], src.a)
  {
    hide ReadSource, Groups, PerShard, TensorsOk, FileBytes, EncHeader, ShardKvs, FileHeader;
    var src, n := ReadSource(raw).value, |ReadSource(raw).value.blobs|;
    GroupsFit(src.blobs, k);
    var gs := Groups(src.blobs, PerShard(n, k));
    ShardsAre(src.h.version, src.h.kvs, gs, |gs|, n, sparse, src.a, i);
  }

  /** Where a reader of the file puts its data section. */
  function ReaderStart(file: seq<byte>): Result<nat, Error>
  {
    match ReadSource(file) case Err(e) => Err(e) case Ok(src) => Ok(src.start)
  }

  /** The format's demands on the input. */
  predicate Conforms(raw: seq<byte>)
  {
    ReadSource(raw).Ok? && IsPowerOfTwo(ReadSource(raw).value.a) && AlignmentTyped(ReadSource(raw).value.h.kvs)
  }

  lemma SourceFits(raw: seq<byte>)
    requires ReadSource(raw).Ok? && AlignmentTyped(ReadSource(raw).value.h.kvs)
    ensures var src := ReadSource(raw).value;
            && HeaderOk(SPLIT, src.h) && ReadAlignment(raw, src.h.kvs, |src.h.kvs|) == Ok(src.a)
            && DeclaredAlignment(src.h.kvs, |src.h.kvs|) == src.a
  {
    hide ParseHeader, HeaderOk, EncHeader, Blobs, AlignmentTyped, ReadAlignment, DeclaredAlignment;
    PrintOfParse(SPLIT, raw);
    var src := ReadSource(raw).value;
    AlignmentOfPrinted(raw, src.h, |src.h.kvs|);
  }

  /** The metadata a shard carries declares the input's alignment, or none when it is sparse. */
  lemma ShardMetadata(kvs: seq<Kv>, i: nat, count: nat, total: nat, sparse: bool)
    requires i < U16 && count < U16 && total < I32 && KvsOk(SPLIT, kvs) && AlignmentTyped(kvs)
    ensures var s := ShardKvs(kvs, i, count, total, sparse);
            && KvsOk(SPLIT, s) && AlignmentTyped(s)
            && DeclaredAlignment(s, |s|) == if i == 0 || !sparse then DeclaredAlignment(kvs, |kvs|) else 32
  {
    ExtraOk(i, count, total);
    var base := if i == 0 || !sparse then kvs else [];
    var extra := Extra(i, count, total);
    hide Extra, AlignmentKey, KvOk;
    DeclaredInFront(base, extra, 3);
    assert |base + extra| == |base| + 3;
  }

  /** Every shard is a complete file: its header holds the metadata (or only the three split keys)
      and its group's directory, whose offsets find the group's bytes after the aligned header. A
      reader that goes by the shard's own metadata finds that place exactly when the shard carries
      the alignment, or rounding to the default 32 comes to the same. */
  lemma ShardHoldsItsGroup(raw: seq<byte>, k: nat, sparse: bool, i: nat)
    requires Conforms(raw) && SplitFile(raw, k, sparse).Ok? && i < |SplitFile(raw, k, sparse).value|
    ensures ReadSource(raw).Ok? && 0 < k <= |ReadSource(raw).value.blobs|
    ensures
      var src, n := ReadSource(raw).value, |ReadSource(raw).value.blobs|;
      && PerShard(n, k) > 0
      && var gs := Groups(src.blobs, PerShard(n, k));
         && |SplitFile(raw, k, sparse).value| == |gs| < U16 && i < U16 && n < I32
         && var file := SplitFile(raw, k, sparse).value[i];
            && ParseHeader(SPLIT, file).Ok?
            && var p := ParseHeader(SPLIT, file).value;
               && p.h.version == src.h.version && p.h.kvs == ShardKvs(src.h.kvs, i, |gs|, n, sparse)
               && Finds(file, RoundUp(p.dirEnd, src.a), p.h.tensors, gs[i], src.a)
               && (ReaderStart(file) == Ok(RoundUp(p.dirEnd, src.a))
                   <==> i == 0 || !sparse || RoundUp(p.dirEnd, 32) == RoundUp(p.dirEnd, src.a))
  {
    hide ReadSource, Groups, PerShard, TensorsOk, EncHeader, ShardKvs, Finds, FileBytes, AlignmentTyped,
         KvsOk, DeclaredAlignment, ReadAlignment, SplitFile, ParseHeader, Place, RoundUp;
    SourceFits(raw);
    ShardIs(raw, k, sparse, i);
    var src, n := ReadSource(raw).value, |ReadSource(raw).value.blobs|;
    var gs := Groups(src.blobs, PerShard(n, k));
    var kvs := ShardKvs(src.h.kvs, i, |gs|, n, sparse);
    ShardMetadata(src.h.kvs, i, |gs|, n, sparse);
    DefaultIsPowerOfTwo();
    GroupNoLonger(src.blobs, PerShard(n, k), i);
    WrittenFileReads(SPLIT, src.h.version, kvs, gs[i], src.a);
    WhereAReaderLooks(FileHeader(src.h.version, kvs, gs[i], src.a), SplitFile(raw, k, sparse).value[i]);
  }

  lemma WhereAReaderLooks(h: Header, file: seq<byte>)
    requires ParseHeader(SPLIT, file).Ok? && ParseHeader(SPLIT, file).value.h == h && AlignmentTyped(h.kvs)
    requires IsPowerOfTwo(DeclaredAlignment(h.kvs, |h.kvs|))
    ensures ReaderStart(file)
         == Ok(RoundUp(ParseHeader(SPLIT, file).value.dirEnd, DeclaredAlignment(h.kvs, |h.kvs|)))
  {
    hide ParseHeader, HeaderOk, EncHeader, Blobs, AlignmentTyped, ReadAlignment, DeclaredAlignment, RoundUp;
    PrintOfParse(SPLIT, file);
    AlignmentOfPrinted(file, h, |h.kvs|);
    MaskUpRounds(ParseHeader(SPLIT, file).value.dirEnd, DeclaredAlignment(h.kvs, |h.kvs|));
  }

  lemma {:induction false} GroupNoLonger<T>(xs: seq<T>, per: nat, i: nat)
    requires per > 0 && i < |Groups(xs, per)|
    ensures |Groups(xs, per)[i]| <= |xs|
  {
    if |xs| > per && i > 0 { GroupNoLonger(xs[per..], per, i - 1); }
  }

  // ----- a sparse shard that cannot be read

  /** Two tensors in a file aligned to 64. */
  function TwoTensors(): Header
  {
    Header(3, [Kv(AlignmentKey(), 4, Scalar([64, 0, 0, 0]))], [Tensor([97], [], 0, 0), Tensor([98], [], 0, 64)])
  }

  lemma TwoTensorsFit()
    ensures var h := TwoTensors();
            && HeaderOk(SPLIT, h) && AlignmentTyped(h.kvs) && |h.kvs| == 1 && |h.tensors| == 2
            && DeclaredAlignment(h.kvs, 1) == 64
  {
    var h := TwoTensors();
    assert FromLe(h.kvs[0].val.raw) == 64 by {
      assert FromLe([0]) == 0 && FromLe([0, 0]) == 0 && FromLe([0, 0, 0]) == 0 && FromLe([64, 0, 0, 0]) == 64;
    }
    hide FromLe;
  }

  /** A printed header is read back as it is. */
  lemma PrintedIsRead(h: Header)
    requires HeaderOk(SPLIT, h) && AlignmentTyped(h.kvs) && IsPowerOfTwo(DeclaredAlignment(h.kvs, |h.kvs|))
    ensures Conforms(EncHeader(h))
    ensures var r := ReadSource(EncHeader(h));
            && r.Ok? && r.value.h == h && r.value.a == DeclaredAlignment(h.kvs, |h.kvs|)
            && forall i :: 0 <= i < |h.tensors| ==>
                 var t, blob := h.tensors[i], r.value.blobs[i];
                 blob.name == t.name && blob.ne == t.ne && blob.tt == t.tt
  {
    hide EncHeader, ParseHeader, HeaderOk, ReadAlignment, DeclaredAlignment, AlignmentTyped, PySlice, MaskUp, EncKvs;
    assert DeclaredAlignment(h.kvs, |h.kvs|) > 0;
    hide IsPowerOfTwo;
    ParseOfPrint(SPLIT, EncHeader(h), h);
    AlignmentOfPrinted(EncHeader(h), h, |h.kvs|);
  }

  lemma TwoTensorsAreRead()
    ensures var r := ReadSource(EncHeader(TwoTensors()));
            && Conforms(EncHeader(TwoTensors())) && r.Ok? && r.value.h == TwoTensors() && r.value.a == 64
            && forall i :: 0 <= i < 2 ==>
                |r.value.blobs[i].name| == 1 && r.value.blobs[i].ne == [] && r.value.blobs[i].tt == 0
  {
    hide EncHeader, HeaderOk, DeclaredAlignment, AlignmentTyped, ReadSource, Conforms;
    TwoTensorsFit();
    DefaultIsPowerOfTwo();
    assert IsPowerOfTwo(2 * 32);
    PrintedIsRead(TwoTensors());
    assert TwoTensors().tensors[0] == Tensor([97], [], 0, 0) && TwoTensors().tensors[1] == Tensor([98], [], 0, 64);
  }

  /** A shard of one scalar tensor with a one-byte name is always written. */
  lemma SingleIsWritten(version: nat, kvs: seq<Kv>, blob: Blob, i: nat, count: nat, total: nat, sparse: bool, a: nat)
    requires i < U16 && count < U16 && total < I32 && a > 0 && |kvs| + 3 < U64_LIMIT
    requires |blob.name| == 1 && blob.ne == [] && blob.tt == 0
    ensures Shard(version, kvs, [blob], i, count, total, sparse, a).Ok?
  {
    hide EncHeader, FileBytes, Extra;
    assert Place([blob], a, 0) == [Tensor(blob.name, [], 0, 0)];
  }

  lemma TwoGroups(blobs: seq<Blob>)
    requires |blobs| == 2
    ensures PerShard(2, 2) == 1 && Groups(blobs, 1) == [[blobs[0]], [blobs[1]]]
  {
    assert blobs[..1] == [blobs[0]] && blobs[1..] == [blobs[1]];
    assert Groups(blobs[1..], 1) == [[blobs[1]]];
  }

  lemma TwoShards(version: nat, kvs: seq<Kv>, x: Blob, y: Blob)
    requires |kvs| == 1 && |x.name| == |y.name| == 1 && x.ne == y.ne == [] && x.tt == y.tt == 0
    ensures Shards(version, kvs, [[x], [y]], 2, 2, true, 64).Ok?
  {
    hide Shard;
    var gs := [[x], [y]];
    SingleIsWritten(version, kvs, x, 0, 2, 2, true, 64);
    SingleIsWritten(version, kvs, y, 1, 2, 2, true, 64);
    assert Shards(version, kvs, gs, 0, 2, true, 64).Ok?;
    assert Shards(version, kvs, gs, 1, 2, true, 64).Ok?;
  }

  lemma TwoTensorsSplit()
    ensures var raw := EncHeader(TwoTensors());
            && SplitFile(raw, 2, true).Ok? && |SplitFile(raw, 2, true).value| == 2
            && var blobs := ReadSource(raw).value.blobs;
               |blobs| == 2 && PerShard(2, 2) == 1 && Groups(blobs, 1) == [[blobs[0]], [blobs[1]]]
  {
    TwoTensorsAreRead();
    assert |TwoTensors().kvs| == 1 && |TwoTensors().tensors| == 2;
    hide ReadSource, Shards, TwoTensors, Conforms, EncHeader, Groups, PerShard;
    var src := ReadSource(EncHeader(TwoTensors())).value;
    TwoGroups(src.blobs);
    TwoShards(src.h.version, src.h.kvs, src.blobs[0], src.blobs[1]);
  }

  lemma SparseHeaderLength(version: nat, t: Tensor)
    requires |t.name| == 1 && t.ne == []
    ensures |EncHeader(Header(version, Extra(1, 2, 2), [t]))| == 131
  {
    var e := Extra(1, 2, 2);
    assert |EncKv(e[0])| == 22 && |EncKv(e[1])| == 25 && |EncKv(e[2])| == 35;
    assert |EncTensor(t)| == 25;
    var none: seq<Kv> := [];
    assert e == [e[0]] + ([e[1]] + ([e[2]] + none));
    KvsFirst(e[2], none);
    KvsFirst(e[1], [e[2]] + none);
    KvsFirst(e[0], [e[1]] + ([e[2]] + none));
    assert EncTensors([t]) == EncTensor(t) + [];
  }

  /** The header of shard 1, and where its own metadata sends a reader. */
  lemma SparseShardHeader(version: nat, kvs: seq<Kv>, t: Tensor, file: seq<byte>)
    requires KvsOk(SPLIT, kvs) && AlignmentTyped(kvs) && |t.name| == 1 && t.ne == []
    requires ParseHeader(SPLIT, file).Ok?
    requires ParseHeader(SPLIT, file).value.h == Header(version, ShardKvs(kvs, 1, 2, 2, true), [t])
    ensures ParseHeader(SPLIT, file).value.dirEnd == 131 && ReaderStart(file) == Ok(160)
  {
    hide EncHeader, ParseHeader, AlignmentTyped, DeclaredAlignment, KvsOk, ReaderStart, RoundUp, IsPowerOfTwo;
    PrintOfParse(SPLIT, file);
    assert ShardKvs(kvs, 1, 2, 2, true) == Extra(1, 2, 2);
    SparseHeaderLength(version, t);
    ShardMetadata(kvs, 1, 2, 2, true);
    DefaultIsPowerOfTwo();
    WhereAReaderLooks(ParseHeader(SPLIT, file).value.h, file);
    RoundUpsOf131();
  }

  /** The second of two sparse shards of a file aligned to 64 ends its header at byte 131: its data
      stands at 192, and a reader of the shard looks at 160. */
  lemma SparseShardIsMisread()
    ensures var raw := EncHeader(TwoTensors());
            && Conforms(raw) && SplitFile(raw, 2, true).Ok? && |SplitFile(raw, 2, true).value| == 2
            && var file := SplitFile(raw, 2, true).value[1];
               && ParseHeader(SPLIT, file).Ok?
               && Finds(file, 192, ParseHeader(SPLIT, file).value.h.tensors, [ReadSource(raw).value.blobs[1]], 64)
               && ReaderStart(file) == Ok(160)
  {
    TwoTensorsAreRead();
    TwoTensorsSplit();
    TwoTensorsFit();
    RoundUpsOf131();
    hide ReadSource, Groups, PerShard, EncHeader, SplitFile, ParseHeader, RoundUp, Conforms, ReaderStart, FindsOne,
         TwoTensors,
         ShardKvs, AlignmentTyped, DeclaredAlignment, KvsOk;
    var raw := EncHeader(TwoTensors());
    ShardHoldsItsGroup(raw, 2, true, 1);
    var file, blob := SplitFile(raw, 2, true).value[1], ReadSource(raw).value.blobs[1];
    var h := ParseHeader(SPLIT, file).value.h;
    assert h.tensors == [h.tensors[0]];
    FoundIsNamed(file, RoundUp(ParseHeader(SPLIT, file).value.dirEnd, 64), h.tensors[0], blob, 64);
    SparseShardHeader(h.version, TwoTensors().kvs, h.tensors[0], file);
  }

  lemma RoundUpsOf131()
    ensures RoundUp(131, 64) == 192 && RoundUp(131, 32) == 160
  {
  }

  lemma FoundIsNamed(file: seq<byte>, start: nat, t: Tensor, blob: Blob, a: nat)
    requires a > 0 && FindsOne(file, start, t, blob, a)
    ensures t.name == blob.name && t.ne == blob.ne
  {
  }

  /** At most `k` shards, none empty, holding every tensor once, in order. */
  lemma SplitConserves(raw: seq<byte>, k: nat, sparse: bool)
    requires SplitFile(raw, k, sparse).Ok?
    ensures ReadSource(raw).Ok? && 0 < k <= |ReadSource(raw).value.blobs|
    ensures var blobs := ReadSource(raw).value.blobs;
            && PerShard(|blobs|, k) > 0
            && var gs := Groups(blobs, PerShard(|blobs|, k));
               && |SplitFile(raw, k, sparse).value| == |gs| <= k
               && Flatten(gs) == blobs && forall i :: 0 <= i < |gs| ==> gs[i] != []
  {
    hide ReadSource, Groups, PerShard, Shards;
    var blobs := ReadSource(raw).value.blobs;
    GroupsFit(blobs, k);
    GroupsFlatten(blobs, PerShard(|blobs|, k));
  }

  // ----- the bytes the groups share out

  /** Offsets that ascend and stay in the file. */
  predicate AscendingOffsets(ts: seq<Tensor>, size: nat, start: nat)
  {
    && (forall i, j :: 0 <= i < j < |ts| ==> ts[i].off <= ts[j].off)
    && forall i :: 0 <= i < |ts| ==> start + ts[i].off <= size
  }

  function DataOf(blobs: seq<Blob>): seq<byte>
  {
    if blobs == [] then [] else DataOf(blobs[..|blobs| - 1]) + blobs[|blobs| - 1].data
  }

  /** With ascending offsets the tensors' bytes are the whole data section, from the first offset. */
  lemma {:induction false} BlobsCoverData(ts: seq<Tensor>, raw: seq<byte>, start: nat, n: nat)
    requires 0 < n <= |ts| && AscendingOffsets(ts, |raw|, start)
    ensures var hi := if n < |ts| then start + ts[n].off else |raw|;
            start + ts[0].off <= hi <= |raw| && DataOf(Blobs(ts, raw, start)[..n]) == raw[start + ts[0].off..hi]
  {
    hide BlobOf, PySlice;
    var blobs := Blobs(ts, raw, start);
    var lo := start + ts[n - 1].off;
    var hi := if n < |ts| then start + ts[n].off else |raw|;
    assert lo <= hi <= |raw| && blobs[n - 1].data == raw[lo..hi] by { BlobIsGap(ts, raw, start, n - 1); }
    assert blobs[..n][..n - 1] == blobs[..n - 1];
    assert DataOf(blobs[..n]) == DataOf(blobs[..n - 1]) + raw[lo..hi];
    if n > 1 {
      BlobsCoverData(ts, raw, start, n - 1);
    } else {
      assert DataOf(blobs[..0]) == [];
    }
  }

  lemma BlobIsGap(ts: seq<Tensor>, raw: seq<byte>, start: nat, i: nat)
    requires i < |ts| && AscendingOffsets(ts, |raw|, start)
    ensures var hi := if i + 1 < |ts| then start + ts[i + 1].off else |raw|;
            start + ts[i].off <= hi <= |raw| && BlobOf(ts, i, raw, start).data == raw[start + ts[i].off..hi]
  {
  }

  // ----- the script's loop

  method WriteShard(version: nat, meta: seq<byte>, kvs: seq<Kv>, g: seq<Blob>, i: nat, count: nat, total: nat,
      sparse: bool, a: nat)
    returns (r: Result<seq<byte>, Error>)
    requires a > 0 && meta == EncKvs(kvs)
    ensures r == Shard(version, kvs, g, i, count, total, sparse, a)
  {
    hide EncCounts, EncTensors, EncKv, Place, Padded, Zeros, Pad, TensorsOk, Extra;
    if i >= U16 || count >= U16 || total >= I32 { return Err(StructError); }
    var partMeta := if i == 0 || !sparse then meta else [];
    var partKvs := if i == 0 || !sparse then |kvs| else 0;
    if partKvs + 3 >= U64_LIMIT { return Err(StructError); }
    var ok, info := WriteDirectory(g, a);
    if !ok { return Err(StructError); }
    var extra := EncKvs(Extra(i, count, total));
    var head := EncCounts(version, |g|, partKvs + 3) + ((partMeta + extra) + info);
    EncKvsConcat(if i == 0 || !sparse then kvs else [], Extra(i, count, total));
    var data := WritePayloads(g, a);
    r := Ok(head + (Zeros(Pad(|head|, a)) + data));
  }

  method SplitGguf(raw: seq<byte>, k: nat, sparse: bool) returns (r: Result<seq<seq<byte>>, Error>)
    ensures r == SplitFile(raw, k, sparse)
  {
    hide ParseHeader, ReadAlignment, Blobs, Groups, PerShard, Shard, EncKvs, MaskUp;
    var p := ReadHeader(SPLIT, raw);
    if p.Err? { return Err(p.error); }
    var h := p.value.h;
    var align := ReadAlignment(raw, h.kvs, |h.kvs|);
    if align.Err? { return Err(align.error); }
    var a := align.value;
    if a == 0 { return Err(DivisionByZero); }
    var meta := raw[24..p.value.metaEnd];
    assert meta == EncKvs(h.kvs) by { MetadataBytes(raw); }
    var blobs := Blobs(h.tensors, raw, MaskUp(p.value.dirEnd, a));
    var n := |blobs|;
    if k > n { return Err(TooManyShards); }
    if k == 0 { return Err(DivisionByZero); }
    GroupsFit(blobs, k);
    var gs := Groups(blobs, PerShard(n, k));
    var files, i := [], 0;
    while i < |gs|
      invariant i <= |gs| && Shards(h.version, h.kvs, gs, i, n, sparse, a) == Ok(files)
    {
      var file := WriteShard(h.version, meta, h.kvs, gs[i], i, |gs|, n, sparse, a);
      if file.Err? {
        ShardsStop(h.version, h.kvs, gs, i + 1, n, sparse, a);
        return Err(file.error);
      }
      files, i := files + [file.value], i + 1;
    }
    r := Ok(files);
  }

  lemma MetadataBytes(raw: seq<byte>)
    requires ParseHeader(SPLIT, raw).Ok?
    ensures var p := ParseHeader(SPLIT, raw).value;
            p.metaEnd <= |raw| && raw[24..p.metaEnd] == EncKvs(p.h.kvs)
  {
    hide ParseHeader, EncHeader, EncKvs, EncTensors;
    PrintOfParse(SPLIT, raw);
    var h := ParseHeader(SPLIT, raw).value.h;
    AtIsSlice(raw, 0, EncHeader(h));
    HeaderParts(raw, h);
    AtIsSlice(raw, 24, EncKvs(h.kvs));
  }

  lemma {:induction false} ShardsStop(version: nat, kvs: seq<Kv>, gs: seq<seq<Blob>>, i: nat, total: nat,
      sparse: bool, a: nat)
    requires a > 0 && i <= |gs| && Shards(version, kvs, gs, i, total, sparse, a).Err?
    ensures Shards(version, kvs, gs, |gs|, total, sparse, a) == Shards(version, kvs, gs, i, total, sparse, a)
    decreases |gs| - i
  {
    if i < |gs| {
      hide Shard;
      ShardsStop(version, kvs, gs, i + 1, total, sparse, a);
    }
  }
}
