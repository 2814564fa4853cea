/** scripts/gguf-depth-slice.py: dropping whole layers from a GGUF file. */
module DepthSlice {
  import opened Wrappers
  import opened Bytes
  import opened Align
  import opened Gguf
  import opened GgufReader
  import opened Layout
  import opened Names
  import opened Sorting

  // ----- what the metadata says

  predicate SignedType(t: nat) { t == 1 || t == 3 || t == 5 || t == 11 }

  /** The types `struct` unpacks to an integer. */
  predicate IntType(t: nat) { ScalarSize(t) > 0 && t != 6 && t != 12 }

  function IntValue(t: nat, raw: seq<byte>): int
  {
    if SignedType(t) then Signed(raw) else FromLe(raw)
  }

  predicate FitsInt(t: nat, v: int)
  {
    if SignedType(t) then IsI(v, ScalarSize(t)) else IsU(v, ScalarSize(t))
  }

  function PackInt(t: nat, v: int): seq<byte>
    requires FitsInt(t, v)
  {
    if SignedType(t) then PackI(v, ScalarSize(t)) else PackU(v, ScalarSize(t))
  }

  /** The last entry with `key`: later assignments in the reading loop win. */
  function LastWith(kvs: seq<Kv>, key: seq<byte>): Option<Kv>
  {
    if kvs == [] then None
    else if kvs[|kvs| - 1].key == key then Some(kvs[|kvs| - 1])
    else LastWith(kvs[..|kvs| - 1], key)
  }

  function ArchKey(): seq<byte> { Ascii("general.architecture") }
  function CountKey(arch: seq<byte>): seq<byte> { arch + Ascii(".block_count") }
  function NextNKey(arch: seq<byte>): seq<byte> { arch + Ascii(".nextn_predict_layers") }

  function Alignment(kvs: seq<Kv>): (r: Result<nat, Error>)
    ensures r.Ok? ==> r.value > 0
  {
    match LastWith(kvs, AlignmentKey())
    case None => Ok(32)
    case Some(kv) =>
      if !kv.val.Scalar? || !IntType(kv.t) then Err(TypeError)
      else if IntValue(kv.t, kv.val.raw) <= 0 then Err(DivisionByZero)
      else Ok(IntValue(kv.t, kv.val.raw))
  }

  /** `rawv[8:]`: the text of a string entry, and whatever is there of any other. */
  function Arch(kvs: seq<Kv>): Option<seq<byte>>
  {
    match LastWith(kvs, ArchKey())
    case None => None
    case Some(kv) => Some(if |EncVal(kv.val)| >= 8 then EncVal(kv.val)[8..] else [])
  }

  function BlockCount(kvs: seq<Kv>, arch: seq<byte>): (r: Result<nat, Error>)
    ensures r.Ok? ==> r.value > 0
  {
    match LastWith(kvs, CountKey(arch))
    case None => Err(NoBlockCount)
    case Some(kv) =>
      if kv.val.Text? then Err(NoBlockCount)
      else if !kv.val.Scalar? || !IntType(kv.t) then Err(TypeError)
      else if IntValue(kv.t, kv.val.raw) == 0 then Err(NoBlockCount)
      else if IntValue(kv.t, kv.val.raw) < 0 then Err(DropOutOfRange)
      else Ok(IntValue(kv.t, kv.val.raw))
  }

  /** Truth of a parsed value: no string parses, an array is a non-empty tuple, and a float is
      false when its bytes are those of a zero of either sign. */
  predicate Truthy(kv: Kv)
  {
    match kv.val
    case Text(_) => false
    case Arr(_, _) => true
    case Scalar(raw) =>
      if IntType(kv.t) || raw == [] then FromLe(raw) != 0
      else FromLe(raw[..|raw| - 1]) != 0 || raw[|raw| - 1] !in {0, 128}
  }

  predicate DeclaresNextN(kvs: seq<Kv>, arch: seq<byte>)
  {
    exists i :: 0 <= i < |kvs| && kvs[i].key == NextNKey(arch) && Truthy(kvs[i])
  }

  // ----- the surviving layers

  /** `[i for i in range(n) if i not in drop]`. */
  function Keep(n: nat, drop: set<int>): (r: seq<nat>)
    ensures |r| <= n && forall i :: 0 <= i < |r| ==> r[i] < n && r[i] !in drop
  {
    if n == 0 then []
    else Keep(n - 1, drop) + if n - 1 in drop then [] else [n - 1]
  }

  /** `remap[layer]` of a kept layer: how many kept layers come before it. */
  function Remap(layer: nat, drop: set<int>): nat
  {
    |Keep(layer, drop)|
  }

  lemma {:induction false} KeptLayerAt(n: nat, drop: set<int>, l: nat)
    requires l < n && l !in drop
    ensures Remap(l, drop) < |Keep(n, drop)| && Keep(n, drop)[Remap(l, drop)] == l
  {
    if l < n - 1 {
      KeptLayerAt(n - 1, drop, l);
    }
  }

  lemma {:induction false} RemapOfKept(n: nat, drop: set<int>, i: nat)
    requires i < |Keep(n, drop)|
    ensures Remap(Keep(n, drop)[i], drop) == i
  {
    if i < |Keep(n - 1, drop)| {
      RemapOfKept(n - 1, drop, i);
    }
  }

  lemma {:induction false} KeepAscends(n: nat, drop: set<int>, i: nat, j: nat)
    requires i < j < |Keep(n, drop)|
    ensures Keep(n, drop)[i] < Keep(n, drop)[j]
  {
    if j < |Keep(n - 1, drop)| {
      KeepAscends(n - 1, drop, i, j);
    }
  }

  /** Remapping is the increasing bijection from the kept layers to 0 .. |keep| - 1. */
  lemma {:induction false} RemapBijection(n: nat, drop: set<int>)
    ensures forall i, j :: 0 <= i < j < |Keep(n, drop)| ==> Keep(n, drop)[i] < Keep(n, drop)[j]
    ensures forall i :: 0 <= i < |Keep(n, drop)| ==> Remap(Keep(n, drop)[i], drop) == i
    ensures forall l: nat :: l < n && l !in drop ==>
              Remap(l, drop) < |Keep(n, drop)| && Keep(n, drop)[Remap(l, drop)] == l
  {
    hide Keep, Remap;
    forall i, j | 0 <= i < j < |Keep(n, drop)| ensures Keep(n, drop)[i] < Keep(n, drop)[j] {
      KeepAscends(n, drop, i, j);
    }
    forall i | 0 <= i < |Keep(n, drop)| ensures Remap(Keep(n, drop)[i], drop) == i {
      RemapOfKept(n, drop, i);
    }
    forall l: nat | l < n && l !in drop
      ensures Remap(l, drop) < |Keep(n, drop)| && Keep(n, drop)[Remap(l, drop)] == l
    {
      KeptLayerAt(n, drop, l);
    }
  }

  /** The old indices a cut of `first` and then of `second`, in the new numbering, removes. */
  function Both(n: nat, first: set<int>, second: set<int>): set<int>
  {
    first + set l: nat | l < n && l !in first && Remap(l, first) in second :: l as int
  }

  lemma InBoth(n: nat, first: set<int>, second: set<int>, l: nat)
    requires l < n
    ensures l in Both(n, first, second) <==> l in first || Remap(l, first) in second
  {
  }

  /** `[xs[i] for i in idx]`. */
  function Through<T>(xs: seq<T>, idx: seq<nat>): (r: seq<T>)
    requires forall i :: 0 <= i < |idx| ==> idx[i] < |xs|
    ensures |r| == |idx| && forall i :: 0 <= i < |r| ==> r[i] == xs[idx[i]]
  {
    seq(|idx|, i requires 0 <= i < |idx| => xs[idx[i]])
  }

  lemma ThroughGrows<T>(xs: seq<T>, idx: seq<nat>, x: T)
    requires forall i :: 0 <= i < |idx| ==> idx[i] < |xs|
    ensures Through(xs + [x], idx) == Through(xs, idx)
    ensures Through(xs + [x], idx + [|xs|]) == Through(xs, idx) + [x]
  {
  }

  lemma KeepStep(n: nat, drop: set<int>)
    ensures Keep(n + 1, drop) == if n in drop then Keep(n, drop) else Keep(n, drop) + [n]
  {
  }

  /** The survivors of the two cuts are the survivors of the joint cut. */
  lemma {:induction false} KeepComposes(n: nat, m: nat, first: set<int>, second: set<int>)
    requires m <= n
    ensures var once := Keep(m, first);
            Keep(m, Both(n, first, second)) == Through(once, Keep(|once|, second))
  {
    hide Both, Keep, Through;
    if m == 0 {
      NoneKept(first, second);
      NoneKept(Both(n, first, second), second);
    } else {
      var b := Both(n, first, second);
      var once := Keep(m - 1, first);
      InBoth(n, first, second, m - 1);
      KeepComposes(n, m - 1, first, second);
      KeepStep(m - 1, first);
      KeepStep(m - 1, b);
      KeepStep(|once|, second);
      ThroughGrows(once, Keep(|once|, second), m - 1);
    }
  }

  lemma NoneKept(drop: set<int>, second: set<int>)
    ensures Keep(0, drop) == [] && Through<nat>([], Keep(0, second)) == []
  {
  }

  lemma RemapComposes(n: nat, first: set<int>, second: set<int>, l: nat)
    requires l < n
    ensures Remap(l, Both(n, first, second)) == Remap(Remap(l, first), second)
  {
    KeepComposes(n, l, first, second);
  }

  // ----- metadata

  /** Whether an entry is an array the cut filters. */
  predicate PerLayer(kv: Kv, arch: seq<byte>, n: nat)
  {
    arch + [DOT] <= kv.key && kv.t == ARR && kv.val.Arr? && kv.val.et != STR && |kv.val.items| == n
  }

  function Pick(items: seq<Val>, keep: seq<nat>): (r: seq<Val>)
    requires forall i :: 0 <= i < |keep| ==> keep[i] < |items|
    ensures |r| == |keep| && forall i :: 0 <= i < |r| ==> r[i] == items[keep[i]]
  {
    seq(|keep|, i requires 0 <= i < |keep| => items[keep[i]])
  }

  function NewKv(kv: Kv, arch: seq<byte>, n: nat, keep: seq<nat>): Result<Kv, Error>
    requires forall i :: 0 <= i < |keep| ==> keep[i] < n
  {
    if kv.key == CountKey(arch) then
      if IntType(kv.t) && FitsInt(kv.t, |keep|) then Ok(Kv(kv.key, kv.t, Scalar(PackInt(kv.t, |keep|))))
      else Err(StructError)
    else if PerLayer(kv, arch, n) then Ok(Kv(kv.key, kv.t, Arr(kv.val.et, Pick(kv.val.items, keep))))
    else Ok(kv)
  }

  function NewKvs(kvs: seq<Kv>, arch: seq<byte>, n: nat, keep: seq<nat>): (r: Result<seq<Kv>, Error>)
    requires forall i :: 0 <= i < |keep| ==> keep[i] < n
    ensures r.Ok? ==> |r.value| == |kvs| && forall i :: 0 <= i < |kvs| ==>
        NewKv(kvs[i], arch, n, keep) == Ok(r.value[i])
    ensures r.Err? ==> exists i :: 0 <= i < |kvs| && NewKv(kvs[i], arch, n, keep).Err?
  {
    if kvs == [] then Ok([])
    else
      match NewKvs(kvs[..|kvs| - 1], arch, n, keep)
      case Err(e) => Err(e)
      case Ok(out) =>
        match NewKv(kvs[|kvs| - 1], arch, n, keep)
        case Err(e) => Err(e)
        case Ok(kv) => Ok(out + [kv])
  }

  // ----- tensors

  function OffKey(): Tensor -> real { (t: Tensor) => t.off as real }

  /** Each name's gap to the next offset of the sorted directory, or to the end of the data. */
  function Sizes(byOff: seq<Tensor>, end: int): map<seq<byte>, int>
  {
    if byOff == [] then map[]
    else map[byOff[0].name := (if |byOff| > 1 then byOff[1].off else end) - byOff[0].off] + Sizes(byOff[1..], end)
  }

  /** The bytes `raw[data_start + off : data_start + off + size]` of each tensor, `None` when the
      gap is negative or runs past the end of the file. */
  function Pieces(ts: seq<Tensor>, sizes: map<seq<byte>, int>, data: seq<byte>): (r: seq<Option<seq<byte>>>)
    ensures |r| == |ts|
  {
    seq(|ts|, i requires 0 <= i < |ts| => Piece(ts[i], sizes, data))
  }

  function Piece(t: Tensor, sizes: map<seq<byte>, int>, data: seq<byte>): Option<seq<byte>>
  {
    if t.name in sizes && 0 <= sizes[t.name] && t.off + sizes[t.name] <= |data|
    then Some(data[t.off..t.off + sizes[t.name]])
    else None
  }

  datatype Renamed = Dropped | Name(name: seq<byte>) | Bad(e: Error)

  function Rename(name: seq<byte>, n: nat, drop: set<int>): Renamed
  {
    if !(Blk() <= name) then Name(name)
    else
      match PyInt(LayerText(name))
      case None => Bad(BadName)
      case Some(l) =>
        if l in drop then Dropped
        else if !(0 <= l < n) then Bad(KeyError)
        else
          match RestOf(name)
          case None => Bad(BadName)
          case Some(rest) => Name(BlkName(Remap(l, drop), rest))
  }

  /** One turn of the loop over the directory: the kept list after tensor `t`. */
  function KeepOne(out: seq<Blob>, t: Tensor, piece: Option<seq<byte>>, n: nat, drop: set<int>): Result<seq<Blob>,
      Error>
  {
    match Rename(t.name, n, drop)
    case Dropped => Ok(out)
    case Bad(e) => Err(e)
    case Name(name) =>
      if piece.None? then Err(ShortRead) else Ok(out + [Blob(name, t.ne, t.tt, piece.value)])
  }

  /** The kept tensors in directory order, renamed, with their bytes. */
  function Kept(ts: seq<Tensor>, pieces: seq<Option<seq<byte>>>, n: nat, drop: set<int>): Result<seq<Blob>, Error>
    requires |pieces| == |ts|
  {
    if ts == [] then Ok([])
    else
      var last := |ts| - 1;
      match Kept(ts[..last], pieces[..last], n, drop)
      case Err(e) => Err(e)
      case Ok(out) => KeepOne(out, ts[last], pieces[last], n, drop)
  }

  // ----- the cut

  /** A file as the script sees it: header, alignment, data section and its nominal end. */
  datatype Image = Image(version: nat, kvs: seq<Kv>, tensors: seq<Tensor>, a: nat, data: seq<byte>, end: int)

  function ImageOf(raw: seq<byte>): (r: Result<Image, Error>)
    ensures r.Ok? ==> r.value.a > 0
  {
    match ParseHeader(DEPTH_SLICE, raw)
    case Err(e) => Err(e)
    case Ok(p) =>
      match Alignment(p.h.kvs)
      case Err(e) => Err(e)
      case Ok(a) =>
        var start := MaskUp(p.dirEnd, a);
        Ok(Image(p.h.version, p.h.kvs, p.h.tensors, a, if start <= |raw| then raw[start..] else [], |raw| - start))
  }

  /** The architecture and the old layer count, when the cut is allowed. */
  function Plan(kvs: seq<Kv>, drop: set<int>): (r: Result<(seq<byte>, nat), Error>)
    ensures r.Ok? ==> Arch(kvs) == Some(r.value.0) && BlockCount(kvs, r.value.0) == Ok(r.value.1)
  {
    match Arch(kvs)
    case None => Err(NoArchitecture)
    case Some(arch) =>
      match BlockCount(kvs, arch)
      case Err(e) => Err(e)
      case Ok(n) =>
        if DeclaresNextN(kvs, arch) then Err(NextN)
        else if exists d :: d in drop && !(0 <= d < n) then Err(DropOutOfRange)
        else if |Keep(n, drop)| < 2 then Err(TooFewLayers)
        else Ok((arch, n))
  }

  function PiecesOf(img: Image): (r: seq<Option<seq<byte>>>)
    ensures |r| == |img.tensors|
  {
    Pieces(img.tensors, Sizes(SortBy(img.tensors, OffKey()), img.end), img.data)
  }

  function SliceImage(img: Image, drop: set<int>): Result<(seq<Kv>, seq<Blob>), Error>
  {
    match Plan(img.kvs, drop)
    case Err(e) => Err(e)
    case Ok((arch, n)) =>
      match NewKvs(img.kvs, arch, n, Keep(n, drop))
      case Err(e) => Err(e)
      case Ok(kvs) =>
        match Kept(img.tensors, PiecesOf(img), n, drop)
        case Err(e) => Err(e)
        case Ok(blobs) => Ok((kvs, blobs))
  }

  function Written(version: nat, kvs: seq<Kv>, blobs: seq<Blob>, a: nat): Result<seq<byte>, Error>
    requires a > 0
  {
    if TensorsOk(Place(blobs, a, 0))
    then Ok(FileBytes(EncHeader(FileHeader(version, kvs, blobs, a)), blobs, a))
    else Err(StructError)
  }

  /** The output file for an input file and a set of layers to drop. */
  function Slice(raw: seq<byte>, drop: set<int>): Result<seq<byte>, Error>
  {
    match ImageOf(raw)
    case Err(e) => Err(e)
    case Ok(img) =>
      match SliceImage(img, drop)
      case Err(e) => Err(e)
      case Ok((kvs, blobs)) => Written(img.version, kvs, blobs, img.a)
  }

  // ----- names under two cuts

  /** Renaming twice is renaming once for the joint cut. */
  lemma RenameComposes(name: seq<byte>, n: nat, first: set<int>, second: set<int>)
    requires !Rename(name, n, first).Bad?
    ensures var once := Rename(name, n, first);
            Rename(name, n, Both(n, first, second))
            == if once.Dropped? then Dropped else Rename(once.name, |Keep(n, first)|, second)
    ensures var once := Rename(name, n, first);
            once.Name? ==> !Rename(once.name, |Keep(n, first)|, second).Bad?
  {
    if Blk() <= name {
      hide Both, Keep, LayerText, RestOf, PyInt, BlkName, Blk;
      var l := PyInt(LayerText(name)).value;
      if l !in first {
        var rest := RestOf(name).value;
        BlkNameParts(Remap(l, first), rest);
        KeptLayerAt(n, first, l);
        RemapComposes(n, first, second, l);
      }
      if 0 <= l < n { InBoth(n, first, second, l); } else { FirstInBoth(n, first, second, l); }
    }
  }

  lemma FirstInBoth(n: nat, first: set<int>, second: set<int>, l: int)
    ensures l in first ==> l in Both(n, first, second)
  {
  }

  /** The two names are the same, or spell the same layer and the same rest: `blk.1.x` and
      `blk.01.x`. */
  predicate SameTensor(x: seq<byte>, y: seq<byte>)
  {
    if Blk() <= x && Blk() <= y
    then PyInt(LayerText(x)) == PyInt(LayerText(y)) && RestOf(x) == RestOf(y)
    else x == y
  }

  /** Renaming keeps kept names apart exactly when no two of them spell the same layer and rest. */
  lemma RenameInjective(x: seq<byte>, y: seq<byte>, n: nat, drop: set<int>)
    requires Rename(x, n, drop).Name? && Rename(y, n, drop).Name?
    ensures Rename(x, n, drop).name == Rename(y, n, drop).name <==> SameTensor(x, y)
  {
    hide Keep, LayerText, RestOf, PyInt, BlkName, Blk;
    if Blk() <= x && Blk() <= y {
      var l, k := PyInt(LayerText(x)).value, PyInt(LayerText(y)).value;
      BlkNameInjective(Remap(l, drop), RestOf(x).value, Remap(k, drop), RestOf(y).value);
      KeptLayerAt(n, drop, l);
      KeptLayerAt(n, drop, k);
    }
  }

  // ----- the data section of a written file

  function PadBlob(blob: Blob, a: nat): Blob
    requires a > 0
  {
    blob.(data := PaddedData(blob, a))
  }

  function PadAll(blobs: seq<Blob>, a: nat): (r: seq<Blob>)
    requires a > 0
    ensures |r| == |blobs| && forall i :: 0 <= i < |r| ==> r[i] == PadBlob(blobs[i], a)
  {
    seq(|blobs|, i requires 0 <= i < |blobs| => PadBlob(blobs[i], a))
  }

  lemma PadTwice(blob: Blob, a: nat)
    requires IsPowerOfTwo(a)
    ensures PaddedData(PadBlob(blob, a), a) == PaddedData(blob, a)
    ensures |PaddedData(blob, a)| % a == 0
  {
    NextOffset(0, blob, a);
    var n := |PaddedData(blob, a)|;
    MultipleFixed(n, a);
    PadIs(n, a);
    assert Zeros(Pad(n, a)) == [];
  }

  /** Padding the payloads first changes neither the directory nor the data written. */
  lemma {:induction false} LayoutOfPadded(blobs: seq<Blob>, a: nat, off: nat)
    requires IsPowerOfTwo(a) && off % a == 0
    ensures Place(PadAll(blobs, a), a, off) == Place(blobs, a, off)
    ensures Padded(PadAll(blobs, a), a) == Padded(blobs, a)
  {
    if blobs != [] {
      var blob, padded := blobs[0], PadBlob(blobs[0], a);
      assert PadAll(blobs, a)[1..] == PadAll(blobs[1..], a);
      PadTwice(blob, a);
      NextOffset(off, blob, a);
      NextOffset(off, padded, a);
      LayoutOfPadded(blobs[1..], a, MaskUp(off + |blob.data|, a));
      AppendAssoc(blob.data, Zeros(Pad(|blob.data|, a)), Padded(blobs[1..], a));
      AppendAssoc(padded.data, Zeros(Pad(|padded.data|, a)), Padded(blobs[1..], a));
    }
  }

  predicate DistinctNames(blobs: seq<Blob>)
  {
    forall i, j :: 0 <= i < j < |blobs| ==> blobs[i].name != blobs[j].name
  }

  /** Offsets recorded for a written file ascend, so sorting leaves the directory alone. */
  lemma {:induction false} PlaceAscends(blobs: seq<Blob>, a: nat, off: nat, i: nat)
    requires IsPowerOfTwo(a) && off % a == 0 && i < |blobs|
    ensures off <= Place(blobs, a, off)[i].off
    ensures i + 1 < |blobs| ==>
              Place(blobs, a, off)[i + 1].off == Place(blobs, a, off)[i].off + |PaddedData(blobs[i], a)|
    ensures i + 1 == |blobs| ==>
              off + |Padded(blobs, a)| == Place(blobs, a, off)[i].off + |PaddedData(blobs[i], a)|
  {
    NextOffset(off, blobs[0], a);
    if i > 0 {
      PlaceAscends(blobs[1..], a, MaskUp(off + |blobs[0].data|, a), i - 1);
    }
  }

  lemma {:induction false} PlaceOrdered(blobs: seq<Blob>, a: nat, i: nat, j: nat)
    requires IsPowerOfTwo(a) && i <= j < |blobs|
    ensures Place(blobs, a, 0)[i].off <= Place(blobs, a, 0)[j].off
    decreases j
  {
    if i < j {
      PlaceAscends(blobs, a, 0, j - 1);
      PlaceOrdered(blobs, a, i, j - 1);
    }
  }

  lemma PlaceWithin(blobs: seq<Blob>, a: nat, j: nat)
    requires IsPowerOfTwo(a) && j < |blobs|
    ensures Place(blobs, a, 0)[j].off <= |Padded(blobs, a)|
  {
    assert a > 0;
    hide Place, Padded, PaddedData, IsPowerOfTwo;
    PlaceAscends(blobs, a, 0, |blobs| - 1);
    PlaceOrdered(blobs, a, j, |blobs| - 1);
  }

  /** Gap sizes of a directory with distinct names, entry by entry. */
  lemma {:induction false} SizeIsGap(ts: seq<Tensor>, end: int, i: nat)
    requires i < |ts|
    requires forall j, k :: 0 <= j < k < |ts| ==> ts[j].name != ts[k].name
    ensures ts[i].name in Sizes(ts, end)
    ensures Sizes(ts, end)[ts[i].name] == (if i + 1 < |ts| then ts[i + 1].off else end) - ts[i].off
  {
    if i > 0 {
      SizeIsGap(ts[1..], end, i - 1);
    } else {
      SizesNames(ts[1..], end);
    }
  }

  lemma {:induction false} SizesNames(ts: seq<Tensor>, end: int)
    ensures forall name :: name in Sizes(ts, end) ==> exists i :: 0 <= i < |ts| && ts[i].name == name
  {
    if ts != [] {
      SizesNames(ts[1..], end);
    }
  }

  // ----- the script's loops

  /** `out_kvs`, entry by entry. */
  method RewriteMetadata(kvs: seq<Kv>, arch: seq<byte>, n: nat, keep: seq<nat>) returns (r: Result<seq<Kv>, Error>)
    requires forall i :: 0 <= i < |keep| ==> keep[i] < n
    ensures r == NewKvs(kvs, arch, n, keep)
  {
    hide NewKv;
    var out, i := [], 0;
    while i < |kvs|
      invariant i <= |kvs| && NewKvs(kvs[..i], arch, n, keep) == Ok(out)
    {
      assert kvs[..i + 1][..i] == kvs[..i];
      var kv := NewKv(kvs[i], arch, n, keep);
      if kv.Err? {
        NewKvsStops(kvs, i + 1, arch, n, keep);
        return Err(kv.error);
      }
      out, i := out + [kv.value], i + 1;
    }
    assert kvs[..i] == kvs;
    r := Ok(out);
  }

  lemma {:induction false} NewKvsStops(kvs: seq<Kv>, i: nat, arch: seq<byte>, n: nat, keep: seq<nat>)
    requires forall i :: 0 <= i < |keep| ==> keep[i] < n
    requires i <= |kvs| && NewKvs(kvs[..i], arch, n, keep).Err?
    ensures NewKvs(kvs, arch, n, keep) == NewKvs(kvs[..i], arch, n, keep)
    decreases |kvs|
  {
    if i == |kvs| {
      assert kvs[..i] == kvs;
    } else {
      assert kvs[..|kvs| - 1][..i] == kvs[..i];
      NewKvsStops(kvs[..|kvs| - 1], i, arch, n, keep);
    }
  }

  /** `sizes`, filled in offset order. */
  method GapSizes(byOff: seq<Tensor>, end: int) returns (sizes: map<seq<byte>, int>)
    ensures sizes == Sizes(byOff, end)
  {
    sizes := map[];
    var i := 0;
    while i < |byOff|
      invariant i <= |byOff| && Sizes(byOff, end) == sizes + Sizes(byOff[i..], end)
    {
      var next := if i + 1 < |byOff| then byOff[i + 1].off else end;
      var one := map[byOff[i].name := next - byOff[i].off];
      ghost var rest := Sizes(byOff[i + 1..], end);
      assert byOff[i..][1..] == byOff[i + 1..];
      assert Sizes(byOff[i..], end) == one + rest;
      assert sizes + (one + rest) == (sizes + one) + rest;
      sizes, i := sizes + one, i + 1;
    }
  }

  /** `kept`, in directory order. */
  method KeepTensors(ts: seq<Tensor>, pieces: seq<Option<seq<byte>>>, n: nat, drop: set<int>)
      returns (r: Result<seq<Blob>, Error>)
    requires |pieces| == |ts|
    ensures r == Kept(ts, pieces, n, drop)
  {
    hide KeepOne;
    var out, i := [], 0;
    while i < |ts|
      invariant i <= |ts| && Kept(ts[..i], pieces[..i], n, drop) == Ok(out)
    {
      assert ts[..i + 1][..i] == ts[..i] && pieces[..i + 1][..i] == pieces[..i];
      var one := KeepOne(out, ts[i], pieces[i], n, drop);
      if one.Err? {
        KeptStops(ts, pieces, i + 1, n, drop);
        return Err(one.error);
      }
      out, i := one.value, i + 1;
    }
    assert ts[..i] == ts && pieces[..i] == pieces;
    r := Ok(out);
  }

  lemma {:induction false} KeptStops(ts: seq<Tensor>, pieces: seq<Option<seq<byte>>>, i: nat, n: nat, drop: set<int>)
    requires |pieces| == |ts| && i <= |ts| && Kept(ts[..i], pieces[..i], n, drop).Err?
    ensures Kept(ts, pieces, n, drop) == Kept(ts[..i], pieces[..i], n, drop)
    decreases |ts|
  {
    if i == |ts| {
      assert ts[..i] == ts && pieces[..i] == pieces;
    } else {
      var last := |ts| - 1;
      assert ts[..last][..i] == ts[..i] && pieces[..last][..i] == pieces[..i];
      KeptStops(ts[..last], pieces[..last], i, n, drop);
    }
  }

  /** The whole run: read, plan, cut, write. */
  method SliceFile(raw: seq<byte>, drop: set<int>) returns (r: Result<seq<byte>, Error>)
    ensures r == Slice(raw, drop)
  {
    hide ParseHeader, Alignment, Plan, NewKvs, Kept, Sizes, SortBy, Place, TensorsOk, EncHeader, Padded, EncCounts,
         EncKvs, EncTensors;
    var p := ReadHeader(DEPTH_SLICE, raw);
    if p.Err? { return Err(p.error); }
    var h := p.value.h;
    var align := Alignment(h.kvs);
    if align.Err? { return Err(align.error); }
    var a := align.value;
    var start := MaskUp(p.value.dirEnd, a);
    var data, end := if start <= |raw| then raw[start..] else [], |raw| - start;
    var plan := Plan(h.kvs, drop);
    if plan.Err? { return Err(plan.error); }
    var (arch, n) := plan.value;
    var kvs := RewriteMetadata(h.kvs, arch, n, Keep(n, drop));
    if kvs.Err? { return Err(kvs.error); }
    var sizes := GapSizes(SortBy(h.tensors, OffKey()), end);
    var blobs := KeepTensors(h.tensors, Pieces(h.tensors, sizes, data), n, drop);
    if blobs.Err? { return Err(blobs.error); }
    var ok, info := WriteDirectory(blobs.value, a);
    if !ok { return Err(StructError); }
    var head := EncCounts(h.version, |blobs.value|, |kvs.value|) + (EncKvs(kvs.value) + info);
    HeadIs(h.version, kvs.value, blobs.value, a);
    var out := WritePayloads(blobs.value, a);
    r := Ok(head + (Zeros(Pad(|head|, a)) + out));
  }

  lemma HeadIs(version: nat, kvs: seq<Kv>, blobs: seq<Blob>, a: nat)
    requires a > 0
    ensures EncHeader(FileHeader(version, kvs, blobs, a))
         == EncCounts(version, |blobs|, |kvs|) + (EncKvs(kvs) + EncTensors(Place(blobs, a, 0)))
  {
  }
}
