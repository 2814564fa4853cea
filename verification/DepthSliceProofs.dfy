/** What a depth cut promises: survivors keep their bytes, and two cuts compose into one. */
module DepthSliceProofs {
  import opened Wrappers
  import opened Bytes
  import opened Align
  import opened Gguf
  import opened Layout
  import opened Names
  import opened Sorting
  import opened DepthSlice

  // ----- survivors

  /** The directory indices of the surviving tensors. */
  function Surviving(ts: seq<Tensor>, n: nat, drop: set<int>): (r: seq<nat>)
    ensures forall j :: 0 <= j < |r| ==> r[j] < |ts| && Rename(ts[r[j]].name, n, drop).Name?
    ensures forall j, k :: 0 <= j < k < |r| ==> r[j] < r[k]
    ensures forall i :: 0 <= i < |ts| && Rename(ts[i].name, n, drop).Name? ==> i in r
  {
    if ts == [] then []
    else
      var last := |ts| - 1;
      Surviving(ts[..last], n, drop) + if Rename(ts[last].name, n, drop).Name? then [last] else []
  }

  /** `blob` is the survivor of the tensor `t` with the bytes `piece`. */
  predicate Survives(t: Tensor, piece: Option<seq<byte>>, blob: Blob, n: nat, drop: set<int>)
  {
    && Rename(t.name, n, drop) == Name(blob.name)
    && blob.ne == t.ne && blob.tt == t.tt && piece == Some(blob.data)
  }

  /** The kept list is exactly the survivors, in directory order, each with its own bytes. */
  lemma {:induction false} KeptAreSurvivors(ts: seq<Tensor>, pieces: seq<Option<seq<byte>>>, n: nat, drop: set<int>)
    requires |pieces| == |ts| && Kept(ts, pieces, n, drop).Ok?
    ensures var blobs := Kept(ts, pieces, n, drop).value;
            var idx := Surviving(ts, n, drop);
            |blobs| == |idx| && forall j :: 0 <= j < |idx| ==>
              Survives(ts[idx[j]], pieces[idx[j]], blobs[j], n, drop)
  {
    if ts != [] {
      hide Rename;
      var last := |ts| - 1;
      KeptAreSurvivors(ts[..last], pieces[..last], n, drop);
      var idx := Surviving(ts[..last], n, drop);
      forall j | 0 <= j < |idx|
        ensures ts[..last][idx[j]] == ts[idx[j]] && pieces[..last][idx[j]] == pieces[idx[j]]
      {
      }
    }
  }

  /** No two survivors have one name, or spell one layer and one rest. */
  predicate DistinctSurvivors(ts: seq<Tensor>, n: nat, drop: set<int>)
  {
    forall i, j :: 0 <= i < j < |ts| && Rename(ts[i].name, n, drop).Name? && Rename(ts[j].name, n, drop).Name?
      ==> !SameTensor(ts[i].name, ts[j].name)
  }

  /** The new names are distinct exactly when the survivors' names are, as layers and rests. */
  lemma NewNamesDistinct(ts: seq<Tensor>, pieces: seq<Option<seq<byte>>>, n: nat, drop: set<int>)
    requires |pieces| == |ts| && Kept(ts, pieces, n, drop).Ok?
    ensures DistinctNames(Kept(ts, pieces, n, drop).value) <==> DistinctSurvivors(ts, n, drop)
  {
    hide Kept, Rename, SameTensor, Surviving;
    KeptAreSurvivors(ts, pieces, n, drop);
    var blobs, idx := Kept(ts, pieces, n, drop).value, Surviving(ts, n, drop);
    forall j, k | 0 <= j < k < |idx|
      ensures blobs[j].name == blobs[k].name <==> SameTensor(ts[idx[j]].name, ts[idx[k]].name)
    {
      assert Survives(ts[idx[j]], pieces[idx[j]], blobs[j], n, drop);
      assert Survives(ts[idx[k]], pieces[idx[k]], blobs[k], n, drop);
      RenameInjective(ts[idx[j]].name, ts[idx[k]].name, n, drop);
    }
    if DistinctNames(blobs) {
      forall i, i' | 0 <= i < i' < |ts| && Rename(ts[i].name, n, drop).Name? && Rename(ts[i'].name, n, drop).Name?
        ensures !SameTensor(ts[i].name, ts[i'].name)
      {
        var j :| 0 <= j < |idx| && idx[j] == i;
        var k :| 0 <= k < |idx| && idx[k] == i';
        assert j < k;
      }
    }
  }

  // ----- the image of a written file

  /** A written directory is in offset order, and its names are the blobs'. */
  lemma PlaceIsSorted(blobs: seq<Blob>, a: nat)
    requires IsPowerOfTwo(a)
    ensures SortBy(Place(blobs, a, 0), OffKey()) == Place(blobs, a, 0)
  {
    assert a > 0;
    hide Place, IsPowerOfTwo, SortBy;
    var ts := Place(blobs, a, 0);
    forall j, k | 0 <= j < k < |ts| ensures OffKey()(ts[j]) <= OffKey()(ts[k]) {
      PlaceOrdered(blobs, a, j, k);
    }
    SortOfSorted(ts, OffKey());
  }

  lemma PlaceIsDistinct(blobs: seq<Blob>, a: nat)
    requires a > 0 && DistinctNames(blobs)
    ensures forall j, k :: 0 <= j < k < |blobs| ==> Place(blobs, a, 0)[j].name != Place(blobs, a, 0)[k].name
  {
    hide Place;
    forall j, k | 0 <= j < k < |blobs| ensures Place(blobs, a, 0)[j].name != Place(blobs, a, 0)[k].name {
      PlaceKeepsFields(blobs, a, 0, j);
      PlaceKeepsFields(blobs, a, 0, k);
    }
  }

  lemma {:induction false} PiecesOfWritten(blobs: seq<Blob>, a: nat, i: nat)
    requires IsPowerOfTwo(a) && i < |blobs| && DistinctNames(blobs)
    ensures var ts := Place(blobs, a, 0);
            var data := Padded(blobs, a);
            Piece(ts[i], Sizes(SortBy(ts, OffKey()), |data|), data) == Some(PaddedData(blobs[i], a))
  {
    assert a > 0;
    hide Place, Padded, Sizes, PaddedData, SortBy, IsPowerOfTwo, DistinctNames;
    var ts, data := Place(blobs, a, 0), Padded(blobs, a);
    PlaceIsSorted(blobs, a);
    PlaceIsDistinct(blobs, a);
    SizeIsGap(ts, |data|, i);
    PlaceAscends(blobs, a, 0, i);
    AtIsSlice(data, 0, data);
    OffsetsFindPadded(blobs, a, 0, data, 0, i);
    AtIsSlice(data, ts[i].off, PaddedData(blobs[i], a));
  }

  /** What the script sees in a file it wrote. */
  lemma ImageOfWritten(version: nat, kvs: seq<Kv>, blobs: seq<Blob>, a: nat)
    requires IsPowerOfTwo(a) && HeaderOk(DEPTH_SLICE, FileHeader(version, kvs, blobs, a))
    requires Alignment(kvs) == Ok(a)
    ensures var f := FileBytes(EncHeader(FileHeader(version, kvs, blobs, a)), blobs, a);
            var data := Padded(blobs, a);
            ImageOf(f) == Ok(Image(version, kvs, Place(blobs, a, 0), a, data, |data|))
  {
    hide EncHeader, Padded, Place, HeaderOk, Alignment, RoundUp, Pad, Zeros, MaskUp, ParseHeader;
    var head := EncHeader(FileHeader(version, kvs, blobs, a));
    var f := FileBytes(head, blobs, a);
    WrittenFileReads(DEPTH_SLICE, version, kvs, blobs, a);
    MaskUpRounds(|head|, a);
    PadIs(|head|, a);
    AppendAssoc(head, Zeros(Pad(|head|, a)), Padded(blobs, a));
    assert f[MaskUp(|head|, a)..] == Padded(blobs, a);
  }

  // ----- tensors under two cuts

  /** `ts` names the blobs and `pieces` holds their padded bytes. */
  predicate Carries(ts: seq<Tensor>, pieces: seq<Option<seq<byte>>>, blobs: seq<Blob>, a: nat)
    requires a > 0
  {
    && |ts| == |pieces| == |blobs|
    && forall i :: 0 <= i < |blobs| ==>
         && ts[i].name == blobs[i].name && ts[i].ne == blobs[i].ne && ts[i].tt == blobs[i].tt
         && pieces[i] == Some(PaddedData(blobs[i], a))
  }

  /** One tensor through both cuts, `t'` being its entry in the file the first cut wrote. */
  lemma KeepOneComposes(out: seq<Blob>, once: seq<Blob>, joint: seq<Blob>, t: Tensor, piece: Option<seq<byte>>,
                        n: nat, first: set<int>, second: set<int>, a: nat)
    returns (both: seq<Blob>)
    requires a > 0 && KeepOne(out, t, piece, n, first) == Ok(once)
    ensures KeepOne(joint, t, piece, n, Both(n, first, second)) == Ok(both)
    ensures once == out ==> both == joint
    ensures once != out ==> once != [] && once[..|once| - 1] == out
    ensures once != out ==>
              var b := once[|once| - 1];
              forall t': Tensor
                {:trigger KeepOne(PadAll(joint, a), t', Some(PaddedData(b, a)), |Keep(n, first)|, second)}
                :: t'.name == b.name && t'.ne == b.ne && t'.tt == b.tt ==>
                KeepOne(PadAll(joint, a), t', Some(PaddedData(b, a)), |Keep(n, first)|, second) == Ok(PadAll(both, a))
  {
    RenameComposes(t.name, n, first, second);
    hide Rename, Both, Keep, Zeros, Pad;
    both := joint;
    if piece.Some? {
      var twice := Rename(t.name, n, Both(n, first, second));
      if twice.Name? {
        var b := Blob(twice.name, t.ne, t.tt, piece.value);
        assert PadAll(joint + [b], a) == PadAll(joint, a) + [PadBlob(b, a)];
        both := joint + [b];
      }
    }
  }

  lemma CarriesLength(ts: seq<Tensor>, pieces: seq<Option<seq<byte>>>, blobs: seq<Blob>, a: nat)
    requires a > 0 && Carries(ts, pieces, blobs, a)
    ensures |ts| == |pieces| == |blobs|
  {
  }

  lemma CarriesFront(ts: seq<Tensor>, pieces: seq<Option<seq<byte>>>, blobs: seq<Blob>, a: nat)
    requires a > 0 && blobs != [] && |ts| == |pieces| == |blobs| && Carries(ts, pieces, blobs, a)
    ensures var n := |blobs| - 1;
            && Carries(ts[..n], pieces[..n], blobs[..n], a)
            && ts[n].name == blobs[n].name && ts[n].ne == blobs[n].ne && ts[n].tt == blobs[n].tt
            && pieces[n] == Some(PaddedData(blobs[n], a))
  {
    hide PaddedData;
  }

  /** Cutting the written survivors again keeps what the joint cut keeps, padded. */
  lemma {:induction false} KeptComposes(
      ts: seq<Tensor>, pieces: seq<Option<seq<byte>>>, out: seq<Blob>, n: nat, first: set<int>, second: set<int>,
      a: nat, ts': seq<Tensor>, pieces': seq<Option<seq<byte>>>)
    returns (joint: seq<Blob>)
    requires a > 0 && |pieces| == |ts| && Kept(ts, pieces, n, first) == Ok(out)
    requires Carries(ts', pieces', out, a)
    ensures Kept(ts, pieces, n, Both(n, first, second)) == Ok(joint)
    ensures Kept(ts', pieces', |Keep(n, first)|, second) == Ok(PadAll(joint, a))
    decreases |ts|
  {
    joint := [];
    CarriesLength(ts', pieces', out, a);
    if ts != [] {
      hide Rename, Both, Keep, PaddedData, KeepOne, PadAll, Carries;
      var last := |ts| - 1;
      var front := Kept(ts[..last], pieces[..last], n, first).value;
      if front == out {
        joint := KeptComposes(ts[..last], pieces[..last], front, n, first, second, a, ts', pieces');
        joint := KeepOneComposes(front, out, joint, ts[last], pieces[last], n, first, second, a);
      } else {
        assert |out| > 0 && out[..|out| - 1] == front by {
          var _ := KeepOneComposes(front, out, [], ts[last], pieces[last], n, first, second, a);
        }
        var last' := |out| - 1;
        CarriesFront(ts', pieces', out, a);
        joint := KeptComposes(ts[..last], pieces[..last], front, n, first, second, a, ts'[..last'], pieces'[..last']);
        joint := KeepOneComposes(front, out, joint, ts[last], pieces[last], n, first, second, a);
      }
    }
  }

  // ----- metadata under two cuts

  /** An array that is not per-layer in the input but has as many elements as layers are left. */
  predicate Collides(kv: Kv, arch: seq<byte>, n: nat, m: nat)
  {
    n != m && PerLayer(kv, arch, m)
  }

  lemma UnpackInt(t: nat, v: int)
    requires FitsInt(t, v)
    ensures IntValue(t, PackInt(t, v)) == v
  {
    if SignedType(t) { UnpackI(v, ScalarSize(t)); } else { UnpackU(v, ScalarSize(t)); }
  }

  /** Filtering an entry twice is filtering it once, unless its length collides. */
  lemma NewKvComposes(kv: Kv, arch: seq<byte>, n: nat, first: set<int>, second: set<int>)
    requires var once := Keep(n, first);
             && NewKv(kv, arch, n, once).Ok?
             && NewKv(NewKv(kv, arch, n, once).value, arch, |once|, Keep(|once|, second)).Ok?
    ensures var once := Keep(n, first);
            var twice := Keep(|once|, second);
            var joint := Keep(n, Both(n, first, second));
            && |joint| == |twice| && NewKv(kv, arch, n, joint).Ok?
            && (NewKv(kv, arch, n, joint) == NewKv(NewKv(kv, arch, n, once).value, arch, |once|, twice)
                <==> !Collides(kv, arch, n, |once|) || |twice| == |once|)
  {
    hide Keep, Both, PackInt, FitsInt, CountKey;
    var once := Keep(n, first);
    var twice := Keep(|once|, second);
    KeepComposes(n, n, first, second);
    var joint := Keep(n, Both(n, first, second));
    if kv.key != CountKey(arch) {
      if PerLayer(kv, arch, n) {
        var items := kv.val.items;
        assert Pick(Pick(items, once), twice) == Pick(items, joint);
      } else if PerLayer(kv, arch, |once|) && |twice| == |once| {
        PickEverything(kv.val.items, second);
      }
    }
  }

  lemma PickEverything(items: seq<Val>, drop: set<int>)
    requires |Keep(|items|, drop)| == |items|
    ensures Pick(items, Keep(|items|, drop)) == items
  {
    forall i | 0 <= i < |items| ensures Keep(|items|, drop)[i] == i { KeepsAll(|items|, drop, i); }
  }

  lemma {:induction false} KeepsAll(n: nat, drop: set<int>, i: nat)
    requires |Keep(n, drop)| == n && i < n
    ensures Keep(n, drop)[i] == i
  {
    if i < n - 1 { KeepsAll(n - 1, drop, i); }
  }

  lemma {:induction false} DroppingShortens(n: nat, drop: set<int>, d: nat)
    requires d < n && d in drop
    ensures |Keep(n, drop)| < n
  {
    if d < n - 1 { DroppingShortens(n - 1, drop, d); }
  }

  /** Looking a key up after the cut finds the new form of the entry found before it. */
  lemma {:induction false} LastOfNew(kvs: seq<Kv>, kvs': seq<Kv>, key: seq<byte>, arch: seq<byte>, n: nat,
      keep: seq<nat>)
    requires |kvs| == |kvs'| && forall i :: 0 <= i < |keep| ==> keep[i] < n
    requires forall i :: 0 <= i < |kvs| ==> NewKv(kvs[i], arch, n, keep) == Ok(kvs'[i])
    ensures match LastWith(kvs, key)
            case None => LastWith(kvs', key) == None
            case Some(kv) =>
              kv in kvs && kv.key == key && LastWith(kvs', key).Some?
              && NewKv(kv, arch, n, keep) == Ok(LastWith(kvs', key).value)
  {
    if kvs != [] {
      var last := |kvs| - 1;
      LastOfNew(kvs[..last], kvs'[..last], key, arch, n, keep);
    }
  }

  /** A kept entry still fits the format. */
  lemma NewKvOk(kv: Kv, arch: seq<byte>, n: nat, keep: seq<nat>)
    requires KvOk(DEPTH_SLICE, kv) && |keep| <= n && forall i :: 0 <= i < |keep| ==> keep[i] < n
    requires NewKv(kv, arch, n, keep).Ok?
    ensures KvOk(DEPTH_SLICE, NewKv(kv, arch, n, keep).value)
    ensures kv.val.Text? ==> NewKv(kv, arch, n, keep) == Ok(kv)
    ensures kv.val.Scalar? && kv.key != CountKey(arch) ==> NewKv(kv, arch, n, keep) == Ok(kv)
    ensures kv.key == CountKey(arch) ==>
              && FitsInt(kv.t, |keep|) && IntType(kv.t)
              && NewKv(kv, arch, n, keep).value == Kv(kv.key, kv.t, Scalar(PackInt(kv.t, |keep|)))
  {
    hide CountKey, FitsInt;
  }

  lemma NewKvsOk(kvs: seq<Kv>, arch: seq<byte>, n: nat, keep: seq<nat>)
    requires KvsOk(DEPTH_SLICE, kvs) && |keep| <= n && forall i :: 0 <= i < |keep| ==> keep[i] < n
    requires NewKvs(kvs, arch, n, keep).Ok?
    ensures KvsOk(DEPTH_SLICE, NewKvs(kvs, arch, n, keep).value)
  {
    hide KvOk, NewKv;
    forall i | 0 <= i < |kvs| ensures KvOk(DEPTH_SLICE, NewKvs(kvs, arch, n, keep).value[i]) {
      NewKvOk(kvs[i], arch, n, keep);
    }
  }

  predicate AnyCollision(kvs: seq<Kv>, arch: seq<byte>, n: nat, m: nat)
  {
    exists i :: 0 <= i < |kvs| && Collides(kvs[i], arch, n, m)
  }

  /** Metadata filtered twice is metadata filtered once exactly when no array's length collides
      with the intermediate layer count, or the second cut drops nothing. */
  lemma MetadataComposes(kvs: seq<Kv>, once: seq<Kv>, twice: seq<Kv>, arch: seq<byte>, n: nat, first: set<int>,
      second: set<int>)
    requires NewKvs(kvs, arch, n, Keep(n, first)) == Ok(once)
    requires NewKvs(once, arch, |Keep(n, first)|, Keep(|Keep(n, first)|, second)) == Ok(twice)
    ensures NewKvs(kvs, arch, n, Keep(n, Both(n, first, second))).Ok?
    ensures NewKvs(kvs, arch, n, Keep(n, Both(n, first, second))) == Ok(twice)
       <==> !AnyCollision(kvs, arch, n, |Keep(n, first)|) || |Keep(|Keep(n, first)|, second)| == |Keep(n, first)|
  {
    var m := |Keep(n, first)|;
    var keep := Keep(n, Both(n, first, second));
    var same := |Keep(m, second)| == m;
    forall i | 0 <= i < |kvs|
      ensures NewKv(kvs[i], arch, n, keep).Ok?
      ensures NewKv(kvs[i], arch, n, keep) == Ok(twice[i]) <==> !Collides(kvs[i], arch, n, m) || same
    {
      hide Keep, Both, NewKv, Collides;
      NewKvComposes(kvs[i], arch, n, first, second);
    }
    hide Keep, Both, NewKv, Collides;
    NewKvsPointwise(kvs, arch, n, keep, twice);
  }

  lemma NewKvsPointwise(kvs: seq<Kv>, arch: seq<byte>, n: nat, keep: seq<nat>, out: seq<Kv>)
    requires |out| == |kvs| && forall i :: 0 <= i < |keep| ==> keep[i] < n
    requires forall i :: 0 <= i < |kvs| ==> NewKv(kvs[i], arch, n, keep).Ok?
    ensures NewKvs(kvs, arch, n, keep).Ok?
    ensures NewKvs(kvs, arch, n, keep) == Ok(out)
       <==> forall i :: 0 <= i < |kvs| ==> NewKv(kvs[i], arch, n, keep) == Ok(out[i])
  {
    hide NewKv;
    var r := NewKvs(kvs, arch, n, keep).value;
    if forall i :: 0 <= i < |kvs| ==> NewKv(kvs[i], arch, n, keep) == Ok(out[i]) {
      forall i | 0 <= i < |kvs| ensures r[i] == out[i] {
        assert NewKv(kvs[i], arch, n, keep) == Ok(r[i]);
      }
      assert r == out;
    }
  }

  predicate ArchIsText(kvs: seq<Kv>)
  {
    match LastWith(kvs, ArchKey()) case None => false case Some(kv) => kv.val.Text?
  }

  /** Keys that end differently. */
  lemma KeysApart(arch: seq<byte>)
    ensures AlignmentKey() != CountKey(arch)
  {
    var k, c := AlignmentKey(), CountKey(arch);
    assert k[|k| - 3] == 101 && c[|c| - 3] == Ascii(".block_count")[9] == 117;
  }

  /** The cut file declares the same alignment and architecture and the new layer count. */
  lemma HeaderAfterCut(kvs: seq<Kv>, kvs': seq<Kv>, arch: seq<byte>, n: nat, drop: set<int>)
    requires KvsOk(DEPTH_SLICE, kvs) && Alignment(kvs).Ok? && ArchIsText(kvs)
    requires Arch(kvs) == Some(arch) && BlockCount(kvs, arch) == Ok(n)
    requires NewKvs(kvs, arch, n, Keep(n, drop)) == Ok(kvs') && |Keep(n, drop)| > 0
    ensures Alignment(kvs') == Alignment(kvs) && Arch(kvs') == Some(arch)
    ensures BlockCount(kvs', arch) == Ok(|Keep(n, drop)|) && ArchIsText(kvs')
  {
    var keep := Keep(n, drop);
    KeysApart(arch);
    hide Keep, NewKv, PackInt, IntValue, EncVal, AlignmentKey, ArchKey, CountKey, KvOk, FitsInt;
    LastOfNew(kvs, kvs', AlignmentKey(), arch, n, keep);
    LastOfNew(kvs, kvs', ArchKey(), arch, n, keep);
    LastOfNew(kvs, kvs', CountKey(arch), arch, n, keep);
    if LastWith(kvs, AlignmentKey()).Some? { NewKvOk(LastWith(kvs, AlignmentKey()).value, arch, n, keep); }
    NewKvOk(LastWith(kvs, ArchKey()).value, arch, n, keep);
    var kv := LastWith(kvs, CountKey(arch)).value;
    NewKvOk(kv, arch, n, keep);
    UnpackInt(kv.t, |keep|);
  }

  // ----- whole files

  /** The two files hold the same tensor directory and the same data section. */
  predicate SameTensors(x: seq<byte>, y: seq<byte>)
  {
    && ImageOf(x).Ok? && ImageOf(y).Ok?
    && ImageOf(x).value.tensors == ImageOf(y).value.tensors
    && ImageOf(x).value.data == ImageOf(y).value.data
  }

  predicate DistinctDirectory(ts: seq<Tensor>)
  {
    forall i, j :: 0 <= i < j < |ts| ==> ts[i].name != ts[j].name
  }

  /** What the input must be for the cut to be well defined: the format's own demands. */
  predicate Conforms(raw: seq<byte>)
  {
    ImageOf(raw).Ok? && IsPowerOfTwo(ImageOf(raw).value.a) && ArchIsText(ImageOf(raw).value.kvs)
  }

  /** A successful cut, unfolded: the plan, the new metadata and the surviving blobs. */
  lemma CutSteps(raw: seq<byte>, drop: set<int>)
    returns (img: Image, arch: seq<byte>, n: nat, kvs: seq<Kv>, blobs: seq<Blob>)
    requires Slice(raw, drop).Ok?
    ensures ImageOf(raw) == Ok(img) && Plan(img.kvs, drop) == Ok((arch, n))
    ensures NewKvs(img.kvs, arch, n, Keep(n, drop)) == Ok(kvs)
    ensures Kept(img.tensors, PiecesOf(img), n, drop) == Ok(blobs)
    ensures |blobs| <= |img.tensors|
    ensures TensorsOk(Place(blobs, img.a, 0))
    ensures Slice(raw, drop) == Ok(FileBytes(EncHeader(FileHeader(img.version, kvs, blobs, img.a)), blobs, img.a))
  {
    hide ImageOf, Plan, NewKvs, Kept, PiecesOf, TensorsOk, Place, FileBytes, EncHeader;
    img := ImageOf(raw).value;
    var plan, cut := Plan(img.kvs, drop).value, SliceImage(img, drop).value;
    arch, n, kvs, blobs := plan.0, plan.1, cut.0, cut.1;
    KeptLength(img.tensors, PiecesOf(img), n, drop);
  }

  lemma {:induction false} KeptLength(ts: seq<Tensor>, pieces: seq<Option<seq<byte>>>, n: nat, drop: set<int>)
    requires |pieces| == |ts| && Kept(ts, pieces, n, drop).Ok?
    ensures |Kept(ts, pieces, n, drop).value| <= |ts|
  {
    if ts != [] {
      hide Rename;
      KeptLength(ts[..|ts| - 1], pieces[..|ts| - 1], n, drop);
    }
  }

  lemma ImageFits(raw: seq<byte>)
    requires ImageOf(raw).Ok?
    ensures var img := ImageOf(raw).value;
            && img.version < U32_LIMIT && KvsOk(DEPTH_SLICE, img.kvs) && |img.kvs| < U64_LIMIT
            && |img.tensors| < U64_LIMIT && Alignment(img.kvs) == Ok(img.a)
  {
    hide ParseHeader, Alignment, MaskUp, KvsOk, TensorsOk, EncHeader;
    PrintOfParse(DEPTH_SLICE, raw);
  }

  /** A written cut, read back. */
  lemma CutReadsBack(raw: seq<byte>, drop: set<int>, img: Image, arch: seq<byte>, n: nat, kvs: seq<Kv>,
      blobs: seq<Blob>)
    requires ImageOf(raw) == Ok(img) && IsPowerOfTwo(img.a) && ArchIsText(img.kvs)
    requires Plan(img.kvs, drop) == Ok((arch, n)) && NewKvs(img.kvs, arch, n, Keep(n, drop)) == Ok(kvs)
    requires |blobs| <= |img.tensors| && TensorsOk(Place(blobs, img.a, 0))
    ensures var h := FileHeader(img.version, kvs, blobs, img.a);
            var f := FileBytes(EncHeader(h), blobs, img.a);
            var data := Padded(blobs, img.a);
            && HeaderOk(DEPTH_SLICE, h)
            && ImageOf(f) == Ok(Image(img.version, kvs, h.tensors, img.a, data, |data|))
    ensures Alignment(kvs) == Ok(img.a) && Arch(kvs) == Some(arch)
    ensures BlockCount(kvs, arch) == Ok(|Keep(n, drop)|) && ArchIsText(kvs)
  {
    ImageFits(raw);
    PlanKeeps(img.kvs, drop);
    hide ImageOf, Plan, Keep, NewKvs, TensorsOk, Place, Padded, EncHeader, FileBytes, KvsOk, Alignment, Arch,
         BlockCount, ArchIsText;
    HeaderAfterCut(img.kvs, kvs, arch, n, drop);
    NewKvsOk(img.kvs, arch, n, Keep(n, drop));
    NewKvsCount(img.kvs, arch, n, Keep(n, drop));
    ImageOfWritten(img.version, kvs, blobs, img.a);
  }

  lemma NewKvsCount(kvs: seq<Kv>, arch: seq<byte>, n: nat, keep: seq<nat>)
    requires (forall i :: 0 <= i < |keep| ==> keep[i] < n) && NewKvs(kvs, arch, n, keep).Ok?
    ensures |NewKvs(kvs, arch, n, keep).value| == |kvs|
  {
  }

  lemma PlanKeeps(kvs: seq<Kv>, drop: set<int>)
    requires Plan(kvs, drop).Ok?
    ensures |Keep(Plan(kvs, drop).value.1, drop)| >= 2
    ensures forall d :: d in drop ==> 0 <= d < Plan(kvs, drop).value.1
  {
    hide Keep, Arch, BlockCount, DeclaresNextN;
  }

  lemma BothInRange(n: nat, first: set<int>, second: set<int>)
    requires forall d :: d in first ==> 0 <= d < n
    ensures forall d :: d in Both(n, first, second) ==> 0 <= d < n
  {
    hide Keep, Remap;
  }

  lemma JointPlan(kvs: seq<Kv>, kvs': seq<Kv>, arch: seq<byte>, n: nat, first: set<int>, second: set<int>)
    requires Plan(kvs, first) == Ok((arch, n)) && Plan(kvs', second).Ok?
    requires Arch(kvs') == Some(arch) && BlockCount(kvs', arch) == Ok(|Keep(n, first)|)
    ensures Plan(kvs', second) == Ok((arch, |Keep(n, first)|))
    ensures Plan(kvs, Both(n, first, second)) == Ok((arch, n))
    ensures (exists d: int :: d in second) ==> |Keep(|Keep(n, first)|, second)| < |Keep(n, first)|
  {
    hide Keep, Both, Arch, BlockCount, DeclaresNextN, Through;
    PlanKeeps(kvs, first);
    PlanKeeps(kvs', second);
    BothInRange(n, first, second);
    KeepComposes(n, n, first, second);
    if d: int :| d in second {
      DroppingShortens(|Keep(n, first)|, second, d);
    }
  }

  /** The layer count a file declares, 0 when it declares none. */
  function LayerCount(raw: seq<byte>): nat
  {
    match ImageOf(raw)
    case Err(_) => 0
    case Ok(img) =>
      match Arch(img.kvs)
      case None => 0
      case Some(arch) =>
        match BlockCount(img.kvs, arch) case Err(_) => 0 case Ok(n) => n
  }

  /** A file whose metadata a second cut would read differently: it has an array under the
      architecture's prefix, not one element per layer, as long as the first cut leaves layers. */
  predicate Ambiguous(raw: seq<byte>, first: set<int>)
  {
    match ImageOf(raw)
    case Err(_) => false
    case Ok(img) =>
      match Arch(img.kvs)
      case None => false
      case Some(arch) => AnyCollision(img.kvs, arch, LayerCount(raw), |Keep(LayerCount(raw), first)|)
  }

  lemma CarriesWritten(img: Image, blobs: seq<Blob>)
    requires IsPowerOfTwo(img.a) && DistinctNames(blobs)
    requires img.tensors == Place(blobs, img.a, 0) && img.data == Padded(blobs, img.a) && img.end == |img.data|
    ensures Carries(img.tensors, PiecesOf(img), blobs, img.a)
  {
    hide Place, Padded, Sizes, SortBy, PaddedData, Piece;
    forall i | 0 <= i < |blobs|
      ensures PiecesOf(img)[i] == Some(PaddedData(blobs[i], img.a))
      ensures img.tensors[i].name == blobs[i].name && img.tensors[i].ne == blobs[i].ne
          && img.tensors[i].tt == blobs[i].tt
    {
      PlaceKeepsFields(blobs, img.a, 0, i);
      PiecesOfWritten(blobs, img.a, i);
    }
  }

  /** The tensors the two cuts leave are those the joint cut leaves, with their padding. */
  lemma JointTensors(img: Image, n: nat, first: set<int>, second: set<int>, b1: seq<Blob>, img1: Image)
    returns (joint: seq<Blob>, b2: seq<Blob>)
    requires IsPowerOfTwo(img.a) && Kept(img.tensors, PiecesOf(img), n, first) == Ok(b1)
    requires img1.a == img.a && img1.tensors == Place(b1, img.a, 0) && DistinctNames(b1)
    requires img1.data == Padded(b1, img.a) && img1.end == |img1.data|
    ensures Kept(img.tensors, PiecesOf(img), n, Both(n, first, second)) == Ok(joint)
    ensures Kept(img1.tensors, PiecesOf(img1), |Keep(n, first)|, second) == Ok(b2)
    ensures Place(b2, img.a, 0) == Place(joint, img.a, 0) && Padded(b2, img.a) == Padded(joint, img.a)
  {
    hide Kept, PiecesOf, Place, Padded, Keep, Both, Carries, PadAll, DistinctNames;
    CarriesWritten(img1, b1);
    joint := KeptComposes(img.tensors, PiecesOf(img), b1, n, first, second, img.a, img1.tensors, PiecesOf(img1));
    LayoutOfPadded(joint, img.a, 0);
    b2 := PadAll(joint, img.a);
  }

  lemma JointCut(raw: seq<byte>, drop: set<int>, img: Image, arch: seq<byte>, n: nat, kvs: seq<Kv>, blobs: seq<Blob>)
    requires ImageOf(raw) == Ok(img) && Plan(img.kvs, drop) == Ok((arch, n))
    requires NewKvs(img.kvs, arch, n, Keep(n, drop)) == Ok(kvs)
    requires Kept(img.tensors, PiecesOf(img), n, drop) == Ok(blobs) && TensorsOk(Place(blobs, img.a, 0))
    ensures Slice(raw, drop) == Ok(FileBytes(EncHeader(FileHeader(img.version, kvs, blobs, img.a)), blobs, img.a))
    ensures |blobs| <= |img.tensors|
  {
    hide ImageOf, Plan, NewKvs, Kept, PiecesOf, TensorsOk, Place, FileBytes, EncHeader;
    KeptLength(img.tensors, PiecesOf(img), n, drop);
  }

  lemma SameFile(version: nat, kvs: seq<Kv>, joint: seq<Blob>, blobs: seq<Blob>, a: nat)
    requires a > 0 && Place(blobs, a, 0) == Place(joint, a, 0) && Padded(blobs, a) == Padded(joint, a)
    ensures FileBytes(EncHeader(FileHeader(version, kvs, joint, a)), joint, a)
         == FileBytes(EncHeader(FileHeader(version, kvs, blobs, a)), blobs, a)
    ensures FileHeader(version, kvs, joint, a).tensors == Place(joint, a, 0)
    ensures FileHeader(version, kvs, blobs, a).tensors == Place(joint, a, 0)
  {
    hide EncHeader, Place, Padded;
  }

  /** What a cut of `drop` names: no two of the surviving tensors spell one layer and one rest. */
  predicate Unambiguous(raw: seq<byte>, drop: set<int>)
  {
    ImageOf(raw).Ok? ==> DistinctSurvivors(ImageOf(raw).value.tensors, LayerCount(raw), drop)
  }

  /** Cutting `first` and then `second`, in the new numbering, writes the tensor directory and the
      data section that one cut of all those layers writes; the files are the same to the byte
      exactly when no array's length is ambiguous. */
  lemma SlicingComposes(raw: seq<byte>, first: set<int>, second: set<int>, f1: seq<byte>, f2: seq<byte>)
    requires Conforms(raw) && Slice(raw, first) == Ok(f1) && Slice(f1, second) == Ok(f2)
    requires Unambiguous(raw, first)
    ensures var f := Slice(raw, Both(LayerCount(raw), first, second));
            && f.Ok? && SameTensors(f.value, f2)
            && ((exists d: int :: d in second) ==> (f.value == f2 <==> !Ambiguous(raw, first)))
  {
    hide ImageOf, Slice, Plan, Keep, NewKvs, Kept, PiecesOf, TensorsOk, Place, Padded, EncHeader, FileBytes,
         HeaderOk, Alignment, Arch, BlockCount, ArchIsText, Both, DistinctNames, DistinctSurvivors, IsPowerOfTwo,
         AnyCollision;
    var img, arch, n, k1, b1 := CutSteps(raw, first);
    CutReadsBack(raw, first, img, arch, n, k1, b1);
    NewNamesDistinct(img.tensors, PiecesOf(img), n, first);
    var img1, arch1, m, k2, kept := CutSteps(f1, second);
    JointPlan(img.kvs, k1, arch, n, first, second);
    var both := Both(n, first, second);
    var joint, b2 := JointTensors(img, n, first, second, b1, img1);
    MetadataComposes(img.kvs, k1, k2, arch, n, first, second);
    var kj := NewKvs(img.kvs, arch, n, Keep(n, both)).value;
    JointCut(raw, both, img, arch, n, kj, joint);
    CutReadsBack(raw, both, img, arch, n, kj, joint);
    CutReadsBack(f1, second, img1, arch, m, k2, b2);
    SameFile(img.version, kj, joint, b2, img.a);
  }

  lemma NextNApart(arch: seq<byte>)
    ensures NextNKey(arch) != CountKey(arch)
  {
    var k, c := NextNKey(arch), CountKey(arch);
    assert k[|k| - 1] == 115 && c[|c| - 1] == 116;
  }

  /** The cut file declares predictor blocks exactly when the input did. */
  lemma NextNAfterCut(kvs: seq<Kv>, kvs': seq<Kv>, arch: seq<byte>, n: nat, keep: seq<nat>)
    requires (forall i :: 0 <= i < |keep| ==> keep[i] < n) && NewKvs(kvs, arch, n, keep) == Ok(kvs')
    ensures DeclaresNextN(kvs', arch) <==> DeclaresNextN(kvs, arch)
  {
    NextNApart(arch);
    hide NewKvs, NextNKey, CountKey;
    forall i | 0 <= i < |kvs|
      ensures kvs'[i].key == kvs[i].key && (kvs[i].key == NextNKey(arch) ==> (Truthy(kvs'[i]) <==> Truthy(kvs[i])))
    {
      assert NewKv(kvs[i], arch, n, keep) == Ok(kvs'[i]);
    }
    hide Truthy, NewKv;
    if i :| 0 <= i < |kvs| && kvs[i].key == NextNKey(arch) && Truthy(kvs[i]) { assert Truthy(kvs'[i]); }
  }

  /** The second cut is allowed where the joint one is and the layers it names are there. */
  lemma SecondPlan(kvs: seq<Kv>, kvs': seq<Kv>, arch: seq<byte>, n: nat, first: set<int>, second: set<int>)
    requires Plan(kvs, first) == Ok((arch, n)) && NewKvs(kvs, arch, n, Keep(n, first)) == Ok(kvs')
    requires Plan(kvs, Both(n, first, second)).Ok?
    requires Arch(kvs') == Some(arch) && BlockCount(kvs', arch) == Ok(|Keep(n, first)|)
    requires forall d :: d in second ==> 0 <= d < |Keep(n, first)|
    ensures Plan(kvs', second) == Ok((arch, |Keep(n, first)|))
  {
    hide Keep, Both, Arch, BlockCount, DeclaresNextN, NewKvs, Through;
    NextNAfterCut(kvs, kvs', arch, n, Keep(n, first));
    KeepComposes(n, n, first, second);
    PlanKeeps(kvs, Both(n, first, second));
  }

  /** Entries the joint cut can write, the second cut can write. */
  lemma SecondMetadata(kvs: seq<Kv>, kvs': seq<Kv>, arch: seq<byte>, n: nat, first: set<int>, second: set<int>)
    requires NewKvs(kvs, arch, n, Keep(n, first)) == Ok(kvs')
    requires NewKvs(kvs, arch, n, Keep(n, Both(n, first, second))).Ok?
    ensures NewKvs(kvs', arch, |Keep(n, first)|, Keep(|Keep(n, first)|, second)).Ok?
  {
    var m := |Keep(n, first)|;
    var joint, twice := Keep(n, Both(n, first, second)), Keep(m, second);
    KeepComposes(n, n, first, second);
    hide Keep, Both, Through, NewKvs, CountKey, FitsInt;
    forall i | 0 <= i < |kvs'| ensures NewKv(kvs'[i], arch, m, twice).Ok? {
      assert NewKv(kvs[i], arch, n, Keep(n, first)) == Ok(kvs'[i]);
      assert NewKv(kvs[i], arch, n, joint).Ok?;
    }
  }

  /** A second cut of a cut file succeeds exactly when the joint cut of the input does and every
      layer it names is there. */
  lemma SecondCutSucceeds(raw: seq<byte>, first: set<int>, second: set<int>, f1: seq<byte>)
    requires Conforms(raw) && Slice(raw, first) == Ok(f1) && Unambiguous(raw, first)
    ensures var n := LayerCount(raw);
            Slice(f1, second).Ok?
            <==> (forall d :: d in second ==> 0 <= d < |Keep(n, first)|) && Slice(raw, Both(n, first, second)).Ok?
  {
    hide ImageOf, Slice, Plan, Keep, NewKvs, Kept, PiecesOf, TensorsOk, Place, Padded, EncHeader, FileBytes,
         HeaderOk, Alignment, Arch, BlockCount, ArchIsText, Both, DistinctNames, DistinctSurvivors, IsPowerOfTwo;
    var img, arch, n, k1, b1 := CutSteps(raw, first);
    CutReadsBack(raw, first, img, arch, n, k1, b1);
    if Slice(f1, second).Ok? {
      SlicingComposes(raw, first, second, f1, Slice(f1, second).value);
      var img1, arch1, m, k2, b2 := CutSteps(f1, second);
      PlanKeeps(k1, second);
      JointPlan(img.kvs, k1, arch, n, first, second);
    }
    var both := Both(n, first, second);
    if (forall d :: d in second ==> 0 <= d < |Keep(n, first)|) && Slice(raw, both).Ok? {
      NewNamesDistinct(img.tensors, PiecesOf(img), n, first);
      var img', arch', n', kj, bj := CutSteps(raw, both);
      var img1 := ImageOf(f1).value;
      var joint, b2 := JointTensors(img, n, first, second, b1, img1);
      SecondPlan(img.kvs, k1, arch, n, first, second);
      SecondMetadata(img.kvs, k1, arch, n, first, second);
      JointCut(f1, second, img1, arch, |Keep(n, first)|,
          NewKvs(k1, arch, |Keep(n, first)|, Keep(|Keep(n, first)|, second)).value, b2);
    }
  }

  // ----- two cuts that differ from one

  const A_ARCH: seq<byte> := [97]

  /** Four layers, and an array of three bytes under the architecture's prefix. */
  function ThreeBytes(): Kv
  {
    Kv(A_ARCH + [DOT, 120], ARR, Arr(0, [Scalar([1]), Scalar([2]), Scalar([3])]))
  }

  function FourLayers(): seq<Kv>
  {
    [Kv(ArchKey(), STR, Text(A_ARCH)), Kv(CountKey(A_ARCH), 0, Scalar([4])), ThreeBytes()]
  }

  function FourLayerFile(): seq<byte>
  {
    FileBytes(EncHeader(FileHeader(3, FourLayers(), [], 32)), [], 32)
  }

  lemma KeysOfFour()
    ensures AlignmentKey() != ArchKey() && ThreeBytes().key != ArchKey() && ThreeBytes().key != AlignmentKey()
    ensures CountKey(A_ARCH) != ArchKey() && CountKey(A_ARCH) != AlignmentKey() && ThreeBytes().key != CountKey(A_ARCH)
  {
    assert |ArchKey()| == 20 && |AlignmentKey()| == 17 && |ThreeBytes().key| == 3 && |CountKey(A_ARCH)| == 13;
  }

  lemma MetadataOfFour()
    ensures Alignment(FourLayers()) == Ok(32) && Arch(FourLayers()) == Some(A_ARCH)
    ensures BlockCount(FourLayers(), A_ARCH) == Ok(4) && ArchIsText(FourLayers())
    ensures !DeclaresNextN(FourLayers(), A_ARCH) && KvsOk(DEPTH_SLICE, FourLayers())
  {
    KeysOfFour();
    assert |NextNKey(A_ARCH)| == 22;
    hide AlignmentKey, ArchKey, CountKey, NextNKey;
    var kvs := FourLayers();
    LastOfThree(kvs[0], kvs[1], kvs[2], AlignmentKey());
    LastOfThree(kvs[0], kvs[1], kvs[2], ArchKey());
    LastOfThree(kvs[0], kvs[1], kvs[2], CountKey(A_ARCH));
    assert EncVal(Text(A_ARCH))[8..] == A_ARCH;
    assert FromLe([4]) == 4;
  }

  lemma LastOfThree(x: Kv, y: Kv, z: Kv, key: seq<byte>)
    ensures LastWith([x, y, z], key)
         == if z.key == key then Some(z) else if y.key == key then Some(y) else if x.key == key then Some(x) else None
  {
    var none: seq<Kv> := [];
    assert [x, y, z][..2] == [x, y] && [x, y][..1] == [x] && [x][..0] == none;
    assert LastWith(none, key) == None;
    assert LastWith([x], key) == if x.key == key then Some(x) else None;
  }

  /** Any cut of the four layers that leaves two is written. */
  lemma FourLayersCut(drop: set<int>)
    requires (forall d :: d in drop ==> 0 <= d < 4) && |Keep(4, drop)| >= 2
    ensures ImageOf(FourLayerFile()) == Ok(Image(3, FourLayers(), [], 32, [], 0))
    ensures Slice(FourLayerFile(), drop).Ok?
  {
    MetadataOfFour();
    DefaultIsPowerOfTwo();
    hide Keep, FourLayers, Alignment, Arch, BlockCount, DeclaresNextN, EncHeader, FileBytes, KvsOk, ImageOf,
         IsPowerOfTwo;
    assert |FourLayers()| == 3 by { FourAreThree(); }
    ImageOfWritten(3, FourLayers(), [], 32);
    var img := Image(3, FourLayers(), [], 32, [], 0);
    assert NewKvs(FourLayers(), A_ARCH, 4, Keep(4, drop)).Ok? by {
      FourFit(Keep(4, drop));
    }
    assert Kept(img.tensors, PiecesOf(img), 4, drop) == Ok([]);
    var kvs := NewKvs(FourLayers(), A_ARCH, 4, Keep(4, drop)).value;
    JointCut(FourLayerFile(), drop, img, A_ARCH, 4, kvs, []);
  }

  lemma FourAreThree()
    ensures |FourLayers()| == 3
  {
  }

  lemma FourFit(keep: seq<nat>)
    requires |keep| <= 4 && forall i :: 0 <= i < |keep| ==> keep[i] < 4
    ensures NewKvs(FourLayers(), A_ARCH, 4, keep).Ok?
  {
    hide NewKvs, NewKv, CountKey, FitsInt, IntType, FourLayers;
    FourTypes();
    ByteFits(|keep|);
    var kvs := FourLayers();
    forall i | 0 <= i < |kvs| ensures NewKv(kvs[i], A_ARCH, 4, keep).Ok? { OthersFit(kvs[i], A_ARCH, 4, keep); }
  }

  lemma FourTypes()
    ensures |FourLayers()| == 3 && FourLayers()[1].t == 0
    ensures FourLayers()[0].key != CountKey(A_ARCH) && FourLayers()[2].key != CountKey(A_ARCH)
  {
    KeysOfFour();
  }

  lemma ByteFits(v: nat)
    requires v < 256
    ensures IntType(0) && FitsInt(0, v)
  {
    assert Pow256(1) == 256;
  }

  lemma OthersFit(kv: Kv, arch: seq<byte>, n: nat, keep: seq<nat>)
    requires forall i :: 0 <= i < |keep| ==> keep[i] < n
    ensures kv.key != CountKey(arch) || (IntType(kv.t) && FitsInt(kv.t, |keep|)) <==> NewKv(kv, arch, n, keep).Ok?
  {
    hide CountKey, FitsInt;
  }

  lemma KeepsOfFour()
    ensures |Keep(4, {3})| == 3 && |Keep(3, {0})| == 2 && |Keep(4, Both(4, {3}, {0}))| == 2
    ensures forall d :: d in Both(4, {3}, {0}) <==> d == 0 || d == 3
  {
    assert Keep(1, {3}) == [0] && Keep(2, {3}) == [0, 1] && Keep(3, {3}) == [0, 1, 2] && Keep(4, {3}) == [0, 1, 2];
    assert Keep(1, {0}) == [] && Keep(2, {0}) == [1] && Keep(3, {0}) == [1, 2];
    assert forall l: nat :: l < 4 && l != 3 ==> Remap(l, {3}) == l;
    KeepComposes(4, 4, {3}, {0});
  }

  /** Dropping layer 3 of four and then layer 0 of three writes another file than dropping both at
      once: the array of three loses an element in the second cut alone. */
  lemma CutsDisagree() returns (f1: seq<byte>, f2: seq<byte>, f: seq<byte>)
    ensures Conforms(FourLayerFile()) && Unambiguous(FourLayerFile(), {3}) && Ambiguous(FourLayerFile(), {3})
    ensures Slice(FourLayerFile(), {3}) == Ok(f1) && Slice(f1, {0}) == Ok(f2)
    ensures LayerCount(FourLayerFile()) == 4 && Slice(FourLayerFile(), Both(4, {3}, {0})) == Ok(f) && f != f2
  {
    hide Keep, Both, Slice, ImageOf, FourLayerFile, LayerCount, Conforms, Unambiguous, Ambiguous, SameTensors;
    KeepsOfFour();
    var raw := FourLayerFile();
    var first: set<int>, second: set<int> := {3}, {0};
    assert 0 in second && forall d :: d in second ==> d == 0;
    FourLayersCut(first);
    FourLayersCut(Both(4, first, second));
    FourLayersConform();
    f1 := Slice(raw, first).value;
    SecondCutSucceeds(raw, first, second, f1);
    f2, f := Slice(f1, second).value, Slice(raw, Both(4, first, second)).value;
    SlicingComposes(raw, first, second, f1, f2);
  }

  lemma FourLayersConform()
    ensures Conforms(FourLayerFile()) && Unambiguous(FourLayerFile(), {3}) && Ambiguous(FourLayerFile(), {3})
    ensures LayerCount(FourLayerFile()) == 4
  {
    KeepsOfFour();
    MetadataOfFour();
    DefaultIsPowerOfTwo();
    hide Keep, ImageOf, FourLayerFile, Alignment, Arch, BlockCount, ArchIsText, IsPowerOfTwo, FourLayers, Collides;
    FourLayersCut({3});
    ThreeCollide();
  }

  lemma ThreeCollide()
    ensures |FourLayers()| == 3 && Collides(FourLayers()[2], A_ARCH, 4, 3)
  {
    var kv := ThreeBytes();
    assert kv.key[..2] == A_ARCH + [DOT];
  }

  // ----- what one cut keeps

  /** Entry `j` of the cut file is tensor `i` of the input, renamed, at an aligned offset where its
      own bytes stand. */
  predicate SurvivorAt(img: Image, cut: Image, n: nat, drop: set<int>, i: nat, j: nat)
    requires i < |img.tensors| && j < |cut.tensors| && cut.a > 0
  {
    var t, t' := img.tensors[i], cut.tensors[j];
    && Rename(t.name, n, drop) == Name(t'.name) && t'.ne == t.ne && t'.tt == t.tt
    && t'.off % cut.a == 0
    && PiecesOf(img)[i].Some? && At(cut.data, t'.off, PiecesOf(img)[i].value)
  }

  /** The cut file's directory is exactly the survivors in the input's order, and every survivor's
      bytes are found at its recomputed offset. */
  lemma SurvivorsKeepTheirBytes(raw: seq<byte>, drop: set<int>, f: seq<byte>)
    requires Conforms(raw) && Slice(raw, drop) == Ok(f)
    ensures ImageOf(f).Ok?
    ensures var img, cut := ImageOf(raw).value, ImageOf(f).value;
            var idx := Surviving(img.tensors, LayerCount(raw), drop);
            && cut.a == img.a && |cut.tensors| == |idx|
            && forall j :: 0 <= j < |idx| ==> SurvivorAt(img, cut, LayerCount(raw), drop, idx[j], j)
  {
    hide ImageOf, Slice, Plan, Keep, NewKvs, Kept, PiecesOf, TensorsOk, Place, Padded, EncHeader, FileBytes,
         HeaderOk, Alignment, Arch, BlockCount, ArchIsText, IsPowerOfTwo, Rename, At, Surviving;
    var img, arch, n, kvs, blobs := CutSteps(raw, drop);
    CutReadsBack(raw, drop, img, arch, n, kvs, blobs);
    var cut := ImageOf(f).value;
    KeptAreSurvivors(img.tensors, PiecesOf(img), n, drop);
    var idx := Surviving(img.tensors, n, drop);
    forall j | 0 <= j < |idx| ensures SurvivorAt(img, cut, n, drop, idx[j], j) {
      PlaceKeepsFields(blobs, img.a, 0, j);
      PayloadAtOffset(blobs, img.a, j);
    }
  }

  lemma PayloadAtOffset(blobs: seq<Blob>, a: nat, j: nat)
    requires IsPowerOfTwo(a) && j < |blobs|
    ensures Place(blobs, a, 0)[j].off % a == 0
    ensures At(Padded(blobs, a), Place(blobs, a, 0)[j].off, blobs[j].data)
  {
    hide Place, Padded, Zeros, Pad;
    var data := Padded(blobs, a);
    AtIsSlice(data, 0, data);
    OffsetsFindPadded(blobs, a, 0, data, 0, j);
    AtSplit(data, Place(blobs, a, 0)[j].off, blobs[j].data, Zeros(Pad(|blobs[j].data|, a)));
  }

  /** An array of any numbers under the architecture's prefix with one element per layer: the value
      of a kept layer moves to the layer's new index. Every other entry stays. */
  lemma FilteredArrays(kv: Kv, arch: seq<byte>, n: nat, drop: set<int>, l: nat)
    requires kv.key != CountKey(arch) && l < n && l !in drop
    ensures var r := NewKv(kv, arch, n, Keep(n, drop));
            if arch + Ascii(".") <= kv.key && kv.t == 9 && kv.val.Arr? && kv.val.et != 8 && |kv.val.items| == n then
              && r.Ok? && r.value.key == kv.key && r.value.t == 9 && r.value.val.Arr? && r.value.val.et == kv.val.et
              && |r.value.val.items| == |Keep(n, drop)| && Remap(l, drop) < |Keep(n, drop)|
              && r.value.val.items[Remap(l, drop)] == kv.val.items[l]
            else r == Ok(kv)
  {
    assert Ascii(".") == [DOT];
    hide Keep, Remap, CountKey, Ascii;
    KeptLayerAt(n, drop, l);
  }

  /** A tensor's bytes run from its offset to the next larger offset in the file, or to the end:
      no other offset lies inside them. */
  lemma PieceEndsAtNextOffset(img: Image, i: nat)
    requires i < |img.tensors| && DistinctDirectory(img.tensors) && PiecesOf(img)[i].Some?
    ensures var t, piece := img.tensors[i], PiecesOf(img)[i].value;
            var stop := t.off + |piece|;
            && At(img.data, t.off, piece)
            && (stop == img.end || exists k :: 0 <= k < |img.tensors| && img.tensors[k].off == stop)
            && forall k :: 0 <= k < |img.tensors| ==> img.tensors[k].off <= t.off || stop <= img.tensors[k].off
  {
    var ts := img.tensors;
    var s := SortBy(ts, OffKey());
    var j := SortedPlace(ts, i);
    hide SortBy, Sizes, SortedBy, DistinctDirectory;
    SizeIsGap(s, img.end, j);
    AtIsSlice(img.data, ts[i].off, PiecesOf(img)[i].value);
  }

  /** Where a tensor stands in the sorted directory: nothing in between it and its neighbour. */
  lemma SortedPlace(ts: seq<Tensor>, i: nat) returns (j: nat)
    requires i < |ts| && DistinctDirectory(ts)
    ensures var s := SortBy(ts, OffKey());
            && j < |s| && s[j] == ts[i]
            && (forall x, y :: 0 <= x < y < |s| ==> s[x].name != s[y].name)
            && (j + 1 < |s| ==> s[j + 1] in ts)
            && forall k :: 0 <= k < |ts| ==> ts[k].off <= ts[i].off || (j + 1 < |s| && s[j + 1].off <= ts[k].off)
  {
    var s := SortBy(ts, OffKey());
    SortIsSorted(ts, OffKey());
    hide SortBy;
    DistinctSorted(ts, s);
    assert ts[i] in multiset(s);
    j :| 0 <= j < |s| && s[j] == ts[i];
    if j + 1 < |s| { assert s[j + 1] in multiset(ts); }
    forall k | 0 <= k < |ts| ensures ts[k].off <= ts[i].off || (j + 1 < |s| && s[j + 1].off <= ts[k].off) {
      assert ts[k] in multiset(s);
      var m :| 0 <= m < |s| && s[m] == ts[k];
      if m < j { assert OffKey()(s[m]) <= OffKey()(s[j]); }
      if j + 1 < m { assert OffKey()(s[j + 1]) <= OffKey()(s[m]); }
    }
  }

  lemma DistinctSorted(ts: seq<Tensor>, s: seq<Tensor>)
    requires DistinctDirectory(ts) && multiset(ts) == multiset(s)
    ensures DistinctDirectory(s)
  {
    forall j, k | 0 <= j < k < |s| ensures s[j].name != s[k].name {
      if s[j].name == s[k].name {
        assert s[j] in multiset(ts) && s[k] in multiset(ts);
        TwiceIn(s, j, k);
        OnceIn(ts, s[j]);
      }
    }
  }

  lemma {:induction false} OnceIn(ts: seq<Tensor>, t: Tensor)
    requires DistinctDirectory(ts)
    ensures multiset(ts)[t] <= 1
  {
    if ts != [] {
      assert ts == [ts[0]] + ts[1..];
      OnceIn(ts[1..], t);
      if ts[0] == t { assert t !in ts[1..]; }
    }
  }
}
