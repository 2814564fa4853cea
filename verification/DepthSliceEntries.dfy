/** scripts/gguf-depth-slice.py on files of `write_gguf`: what the script reads from the entries, and
    what the cut file says, entry by entry and tensor by tensor. */
module DepthSliceEntries {
  import opened Wrappers
  import opened Bytes
  import opened Align
  import opened Gguf
  import opened Layout
  import opened Names
  import opened Fixture
  import opened DepthSlice
  import opened DepthSliceProofs

  /** The entry that decides for `key`: no later one has it. */
  predicate Decides(es: seq<Entry>, i: nat, key: seq<byte>)
  {
    i < |es| && es[i].k == key && forall j :: i < j < |es| ==> es[j].k != key
  }

  predicate Absent(es: seq<Entry>, key: seq<byte>) { forall i :: 0 <= i < |es| ==> es[i].k != key }

  lemma {:induction false} KeyOf(e: Entry)
    requires EntryFits(e)
    ensures KvOf(e).key == e.k
  {
  }

  lemma {:induction false} LastDecides(es: seq<Entry>, i: nat, key: seq<byte>)
    requires AllFit(es) && Decides(es, i, key)
    ensures LastWith(KvsOf(es), key) == Some(KvOf(es[i]))
    decreases |es|
  {
    hide KvOf, EntryFits;
    var n := |es| - 1;
    KeyOf(es[n]);
    assert KvsOf(es)[..n] == KvsOf(es[..n]);
    if i < n { LastDecides(es[..n], i, key); }
  }

  lemma {:induction false} LastAbsent(es: seq<Entry>, key: seq<byte>)
    requires AllFit(es) && Absent(es, key)
    ensures LastWith(KvsOf(es), key) == None
  {
    hide KvOf, EntryFits;
    if es != [] {
      var n := |es| - 1;
      KeyOf(es[n]);
      assert KvsOf(es)[..n] == KvsOf(es[..n]);
      LastAbsent(es[..n], key);
    }
  }

  /** Every key that occurs has a deciding entry. */
  lemma {:induction false} Deciding(es: seq<Entry>, key: seq<byte>) returns (i: nat)
    ensures Absent(es, key) || Decides(es, i, key)
  {
    if es == [] { return 0; }
    var n := |es| - 1;
    if es[n].k == key { return n; }
    i := Deciding(es[..n], key);
    if Decides(es[..n], i, key) {
      forall j | i < j < |es| ensures es[j].k != key { if j < n { assert es[..n][j] == es[j]; } }
    } else {
      forall j | 0 <= j < |es| ensures es[j].k != key { if j < n { assert es[..n][j] == es[j]; } }
    }
  }

  // ----- what the script reads

  lemma {:induction false} IntegerOf(e: Entry)
    requires EntryFits(e)
    ensures e.KU? ==> KvOf(e).val.Scalar? && KvOf(e).t == 4 && IntType(KvOf(e).t)
                      && IntValue(KvOf(e).t, KvOf(e).val.raw) == e.u
    ensures e.KI? ==> KvOf(e).val.Scalar? && KvOf(e).t == 5 && IntType(KvOf(e).t)
                      && IntValue(KvOf(e).t, KvOf(e).val.raw) == e.i
  {
    hide FromLe, Signed, PackU, PackI, Flag;
    if e.KU? { UnpackU(e.u, 4); }
    if e.KI? { UnpackI(e.i, 4); }
  }

  /** The alignment: the deciding entry's integer when it is positive, 32 when there is none. */
  lemma {:induction false} AlignmentRead(es: seq<Entry>, i: nat)
    requires AllFit(es)
    ensures Absent(es, Ascii("general.alignment")) ==> Alignment(KvsOf(es)) == Ok(32)
    ensures Decides(es, i, Ascii("general.alignment")) && es[i].KU? && es[i].u > 0 ==>
              Alignment(KvsOf(es)) == Ok(es[i].u)
    ensures Decides(es, i, Ascii("general.alignment")) && es[i].KI? && es[i].i > 0 ==>
              Alignment(KvsOf(es)) == Ok(es[i].i)
  {
    var key := Ascii("general.alignment");
    assert AlignmentKey() == key;
    hide Ascii, AlignmentKey, KvOf, EntryFits, LastWith, IntValue, IntType;
    if Absent(es, key) { LastAbsent(es, key); }
    if Decides(es, i, key) {
      LastDecides(es, i, key);
      IntegerOf(es[i]);
    }
  }

  /** The data section starts at the first multiple of the declared alignment behind the directory. */
  lemma {:induction false} DataStart(raw: seq<byte>, version: nat, es: seq<Entry>, ts: seq<Tensor>, i: nat, a: nat)
    requires AllFit(es) && HeaderOk(DEPTH_SLICE, Header(version, KvsOf(es), ts))
    requires EncHeader(Header(version, KvsOf(es), ts)) <= raw
    requires IsPowerOfTwo(a)
    requires (Absent(es, Ascii("general.alignment")) && a == 32)
             || (Decides(es, i, Ascii("general.alignment")) && es[i] == KU(es[i].k, a))
    ensures var h := Header(version, KvsOf(es), ts);
            var start := RoundUp(|EncHeader(h)|, a);
            ImageOf(raw) == Ok(Image(version, KvsOf(es), ts, a, if start <= |raw| then raw[start..] else [],
                |raw| - start))
  {
    hide EncHeader, ParseHeader, HeaderOk, Alignment, IsPowerOfTwo, RoundUp, MaskUp, EntryFits, Ascii, Decides, Absent;
    assert a > 0 by { PowerIsPositive(a); }
    var h := Header(version, KvsOf(es), ts);
    ParseOfPrint(DEPTH_SLICE, raw, h);
    AlignmentRead(es, i);
    MaskUpRounds(|EncHeader(h)|, a);
  }

  lemma PowerIsPositive(a: nat)
    requires IsPowerOfTwo(a)
    ensures a > 0
  {
  }

  /** The architecture of a string entry is its text. */
  lemma {:induction false} ArchRead(es: seq<Entry>, i: nat)
    requires AllFit(es)
    ensures Absent(es, Ascii("general.architecture")) ==> Arch(KvsOf(es)) == None
    ensures Decides(es, i, Ascii("general.architecture")) && es[i].KS? ==>
              Arch(KvsOf(es)) == Some(es[i].s) && ArchIsText(KvsOf(es))
  {
    var key := Ascii("general.architecture");
    assert ArchKey() == key;
    hide Ascii, ArchKey, EntryFits, LastWith, U64, Le;
    if Absent(es, key) { LastAbsent(es, key); }
    if Decides(es, i, key) && es[i].KS? {
      LastDecides(es, i, key);
      assert EncVal(KvOf(es[i]).val) == U64(|es[i].s|) + es[i].s;
    }
  }

  /** The layer count: a positive integer; zero, a string and no entry at all are refused. */
  lemma {:induction false} CountRead(es: seq<Entry>, i: nat, arch: seq<byte>)
    requires AllFit(es)
    ensures Absent(es, arch + Ascii(".block_count")) ==> BlockCount(KvsOf(es), arch) == Err(NoBlockCount)
    ensures Decides(es, i, arch + Ascii(".block_count")) && es[i].KU? ==>
              BlockCount(KvsOf(es), arch) == if es[i].u > 0 then Ok(es[i].u) else Err(NoBlockCount)
    ensures Decides(es, i, arch + Ascii(".block_count")) && es[i].KI? && es[i].i >= 0 ==>
              BlockCount(KvsOf(es), arch) == if es[i].i > 0 then Ok(es[i].i) else Err(NoBlockCount)
    ensures Decides(es, i, arch + Ascii(".block_count")) && es[i].KS? ==>
              BlockCount(KvsOf(es), arch) == Err(NoBlockCount)
  {
    var key := arch + Ascii(".block_count");
    assert CountKey(arch) == key;
    hide Ascii, CountKey, EntryFits, LastWith, IntValue, IntType;
    if Absent(es, key) { LastAbsent(es, key); }
    if Decides(es, i, key) {
      LastDecides(es, i, key);
      IntegerOf(es[i]);
    }
  }

  /** Whether Python takes the value the script parsed for true: a number that is not zero, any
      array, no string. */
  predicate Nonzero(e: Entry)
  {
    match e
    case KU(_, u) => u != 0
    case KI(_, i) => i != 0
    case KF(_, f) => f != [0, 0, 0, 0] && f != [0, 0, 0, 128]
    case KB(_, b) => b
    case KS(_, _) => false
    case _ => true
  }

  lemma {:induction false} TruthOf(e: Entry)
    requires EntryFits(e)
    ensures Truthy(KvOf(e)) <==> Nonzero(e)
  {
    match e
    case KU(_, u) => UnpackU(u, 4);
    case KI(_, i) => SignedZero(i);
    case KF(_, f) => FloatZero(f);
    case KB(_, b) => FlagDecodes(b);
    case _ =>
  }

  lemma {:induction false} SignedZero(i: int)
    requires IsI(i, 4)
    ensures FromLe(PackI(i, 4)) != 0 <==> i != 0
  {
    FromLeOfLe(if i < 0 then i + Pow256(4) else i, 4);
    hide FromLe, Le;
  }

  lemma {:induction false} ThreeByteZero(x: byte, y: byte, z: byte)
    ensures FromLe([x, y, z]) != 0 <==> x != 0 || y != 0 || z != 0
  {
    var b := [x, y, z];
    assert b[1..] == [y, z] && [y, z][1..] == [z] && [z][1..] == [];
    assert FromLe([z]) == z;
    assert FromLe([y, z]) == 0 <==> y == 0 && z == 0;
  }

  lemma {:induction false} FloatZero(f: seq<byte>)
    requires |f| == 4
    ensures FromLe(f[..3]) != 0 || f[3] !in {0, 128} <==> f != [0, 0, 0, 0] && f != [0, 0, 0, 128]
  {
    hide FromLe;
    assert f == [f[0], f[1], f[2], f[3]];
    ThreeByteZero(f[0], f[1], f[2]);
    assert f[..3] == [f[0], f[1], f[2]];
  }

  /** A model that declares predictor blocks, by a value that is not zero, is refused, and no other
      model is refused for it. */
  lemma {:induction false} NextNRead(es: seq<Entry>, arch: seq<byte>)
    requires AllFit(es)
    ensures DeclaresNextN(KvsOf(es), arch)
       <==> exists i :: 0 <= i < |es| && es[i].k == arch + Ascii(".nextn_predict_layers") && Nonzero(es[i])
  {
    var key := arch + Ascii(".nextn_predict_layers");
    assert NextNKey(arch) == key;
    hide Ascii, NextNKey, EntryFits, KvOf, Truthy, Nonzero;
    forall i | 0 <= i < |es|
      ensures KvsOf(es)[i].key == es[i].k && (Truthy(KvsOf(es)[i]) <==> Nonzero(es[i]))
    {
      KeyOf(es[i]);
      TruthOf(es[i]);
    }
    if i :| 0 <= i < |es| && es[i].k == key && Nonzero(es[i]) {
      assert KvsOf(es)[i].key == key && Truthy(KvsOf(es)[i]);
    }
  }

  /** The plan of a file with an architecture and a positive layer count: refused for predictor
      blocks, then for layers that are not there, then for fewer than two left. */
  lemma {:induction false} PlanRead(es: seq<Entry>, i: nat, j: nat, drop: set<int>)
    requires i < |es| && j < |es| && AllFit(es) && Decides(es, i, Ascii("general.architecture")) && es[i].KS?
    requires Decides(es, j, es[i].s + Ascii(".block_count")) && es[j].KU? && es[j].u > 0
    ensures var arch, n := es[i].s, es[j].u;
            Plan(KvsOf(es), drop)
            == if exists k :: 0 <= k < |es| && es[k].k == arch + Ascii(".nextn_predict_layers") && Nonzero(es[k])
               then Err(NextN)
               else if exists d :: d in drop && (d < 0 || n <= d) then Err(DropOutOfRange)
               else if |Keep(n, drop)| < 2 then Err(TooFewLayers) else Ok((arch, n))
  {
    hide Arch, BlockCount, DeclaresNextN, Nonzero, Keep, Ascii, Decides, Absent, EntryFits;
    ArchRead(es, i);
    CountRead(es, j, es[i].s);
    NextNRead(es, es[i].s);
  }

  // ----- names

  /** A tensor of a numbered layer: gone with its layer, refused when there is no such layer, and
      otherwise numbered by the place of its layer among the kept ones. */
  lemma {:induction false} RenameReads(d: seq<byte>, rest: seq<byte>, n: nat, drop: set<int>)
    requires AllDigits(d) && d != []
    ensures var l, name := Decimal(d), Ascii("blk.") + (d + ([46] + rest));
            && (l in drop ==> Rename(name, n, drop) == Dropped)
            && (l !in drop && l >= n ==> Rename(name, n, drop) == Bad(KeyError))
            && forall k :: 0 <= k < |Keep(n, drop)| && Keep(n, drop)[k] == l ==>
                 Rename(name, n, drop) == Name(Ascii("blk.") + (Dec(k) + ([46] + rest)))
  {
    NumberedParts(d, rest);
    IntOfDigits(d);
    RemapBijection(n, drop);
    hide Decimal, PyInt, LayerText, RestOf, Dec, Keep, Remap, Ascii;
    var l, name := Decimal(d), Ascii("blk.") + (d + ([46] + rest));
    assert Blk() <= name;
  }

  /** A name outside the layers stays. */
  lemma {:induction false} RenameOthers(name: seq<byte>, n: nat, drop: set<int>)
    requires !(Ascii("blk.") <= name)
    ensures Rename(name, n, drop) == Name(name)
  {
  }

  // ----- what the cut leaves of an entry

  /** The entry in the cut file: the new layer count, the given values through the kept layers of an
      array under the architecture's prefix with one number per layer, and any other as it was. */
  function CutEntry(e: Entry, arch: seq<byte>, n: nat, keep: seq<nat>): Entry
    requires forall i :: 0 <= i < |keep| ==> keep[i] < n
  {
    if e.k == arch + Ascii(".block_count") then
      match e case KU(k, _) => KU(k, |keep|) case KI(k, _) => KI(k, |keep|) case _ => e
    else if !(arch + Ascii(".") <= e.k) then e
    else
      match e
      case KAU(k, us) => if |us| == n then KAU(k, Through(us, keep)) else e
      case KAI(k, vs) => if |vs| == n then KAI(k, Through(vs, keep)) else e
      case KAF(k, fs) => if |fs| == n then KAF(k, Through(fs, keep)) else e
      case KAB(k, bs) => if |bs| == n then KAB(k, Through(bs, keep)) else e
      case KAU64(k, us) => if |us| == n then KAU64(k, Through(us, keep)) else e
      case _ => e
  }

  lemma {:induction false} DotKey(arch: seq<byte>)
    ensures arch + Ascii(".") == arch + [DOT] && arch + Ascii(".block_count") == CountKey(arch)
    ensures arch + Ascii(".") <= CountKey(arch)
  {
    var c := Ascii(".block_count");
    assert CountKey(arch)[..|arch| + 1] == arch + [c[0]];
  }

  /** Every entry but the layer count: the script writes the cut entry. */
  lemma {:induction false} EntryCut(e: Entry, arch: seq<byte>, n: nat, keep: seq<nat>)
    requires EntryFits(e) && |keep| <= n && forall i :: 0 <= i < |keep| ==> keep[i] < n
    requires e.k != arch + Ascii(".block_count")
    ensures EntryFits(CutEntry(e, arch, n, keep))
    ensures NewKv(KvOf(e), arch, n, keep) == Ok(KvOf(CutEntry(e, arch, n, keep)))
  {
    hide PackU, PackI, Flag, Pow256, Ascii, CountKey;
    DotKey(arch);
    var was, now := KvOf(e), KvOf(CutEntry(e, arch, n, keep));
    if PerLayer(was, arch, n) {
      assert now.val.items == Pick(was.val.items, keep);
    }
  }

  /** The layer count: an integer of the same type, when it holds the new count. */
  lemma {:induction false} CountCut(e: Entry, arch: seq<byte>, n: nat, keep: seq<nat>)
    requires EntryFits(e) && (e.KU? || e.KI?) && forall i :: 0 <= i < |keep| ==> keep[i] < n
    requires e.k == arch + Ascii(".block_count")
    ensures NewKv(KvOf(e), arch, n, keep).Ok? <==> EntryFits(CutEntry(e, arch, n, keep))
    ensures EntryFits(CutEntry(e, arch, n, keep)) ==>
              NewKv(KvOf(e), arch, n, keep) == Ok(KvOf(CutEntry(e, arch, n, keep)))
  {
    hide PackU, PackI, Pow256, Ascii, CountKey;
    DotKey(arch);
  }

  // ----- the cut of a written file

  function CutEntries(es: seq<Entry>, arch: seq<byte>, n: nat, keep: seq<nat>): (r: seq<Entry>)
    requires forall i :: 0 <= i < |keep| ==> keep[i] < n
    ensures |r| == |es| && forall i :: 0 <= i < |r| ==> r[i] == CutEntry(es[i], arch, n, keep)
  {
    seq(|es|, i requires 0 <= i < |es| => CutEntry(es[i], arch, n, keep))
  }

  /** Every entry for the layer count is an integer of 32 bits. */
  predicate PlainCounts(es: seq<Entry>, arch: seq<byte>)
  {
    forall i :: 0 <= i < |es| && es[i].k == arch + Ascii(".block_count") ==> es[i].KU? || es[i].KI?
  }

  lemma {:induction false} EntriesCut(es: seq<Entry>, arch: seq<byte>, n: nat, keep: seq<nat>)
    requires AllFit(es) && |keep| <= n && forall i :: 0 <= i < |keep| ==> keep[i] < n
    requires PlainCounts(es, arch) && NewKvs(KvsOf(es), arch, n, keep).Ok?
    ensures AllFit(CutEntries(es, arch, n, keep))
    ensures NewKvs(KvsOf(es), arch, n, keep) == Ok(KvsOf(CutEntries(es, arch, n, keep)))
  {
    hide KvOf, EntryFits, NewKv, CutEntry, NewKvs, Ascii;
    var now := NewKvs(KvsOf(es), arch, n, keep).value;
    var cut := CutEntries(es, arch, n, keep);
    forall i | 0 <= i < |es| ensures EntryFits(cut[i]) && now[i] == KvOf(cut[i]) {
      assert NewKv(KvsOf(es)[i], arch, n, keep) == Ok(now[i]);
      if es[i].k == arch + Ascii(".block_count") {
        CountCut(es[i], arch, n, keep);
      } else {
        EntryCut(es[i], arch, n, keep);
      }
    }
    assert now == KvsOf(cut);
  }

  /** A file of entries: its architecture, its layer count and the alignment it is laid out with are
      what its deciding entries say. */
  ghost predicate Model(blobs: seq<Blob>, es: seq<Entry>, i: nat, j: nat)
  {
    && AllFit(es) && FileFits(blobs, Encoded(es)) && DistinctNames(blobs)
    && (forall k :: 0 <= k < |es| && es[k].k == Ascii("general.alignment") ==> es[k].KU? && es[k].u == 32)
    && i < |es| && Decides(es, i, Ascii("general.architecture")) && es[i].KS?
    && j < |es| && Decides(es, j, es[i].s + Ascii(".block_count")) && es[j].KU? && es[j].u > 0
    && PlainCounts(es, es[i].s)
  }

  lemma {:induction false} CutFits(blobs: seq<Blob>, es: seq<Entry>)
    requires AllFit(es) && FileFits(blobs, Encoded(es))
    ensures HeaderOk(DEPTH_SLICE, FileHeader(VERSION, KvsOf(es), blobs, ALIGNMENT))
  {
    hide EntryFits, KvOf, TensorsOk;
    forall i | 0 <= i < |es| ensures KvOk(DEPTH_SLICE, KvsOf(es)[i]) { KvOfCut(es[i]); }
  }

  lemma {:induction false} KvOfCut(e: Entry)
    requires EntryFits(e)
    ensures KvOk(DEPTH_SLICE, KvOf(e))
  {
  }

  /** The written file as the script sees it. */
  lemma {:induction false} ImageOfModel(blobs: seq<Blob>, es: seq<Entry>, i: nat, j: nat)
    requires Model(blobs, es, i, j)
    ensures var data := Padded(blobs, 32);
            ImageOf(WrittenFile(blobs, es))
            == Ok(Image(3, KvsOf(es), Place(blobs, 32, 0), 32, data, |data|))
  {
    hide EntryFits, KvOf, TensorsOk, HeaderOk, Alignment, ImageOf, Padded, Place, EncHeader, FileBytes, HeadBytes,
         DistinctNames, Ascii, FileFits;
    CutFits(blobs, es);
    DefaultIsPowerOfTwo();
    var k := Deciding(es, Ascii("general.alignment"));
    AlignmentRead(es, k);
    HeaderIsWritten(blobs, es);
    ImageOfWritten(VERSION, KvsOf(es), blobs, ALIGNMENT);
  }

  /** A survivor of a written file: the payload of the blob it came from, at its offset in the cut. */
  predicate BlobSurvives(out: seq<byte>, start: nat, t: Tensor, blob: Blob, n: nat, drop: set<int>)
  {
    && Rename(blob.name, n, drop) == Name(t.name) && t.ne == blob.ne && t.tt == blob.tt
    && t.off % 32 == 0 && At(out, start + t.off, blob.data)
  }

  /** What the cut read back says: the caller's values through the cut entries, and the survivors in
      their order, each with its dimensions, its type and its own payload. */
  lemma {:induction false} CutOfWritten(blobs: seq<Blob>, es: seq<Entry>, i: nat, j: nat, drop: set<int>,
      out: seq<byte>)
    requires Model(blobs, es, i, j) && Slice(WrittenFile(blobs, es), drop) == Ok(out)
    ensures var arch, n := es[i].s, es[j].u;
            && ReadTyped(out).Ok?
            && var (dict, ts, end) := ReadTyped(out).value;
               var idx := Surviving(Place(blobs, 32, 0), n, drop);
               && dict == GivenDict(CutEntries(es, arch, n, Keep(n, drop)))
               && |ts| == |idx|
               && forall k :: 0 <= k < |idx| ==> BlobSurvives(out, RoundUp(end, 32), ts[k], blobs[idx[k]], n, drop)
  {
    hide EntryFits, KvOf, TensorsOk, HeaderOk, Alignment, ImageOf, Padded, Place, EncHeader, FileBytes, HeadBytes,
         DistinctNames, Absent, Decides, Ascii, FileFits, Plan, Keep, NewKvs, Kept, PiecesOf, Surviving, Arch,
         BlockCount, ArchIsText, Slice, GivenDict, DictOf, CutEntries, ParseHeader, BlobSurvives, PlainCounts,
         WrittenFile, RoundUp, KvsOf, DeclaresNextN, Finds, IsPowerOfTwo;
    DefaultIsPowerOfTwo();
    ImageOfModel(blobs, es, i, j);
    var img, arch, n, kvs, kept := CutSteps(WrittenFile(blobs, es), drop);
    assert arch == es[i].s && n == es[j].u && ArchIsText(img.kvs) by { ModelPlan(blobs, es, i, j, drop); }
    CutReadsBack(WrittenFile(blobs, es), drop, img, arch, n, kvs, kept);
    EntriesCut(es, arch, n, Keep(n, drop));
    var cut := CutEntries(es, arch, n, Keep(n, drop));
    FitsTyped(FileHeader(3, kvs, kept, 32));
    WrittenFileReads(FIXTURE, 3, kvs, kept, 32);
    DictIsGiven(cut);
    KeptAreSurvivors(img.tensors, PiecesOf(img), n, drop);
    var end := |EncHeader(FileHeader(3, kvs, kept, 32))|;
    forall k | 0 <= k < |Surviving(img.tensors, n, drop)|
      ensures BlobSurvives(out, RoundUp(end, 32), Place(kept, 32, 0)[k],
                  blobs[Surviving(img.tensors, n, drop)[k]], n, drop)
    {
      SurvivorStands(blobs, img, kept, out, RoundUp(end, 32), n, drop, k);
    }
  }

  lemma {:induction false} FitsTyped(h: Header)
    requires HeaderOk(DEPTH_SLICE, h)
    ensures HeaderOk(FIXTURE, h)
  {
    hide ValOk, TensorsOk;
    forall i | 0 <= i < |h.kvs| ensures KvOk(FIXTURE, h.kvs[i]) {
      OkInMode(DEPTH_SLICE, FIXTURE, h.kvs[i].val, h.kvs[i].t);
    }
  }

  lemma {:induction false} ModelPlan(blobs: seq<Blob>, es: seq<Entry>, i: nat, j: nat, drop: set<int>)
    requires Model(blobs, es, i, j) && Plan(KvsOf(es), drop).Ok?
    ensures Plan(KvsOf(es), drop) == Ok((es[i].s, es[j].u)) && ArchIsText(KvsOf(es))
  {
    hide EntryFits, KvOf, Absent, Decides, Ascii, FileFits, DistinctNames, PlainCounts, ArchIsText, Plan, Keep, Nonzero;
    PlanRead(es, i, j, drop);
    ArchRead(es, i);
  }

  lemma {:induction false} SurvivorStands(blobs: seq<Blob>, img: Image, kept: seq<Blob>, out: seq<byte>, start: nat,
      n: nat, drop: set<int>, k: nat)
    requires img.tensors == Place(blobs, 32, 0) && img.data == Padded(blobs, 32) && img.end == |img.data| && img.a == 32
    requires DistinctNames(blobs) && |kept| == |Surviving(img.tensors, n, drop)| && k < |kept|
    requires var i := Surviving(img.tensors, n, drop)[k];
             Survives(img.tensors[i], PiecesOf(img)[i], kept[k], n, drop)
    requires Finds(out, start, Place(kept, 32, 0), kept, 32)
    ensures BlobSurvives(out, start, Place(kept, 32, 0)[k], blobs[Surviving(img.tensors, n, drop)[k]], n, drop)
  {
    hide Place, Padded, PiecesOf, DistinctNames, Surviving, Rename, IsPowerOfTwo, Carries;
    DefaultIsPowerOfTwo();
    var i := Surviving(img.tensors, n, drop)[k];
    CarriesOne(img, blobs, i);
    PlaceKeepsFields(kept, 32, 0, k);
    assert FindsOne(out, start, Place(kept, 32, 0)[k], kept[k], 32);
    AtSplit(out, start + Place(kept, 32, 0)[k].off, blobs[i].data, Zeros(Pad(|blobs[i].data|, 32)));
  }

  lemma {:induction false} CarriesOne(img: Image, blobs: seq<Blob>, i: nat)
    requires img.tensors == Place(blobs, 32, 0) && img.data == Padded(blobs, 32) && img.end == |img.data| && img.a == 32
    requires DistinctNames(blobs) && i < |blobs|
    ensures var t := img.tensors[i];
            && t.name == blobs[i].name && t.ne == blobs[i].ne && t.tt == blobs[i].tt
            && PiecesOf(img)[i] == Some(PaddedData(blobs[i], 32))
  {
    hide Place, Padded, PiecesOf, DistinctNames, PaddedData, IsPowerOfTwo;
    DefaultIsPowerOfTwo();
    CarriesWritten(img, blobs);
  }

  // ----- when a written file can be cut

  /** With every piece there, the loop over the directory stops at a refused name alone. */
  lemma {:induction false} KeptSucceeds(ts: seq<Tensor>, pieces: seq<Option<seq<byte>>>, n: nat, drop: set<int>)
    requires |pieces| == |ts| && forall i :: 0 <= i < |ts| ==> pieces[i].Some?
    ensures Kept(ts, pieces, n, drop).Ok? <==> forall i :: 0 <= i < |ts| ==> !Rename(ts[i].name, n, drop).Bad?
  {
    if ts != [] {
      hide Rename;
      var last := |ts| - 1;
      KeptSucceeds(ts[..last], pieces[..last], n, drop);
      assert forall i :: 0 <= i < last ==> ts[..last][i] == ts[i];
    }
  }

  /** What is kept takes no more room than what was there. */
  lemma {:induction false} KeptRoom(blobs: seq<Blob>, ts: seq<Tensor>, pieces: seq<Option<seq<byte>>>, n: nat,
      drop: set<int>)
    requires |blobs| == |ts| == |pieces| && Kept(ts, pieces, n, drop).Ok?
    requires forall i :: 0 <= i < |ts| ==> pieces[i] == Some(PaddedData(blobs[i], 32))
    ensures |Padded(Kept(ts, pieces, n, drop).value, 32)| <= |Padded(blobs, 32)|
    decreases |ts|
  {
    if ts != [] {
      hide Rename, Padded, PaddedData;
      DefaultIsPowerOfTwo();
      var last := |ts| - 1;
      KeptRoom(blobs[..last], ts[..last], pieces[..last], n, drop);
      assert blobs == blobs[..last] + [blobs[last]];
      PaddedConcat(blobs[..last], [blobs[last]], 32);
      OnePadded(blobs[last]);
      var out, front := Kept(ts, pieces, n, drop).value, Kept(ts[..last], pieces[..last], n, drop).value;
      if out != front {
        var b := out[|out| - 1];
        assert out == front + [b] && b.data == PaddedData(blobs[last], 32);
        PaddedConcat(front, [b], 32);
        OnePadded(b);
        PaddedAlready(b, blobs[last]);
      }
    }
  }

  lemma {:induction false} OnePadded(b: Blob)
    ensures Padded([b], 32) == PaddedData(b, 32)
  {
    assert Padded([b][1..], 32) == [];
    assert b.data + (Zeros(Pad(|b.data|, 32)) + []) == b.data + Zeros(Pad(|b.data|, 32));
  }

  lemma {:induction false} PaddedAlready(b: Blob, was: Blob)
    requires b.data == PaddedData(was, 32)
    ensures |PaddedData(b, 32)| == |PaddedData(was, 32)|
  {
    DefaultIsPowerOfTwo();
    PadTwice(was, 32);
    hide PaddedData, IsPowerOfTwo;
    assert PadBlob(was, 32).data == b.data;
    SameData(b, PadBlob(was, 32));
  }

  lemma {:induction false} SameData(x: Blob, y: Blob)
    requires x.data == y.data
    ensures PaddedData(x, 32) == PaddedData(y, 32)
  {
  }

  /** The metadata can be rewritten exactly when every layer count holds the new one. */
  lemma {:induction false} EntriesFit(es: seq<Entry>, arch: seq<byte>, n: nat, keep: seq<nat>)
    requires AllFit(es) && |keep| <= n && (forall i :: 0 <= i < |keep| ==> keep[i] < n) && PlainCounts(es, arch)
    ensures NewKvs(KvsOf(es), arch, n, keep).Ok? <==> AllFit(CutEntries(es, arch, n, keep))
  {
    hide KvOf, EntryFits, NewKv, CutEntry, NewKvs, Ascii, KvsOf;
    if NewKvs(KvsOf(es), arch, n, keep).Ok? {
      EntriesCut(es, arch, n, keep);
    }
    if AllFit(CutEntries(es, arch, n, keep)) {
      forall i | 0 <= i < |es| ensures NewKv(KvsOf(es)[i], arch, n, keep).Ok? {
        assert EntryFits(CutEntries(es, arch, n, keep)[i]);
        if es[i].k == arch + Ascii(".block_count") {
          CountCut(es[i], arch, n, keep);
        } else {
          EntryCut(es[i], arch, n, keep);
        }
      }
      NewKvsPointwise(KvsOf(es), arch, n, keep, KvsOf(es));
    }
  }

  /** The survivors' directory fits its fields when their names do. */
  lemma {:induction false} SurvivorsFit(blobs: seq<Blob>, ts: seq<Tensor>, pieces: seq<Option<seq<byte>>>, n: nat,
      drop: set<int>)
    requires |blobs| == |ts| == |pieces| && Kept(ts, pieces, n, drop).Ok? && TensorsOk(ts)
    requires forall i :: 0 <= i < |ts| ==> pieces[i] == Some(PaddedData(blobs[i], 32))
    requires forall i :: 0 <= i < |ts| && Rename(ts[i].name, n, drop).Name? ==>
               |Rename(ts[i].name, n, drop).name| < U64_LIMIT
    requires |Padded(blobs, 32)| < U64_LIMIT
    ensures TensorsOk(Place(Kept(ts, pieces, n, drop).value, 32, 0))
  {
    hide Rename, Padded, PaddedData, IsPowerOfTwo, Place, Kept;
    DefaultIsPowerOfTwo();
    KeptRoom(blobs, ts, pieces, n, drop);
    KeptAreSurvivors(ts, pieces, n, drop);
    var kept, idx := Kept(ts, pieces, n, drop).value, Surviving(ts, n, drop);
    forall j | 0 <= j < |kept| ensures TensorOk(Place(kept, 32, 0)[j]) {
      PlaceWithin(kept, 32, j);
      PlaceKeepsFields(kept, 32, 0, j);
      assert Survives(ts[idx[j]], pieces[idx[j]], kept[j], n, drop);
      assert TensorOk(ts[idx[j]]);
    }
  }

  /** A written file of fewer than 2^64 bytes can be cut exactly when the plan allows it, no name is
      refused, and every layer count holds the new one. */
  lemma {:induction false} CutSucceeds(blobs: seq<Blob>, es: seq<Entry>, i: nat, j: nat, drop: set<int>)
    requires Model(blobs, es, i, j) && |WrittenFile(blobs, es)| < U64_LIMIT
    requires forall k :: 0 <= k < |blobs| && Rename(blobs[k].name, es[j].u, drop).Name? ==>
               |Rename(blobs[k].name, es[j].u, drop).name| < U64_LIMIT
    ensures var arch, n := es[i].s, es[j].u;
            Slice(WrittenFile(blobs, es), drop).Ok?
            <==> && Plan(KvsOf(es), drop) == Ok((arch, n))
                 && (forall k :: 0 <= k < |blobs| ==> !Rename(blobs[k].name, n, drop).Bad?)
                 && AllFit(CutEntries(es, arch, n, Keep(n, drop)))
  {
    hide EntryFits, KvOf, TensorsOk, HeaderOk, Alignment, ImageOf, Padded, Place, EncHeader, HeadBytes, DistinctNames,
         Absent, Decides, Ascii, FileFits, Plan, Keep, NewKvs, Kept, PiecesOf, Arch, BlockCount, PlainCounts, KvsOf,
         DeclaresNextN, IsPowerOfTwo, Rename, PaddedData, CutEntry;
    DefaultIsPowerOfTwo();
    ImageOfModel(blobs, es, i, j);
    var img := ImageOf(WrittenFile(blobs, es)).value;
    var arch, n := es[i].s, es[j].u;
    PiecesThere(img, blobs);
    if Plan(KvsOf(es), drop).Ok? {
      ModelPlan(blobs, es, i, j, drop);
      EntriesFit(es, arch, n, Keep(n, drop));
      KeptSucceeds(img.tensors, PiecesOf(img), n, drop);
      if Kept(img.tensors, PiecesOf(img), n, drop).Ok? {
        DirectoryFits(blobs, es);
        SurvivorsFit(blobs, img.tensors, PiecesOf(img), n, drop);
      }
    }
  }

  lemma {:induction false} DirectoryFits(blobs: seq<Blob>, es: seq<Entry>)
    requires AllFit(es) && FileFits(blobs, Encoded(es)) && |WrittenFile(blobs, es)| < U64_LIMIT
    ensures TensorsOk(Place(blobs, 32, 0)) && |Padded(blobs, 32)| < U64_LIMIT
  {
    hide EntryFits, TensorsOk, Place, Padded, HeadBytes, Zeros, Encoded;
  }

  lemma {:induction false} PiecesThere(img: Image, blobs: seq<Blob>)
    requires img.tensors == Place(blobs, 32, 0) && img.data == Padded(blobs, 32) && img.end == |img.data| && img.a == 32
    requires DistinctNames(blobs)
    ensures |img.tensors| == |PiecesOf(img)| == |blobs|
    ensures forall i :: 0 <= i < |blobs| ==>
              img.tensors[i].name == blobs[i].name && PiecesOf(img)[i] == Some(PaddedData(blobs[i], 32))
  {
    hide Place, Padded, PiecesOf, DistinctNames, PaddedData;
    forall i | 0 <= i < |blobs|
      ensures img.tensors[i].name == blobs[i].name && PiecesOf(img)[i] == Some(PaddedData(blobs[i], 32))
    {
      CarriesOne(img, blobs, i);
    }
  }
}
