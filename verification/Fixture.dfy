/** scripts/gguf_fixture.py: the metadata encoders, `write_gguf` and `read_header_typed`. */
module Fixture {
  import opened Wrappers
  import opened Bytes
  import opened Align
  import opened Gguf
  import opened GgufReader
  import opened Layout

  const VERSION: nat := 3
  const ALIGNMENT: nat := 32

  // ----- metadata values as Python sees them

  /** A decoded value; a float stays its opaque bytes. */
  datatype Py = Int(i: int) | Float(raw: seq<byte>) | Bool(truth: bool) | Str(s: seq<byte>) | List(xs: seq<Py>)

  function Decode(t: nat, v: Val): Py
    decreases v
  {
    match v
    case Text(s) => Str(s)
    case Arr(et, items) =>
      List(seq(|items|, i requires 0 <= i < |items| => Decode(et, items[i])))
    case Scalar(raw) =>
      match t
      case 6 => Float(raw)
      case 12 => Float(raw)
      case 7 => Bool(FromLe(raw) != 0)
      case 1 => Int(Signed(raw))
      case 3 => Int(Signed(raw))
      case 5 => Int(Signed(raw))
      case 11 => Int(Signed(raw))
      case _ => Int(FromLe(raw))
  }

  // ----- the k* encoders

  /** One call of an encoder: `ku`, `ki`, `kf`, `ks`, `kb` and their array forms. */
  datatype Entry =
    | KU(k: seq<byte>, u: int) | KI(k: seq<byte>, i: int) | KF(k: seq<byte>, f: seq<byte>)
    | KS(k: seq<byte>, s: seq<byte>) | KB(k: seq<byte>, b: bool)
    | KAU(k: seq<byte>, us: seq<int>) | KAI(k: seq<byte>, vs: seq<int>)
    | KAF(k: seq<byte>, fs: seq<seq<byte>>) | KAS(k: seq<byte>, ss: seq<seq<byte>>)
    | KAB(k: seq<byte>, bs: seq<bool>) | KAU64(k: seq<byte>, us: seq<int>)

  predicate AllU(vs: seq<int>, n: nat) { forall i :: 0 <= i < |vs| ==> IsU(vs[i], n) }

  predicate AllI(vs: seq<int>, n: nat) { forall i :: 0 <= i < |vs| ==> IsI(vs[i], n) }

  /** No field of the entry overflows its `struct` format. */
  predicate EntryFits(e: Entry)
  {
    && |e.k| < U64_LIMIT
    && match e
       case KU(_, u) => IsU(u, 4)
       case KI(_, i) => IsI(i, 4)
       case KF(_, f) => |f| == 4
       case KS(_, s) => |s| < U64_LIMIT
       case KB(_, _) => true
       case KAU(_, us) => |us| < U64_LIMIT && AllU(us, 4)
       case KAI(_, vs) => |vs| < U64_LIMIT && AllI(vs, 4)
       case KAF(_, fs) => |fs| < U64_LIMIT && forall i :: 0 <= i < |fs| ==> |fs[i]| == 4
       case KAS(_, ss) => |ss| < U64_LIMIT && forall i :: 0 <= i < |ss| ==> |ss[i]| < U64_LIMIT
       case KAB(_, bs) => |bs| < U64_LIMIT
       case KAU64(_, us) => |us| < U64_LIMIT && AllU(us, 8)
  }

  function Flag(b: bool): seq<byte> { if b then [1] else [0] }

  function JoinBytes(parts: seq<seq<byte>>): seq<byte>
  {
    if parts == [] then [] else parts[0] + JoinBytes(parts[1..])
  }

  function ArrayHead(k: seq<byte>, et: nat, n: nat): seq<byte>
  {
    EncText(k) + (U32(ARR) + (U32(et) + U64(n)))
  }

  /** The bytes each encoder returns. */
  function Encode(e: Entry): seq<byte>
    requires EntryFits(e)
  {
    match e
    case KU(k, u) => EncText(k) + (U32(4) + PackU(u, 4))
    case KI(k, i) => EncText(k) + (U32(5) + PackI(i, 4))
    case KF(k, f) => EncText(k) + (U32(6) + f)
    case KS(k, s) => EncText(k) + (U32(STR) + EncText(s))
    case KB(k, b) => EncText(k) + (U32(7) + Flag(b))
    case KAU(k, us) => ArrayHead(k, 4, |us|) + JoinBytes(seq(|us|, i requires 0 <= i < |us| => PackU(us[i], 4)))
    case KAI(k, vs) => ArrayHead(k, 5, |vs|) + JoinBytes(seq(|vs|, i requires 0 <= i < |vs| => PackI(vs[i], 4)))
    case KAF(k, fs) => ArrayHead(k, 6, |fs|) + JoinBytes(fs)
    case KAS(k, ss) => ArrayHead(k, STR, |ss|) + JoinBytes(seq(|ss|, i requires 0 <= i < |ss| => EncText(ss[i])))
    case KAB(k, bs) => ArrayHead(k, 7, |bs|) + JoinBytes(seq(|bs|, i requires 0 <= i < |bs| => Flag(bs[i])))
    case KAU64(k, us) => ArrayHead(k, 10, |us|) + JoinBytes(seq(|us|, i requires 0 <= i < |us| => PackU(us[i], 8)))
  }

  /** The type and the value a caller gave the encoder. */
  function Given(e: Entry): (nat, Py)
  {
    match e
    case KU(_, u) => (4, Int(u))
    case KI(_, i) => (5, Int(i))
    case KF(_, f) => (6, Float(f))
    case KS(_, s) => (STR, Str(s))
    case KB(_, b) => (7, Bool(b))
    case KAU(_, us) => (ARR, List(seq(|us|, i requires 0 <= i < |us| => Int(us[i]))))
    case KAI(_, vs) => (ARR, List(seq(|vs|, i requires 0 <= i < |vs| => Int(vs[i]))))
    case KAF(_, fs) => (ARR, List(seq(|fs|, i requires 0 <= i < |fs| => Float(fs[i]))))
    case KAS(_, ss) => (ARR, List(seq(|ss|, i requires 0 <= i < |ss| => Str(ss[i]))))
    case KAB(_, bs) => (ARR, List(seq(|bs|, i requires 0 <= i < |bs| => Bool(bs[i]))))
    case KAU64(_, us) => (ARR, List(seq(|us|, i requires 0 <= i < |us| => Int(us[i]))))
  }

  /** The same entry in the container's terms. */
  ghost function KvOf(e: Entry): Kv
    requires EntryFits(e)
  {
    match e
    case KU(k, u) => Kv(k, 4, Scalar(PackU(u, 4)))
    case KI(k, i) => Kv(k, 5, Scalar(PackI(i, 4)))
    case KF(k, f) => Kv(k, 6, Scalar(f))
    case KS(k, s) => Kv(k, STR, Text(s))
    case KB(k, b) => Kv(k, 7, Scalar(Flag(b)))
    case KAU(k, us) => Kv(k, ARR, Arr(4, seq(|us|, i requires 0 <= i < |us| => Scalar(PackU(us[i], 4)))))
    case KAI(k, vs) => Kv(k, ARR, Arr(5, seq(|vs|, i requires 0 <= i < |vs| => Scalar(PackI(vs[i], 4)))))
    case KAF(k, fs) => Kv(k, ARR, Arr(6, seq(|fs|, i requires 0 <= i < |fs| => Scalar(fs[i]))))
    case KAS(k, ss) => Kv(k, ARR, Arr(STR, seq(|ss|, i requires 0 <= i < |ss| => Text(ss[i]))))
    case KAB(k, bs) => Kv(k, ARR, Arr(7, seq(|bs|, i requires 0 <= i < |bs| => Scalar(Flag(bs[i])))))
    case KAU64(k, us) => Kv(k, ARR, Arr(10, seq(|us|, i requires 0 <= i < |us| => Scalar(PackU(us[i], 8)))))
  }

  lemma {:induction false} ItemsJoin(items: seq<Val>, parts: seq<seq<byte>>)
    requires |items| == |parts|
    requires forall i :: 0 <= i < |items| ==> EncVal(items[i]) == parts[i]
    ensures EncVals(items) == JoinBytes(parts)
  {
    if items != [] {
      ItemsJoin(items[1..], parts[1..]);
    }
  }

  lemma ArrayEncodes(k: seq<byte>, et: nat, items: seq<Val>, parts: seq<seq<byte>>)
    requires |items| == |parts|
    requires forall i :: 0 <= i < |items| ==> EncVal(items[i]) == parts[i]
    ensures EncKv(Kv(k, ARR, Arr(et, items))) == ArrayHead(k, et, |items|) + JoinBytes(parts)
  {
    ItemsJoin(items, parts);
    var tail := JoinBytes(parts);
    AppendAssoc(U32(ARR), U32(et) + U64(|items|), tail);
    AppendAssoc(U32(et), U64(|items|), tail);
    AppendAssoc(EncText(k), U32(ARR) + (U32(et) + U64(|items|)), tail);
  }

  /** Every encoder returns the bytes of its container entry. */
  lemma EncodeIsEncKv(e: Entry)
    requires EntryFits(e)
    ensures Encode(e) == EncKv(KvOf(e))
  {
    hide EncKv, EncText, ArrayHead, JoinBytes, EncVals;
    var kv := KvOf(e);
    match e
    case KU(_, _) => PlainEncodes(kv);
    case KI(_, _) => PlainEncodes(kv);
    case KF(_, _) => PlainEncodes(kv);
    case KS(_, _) => PlainEncodes(kv);
    case KB(_, _) => PlainEncodes(kv);
    case KAU(k, us) => ArrayEncodes(k, 4, kv.val.items, seq(|us|, i requires 0 <= i < |us| => PackU(us[i], 4)));
    case KAI(k, vs) => ArrayEncodes(k, 5, kv.val.items, seq(|vs|, i requires 0 <= i < |vs| => PackI(vs[i], 4)));
    case KAF(k, fs) => ArrayEncodes(k, 6, kv.val.items, fs);
    case KAS(k, ss) => ArrayEncodes(k, STR, kv.val.items, seq(|ss|, i requires 0 <= i < |ss| => EncText(ss[i])));
    case KAB(k, bs) => ArrayEncodes(k, 7, kv.val.items, seq(|bs|, i requires 0 <= i < |bs| => Flag(bs[i])));
    case KAU64(k, us) => ArrayEncodes(k, 10, kv.val.items, seq(|us|, i requires 0 <= i < |us| => PackU(us[i], 8)));
  }

  lemma PlainEncodes(kv: Kv)
    ensures EncKv(kv) == EncText(kv.key) + (U32(kv.t) + EncVal(kv.val))
  {
  }

  lemma KvOfOk(e: Entry)
    requires EntryFits(e)
    ensures KvOk(FIXTURE, KvOf(e))
  {
  }

  /** Decoding the entry gives back the key, the type and the value the caller gave. */
  lemma DecodeIsGiven(e: Entry)
    requires EntryFits(e)
    ensures var kv := KvOf(e); kv.key == e.k && (kv.t, Decode(kv.t, kv.val)) == Given(e)
  {
    hide PackU, PackI, Signed, FromLe, Pow256;
    match e
    case KU(_, u) => UnpackU(u, 4);
    case KI(_, i) => UnpackI(i, 4);
    case KF(_, _) =>
    case KS(_, _) =>
    case KB(_, b) => FlagDecodes(b);
    case KAU(_, us) =>
      forall i | 0 <= i < |us| ensures FromLe(PackU(us[i], 4)) == us[i] { UnpackU(us[i], 4); }
      ItemsDecode(KvOf(e).val, Given(e).1.xs);
    case KAI(_, vs) =>
      forall i | 0 <= i < |vs| ensures Signed(PackI(vs[i], 4)) == vs[i] { UnpackI(vs[i], 4); }
      ItemsDecode(KvOf(e).val, Given(e).1.xs);
    case KAF(_, _) => ItemsDecode(KvOf(e).val, Given(e).1.xs);
    case KAS(_, _) => ItemsDecode(KvOf(e).val, Given(e).1.xs);
    case KAB(_, bs) =>
      forall i | 0 <= i < |bs| ensures (FromLe(Flag(bs[i])) != 0) == bs[i] { FlagDecodes(bs[i]); }
      ItemsDecode(KvOf(e).val, Given(e).1.xs);
    case KAU64(_, us) =>
      forall i | 0 <= i < |us| ensures FromLe(PackU(us[i], 8)) == us[i] { UnpackU(us[i], 8); }
      ItemsDecode(KvOf(e).val, Given(e).1.xs);
  }

  lemma ItemsDecode(v: Val, want: seq<Py>)
    requires v.Arr? && |v.items| == |want|
    requires forall i :: 0 <= i < |want| ==> Decode(v.et, v.items[i]) == want[i]
    ensures Decode(ARR, v) == List(want)
  {
  }

  lemma FlagDecodes(b: bool)
    ensures (FromLe(Flag(b)) != 0) == b
  {
  }

  // ----- write_gguf

  predicate FileFits(blobs: seq<Blob>, kvs: seq<seq<byte>>)
  {
    |blobs| < U64_LIMIT && |kvs| < U64_LIMIT && TensorsOk(Place(blobs, ALIGNMENT, 0))
  }

  function HeadBytes(blobs: seq<Blob>, kvs: seq<seq<byte>>): seq<byte>
  {
    EncCounts(VERSION, |blobs|, |kvs|) + (JoinBytes(kvs) + EncTensors(Place(blobs, ALIGNMENT, 0)))
  }

  /** Writes the file, or stops with `struct.error` before anything is written. */
  method WriteGguf(blobs: seq<Blob>, kvs: seq<seq<byte>>) returns (r: Result<seq<byte>, Error>)
    ensures r == if FileFits(blobs, kvs) then Ok(FileBytes(HeadBytes(blobs, kvs), blobs, ALIGNMENT))
                 else Err(StructError)
  {
    var meta := JoinBytes(kvs);
    var ok, info := WriteDirectory(blobs, ALIGNMENT);
    if !ok || |blobs| >= U64_LIMIT || |kvs| >= U64_LIMIT {
      return Err(StructError);
    }
    var head := EncCounts(VERSION, |blobs|, |kvs|) + (meta + info);
    var data := WritePayloads(blobs, ALIGNMENT);
    r := Ok(head + (Zeros(Pad(|head|, ALIGNMENT)) + data));
  }

  // ----- read_header_typed

  type Dict = map<seq<byte>, (nat, Py)>

  function DictOf(kvs: seq<Kv>): Dict
  {
    if kvs == [] then map[]
    else
      var last := kvs[|kvs| - 1];
      DictOf(kvs[..|kvs| - 1])[last.key := (last.t, Decode(last.t, last.val))]
  }

  /** What the reader returns: the typed values by key, the directory and its end. */
  function ReadTyped(b: seq<byte>): Result<(Dict, seq<Tensor>, nat), Error>
  {
    match ParseHeader(FIXTURE, b)
    case Err(e) => Err(e)
    case Ok(p) => Ok((DictOf(p.h.kvs), p.h.tensors, p.dirEnd))
  }

  method ReadHeaderTyped(b: seq<byte>) returns (r: Result<(Dict, seq<Tensor>, nat), Error>)
    ensures r == ReadTyped(b)
  {
    var p := ReadHeader(FIXTURE, b);
    if p.Err? { return Err(p.error); }
    var kvs := p.value.h.kvs;
    var kv: Dict, i := map[], 0;
    while i < |kvs|
      invariant i <= |kvs| && kv == DictOf(kvs[..i])
    {
      assert kvs[..i + 1][..i] == kvs[..i];
      kv := kv[kvs[i].key := (kvs[i].t, Decode(kvs[i].t, kvs[i].val))];
      i := i + 1;
    }
    assert kvs[..i] == kvs;
    r := Ok((kv, p.value.h.tensors, p.value.dirEnd));
  }

  // ----- writing, then reading

  /** The dictionary the caller wrote: a repeated key keeps its last value. */
  function GivenDict(es: seq<Entry>): Dict
  {
    if es == [] then map[]
    else GivenDict(es[..|es| - 1])[es[|es| - 1].k := Given(es[|es| - 1])]
  }

  function Encoded(es: seq<Entry>): (r: seq<seq<byte>>)
    requires forall i :: 0 <= i < |es| ==> EntryFits(es[i])
    ensures |r| == |es| && forall i :: 0 <= i < |es| ==> r[i] == Encode(es[i])
  {
    seq(|es|, i requires 0 <= i < |es| => Encode(es[i]))
  }

  ghost function KvsOf(es: seq<Entry>): (r: seq<Kv>)
    requires forall i :: 0 <= i < |es| ==> EntryFits(es[i])
    ensures |r| == |es| && forall i :: 0 <= i < |es| ==> r[i] == KvOf(es[i])
  {
    seq(|es|, i requires 0 <= i < |es| => KvOf(es[i]))
  }

  lemma {:induction false} EncodedJoin(es: seq<Entry>)
    requires forall i :: 0 <= i < |es| ==> EntryFits(es[i])
    ensures JoinBytes(Encoded(es)) == EncKvs(KvsOf(es))
  {
    if es != [] {
      hide Encode, KvOf, EncKv, EntryFits;
      EncodeIsEncKv(es[0]);
      EncodedJoin(es[1..]);
      assert Encoded(es)[1..] == Encoded(es[1..]);
      assert KvsOf(es)[1..] == KvsOf(es[1..]);
    }
  }

  lemma {:induction false} DictIsGiven(es: seq<Entry>)
    requires forall i :: 0 <= i < |es| ==> EntryFits(es[i])
    ensures DictOf(KvsOf(es)) == GivenDict(es)
  {
    if es != [] {
      hide KvOf, Given, Decode, EntryFits;
      var n := |es| - 1;
      DictIsGiven(es[..n]);
      DecodeIsGiven(es[n]);
      assert KvsOf(es)[..n] == KvsOf(es[..n]);
    }
  }

  predicate AllFit(es: seq<Entry>) { forall i :: 0 <= i < |es| ==> EntryFits(es[i]) }

  /** The file `write_gguf` writes for some tensors and entries. */
  function WrittenFile(blobs: seq<Blob>, es: seq<Entry>): seq<byte>
    requires AllFit(es)
  {
    FileBytes(HeadBytes(blobs, Encoded(es)), blobs, ALIGNMENT)
  }

  /** Reading what was written gives the caller's keys, types and values, the tensors' names,
      dimensions and types in order, and offsets that find every payload after the aligned header. */
  lemma WriteThenRead(blobs: seq<Blob>, es: seq<Entry>)
    requires forall i :: 0 <= i < |es| ==> EntryFits(es[i])
    requires FileFits(blobs, Encoded(es))
    ensures
      var head := HeadBytes(blobs, Encoded(es));
      var file := FileBytes(head, blobs, ALIGNMENT);
      var ts := Place(blobs, ALIGNMENT, 0);
      && ReadTyped(file) == Ok((GivenDict(es), ts, |head|))
      && Finds(file, RoundUp(|head|, ALIGNMENT), ts, blobs, ALIGNMENT)
  {
    hide HeaderOk, EncHeader, FileBytes, ParseHeader, Place, Finds, DictOf, GivenDict, KvsOf, Encoded;
    var kvs := KvsOf(es);
    HeaderFits(blobs, es);
    DefaultIsPowerOfTwo();
    WrittenFileReads(FIXTURE, VERSION, kvs, blobs, ALIGNMENT);
    DictIsGiven(es);
    HeaderIsWritten(blobs, es);
  }

  lemma HeaderIsWritten(blobs: seq<Blob>, es: seq<Entry>)
    requires forall i :: 0 <= i < |es| ==> EntryFits(es[i])
    ensures HeadBytes(blobs, Encoded(es)) == EncHeader(FileHeader(VERSION, KvsOf(es), blobs, ALIGNMENT))
  {
    hide EntryFits, EncCounts, EncKvs, EncTensors, Place;
    EncodedJoin(es);
  }

  lemma HeaderFits(blobs: seq<Blob>, es: seq<Entry>)
    requires forall i :: 0 <= i < |es| ==> EntryFits(es[i])
    requires FileFits(blobs, Encoded(es))
    ensures HeaderOk(FIXTURE, FileHeader(VERSION, KvsOf(es), blobs, ALIGNMENT))
  {
    hide EntryFits, KvOf, KvOk, TensorsOk;
    forall i | 0 <= i < |es| ensures KvOk(FIXTURE, KvsOf(es)[i]) { KvOfOk(es[i]); }
  }

  // ----- get_u32

  /** What a float's bytes stand for; the sign is kept apart for the zeros. */
  datatype FloatValue = NotFinite | Finite(negative: bool, value: real)

  const U32_MAX: int := 0xFFFFFFFF

  /** A value between zero and the largest u32. */
  function InRange(v: int, default: int): int { if 0 <= v <= U32_MAX then v else default }

  function FloatInRange(f: FloatValue, default: int): int
  {
    match f
    case NotFinite => default
    case Finite(negative, v) =>
      if negative || v > U32_MAX as real || v != v.Floor as real then default else v.Floor
  }

  /** A metadata value as a u32, floats being read by `float`; anything else is the default. */
  function GetU32(kv: Dict, key: seq<byte>, default: int, float: seq<byte> -> FloatValue): int
  {
    if key !in kv then default
    else
      match kv[key]
      case (t, Int(i)) => if t in {0, 2, 4, 10} then (if i <= U32_MAX then i else default)
                          else if t in {1, 3, 5, 11} then InRange(i, default) else default
      case (t, Float(raw)) => if t in {6, 12} then FloatInRange(float(raw), default) else default
      case _ => default
  }

  /** A whole number as a float without a sign. */
  function Whole(n: nat): FloatValue { Finite(false, n as real) }

  /** A number below zero carries a sign. */
  predicate ShowsSign(f: FloatValue) { f.Finite? && f.value < 0.0 ==> f.negative }

  ghost predicate ReadsSigns(float: seq<byte> -> FloatValue) { forall raw :: ShowsSign(float(raw)) }

  /** `r` is what an entry is worth as a u32: an unsigned value as it is, a signed one that is not
      negative, a float that is a whole number in range and carries no sign; else the default. */
  ghost predicate IsWorth(r: int, e: Entry, default: int, float: seq<byte> -> FloatValue)
  {
    match e
    case KU(_, u) => r == u
    case KI(_, i) => r == if i >= 0 then i else default
    case KF(_, f) =>
      && (forall n: nat :: n <= 0xFFFFFFFF && float(f) == Whole(n) ==> r == n)
      && (ShowsSign(float(f)) && (forall n: nat :: n <= 0xFFFFFFFF ==> float(f) != Whole(n)) ==> r == default)
    case _ => r == default
  }

  /** In a file of entries, the last one with the key is read: an unsigned value as it is, a signed one
      when it is not negative, a float when it is a u32; a missing key gives the default. */
  lemma {:induction false} GetU32Reads(es: seq<Entry>, key: seq<byte>, default: int, float: seq<byte> -> FloatValue)
    requires forall i :: 0 <= i < |es| ==> EntryFits(es[i])
    ensures (forall i :: 0 <= i < |es| ==> es[i].k != key) ==> GetU32(GivenDict(es), key, default, float) == default
    ensures forall i :: 0 <= i < |es| && es[i].k == key && (forall j :: i < j < |es| ==> es[j].k != key) ==>
              IsWorth(GetU32(GivenDict(es), key, default, float), es[i], default, float)
  {
    if es != [] {
      var n := |es| - 1;
      GetU32Reads(es[..n], key, default, float);
      if es[n].k == key {
        LastReads(GivenDict(es[..n]), es[n], default, float);
      } else {
        assert GetU32(GivenDict(es), key, default, float) == GetU32(GivenDict(es[..n]), key, default, float);
        forall i | 0 <= i < |es| && es[i].k == key && forall j :: i < j < |es| ==> es[j].k != key
          ensures IsWorth(GetU32(GivenDict(es), key, default, float), es[i], default, float)
        {
          assert es[..n][i] == es[i] && forall j :: i < j < n ==> es[..n][j] == es[j];
        }
      }
    }
  }

  /** The floats taken are the whole numbers in range without a sign. */
  lemma FloatWorth(f: FloatValue, default: int)
    ensures forall n: nat :: n <= 0xFFFFFFFF && f == Whole(n) ==> FloatInRange(f, default) == n
    ensures ShowsSign(f) && (forall n: nat :: n <= 0xFFFFFFFF ==> f != Whole(n)) ==> FloatInRange(f, default) == default
  {
    if ShowsSign(f) && f.Finite? && !f.negative && f.value <= 0xFFFFFFFF as real && f.value == f.value.Floor as real {
      var n: nat := f.value.Floor;
      assert f == Whole(n);
    }
  }

  lemma LastReads(kv: Dict, e: Entry, default: int, float: seq<byte> -> FloatValue)
    requires EntryFits(e)
    ensures IsWorth(GetU32(kv[e.k := Given(e)], e.k, default, float), e, default, float)
  {
    if e.KF? { FloatWorth(float(e.f), default); }
    assert e.KU? ==> 0 <= e.u <= U32_MAX;
    assert e.KI? ==> e.i <= U32_MAX;
  }

  /** The result is the default or a u32. */
  lemma GetU32InRange(b: seq<byte>, key: seq<byte>, default: int, float: seq<byte> -> FloatValue)
    requires ReadTyped(b).Ok? && ReadsSigns(float)
    ensures var r := GetU32(ReadTyped(b).value.0, key, default, float); r == default || 0 <= r <= U32_MAX
  {
    var kvs := ParseHeader(FIXTURE, b).value.h.kvs;
    hide ParseHeader;
    UnsignedStay(kvs, key);
  }

  lemma {:induction false} UnsignedStay(kvs: seq<Kv>, key: seq<byte>)
    ensures key in DictOf(kvs) && DictOf(kvs)[key].1.Int? && DictOf(kvs)[key].0 in {0, 2, 4, 10} ==>
              DictOf(kvs)[key].1.i >= 0
  {
    if kvs != [] {
      UnsignedStay(kvs[..|kvs| - 1], key);
    }
  }
}
