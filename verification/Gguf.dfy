/** The GGUF container: the bytes of a header, the parser behind the scripts' readers, and the
    proof that printing and parsing undo each other in both directions. */
module Gguf {
  import opened Wrappers
  import opened Bytes

  const STR: nat := 8
  const ARR: nat := 9

  /** A metadata value by its bytes; a scalar keeps its raw little-endian bytes. */
  datatype Val = Scalar(raw: seq<byte>) | Text(text: seq<byte>) | Arr(et: nat, items: seq<Val>)

  datatype Kv = Kv(key: seq<byte>, t: nat, val: Val)

  datatype Tensor = Tensor(name: seq<byte>, ne: seq<nat>, tt: nat, off: nat)

  datatype Header = Header(version: nat, kvs: seq<Kv>, tensors: seq<Tensor>)

  datatype Error =
    | Truncated | NotGguf | NestedArray | UnknownType | StructError | BadVersion
    | NoArchitecture | NoBlockCount | TypeError | NextN | DropOutOfRange | TooFewLayers
    | BadName | KeyError | UnsupportedType | BadRowWidth | NoDims | DivisionByZero
    | OrderMismatch | DirectoryResized | WentBackwards | ShortRead | TooManyShards

  /** Bytes of one scalar by metadata type, 0 for a type that is not a scalar. */
  function ScalarSize(t: nat): nat
  {
    match t
    case 0 => 1 case 1 => 1 case 2 => 2 case 3 => 2 case 4 => 4 case 5 => 4
    case 6 => 4 case 7 => 1 case 10 => 8 case 11 => 8 case 12 => 8
    case _ => 0
  }

  /** How a reader differs from the others: whether it follows nested arrays, whether a string or
      a scalar cut off by the end of the file passes as a shorter one, and whether an array's
      element type is looked up before any element is read. */
  datatype Mode = Mode(nested: bool, shortText: bool, shortScalar: bool, eager: bool)

  /** `read_header_typed` of the fixture module. */
  const FIXTURE := Mode(true, true, false, false)
  /** `read_header` of the block-order tool. */
  const BLOCK_ORDER := Mode(true, true, true, false)
  /** Class `R` as the depth-slice tool drives it. */
  const DEPTH_SLICE := Mode(false, false, false, false)
  /** Class `R` as the split tool drives it. */
  const SPLIT := Mode(false, false, false, true)
  /** No read may come up short; nested arrays are followed. */
  const STRICT := Mode(true, false, false, false)

  // ----- printing

  function EncText(s: seq<byte>): seq<byte>
  {
    U64(|s|) + s
  }

  function EncVal(v: Val): seq<byte>
  {
    match v
    case Scalar(raw) => raw
    case Text(text) => EncText(text)
    case Arr(et, items) => U32(et) + (U64(|items|) + EncVals(items))
  }

  function EncVals(items: seq<Val>): seq<byte>
  {
    if items == [] then [] else EncVal(items[0]) + EncVals(items[1..])
  }

  function EncKv(kv: Kv): seq<byte>
  {
    EncText(kv.key) + (U32(kv.t) + EncVal(kv.val))
  }

  function EncKvs(kvs: seq<Kv>): seq<byte>
  {
    if kvs == [] then [] else EncKv(kvs[0]) + EncKvs(kvs[1..])
  }

  function EncDims(ne: seq<nat>): seq<byte>
  {
    if ne == [] then [] else U64(ne[0]) + EncDims(ne[1..])
  }

  function EncTensor(t: Tensor): seq<byte>
  {
    EncText(t.name) + (U32(|t.ne|) + (EncDims(t.ne) + (U32(t.tt) + U64(t.off))))
  }

  function EncTensors(ts: seq<Tensor>): seq<byte>
  {
    if ts == [] then [] else EncTensor(ts[0]) + EncTensors(ts[1..])
  }

  function Magic(): seq<byte>
  {
    Ascii("GGUF")
  }

  /** The metadata key of the alignment. */
  function AlignmentKey(): seq<byte>
  {
    Ascii("general.alignment")
  }

  /** Magic, version and the two counts. */
  function EncCounts(version: nat, nTensors: nat, nKv: nat): seq<byte>
  {
    Magic() + (U32(version) + (U64(nTensors) + U64(nKv)))
  }

  function EncHeader(h: Header): seq<byte>
  {
    EncCounts(h.version, |h.tensors|, |h.kvs|) + (EncKvs(h.kvs) + EncTensors(h.tensors))
  }

  // ----- what fits the fixed-width fields

  predicate ValOk(m: Mode, v: Val, t: nat)
    decreases v
  {
    match v
    case Scalar(raw) => ScalarSize(t) > 0 && |raw| == ScalarSize(t)
    case Text(text) => t == STR && |text| < U64_LIMIT
    case Arr(et, items) =>
      && t == ARR && et < U32_LIMIT && |items| < U64_LIMIT
      && (et == ARR ==> m.nested)
      && (m.eager && et != ARR ==> et == STR || ScalarSize(et) > 0)
      && forall i :: 0 <= i < |items| ==> ValOk(m, items[i], et)
  }

  predicate KvOk(m: Mode, kv: Kv)
  {
    |kv.key| < U64_LIMIT && kv.t < U32_LIMIT && ValOk(m, kv.val, kv.t)
  }

  predicate KvsOk(m: Mode, kvs: seq<Kv>)
  {
    forall i :: 0 <= i < |kvs| ==> KvOk(m, kvs[i])
  }

  predicate TensorOk(t: Tensor)
  {
    && |t.name| < U64_LIMIT && |t.ne| < U32_LIMIT && t.tt < U32_LIMIT && t.off < U64_LIMIT
    && forall i :: 0 <= i < |t.ne| ==> t.ne[i] < U64_LIMIT
  }

  predicate TensorsOk(ts: seq<Tensor>)
  {
    forall i :: 0 <= i < |ts| ==> TensorOk(ts[i])
  }

  predicate HeaderOk(m: Mode, h: Header)
  {
    && h.version < U32_LIMIT && |h.kvs| < U64_LIMIT && |h.tensors| < U64_LIMIT
    && KvsOk(m, h.kvs) && TensorsOk(h.tensors)
  }

  // ----- parsing

  /** A parsed value and the position after it, or the error the reader stops with. */
  datatype Parse<+T> = Got(v: T, p: nat) | Fail(e: Error)

  function Read(b: seq<byte>, p: nat, n: nat, short: bool): (r: Parse<seq<byte>>)
    ensures r.Got? ==> p <= r.p <= |b| && r.v == b[p..r.p]
  {
    if p + n <= |b| then Got(b[p..p + n], p + n)
    else if short && p <= |b| then Got(b[p..], |b|)
    else Fail(Truncated)
  }

  function ReadInt(b: seq<byte>, p: nat, n: nat): (r: Parse<nat>)
    ensures r.Got? ==> r.p == p + n <= |b|
  {
    if p + n <= |b| then Got(IntAt(b, p, n), p + n) else Fail(Truncated)
  }

  function ReadText(m: Mode, b: seq<byte>, p: nat): (r: Parse<seq<byte>>)
    ensures r.Got? ==> p + 8 <= r.p <= |b|
  {
    match ReadInt(b, p, 8)
    case Got(n, q) => Read(b, q, n, m.shortText)
    case Fail(e) => Fail(e)
  }

  /** Bytes of the file after position `p`. */
  function Left(b: seq<byte>, p: nat): nat
  {
    if p <= |b| then |b| - p else 0
  }

  function ParseVal(m: Mode, b: seq<byte>, p: nat, t: nat): (r: Parse<Val>)
    ensures r.Got? ==> p <= r.p <= |b|
    decreases Left(b, p), 0, 0
  {
    if t == STR then
      match ReadText(m, b, p)
      case Got(s, q) => Got(Text(s), q)
      case Fail(e) => Fail(e)
    else if t == ARR then
      match ReadInt(b, p, 4)
      case Fail(e) => Fail(e)
      case Got(et, q) =>
        match ReadInt(b, q, 8)
        case Fail(e) => Fail(e)
        case Got(n, q) =>
          if et == ARR && !m.nested then Fail(NestedArray)
          else if m.eager && et != STR && et != ARR && ScalarSize(et) == 0 then Fail(UnknownType)
          else
            match ParseVals(m, b, q, et, n)
            case Got(items, q) => Got(Arr(et, items), q)
            case Fail(e) => Fail(e)
    else if ScalarSize(t) == 0 then Fail(UnknownType)
    else
      match Read(b, p, ScalarSize(t), m.shortScalar)
      case Got(raw, q) => Got(Scalar(raw), q)
      case Fail(e) => Fail(e)
  }

  function ParseVals(m: Mode, b: seq<byte>, p: nat, t: nat, n: nat): (r: Parse<seq<Val>>)
    ensures r.Got? ==> p <= r.p && (p <= |b| ==> r.p <= |b|) && |r.v| == n
    decreases Left(b, p), 1, n
  {
    if n == 0 then Got([], p)
    else
      match ParseVal(m, b, p, t)
      case Fail(e) => Fail(e)
      case Got(v, q) => Cons(v, ParseVals(m, b, q, t, n - 1))
  }

  function Cons<T>(v: T, rest: Parse<seq<T>>): Parse<seq<T>>
  {
    match rest
    case Got(vs, p) => Got([v] + vs, p)
    case Fail(e) => Fail(e)
  }

  function ParseKv(m: Mode, b: seq<byte>, p: nat): (r: Parse<Kv>)
    ensures r.Got? ==> p <= r.p <= |b|
  {
    match ReadText(m, b, p)
    case Fail(e) => Fail(e)
    case Got(key, q) =>
      match ReadInt(b, q, 4)
      case Fail(e) => Fail(e)
      case Got(t, q) =>
        match ParseVal(m, b, q, t)
        case Fail(e) => Fail(e)
        case Got(v, q) => Got(Kv(key, t, v), q)
  }

  function ParseKvs(m: Mode, b: seq<byte>, p: nat, n: nat): (r: Parse<seq<Kv>>)
    ensures r.Got? ==> p <= r.p && (p <= |b| ==> r.p <= |b|) && |r.v| == n
    decreases n
  {
    if n == 0 then Got([], p)
    else
      match ParseKv(m, b, p)
      case Fail(e) => Fail(e)
      case Got(kv, q) => Cons(kv, ParseKvs(m, b, q, n - 1))
  }

  function ParseDims(b: seq<byte>, p: nat, n: nat): (r: Parse<seq<nat>>)
    ensures r.Got? ==> p <= r.p && (p <= |b| ==> r.p <= |b|) && |r.v| == n
    decreases n
  {
    if n == 0 then Got([], p)
    else
      match ReadInt(b, p, 8)
      case Fail(e) => Fail(e)
      case Got(d, q) => Cons(d, ParseDims(b, q, n - 1))
  }

  function ParseTensor(m: Mode, b: seq<byte>, p: nat): (r: Parse<Tensor>)
    ensures r.Got? ==> p <= r.p <= |b|
  {
    match ReadText(m, b, p)
    case Fail(e) => Fail(e)
    case Got(name, q) =>
      match ReadInt(b, q, 4)
      case Fail(e) => Fail(e)
      case Got(nd, q) =>
        match ParseDims(b, q, nd)
        case Fail(e) => Fail(e)
        case Got(ne, q) =>
          match ReadInt(b, q, 4)
          case Fail(e) => Fail(e)
          case Got(tt, q) =>
            match ReadInt(b, q, 8)
            case Fail(e) => Fail(e)
            case Got(off, q) => Got(Tensor(name, ne, tt, off), q)
  }

  function ParseTensors(m: Mode, b: seq<byte>, p: nat, n: nat): (r: Parse<seq<Tensor>>)
    ensures r.Got? ==> p <= r.p && (p <= |b| ==> r.p <= |b|) && |r.v| == n
    decreases n
  {
    if n == 0 then Got([], p)
    else
      match ParseTensor(m, b, p)
      case Fail(e) => Fail(e)
      case Got(t, q) => Cons(t, ParseTensors(m, b, q, n - 1))
  }

  /** A parsed header, the end of the metadata region and the end of the tensor directory. */
  datatype Parsed = Parsed(h: Header, metaEnd: nat, dirEnd: nat)

  function ParseCounts(b: seq<byte>): (r: Parse<(nat, nat, nat)>)
    ensures r.Got? ==> r.p == 24 <= |b|
  {
    match Read(b, 0, 4, false)
    case Fail(e) => Fail(e)
    case Got(magic, q) =>
      if magic != Magic() then Fail(NotGguf)
      else
        match ReadInt(b, q, 4)
        case Fail(e) => Fail(e)
        case Got(version, q) =>
          match ReadInt(b, q, 8)
          case Fail(e) => Fail(e)
          case Got(nTensors, q) =>
            match ReadInt(b, q, 8)
            case Fail(e) => Fail(e)
            case Got(nKv, q) => Got((version, nTensors, nKv), q)
  }

  function ParseHeader(m: Mode, b: seq<byte>): (r: Result<Parsed, Error>)
    ensures r.Ok? ==> 24 <= r.value.metaEnd <= r.value.dirEnd <= |b|
  {
    match ParseCounts(b)
    case Fail(e) => Err(e)
    case Got(c, q) =>
      match ParseKvs(m, b, q, c.2)
      case Fail(e) => Err(e)
      case Got(kvs, q) =>
        match ParseTensors(m, b, q, c.1)
        case Fail(e) => Err(e)
        case Got(ts, q') => Ok(Parsed(Header(c.0, kvs, ts), q, q'))
  }

  // ----- parsing what was printed

  lemma ReadIntAt(b: seq<byte>, p: nat, v: nat, n: nat)
    requires v < Pow256(n) && At(b, p, Le(v, n))
    ensures ReadInt(b, p, n) == Got(v, p + n)
  {
    IntAtOfLe(b, p, v, n);
  }

  lemma ReadU32At(b: seq<byte>, p: nat, v: nat)
    requires v < U32_LIMIT && At(b, p, U32(v))
    ensures ReadInt(b, p, 4) == Got(v, p + 4)
  {
    Widths();
    ReadIntAt(b, p, v, 4);
  }

  lemma ReadU64At(b: seq<byte>, p: nat, v: nat)
    requires v < U64_LIMIT && At(b, p, U64(v))
    ensures ReadInt(b, p, 8) == Got(v, p + 8)
  {
    Widths();
    ReadIntAt(b, p, v, 8);
  }

  lemma ReadTextAt(m: Mode, b: seq<byte>, p: nat, s: seq<byte>)
    requires |s| < U64_LIMIT && At(b, p, EncText(s))
    ensures ReadText(m, b, p) == Got(s, p + |EncText(s)|)
  {
    AtSplit(b, p, U64(|s|), s);
    ReadU64At(b, p, |s|);
    AtIsSlice(b, p + 8, s);
  }

  lemma {:induction false} ParseValAt(m: Mode, b: seq<byte>, p: nat, v: Val, t: nat)
    requires ValOk(m, v, t) && At(b, p, EncVal(v))
    ensures ParseVal(m, b, p, t) == Got(v, p + |EncVal(v)|)
    decreases v, 1
  {
    match v
    case Scalar(raw) => AtIsSlice(b, p, raw);
    case Text(text) => ReadTextAt(m, b, p, text);
    case Arr(et, items) =>
      AtSplit(b, p, U32(et), U64(|items|) + EncVals(items));
      AtSplit(b, p + 4, U64(|items|), EncVals(items));
      ReadU32At(b, p, et);
      ReadU64At(b, p + 4, |items|);
      ParseValsAt(m, b, p + 12, items, et);
  }

  lemma {:induction false} ParseValsAt(m: Mode, b: seq<byte>, p: nat, items: seq<Val>, t: nat)
    requires forall i :: 0 <= i < |items| ==> ValOk(m, items[i], t)
    requires At(b, p, EncVals(items))
    ensures ParseVals(m, b, p, t, |items|) == Got(items, p + |EncVals(items)|)
    decreases items, 0
  {
    if items != [] {
      hide At, EncVal, ParseVal, ValOk;
      var v, rest := items[0], items[1..];
      var q := p + |EncVal(v)|;
      assert At(b, p, EncVal(v)) && At(b, q, EncVals(rest)) by { AtSplit(b, p, EncVal(v), EncVals(rest)); }
      assert ParseVal(m, b, p, t) == Got(v, q) by { ParseValAt(m, b, p, v, t); }
      ParseValsAt(m, b, q, rest, t);
      assert items == [v] + rest;
    }
  }

  lemma ParseKvAt(m: Mode, b: seq<byte>, p: nat, kv: Kv)
    requires KvOk(m, kv) && At(b, p, EncKv(kv))
    ensures ParseKv(m, b, p) == Got(kv, p + |EncKv(kv)|)
  {
    hide EncVal, ReadText, ReadInt, ParseVal, ValOk;
    AtSplit(b, p, EncText(kv.key), U32(kv.t) + EncVal(kv.val));
    AtSplit(b, p + |EncText(kv.key)|, U32(kv.t), EncVal(kv.val));
    ReadTextAt(m, b, p, kv.key);
    ReadU32At(b, p + |EncText(kv.key)|, kv.t);
    ParseValAt(m, b, p + |EncText(kv.key)| + 4, kv.val, kv.t);
  }

  lemma {:induction false} ParseKvsAt(m: Mode, b: seq<byte>, p: nat, kvs: seq<Kv>)
    requires KvsOk(m, kvs) && At(b, p, EncKvs(kvs))
    ensures ParseKvs(m, b, p, |kvs|) == Got(kvs, p + |EncKvs(kvs)|)
    decreases |kvs|
  {
    if kvs != [] {
      hide EncKv, ParseKv, At;
      var kv, rest := kvs[0], kvs[1..];
      var q := p + |EncKv(kv)|;
      assert At(b, p, EncKv(kv)) && At(b, q, EncKvs(rest)) by {
        AtSplit(b, p, EncKv(kv), EncKvs(rest));
      }
      assert ParseKv(m, b, p) == Got(kv, q) by { ParseKvAt(m, b, p, kv); }
      ParseKvsAt(m, b, q, rest);
      assert kvs == [kv] + rest;
    }
  }

  lemma {:induction false} ParseDimsAt(b: seq<byte>, p: nat, ne: seq<nat>)
    requires forall i :: 0 <= i < |ne| ==> ne[i] < U64_LIMIT
    requires At(b, p, EncDims(ne))
    ensures ParseDims(b, p, |ne|) == Got(ne, p + |EncDims(ne)|)
    decreases |ne|
  {
    if ne != [] {
      AtSplit(b, p, U64(ne[0]), EncDims(ne[1..]));
      ReadU64At(b, p, ne[0]);
      ParseDimsAt(b, p + 8, ne[1..]);
      assert ne == [ne[0]] + ne[1..];
    }
  }

  lemma ParseTensorAt(m: Mode, b: seq<byte>, p: nat, t: Tensor)
    requires TensorOk(t) && At(b, p, EncTensor(t))
    ensures ParseTensor(m, b, p) == Got(t, p + |EncTensor(t)|)
  {
    hide EncTensor, EncText, EncDims, At, U32, U64;
    var q := p + |EncText(t.name)|;
    var r := q + 4 + |EncDims(t.ne)|;
    TensorFields(b, p, t);
    assert ReadText(m, b, p) == Got(t.name, q) by { ReadTextAt(m, b, p, t.name); }
    assert ReadInt(b, q, 4) == Got(|t.ne|, q + 4) by { ReadU32At(b, q, |t.ne|); }
    assert ParseDims(b, q + 4, |t.ne|) == Got(t.ne, r) by { ParseDimsAt(b, q + 4, t.ne); }
    assert ReadInt(b, r, 4) == Got(t.tt, r + 4) by { ReadU32At(b, r, t.tt); }
    assert ReadInt(b, r + 4, 8) == Got(t.off, r + 12) by { ReadU64At(b, r + 4, t.off); }
  }

  lemma TensorFields(b: seq<byte>, p: nat, t: Tensor)
    ensures At(b, p, EncTensor(t)) <==>
            var q := p + |EncText(t.name)|;
            var r := q + 4 + |EncDims(t.ne)|;
            && At(b, p, EncText(t.name)) && At(b, q, U32(|t.ne|)) && At(b, q + 4, EncDims(t.ne))
            && At(b, r, U32(t.tt)) && At(b, r + 4, U64(t.off))
    ensures |EncTensor(t)| == |EncText(t.name)| + 16 + |EncDims(t.ne)|
  {
    var q := p + |EncText(t.name)|;
    AtSplit4(b, p, EncText(t.name), U32(|t.ne|), EncDims(t.ne), U32(t.tt) + U64(t.off));
    AtSplit(b, q + 4 + |EncDims(t.ne)|, U32(t.tt), U64(t.off));
  }

  lemma {:induction false} ParseTensorsAt(m: Mode, b: seq<byte>, p: nat, ts: seq<Tensor>)
    requires TensorsOk(ts) && At(b, p, EncTensors(ts))
    ensures ParseTensors(m, b, p, |ts|) == Got(ts, p + |EncTensors(ts)|)
    decreases |ts|
  {
    if ts != [] {
      hide EncTensor, ParseTensor, At;
      var t, rest := ts[0], ts[1..];
      var q := p + |EncTensor(t)|;
      assert At(b, p, EncTensor(t)) && At(b, q, EncTensors(rest)) by {
        AtSplit(b, p, EncTensor(t), EncTensors(rest));
      }
      assert ParseTensor(m, b, p) == Got(t, q) by { ParseTensorAt(m, b, p, t); }
      ParseTensorsAt(m, b, q, rest);
      assert ts == [t] + rest;
    }
  }

  lemma ParseCountsAt(b: seq<byte>, version: nat, nTensors: nat, nKv: nat)
    requires version < U32_LIMIT && nTensors < U64_LIMIT && nKv < U64_LIMIT
    requires At(b, 0, EncCounts(version, nTensors, nKv))
    ensures ParseCounts(b) == Got((version, nTensors, nKv), 24)
  {
    AtSplit4(b, 0, Magic(), U32(version), U64(nTensors), U64(nKv));
    AtIsSlice(b, 0, Magic());
    ReadU32At(b, 4, version);
    ReadU64At(b, 8, nTensors);
    ReadU64At(b, 16, nKv);
  }

  lemma HeaderParts(b: seq<byte>, h: Header)
    ensures At(b, 0, EncHeader(h)) <==>
            && At(b, 0, EncCounts(h.version, |h.tensors|, |h.kvs|))
            && At(b, 24, EncKvs(h.kvs)) && At(b, 24 + |EncKvs(h.kvs)|, EncTensors(h.tensors))
    ensures |EncHeader(h)| == 24 + |EncKvs(h.kvs)| + |EncTensors(h.tensors)|
  {
    AtSplit3(b, 0, EncCounts(h.version, |h.tensors|, |h.kvs|), EncKvs(h.kvs), EncTensors(h.tensors));
  }

  /** Reading back a printed header yields it, whatever follows it in the file. */
  lemma ParseOfPrint(m: Mode, b: seq<byte>, h: Header)
    requires HeaderOk(m, h) && EncHeader(h) <= b
    ensures ParseHeader(m, b)
         == Ok(Parsed(h, 24 + |EncKvs(h.kvs)|, |EncHeader(h)|))
  {
    hide EncCounts, EncKvs, EncTensors, EncHeader, ParseCounts, ParseKvs, ParseTensors;
    var nt, nk, q := |h.tensors|, |h.kvs|, 24 + |EncKvs(h.kvs)|;
    AtIsSlice(b, 0, EncHeader(h));
    HeaderParts(b, h);
    assert ParseCounts(b) == Got((h.version, nt, nk), 24) by {
      ParseCountsAt(b, h.version, nt, nk);
    }
    assert ParseKvs(m, b, 24, nk) == Got(h.kvs, q) by { ParseKvsAt(m, b, 24, h.kvs); }
    assert ParseTensors(m, b, q, nt) == Got(h.tensors, |EncHeader(h)|) by {
      ParseTensorsAt(m, b, q, h.tensors);
    }
  }

  // ----- printing what was parsed

  lemma IntIsAt(b: seq<byte>, p: nat, n: nat)
    requires ReadInt(b, p, n).Got?
    ensures ReadInt(b, p, n).v < Pow256(n)
    ensures At(b, p, Le(ReadInt(b, p, n).v, n))
  {
    LeOfIntAt(b, p, n);
  }

  lemma TextIsAt(m: Mode, b: seq<byte>, p: nat)
    requires !m.shortText && ReadText(m, b, p).Got?
    ensures var r := ReadText(m, b, p);
            |r.v| < U64_LIMIT && At(b, p, EncText(r.v)) && r.p == p + |EncText(r.v)|
  {
    Widths();
    IntIsAt(b, p, 8);
    var s := ReadText(m, b, p).v;
    AtIsSlice(b, p + 8, s);
    AtSplit(b, p, U64(|s|), s);
  }

  lemma {:induction false} ValIsAt(m: Mode, b: seq<byte>, p: nat, t: nat)
    requires !m.shortText && !m.shortScalar && ParseVal(m, b, p, t).Got?
    ensures var r := ParseVal(m, b, p, t);
            ValOk(m, r.v, t) && At(b, p, EncVal(r.v)) && r.p == p + |EncVal(r.v)|
    decreases Left(b, p), 0, 0
  {
    if t == STR {
      TextIsAt(m, b, p);
    } else if t == ARR {
      Widths();
      IntIsAt(b, p, 4);
      IntIsAt(b, p + 4, 8);
      var et, n := ReadInt(b, p, 4).v, ReadInt(b, p + 4, 8).v;
      ValsAreAt(m, b, p + 12, et, n);
      var items := ParseVals(m, b, p + 12, et, n).v;
      AtSplit(b, p + 4, U64(n), EncVals(items));
      AtSplit(b, p, U32(et), U64(n) + EncVals(items));
    } else {
      AtIsSlice(b, p, ParseVal(m, b, p, t).v.raw);
    }
  }

  lemma {:induction false} ValsAreAt(m: Mode, b: seq<byte>, p: nat, t: nat, n: nat)
    requires !m.shortText && !m.shortScalar && p <= |b| && ParseVals(m, b, p, t, n).Got?
    ensures var r := ParseVals(m, b, p, t, n);
            && (forall i :: 0 <= i < n ==> ValOk(m, r.v[i], t))
            && At(b, p, EncVals(r.v)) && r.p == p + |EncVals(r.v)|
    decreases Left(b, p), 1, n
  {
    if n > 0 {
      ValIsAt(m, b, p, t);
      var v, q := ParseVal(m, b, p, t).v, ParseVal(m, b, p, t).p;
      ValsAreAt(m, b, q, t, n - 1);
      var rest := ParseVals(m, b, q, t, n - 1).v;
      assert ([v] + rest)[1..] == rest;
      AtSplit(b, p, EncVal(v), EncVals(rest));
    }
  }

  lemma KvIsAt(m: Mode, b: seq<byte>, p: nat)
    requires !m.shortText && !m.shortScalar && ParseKv(m, b, p).Got?
    ensures var r := ParseKv(m, b, p);
            KvOk(m, r.v) && At(b, p, EncKv(r.v)) && r.p == p + |EncKv(r.v)|
  {
    hide EncVal, ReadText, ParseVal, ValOk;
    Widths();
    TextIsAt(m, b, p);
    var key, q := ReadText(m, b, p).v, ReadText(m, b, p).p;
    IntIsAt(b, q, 4);
    var t := ReadInt(b, q, 4).v;
    ValIsAt(m, b, q + 4, t);
    var v := ParseVal(m, b, q + 4, t).v;
    AtSplit(b, q, U32(t), EncVal(v));
    AtSplit(b, p, EncText(key), U32(t) + EncVal(v));
  }

  lemma {:induction false} KvsAreAt(m: Mode, b: seq<byte>, p: nat, n: nat)
    requires !m.shortText && !m.shortScalar && p <= |b| && ParseKvs(m, b, p, n).Got?
    ensures var r := ParseKvs(m, b, p, n);
            KvsOk(m, r.v) && At(b, p, EncKvs(r.v)) && r.p == p + |EncKvs(r.v)|
    decreases n
  {
    if n > 0 {
      hide At, EncKv, EncKvs, ParseKv, KvOk, KvsOk;
      KvIsAt(m, b, p);
      var kv, q := ParseKv(m, b, p).v, ParseKv(m, b, p).p;
      KvsAreAt(m, b, q, n - 1);
      var rest := ParseKvs(m, b, q, n - 1).v;
      OneMoreKv(m, kv, rest);
      AtSplit(b, p, EncKv(kv), EncKvs(rest));
    } else {
      assert EncKvs([]) == [];
    }
  }

  lemma OneMoreKv(m: Mode, kv: Kv, rest: seq<Kv>)
    ensures EncKvs([kv] + rest) == EncKv(kv) + EncKvs(rest)
    ensures KvOk(m, kv) && KvsOk(m, rest) ==> KvsOk(m, [kv] + rest)
  {
    hide EncKv, KvOk;
    assert ([kv] + rest)[1..] == rest;
  }

  lemma {:induction false} DimsAreAt(b: seq<byte>, p: nat, n: nat)
    requires p <= |b| && ParseDims(b, p, n).Got?
    ensures var r := ParseDims(b, p, n);
            && (forall i :: 0 <= i < n ==> r.v[i] < U64_LIMIT)
            && At(b, p, EncDims(r.v)) && r.p == p + |EncDims(r.v)|
    decreases n
  {
    if n > 0 {
      Widths();
      IntIsAt(b, p, 8);
      var d := ReadInt(b, p, 8).v;
      DimsAreAt(b, p + 8, n - 1);
      var rest := ParseDims(b, p + 8, n - 1).v;
      assert ([d] + rest)[1..] == rest;
      AtSplit(b, p, U64(d), EncDims(rest));
    }
  }

  lemma TensorIsAt(m: Mode, b: seq<byte>, p: nat)
    requires !m.shortText && ParseTensor(m, b, p).Got?
    ensures var r := ParseTensor(m, b, p);
            TensorOk(r.v) && At(b, p, EncTensor(r.v)) && r.p == p + |EncTensor(r.v)|
  {
    Widths();
    TextIsAt(m, b, p);
    var q := ReadText(m, b, p).p;
    IntIsAt(b, q, 4);
    var nd := ReadInt(b, q, 4).v;
    DimsAreAt(b, q + 4, nd);
    var s := ParseDims(b, q + 4, nd).p;
    IntIsAt(b, s, 4);
    IntIsAt(b, s + 4, 8);
    TensorFields(b, p, ParseTensor(m, b, p).v);
  }

  lemma {:induction false} TensorsAreAt(m: Mode, b: seq<byte>, p: nat, n: nat)
    requires !m.shortText && p <= |b| && ParseTensors(m, b, p, n).Got?
    ensures var r := ParseTensors(m, b, p, n);
            TensorsOk(r.v) && At(b, p, EncTensors(r.v)) && r.p == p + |EncTensors(r.v)|
    decreases n
  {
    if n > 0 {
      TensorIsAt(m, b, p);
      var t, q := ParseTensor(m, b, p).v, ParseTensor(m, b, p).p;
      TensorsAreAt(m, b, q, n - 1);
      var rest := ParseTensors(m, b, q, n - 1).v;
      assert ([t] + rest)[1..] == rest;
      AtSplit(b, p, EncTensor(t), EncTensors(rest));
    }
  }

  /** Whatever a reader that accepts no short read parsed is exactly what the bytes print. */
  lemma PrintOfParse(m: Mode, b: seq<byte>)
    requires !m.shortText && !m.shortScalar && ParseHeader(m, b).Ok?
    ensures var r := ParseHeader(m, b).value;
            && HeaderOk(m, r.h)
            && r.metaEnd == 24 + |EncKvs(r.h.kvs)| && r.dirEnd == |EncHeader(r.h)|
            && EncHeader(r.h) <= b
  {
    hide EncCounts, EncKvs, EncTensors, ParseCounts, ParseKvs, ParseTensors;
    var r := ParseHeader(m, b).value;
    CountsAreAt(b);
    var nt, nk := ParseCounts(b).v.1, ParseCounts(b).v.2;
    assert KvsOk(m, r.h.kvs) && At(b, 24, EncKvs(r.h.kvs)) && r.metaEnd == 24 + |EncKvs(r.h.kvs)| by {
      KvsAreAt(m, b, 24, nk);
    }
    assert && TensorsOk(r.h.tensors) && At(b, r.metaEnd, EncTensors(r.h.tensors))
           && r.dirEnd == r.metaEnd + |EncTensors(r.h.tensors)| by {
      TensorsAreAt(m, b, r.metaEnd, nt);
    }
    HeaderParts(b, r.h);
    AtIsSlice(b, 0, EncHeader(r.h));
  }

  lemma CountsAreAt(b: seq<byte>)
    requires ParseCounts(b).Got?
    ensures var (version, nTensors, nKv) := ParseCounts(b).v;
            && version < U32_LIMIT && nTensors < U64_LIMIT && nKv < U64_LIMIT
            && At(b, 0, EncCounts(version, nTensors, nKv))
  {
    Widths();
    IntIsAt(b, 4, 4);
    IntIsAt(b, 8, 8);
    IntIsAt(b, 16, 8);
    var (version, nTensors, nKv) := ParseCounts(b).v;
    AtIsSlice(b, 0, Magic());
    AtSplit4(b, 0, Magic(), U32(version), U64(nTensors), U64(nKv));
  }

  /** Where no read comes up short, a forgiving reader parses what the strict one does. */
  lemma ForgivingAgrees(m: Mode, b: seq<byte>)
    requires m.nested && !m.eager && ParseHeader(STRICT, b).Ok?
    ensures ParseHeader(m, b) == ParseHeader(STRICT, b)
  {
    PrintOfParse(STRICT, b);
    var h := ParseHeader(STRICT, b).value.h;
    forall i | 0 <= i < |h.kvs| ensures KvOk(m, h.kvs[i]) {
      OkInMode(STRICT, m, h.kvs[i].val, h.kvs[i].t);
    }
    assert EncHeader(h) <= b;
    ParseOfPrint(m, b, h);
    ParseOfPrint(STRICT, b, h);
  }

  lemma {:induction false} OkInMode(m: Mode, m': Mode, v: Val, t: nat)
    requires m'.nested && !m'.eager && ValOk(m, v, t)
    ensures ValOk(m', v, t)
  {
    if v.Arr? {
      forall i | 0 <= i < |v.items| ensures ValOk(m', v.items[i], v.et) {
        OkInMode(m, m', v.items[i], v.et);
      }
    }
  }
}
