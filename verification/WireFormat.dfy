/** The container on the wire, in its own bytes: what the shared encoders put down, what the readers
    take a value's bytes for, and where the four readers differ. */
module WireFormat {
  import opened Wrappers
  import opened Bytes
  import opened Gguf
  import opened Fixture

  // ----- integers

  /** The number that bytes stand for, least significant first. */
  function Number(b: seq<int>): int
  {
    if b == [] then 0 else b[0] + 256 * Number(b[1..])
  }

  lemma {:induction false} FieldBytes(b: seq<byte>)
    ensures Number(b) >= 0 && Le(Number(b), |b|) == b && FromLe(b) == Number(b)
  {
    if b != [] {
      FieldBytes(b[1..]);
      var rest := Number(b[1..]);
      assert (b[0] + 256 * rest) % 256 == b[0] && (b[0] + 256 * rest) / 256 == rest;
      assert b == [b[0]] + b[1..];
    }
  }

  /** Fields of four and of eight bytes are little-endian. */
  lemma FieldsAreLittleEndian(b: seq<byte>)
    ensures Number(b) >= 0
    ensures |b| == 4 ==> U32(Number(b)) == b
    ensures |b| == 8 ==> U64(Number(b)) == b
    ensures FromLe(b) == Number(b)
  {
    hide Le, FromLe, Number;
    FieldBytes(b);
  }

  // ----- writing

  /** The first bytes of a header: "GGUF", the version, the number of tensors and of entries. */
  lemma HeaderWire(h: Header)
    ensures EncHeader(h)[..24] == [71, 71, 85, 70] + (U32(h.version) + (U64(|h.tensors|) + U64(|h.kvs|)))
  {
    assert Magic() == [71, 71, 85, 70];
    hide Magic, U32, U64, EncKvs, EncTensors;
  }

  /** A tensor's entry: name, dimensions, type, offset. */
  lemma TensorWire(t: Tensor, n: seq<byte>, d: seq<byte>)
    requires n == U64(|t.name|) + t.name && d == EncDims(t.ne)
    ensures EncTensor(t) == n + U32(|t.ne|) + d + U32(t.tt) + U64(t.off)
  {
    hide U32, U64, EncDims;
  }

  /** The type codes the encoders write, and how long a scalar of each is. */
  lemma EntryWire(e: Entry, key: seq<byte>)
    requires EntryFits(e) && key == U64(|e.k|) + e.k
    ensures e.KU? ==> Encode(e) == key + (U32(4) + U32(e.u))
    ensures e.KI? && e.i >= 0 ==> Encode(e) == key + (U32(5) + U32(e.i))
    ensures e.KI? && e.i < 0 ==> e.i + 0x1_0000_0000 >= 0 && Encode(e) == key + (U32(5) + U32(e.i + 0x1_0000_0000))
    ensures e.KF? ==> Encode(e) == key + (U32(6) + e.f)
    ensures e.KS? ==> Encode(e) == key + (U32(8) + (U64(|e.s|) + e.s))
    ensures e.KB? ==> Encode(e) == key + (U32(7) + [if e.b then 1 else 0])
    ensures e.KAU? ==> key + (U32(9) + (U32(4) + U64(|e.us|))) <= Encode(e)
    ensures e.KAI? ==> key + (U32(9) + (U32(5) + U64(|e.vs|))) <= Encode(e)
    ensures e.KAF? ==> key + (U32(9) + (U32(6) + U64(|e.fs|))) <= Encode(e)
    ensures e.KAS? ==> key + (U32(9) + (U32(8) + U64(|e.ss|))) <= Encode(e)
    ensures e.KAB? ==> key + (U32(9) + (U32(7) + U64(|e.bs|))) <= Encode(e)
    ensures e.KAU64? ==> key + (U32(9) + (U32(10) + U64(|e.us|))) <= Encode(e)
  {
    Widths();
    hide Le, JoinBytes, Pow256;
  }

  // ----- reading a scalar

  /** Bytes of a scalar of the type, 0 for the types that are none. */
  function Width(t: nat): nat
  {
    if t == 0 || t == 1 || t == 7 then 1
    else if t == 2 || t == 3 then 2
    else if t == 4 || t == 5 || t == 6 then 4
    else if t == 10 || t == 11 || t == 12 then 8
    else 0
  }

  /** What a scalar's bytes are: an unsigned number, a signed one, a float or a truth value. */
  function Meaning(t: nat, raw: seq<byte>): Py
    requires |raw| == Width(t)
  {
    var top := if raw != [] && raw[|raw| - 1] >= 128 then 1 else 0;
    if t == 0 || t == 2 || t == 4 || t == 10 then Int(Number(raw))
    else if t == 1 then Int(Number(raw) - top * 0x100)
    else if t == 3 then Int(Number(raw) - top * 0x1_0000)
    else if t == 5 then Int(Number(raw) - top * 0x1_0000_0000)
    else if t == 11 then Int(Number(raw) - top * 0x1_0000_0000_0000_0000)
    else if t == 7 then Bool(raw != [0])
    else Float(raw)
  }

  lemma {:induction false} TopByte(b: seq<byte>)
    requires b != []
    ensures b[|b| - 1] >= 128 <==> 2 * Number(b) >= Pow256(|b|)
    ensures 0 <= Number(b) < Pow256(|b|)
  {
    if |b| > 1 {
      TopByte(b[1..]);
    } else {
      assert Number(b[1..]) == 0;
    }
  }

  /** A scalar in the file is read as what its bytes are. */
  lemma ScalarReads(m: Mode, b: seq<byte>, p: nat, t: nat)
    requires Width(t) > 0 && p + Width(t) <= |b|
    ensures var raw := b[p..p + Width(t)];
            && ParseVal(m, b, p, t) == Got(Scalar(raw), p + Width(t))
            && Decode(t, Scalar(raw)) == Meaning(t, raw)
  {
    var raw := b[p..p + Width(t)];
    FieldBytes(raw);
    TopByte(raw);
    Widths();
    if t == 7 { OneByte(raw); }
    hide Number, FromLe, Pow256;
  }

  lemma OneByte(raw: seq<byte>)
    requires |raw| == 1
    ensures Number(raw) == raw[0] && (raw == [0] <==> raw[0] == 0)
  {
    assert Number(raw[1..]) == 0;
  }

  /** Codes that stand for no type are refused. */
  lemma UnknownTypes(m: Mode, b: seq<byte>, p: nat, t: nat)
    requires t != 8 && t != 9 && Width(t) == 0
    ensures ParseVal(m, b, p, t) == Fail(UnknownType)
  {
  }

  // ----- the four readers

  /** A string the file cuts off: two readers take what is there, two stop. */
  lemma CutStrings(b: seq<byte>, p: nat, n: nat)
    requires ReadInt(b, p, 8) == Got(n, p + 8) && p + 8 + n > |b|
    ensures ReadText(FIXTURE, b, p) == Got(b[p + 8..], |b|) == ReadText(BLOCK_ORDER, b, p)
    ensures ReadText(DEPTH_SLICE, b, p) == Fail(Truncated) == ReadText(SPLIT, b, p)
  {
  }

  /** A scalar the file cuts off: the block-order reader skips it, the others stop. */
  lemma CutScalars(b: seq<byte>, p: nat, t: nat)
    requires Width(t) > 0 && p <= |b| < p + Width(t)
    ensures ParseVal(BLOCK_ORDER, b, p, t) == Got(Scalar(b[p..]), |b|)
    ensures ParseVal(FIXTURE, b, p, t) == Fail(Truncated)
    ensures ParseVal(DEPTH_SLICE, b, p, t) == Fail(Truncated) == ParseVal(SPLIT, b, p, t)
  {
  }

  /** An empty array of arrays, and an empty array of an unknown type. */
  lemma EmptyArrays(b: seq<byte>, p: nat, et: nat)
    requires ReadInt(b, p, 4) == Got(et, p + 4) && ReadInt(b, p + 4, 8) == Got(0, p + 12)
    ensures et == 9 ==> ParseVal(FIXTURE, b, p, 9) == Got(Arr(9, []), p + 12) == ParseVal(BLOCK_ORDER, b, p, 9)
    ensures et == 9 ==> ParseVal(DEPTH_SLICE, b, p, 9) == Fail(NestedArray) == ParseVal(SPLIT, b, p, 9)
    ensures et != 8 && et != 9 && Width(et) == 0 ==>
              && ParseVal(FIXTURE, b, p, 9) == Got(Arr(et, []), p + 12) == ParseVal(BLOCK_ORDER, b, p, 9)
              && ParseVal(DEPTH_SLICE, b, p, 9) == Got(Arr(et, []), p + 12)
              && ParseVal(SPLIT, b, p, 9) == Fail(UnknownType)
  {
  }
}
