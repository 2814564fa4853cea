/** The data section the writing scripts lay out: a directory of running offsets from one loop and
    padded payloads from another, kept in step. */
module Layout {
  import opened Bytes
  import opened Align
  import opened Gguf
  import opened Wrappers

  /** A tensor to be written, with its payload. */
  datatype Blob = Blob(name: seq<byte>, ne: seq<nat>, tt: nat, data: seq<byte>)

  /** The directory entries of `blobs`, the first one at offset `off`. */
  function Place(blobs: seq<Blob>, a: nat, off: nat): (r: seq<Tensor>)
    requires a > 0
    ensures |r| == |blobs|
  {
    if blobs == [] then []
    else
      [Tensor(blobs[0].name, blobs[0].ne, blobs[0].tt, off)]
      + Place(blobs[1..], a, MaskUp(off + |blobs[0].data|, a))
  }

  /** Every payload followed by zeros up to the alignment. */
  function Padded(blobs: seq<Blob>, a: nat): seq<byte>
    requires a > 0
  {
    if blobs == [] then []
    else blobs[0].data + (Zeros(Pad(|blobs[0].data|, a)) + Padded(blobs[1..], a))
  }

  /** A header, zeros up to the alignment, then the data section. */
  function FileBytes(head: seq<byte>, blobs: seq<Blob>, a: nat): seq<byte>
    requires a > 0
  {
    head + (Zeros(Pad(|head|, a)) + Padded(blobs, a))
  }

  lemma {:induction false} PlaceKeepsFields(blobs: seq<Blob>, a: nat, off: nat, i: nat)
    requires a > 0 && i < |blobs|
    ensures var t := Place(blobs, a, off)[i];
            t.name == blobs[i].name && t.ne == blobs[i].ne && t.tt == blobs[i].tt
  {
    if i > 0 {
      PlaceKeepsFields(blobs[1..], a, MaskUp(off + |blobs[0].data|, a), i - 1);
    }
  }

  /** A payload with its padding. */
  function PaddedData(blob: Blob, a: nat): seq<byte>
    requires a > 0
  {
    blob.data + Zeros(Pad(|blob.data|, a))
  }

  lemma NextOffset(off: nat, blob: Blob, a: nat)
    requires IsPowerOfTwo(a) && off % a == 0
    ensures var next := MaskUp(off + |blob.data|, a);
            next == off + |PaddedData(blob, a)| && next % a == 0
  {
    var n := |blob.data|;
    MaskUpRounds(off + n, a);
    RoundUpShift(off, n, a);
    RoundUpIs(off + n, a);
    PadIs(n, a);
  }

  lemma {:induction false} PaddedConcat(x: seq<Blob>, y: seq<Blob>, a: nat)
    requires a > 0
    ensures Padded(x + y, a) == Padded(x, a) + Padded(y, a)
  {
    if x == [] {
      assert x + y == y;
    } else {
      assert (x + y)[1..] == x[1..] + y && (x + y)[0] == x[0];
      PaddedConcat(x[1..], y, a);
      hide Zeros, Pad;
      var data, zeros := x[0].data, Zeros(Pad(|x[0].data|, a));
      assert data + (zeros + (Padded(x[1..], a) + Padded(y, a))) == data + (zeros + Padded(x[1..], a)) + Padded(y, a);
    }
  }

  /** Each recorded offset is aligned and is where the payload and its padding were written. */
  lemma {:induction false} OffsetsFindPadded(blobs: seq<Blob>, a: nat, off: nat, b: seq<byte>, start: nat, i: nat)
    requires IsPowerOfTwo(a) && off % a == 0 && i < |blobs|
    requires At(b, start + off, Padded(blobs, a))
    ensures var t := Place(blobs, a, off)[i];
            t.off % a == 0 && At(b, start + t.off, PaddedData(blobs[i], a))
  {
    hide At, Zeros, EncTensor;
    var data, zeros := blobs[0].data, Zeros(Pad(|blobs[0].data|, a));
    AppendAssoc(data, zeros, Padded(blobs[1..], a));
    AtSplit(b, start + off, PaddedData(blobs[0], a), Padded(blobs[1..], a));
    NextOffset(off, blobs[0], a);
    if i > 0 {
      OffsetsFindPadded(blobs[1..], a, MaskUp(off + |data|, a), b, start, i - 1);
    }
  }

  /** In a written file the data section starts at the aligned end of the header. */
  lemma PayloadsStandAtOffsets(head: seq<byte>, blobs: seq<Blob>, a: nat, i: nat)
    requires IsPowerOfTwo(a) && i < |blobs|
    ensures var t := Place(blobs, a, 0)[i];
            && t.off % a == 0
            && At(FileBytes(head, blobs, a), RoundUp(|head|, a) + t.off, blobs[i].data)
  {
    hide At, Padded, Place, Zeros, Pad, RoundUp;
    var b := FileBytes(head, blobs, a);
    AtIsSlice(b, 0, b);
    AtSplit3(b, 0, head, Zeros(Pad(|head|, a)), Padded(blobs, a));
    PadIs(|head|, a);
    OffsetsFindPadded(blobs, a, 0, b, RoundUp(|head|, a), i);
    AtSplit(b, RoundUp(|head|, a) + Place(blobs, a, 0)[i].off, blobs[i].data, Zeros(Pad(|blobs[i].data|, a)));
  }

  /** The directory `ts` names the blobs in order, and its offsets from `start`, multiples of the
      alignment, find the blobs' bytes in `b`. */
  predicate Finds(b: seq<byte>, start: nat, ts: seq<Tensor>, blobs: seq<Blob>, a: nat)
    requires a > 0
  {
    && |ts| == |blobs|
    && forall i :: 0 <= i < |ts| ==> FindsOne(b, start, ts[i], blobs[i], a)
  }

  predicate FindsOne(b: seq<byte>, start: nat, t: Tensor, blob: Blob, a: nat)
    requires a > 0
  {
    && t.name == blob.name && t.ne == blob.ne && t.tt == blob.tt
    && t.off % a == 0 && At(b, start + t.off, blob.data)
  }

  function FileHeader(version: nat, kvs: seq<Kv>, blobs: seq<Blob>, a: nat): Header
    requires a > 0
  {
    Header(version, kvs, Place(blobs, a, 0))
  }

  /** A file written this way reads back as its header, and the directory finds every payload. */
  lemma WrittenFileReads(m: Mode, version: nat, kvs: seq<Kv>, blobs: seq<Blob>, a: nat)
    requires IsPowerOfTwo(a) && HeaderOk(m, FileHeader(version, kvs, blobs, a))
    ensures var h := FileHeader(version, kvs, blobs, a);
            var head := EncHeader(h);
            var b := FileBytes(head, blobs, a);
            && ParseHeader(m, b) == Ok(Parsed(h, 24 + |EncKvs(kvs)|, |head|))
            && Finds(b, RoundUp(|head|, a), h.tensors, blobs, a)
  {
    hide EncHeader, ParseHeader, HeaderOk, Place, At, RoundUp, Padded;
    var h := FileHeader(version, kvs, blobs, a);
    var head := EncHeader(h);
    var b := FileBytes(head, blobs, a);
    assert head <= b;
    ParseOfPrint(m, b, h);
    forall i | 0 <= i < |blobs|
      ensures FindsOne(b, RoundUp(|head|, a), h.tensors[i], blobs[i], a)
    {
      PlaceKeepsFields(blobs, a, 0, i);
      PayloadsStandAtOffsets(head, blobs, a, i);
    }
  }

  // ----- the two loops

  /** The loop over the directory: encoded entries and the running offset. `None` stands for the
      `struct.error` of a field that does not fit its width. */
  method WriteDirectory(blobs: seq<Blob>, a: nat) returns (ok: bool, info: seq<byte>)
    requires a > 0
    ensures ok <==> TensorsOk(Place(blobs, a, 0))
    ensures ok ==> info == EncTensors(Place(blobs, a, 0))
  {
    hide EncTensor, EncTensors, MaskUp, TensorOk, Place;
    info := [];
    var off: nat, i := 0, 0;
    ghost var all := Place(blobs, a, 0);
    while i < |blobs|
      invariant i <= |blobs| && all[i..] == Place(blobs[i..], a, off)
      invariant TensorsOk(all[..i])
      invariant EncTensors(all) == info + EncTensors(all[i..])
    {
      var t := Tensor(blobs[i].name, blobs[i].ne, blobs[i].tt, off);
      DirectoryStep(blobs, a, off, all, i);
      if !TensorOk(t) {
        return false, [];
      }
      AppendAssoc(info, EncTensor(t), EncTensors(all[i + 1..]));
      info := info + EncTensor(t);
      off := MaskUp(off + |blobs[i].data|, a);
      i := i + 1;
    }
    assert all[..i] == all;
    assert EncTensors(all[i..]) == [] by { NoTensors(all[i..]); }
    ok := true;
  }

  lemma NoTensors(ts: seq<Tensor>)
    ensures ts == [] ==> EncTensors(ts) == []
  {
  }

  /** One entry of the directory. */
  lemma DirectoryStep(blobs: seq<Blob>, a: nat, off: nat, all: seq<Tensor>, i: nat)
    requires a > 0 && i < |blobs| == |all| && all[i..] == Place(blobs[i..], a, off)
    ensures all[i] == Tensor(blobs[i].name, blobs[i].ne, blobs[i].tt, off)
    ensures all[i + 1..] == Place(blobs[i + 1..], a, MaskUp(off + |blobs[i].data|, a))
    ensures EncTensors(all[i..]) == EncTensor(all[i]) + EncTensors(all[i + 1..])
    ensures all[..i + 1] == all[..i] + [all[i]]
  {
    hide EncTensor, MaskUp;
    assert blobs[i..][1..] == blobs[i + 1..] && all[i..][1..] == all[i + 1..];
    assert all[i] == all[i..][0];
  }

  /** The loop over the payloads. */
  method WritePayloads(blobs: seq<Blob>, a: nat) returns (out: seq<byte>)
    requires a > 0
    ensures out == Padded(blobs, a)
  {
    out := [];
    var i := 0;
    while i < |blobs|
      invariant i <= |blobs|
      invariant Padded(blobs, a) == out + Padded(blobs[i..], a)
    {
      var data := blobs[i].data;
      assert blobs[i..][1..] == blobs[i + 1..];
      ghost var rest := Padded(blobs[i + 1..], a);
      AppendAssoc(data, Zeros(Pad(|data|, a)), rest);
      AppendAssoc(out, data + Zeros(Pad(|data|, a)), rest);
      AppendAssoc(out, data, Zeros(Pad(|data|, a)));
      out := out + data;
      out := out + Zeros(Pad(|data|, a));
      i := i + 1;
    }
  }
}
