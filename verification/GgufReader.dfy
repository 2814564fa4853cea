/** The cursor the scripts read a GGUF header with: class `R` of the slicing and splitting tools,
    and the `f.read` helpers of the other two, proved against the parser of `Gguf`. */
module GgufReader {
  import opened Wrappers
  import opened Bytes
  import opened Gguf

  /** A call returned what the parser says, and left the cursor where the parser stops. */
  predicate Agrees<T(==)>(spec: Parse<T>, r: Result<T, Error>, p: nat)
  {
    match spec
    case Got(v, q) => r == Ok(v) && p == q
    case Fail(e) => r == Err(e)
  }

  /** What a loop that has read `done` will end with. */
  function Resume<T>(done: seq<T>, rest: Parse<seq<T>>): (r: Parse<seq<T>>)
    ensures done == [] ==> r == rest
    ensures rest.Got? && rest.v == [] ==> r == Got(done, rest.p)
  {
    match rest
    case Got(vs, p) =>
      assert done == [] ==> done + vs == vs;
      assert vs == [] ==> done + vs == done;
      Got(done + vs, p)
    case Fail(e) => Fail(e)
  }

  lemma ResumeStep<T>(done: seq<T>, v: T, rest: Parse<seq<T>>)
    ensures Resume(done, Cons(v, rest)) == Resume(done + [v], rest)
  {
    if rest.Got? {
      assert done + ([v] + rest.v) == done + [v] + rest.v;
    }
  }

  class Reader {
    const b: seq<byte>
    const m: Mode
    var p: nat

    constructor (m: Mode, b: seq<byte>)
      ensures this.b == b && this.m == m && p == 0
    {
      this.b, this.m, p := b, m, 0;
    }

    method Take(n: nat, short: bool) returns (r: Result<seq<byte>, Error>)
      requires p <= |b|
      modifies this`p
      ensures p <= |b| && Agrees(Read(b, old(p), n, short), r, p)
    {
      var end := if p + n <= |b| then p + n else |b|;
      var v := b[p..end];
      if |v| != n && !short {
        return Err(Truncated);
      }
      p := end;
      r := Ok(v);
    }

    /** `struct.unpack` of an unsigned little-endian integer of `n` bytes. */
    method Int(n: nat) returns (r: Result<nat, Error>)
      requires p <= |b|
      modifies this`p
      ensures p <= |b| && Agrees(ReadInt(b, old(p), n), r, p)
    {
      var raw := Take(n, false);
      if raw.Err? {
        return Err(raw.error);
      }
      FromLeIsIntAt(b, old(p), n);
      r := Ok(FromLe(raw.value));
    }

    method Text() returns (r: Result<seq<byte>, Error>)
      requires p <= |b|
      modifies this`p
      ensures p <= |b| && Agrees(ReadText(m, b, old(p)), r, p)
    {
      var n := Int(8);
      if n.Err? {
        return Err(n.error);
      }
      r := Take(n.value, m.shortText);
    }

    method Value(t: nat) returns (r: Result<Val, Error>)
      requires p <= |b|
      modifies this`p
      ensures p <= |b| && Agrees(ParseVal(m, b, old(p), t), r, p)
      decreases |b| - p, 0
    {
      if t == STR {
        var s := Text();
        if s.Err? { return Err(s.error); }
        return Ok(Val.Text(s.value));
      }
      if t == ARR {
        var et := Int(4);
        if et.Err? { return Err(et.error); }
        var n := Int(8);
        if n.Err? { return Err(n.error); }
        if et.value == ARR && !m.nested {
          return Err(NestedArray);
        }
        if m.eager && et.value != STR && et.value != ARR && ScalarSize(et.value) == 0 {
          return Err(UnknownType);
        }
        var items := Items(et.value, n.value);
        if items.Err? { return Err(items.error); }
        return Ok(Arr(et.value, items.value));
      }
      if ScalarSize(t) == 0 {
        return Err(UnknownType);
      }
      var raw := Take(ScalarSize(t), m.shortScalar);
      if raw.Err? { return Err(raw.error); }
      r := Ok(Scalar(raw.value));
    }

    method Items(et: nat, n: nat) returns (r: Result<seq<Val>, Error>)
      requires p <= |b|
      modifies this`p
      ensures p <= |b| && Agrees(ParseVals(m, b, old(p), et, n), r, p)
      decreases |b| - p, 1
    {
      hide ParseVal;
      var items, i := [], 0;
      while i < n
        invariant i <= n && old(p) <= p <= |b|
        invariant ParseVals(m, b, old(p), et, n) == Resume(items, ParseVals(m, b, p, et, n - i))
      {
        var v := Value(et);
        if v.Err? { return Err(v.error); }
        ResumeStep(items, v.value, ParseVals(m, b, p, et, n - i - 1));
        items, i := items + [v.value], i + 1;
      }
      r := Ok(items);
    }

    method Entry() returns (r: Result<Kv, Error>)
      requires p <= |b|
      modifies this`p
      ensures p <= |b| && Agrees(ParseKv(m, b, old(p)), r, p)
    {
      var key := Text();
      if key.Err? { return Err(key.error); }
      var t := Int(4);
      if t.Err? { return Err(t.error); }
      var v := Value(t.value);
      if v.Err? { return Err(v.error); }
      r := Ok(Kv(key.value, t.value, v.value));
    }

    method Entries(n: nat) returns (r: Result<seq<Kv>, Error>)
      requires p <= |b|
      modifies this`p
      ensures p <= |b| && Agrees(ParseKvs(m, b, old(p), n), r, p)
    {
      hide ParseKv;
      var kvs, i := [], 0;
      while i < n
        invariant i <= n && p <= |b|
        invariant ParseKvs(m, b, old(p), n) == Resume(kvs, ParseKvs(m, b, p, n - i))
      {
        var kv := Entry();
        if kv.Err? { return Err(kv.error); }
        ResumeStep(kvs, kv.value, ParseKvs(m, b, p, n - i - 1));
        kvs, i := kvs + [kv.value], i + 1;
      }
      r := Ok(kvs);
    }

    method Dims(n: nat) returns (r: Result<seq<nat>, Error>)
      requires p <= |b|
      modifies this`p
      ensures p <= |b| && Agrees(ParseDims(b, old(p), n), r, p)
    {
      var ne, i := [], 0;
      while i < n
        invariant i <= n && p <= |b|
        invariant ParseDims(b, old(p), n) == Resume(ne, ParseDims(b, p, n - i))
      {
        var d := Int(8);
        if d.Err? { return Err(d.error); }
        ResumeStep(ne, d.value, ParseDims(b, p, n - i - 1));
        ne, i := ne + [d.value], i + 1;
      }
      r := Ok(ne);
    }

    method Info() returns (r: Result<Tensor, Error>)
      requires p <= |b|
      modifies this`p
      ensures p <= |b| && Agrees(ParseTensor(m, b, old(p)), r, p)
    {
      var name := Text();
      if name.Err? { return Err(name.error); }
      var nd := Int(4);
      if nd.Err? { return Err(nd.error); }
      var ne := Dims(nd.value);
      if ne.Err? { return Err(ne.error); }
      var tt := Int(4);
      if tt.Err? { return Err(tt.error); }
      var off := Int(8);
      if off.Err? { return Err(off.error); }
      r := Ok(Tensor(name.value, ne.value, tt.value, off.value));
    }

    method Infos(n: nat) returns (r: Result<seq<Tensor>, Error>)
      requires p <= |b|
      modifies this`p
      ensures p <= |b| && Agrees(ParseTensors(m, b, old(p), n), r, p)
    {
      hide ParseTensor;
      var ts, i := [], 0;
      while i < n
        invariant i <= n && p <= |b|
        invariant ParseTensors(m, b, old(p), n) == Resume(ts, ParseTensors(m, b, p, n - i))
      {
        var t := Info();
        if t.Err? { return Err(t.error); }
        ResumeStep(ts, t.value, ParseTensors(m, b, p, n - i - 1));
        ts, i := ts + [t.value], i + 1;
      }
      r := Ok(ts);
    }
  }

  /** Magic, counts, metadata entries and tensor directory, in file order. */
  method ReadHeader(m: Mode, b: seq<byte>) returns (r: Result<Parsed, Error>)
    ensures r == ParseHeader(m, b)
  {
    var f := new Reader(m, b);
    var magic := f.Take(4, false);
    if magic.Err? { return Err(magic.error); }
    if magic.value != Magic() { return Err(NotGguf); }
    var version := f.Int(4);
    if version.Err? { return Err(version.error); }
    var nTensors := f.Int(8);
    if nTensors.Err? { return Err(nTensors.error); }
    var nKv := f.Int(8);
    if nKv.Err? { return Err(nKv.error); }
    assert ParseCounts(b) == Got((version.value, nTensors.value, nKv.value), f.p);
    var kvs := f.Entries(nKv.value);
    if kvs.Err? { return Err(kvs.error); }
    var metaEnd := f.p;
    var ts := f.Infos(nTensors.value);
    if ts.Err? { return Err(ts.error); }
    r := Ok(Parsed(Header(version.value, kvs.value, ts.value), metaEnd, f.p));
  }
}
