/** Bytes, little-endian integers as `struct` packs them, and positions of byte strings in a file. */
module Bytes {
  type byte = b: int | 0 <= b < 256

  const U32_LIMIT: nat := 0x1_0000_0000
  const U64_LIMIT: nat := 0x1_0000_0000_0000_0000

  function Pow256(n: nat): (r: nat)
    ensures r > 0
  {
    if n == 0 then 1 else 256 * Pow256(n - 1)
  }

  /** The low `n` bytes of `v`, least significant first. */
  function Le(v: nat, n: nat): (r: seq<byte>)
    ensures |r| == n
    decreases v, n
  {
    if n == 0 then [] else [v % 256] + Le(v / 256, n - 1)
  }

  function FromLe(b: seq<byte>): (r: nat)
  {
    if b == [] then 0 else b[0] + 256 * FromLe(b[1..])
  }

  /** The little-endian integer in the `n` bytes at `p`. */
  function IntAt(b: seq<byte>, p: nat, n: nat): (r: nat)
    requires p + n <= |b|
    decreases n, p
  {
    if n == 0 then 0 else b[p] + 256 * IntAt(b, p + 1, n - 1)
  }

  lemma {:induction false} IntAtOfLe(b: seq<byte>, p: nat, v: nat, n: nat)
    requires v < Pow256(n) && At(b, p, Le(v, n))
    ensures IntAt(b, p, n) == v
    decreases n
  {
    if n > 0 {
      assert Le(v, n)[1..] == Le(v / 256, n - 1);
      assert b[p + 0] == Le(v, n)[0];
      AtSplit(b, p, [v % 256], Le(v / 256, n - 1));
      IntAtOfLe(b, p + 1, v / 256, n - 1);
    }
  }

  lemma {:induction false} LeOfIntAt(b: seq<byte>, p: nat, n: nat)
    requires p + n <= |b|
    ensures IntAt(b, p, n) < Pow256(n)
    ensures At(b, p, Le(IntAt(b, p, n), n))
    decreases n
  {
    if n > 0 {
      LeOfIntAt(b, p + 1, n - 1);
      var v := IntAt(b, p, n);
      assert v / 256 == IntAt(b, p + 1, n - 1) && v % 256 == b[p];
      forall i | 0 <= i < n ensures b[p + i] == Le(v, n)[i] {
        if i > 0 { assert b[p + 1 + (i - 1)] == Le(v / 256, n - 1)[i - 1]; }
      }
    }
  }

  lemma {:induction false} FromLeOfLe(v: nat, n: nat)
    requires v < Pow256(n)
    ensures FromLe(Le(v, n)) == v
    decreases n
  {
    if n > 0 {
      FromLeOfLe(v / 256, n - 1);
      assert Le(v, n)[1..] == Le(v / 256, n - 1);
    }
  }

  // ----- integers as `struct` formats them

  predicate IsU(v: int, n: nat) { 0 <= v < Pow256(n) }

  predicate IsI(v: int, n: nat) { 0 <= 2 * v + Pow256(n) < 2 * Pow256(n) }

  function PackU(v: int, n: nat): seq<byte>
    requires IsU(v, n)
  {
    Le(v, n)
  }

  function PackI(v: int, n: nat): seq<byte>
    requires IsI(v, n)
  {
    Le(if v < 0 then v + Pow256(n) else v, n)
  }

  /** Two's complement. */
  function Signed(raw: seq<byte>): int
  {
    var v := FromLe(raw);
    if 2 * v >= Pow256(|raw|) then v - Pow256(|raw|) else v
  }

  lemma UnpackU(v: int, n: nat)
    requires IsU(v, n)
    ensures FromLe(PackU(v, n)) == v
  {
    FromLeOfLe(v, n);
  }

  lemma UnpackI(v: int, n: nat)
    requires IsI(v, n)
    ensures Signed(PackI(v, n)) == v
  {
    FromLeOfLe(if v < 0 then v + Pow256(n) else v, n);
  }

  lemma {:induction false} FromLeIsIntAt(b: seq<byte>, p: nat, n: nat)
    requires p + n <= |b|
    ensures FromLe(b[p..p + n]) == IntAt(b, p, n)
    decreases n
  {
    if n > 0 {
      FromLeIsIntAt(b, p + 1, n - 1);
      assert b[p..p + n][1..] == b[p + 1..p + 1 + (n - 1)];
    }
  }

  lemma Widths()
    ensures Pow256(1) == 0x100 && Pow256(2) == 0x1_0000
    ensures Pow256(4) == U32_LIMIT && Pow256(8) == U64_LIMIT
  {
  }

  /** `struct.pack("<I", v)` and `struct.pack("<Q", v)`. */
  function U32(v: nat): (r: seq<byte>)
    ensures |r| == 4
  {
    Le(v, 4)
  }

  function U64(v: nat): (r: seq<byte>)
    ensures |r| == 8
  {
    Le(v, 8)
  }

  /** The bytes `e` stand in `b` at position `p`. */
  predicate At(b: seq<byte>, p: nat, e: seq<byte>)
  {
    p + |e| <= |b| && forall i :: 0 <= i < |e| ==> b[p + i] == e[i]
  }

  lemma AtIsSlice(b: seq<byte>, p: nat, e: seq<byte>)
    ensures At(b, p, e) <==> p + |e| <= |b| && b[p..p + |e|] == e
  {
    if p + |e| <= |b| && b[p..p + |e|] == e {
      forall i | 0 <= i < |e| ensures b[p + i] == e[i] {
        assert b[p..p + |e|][i] == e[i];
      }
    }
  }

  lemma AtSplit(b: seq<byte>, p: nat, x: seq<byte>, y: seq<byte>)
    ensures At(b, p, x + y) <==> At(b, p, x) && At(b, p + |x|, y)
  {
    if At(b, p, x + y) {
      forall i | 0 <= i < |x| ensures b[p + i] == x[i] { assert (x + y)[i] == x[i]; }
      forall i | 0 <= i < |y| ensures b[p + |x| + i] == y[i] {
        assert (x + y)[|x| + i] == y[i];
      }
    }
    if At(b, p, x) && At(b, p + |x|, y) {
      forall i | 0 <= i < |x + y| ensures b[p + i] == (x + y)[i] {
        if i >= |x| { assert b[p + |x| + (i - |x|)] == y[i - |x|]; }
      }
    }
  }

  lemma AtSplit3(b: seq<byte>, p: nat, x: seq<byte>, y: seq<byte>, z: seq<byte>)
    ensures At(b, p, x + (y + z))
       <==> At(b, p, x) && At(b, p + |x|, y) && At(b, p + |x| + |y|, z)
  {
    AtSplit(b, p, x, y + z);
    AtSplit(b, p + |x|, y, z);
  }

  lemma AtSplit4(b: seq<byte>, p: nat, w: seq<byte>, x: seq<byte>, y: seq<byte>, z: seq<byte>)
    ensures At(b, p, w + (x + (y + z)))
       <==> && At(b, p, w) && At(b, p + |w|, x) && At(b, p + |w| + |x|, y)
            && At(b, p + |w| + |x| + |y|, z)
  {
    AtSplit(b, p, w, x + (y + z));
    AtSplit3(b, p + |w|, x, y, z);
  }

  /** The bytes of an ASCII literal. */
  function Ascii(s: string): (r: seq<byte>)
    ensures |r| == |s|
    ensures forall i :: 0 <= i < |s| ==> r[i] == s[i] as int % 256
  {
    seq(|s|, i requires 0 <= i < |s| => s[i] as int % 256)
  }

  function Zeros(n: nat): (r: seq<byte>)
    ensures |r| == n && forall i :: 0 <= i < n ==> r[i] == 0
  {
    seq(n, _ => 0)
  }
}
