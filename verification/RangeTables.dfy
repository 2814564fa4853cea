/** scripts/gen-unicode-classes.py and scripts/gen-unicode-nfc.py: classes of code points compressed into
    ranges, and decompositions into one pool. */
module RangeTables {
  import opened Wrappers

  // ----- tables of ranges

  datatype Range<K> = Range(lo: nat, hi: nat, cls: K)

  predicate Covers<K>(r: Range<K>, c: nat) { r.lo <= c <= r.hi }

  /** What a table answers for a code point; in no range, it has no class. */
  function Lookup<K>(table: seq<Range<K>>, c: nat): Option<K>
  {
    if table == [] then None else if Covers(table[0], c) then Some(table[0].cls) else Lookup(table[1..], c)
  }

  /** Sorted and disjoint. */
  predicate InOrder<K>(table: seq<Range<K>>)
  {
    && (forall i :: 0 <= i < |table| ==> table[i].lo <= table[i].hi)
    && forall i, j :: 0 <= i < j < |table| ==> table[i].hi < table[j].lo
  }

  /** No two neighbours could be one range. */
  predicate Merged<K(==)>(table: seq<Range<K>>)
  {
    forall i :: 0 <= i < |table| - 1 ==> table[i].hi + 1 < table[i + 1].lo || table[i].cls != table[i + 1].cls
  }

  predicate Ascending(cps: seq<nat>) { forall i, j :: 0 <= i < j < |cps| ==> cps[i] < cps[j] }

  /** The class a table should answer: that of a listed code point, none of another. */
  function ClassIn<K>(cps: seq<nat>, cls: nat -> Option<K>, c: nat): Option<K>
  {
    if c in cps then cls(c) else None
  }

  /** The table of a class function on a list of code points. */
  ghost predicate IsTable<K>(table: seq<Range<K>>, cps: seq<nat>, cls: nat -> Option<K>)
  {
    InOrder(table) && Merged(table) && forall c: nat :: Lookup(table, c) == ClassIn(cps, cls, c)
  }

  lemma {:induction false} LookupConcat<K>(x: seq<Range<K>>, y: seq<Range<K>>, c: nat)
    ensures Lookup(x + y, c) == if Lookup(x, c).Some? then Lookup(x, c) else Lookup(y, c)
  {
    if x == [] {
      assert x + y == y;
    } else {
      assert (x + y)[1..] == x[1..] + y;
      LookupConcat(x[1..], y, c);
    }
  }

  lemma {:induction false} LookupIs<K>(table: seq<Range<K>>, c: nat)
    requires InOrder(table)
    ensures forall i :: 0 <= i < |table| && Covers(table[i], c) ==> Lookup(table, c) == Some(table[i].cls)
    ensures Lookup(table, c).Some? ==> exists i :: 0 <= i < |table| && Covers(table[i], c)
  {
    if table != [] {
      LookupIs(table[1..], c);
      forall i | 0 <= i < |table| && Covers(table[i], c) ensures Lookup(table, c) == Some(table[i].cls) {
        if i > 0 { assert table[1..][i - 1] == table[i] && table[0].hi < table[i].lo; }
      }
      if Lookup(table, c).Some? && !Covers(table[0], c) {
        var k :| 0 <= k < |table[1..]| && Covers(table[1..][k], c);
        assert Covers(table[k + 1], c);
      }
    }
  }

  // ----- one code point

  /** The next code point's class put into a table: into its last range when that ends right before it
      with the same class, and into a range of its own otherwise. */
  function Extend<K(==)>(table: seq<Range<K>>, c: nat, k: K): seq<Range<K>>
  {
    if table != [] && table[|table| - 1].cls == k && table[|table| - 1].hi + 1 == c
    then table[|table| - 1 := Range(table[|table| - 1].lo, c, k)]
    else table + [Range(c, c, k)]
  }

  lemma EndsBefore<K>(table: seq<Range<K>>, cps: seq<nat>, cls: nat -> Option<K>, c: nat)
    requires InOrder(table) && forall x: nat :: Lookup(table, x) == ClassIn(cps, cls, x)
    requires forall i :: 0 <= i < |cps| ==> cps[i] < c
    ensures forall i :: 0 <= i < |table| ==> table[i].hi < c
  {
    forall i | 0 <= i < |table| ensures table[i].hi < c {
      LookupIs(table, table[i].hi);
      assert Covers(table[i], table[i].hi);
    }
  }

  lemma LookupOne<K>(r: Range<K>, x: nat)
    ensures Lookup([r], x) == if Covers(r, x) then Some(r.cls) else None
  {
    assert [r][1..] == [];
  }

  lemma LookupExtend<K>(table: seq<Range<K>>, c: nat, k: K, x: nat)
    requires InOrder(table) && forall i :: 0 <= i < |table| ==> table[i].hi < c
    ensures Lookup(Extend(table, c, k), x) == if x == c then Some(k) else Lookup(table, x)
  {
    LookupIs(table, c);
    LookupOne(Range(c, c, k), x);
    hide Lookup;
    if table != [] && table[|table| - 1].cls == k && table[|table| - 1].hi + 1 == c {
      var init, last := table[..|table| - 1], table[|table| - 1];
      assert table == init + [last] && Extend(table, c, k) == init + [Range(last.lo, c, k)];
      LookupConcat(init, [last], x);
      LookupConcat(init, [Range(last.lo, c, k)], x);
      LookupConcat(init, [last], c);
      LookupOne(last, x);
      LookupOne(Range(last.lo, c, k), x);
    } else {
      LookupConcat(table, [Range(c, c, k)], x);
    }
  }

  lemma ExtendInOrder<K>(table: seq<Range<K>>, c: nat, k: K)
    requires InOrder(table) && Merged(table) && forall i :: 0 <= i < |table| ==> table[i].hi < c
    ensures InOrder(Extend(table, c, k)) && Merged(Extend(table, c, k))
  {
  }

  lemma TableNext<K>(table: seq<Range<K>>, cps: seq<nat>, i: nat, cls: nat -> Option<K>)
    requires i < |cps| && Ascending(cps) && IsTable(table, cps[..i], cls)
    ensures cls(cps[i]).None? ==> IsTable(table, cps[..i + 1], cls)
    ensures cls(cps[i]).Some? ==> IsTable(Extend(table, cps[i], cls(cps[i]).value), cps[..i + 1], cls)
  {
    var c := cps[i];
    assert cps[..i + 1] == cps[..i] + [c];
    assert c !in cps[..i];
    assert forall x: nat :: x in cps[..i + 1] <==> x in cps[..i] || x == c;
    EndsBefore(table, cps[..i], cls, c);
    if cls(c).Some? {
      ExtendInOrder(table, c, cls(c).value);
      forall x: nat { LookupExtend(table, c, cls(c).value, x); }
    }
  }

  lemma TableNone<K>(cls: nat -> Option<K>)
    ensures IsTable([], [], cls)
  {
  }

  /** What a table says, range by range and code point by code point. */
  lemma TableAnswers<K>(table: seq<Range<K>>, cps: seq<nat>, cls: nat -> Option<K>)
    requires IsTable(table, cps, cls)
    ensures forall i :: 0 <= i < |table| ==> table[i].lo <= table[i].hi
    ensures forall i, j :: 0 <= i < j < |table| ==> table[i].hi < table[j].lo
    ensures forall i :: 0 <= i < |table| - 1 ==> table[i].hi + 1 < table[i + 1].lo || table[i].cls != table[i + 1].cls
    ensures forall c: nat :: Lookup(table, c) == if c in cps then cls(c) else None
  {
  }

  /** A lookup finds the class of the one range that holds the code point, and none outside them. */
  lemma LookupReads<K>(table: seq<Range<K>>, c: nat, i: nat)
    requires InOrder(table)
    ensures i < |table| && table[i].lo <= c <= table[i].hi ==> Lookup(table, c) == Some(table[i].cls)
    ensures (forall j :: 0 <= j < |table| ==> c < table[j].lo || table[j].hi < c) ==> Lookup(table, c) == None
  {
    LookupIs(table, c);
    if i < |table| && table[i].lo <= c <= table[i].hi { assert Covers(table[i], c); }
  }

  // ----- scripts/gen-unicode-classes.py

  /** Where the two sources disagree, the engine decides. */
  method Decide<K(==)>(cps: seq<nat>, python: map<nat, Option<K>>, engine: Option<map<nat, K>>)
      returns (classes: map<nat, Option<K>>, decided: seq<nat>)
    requires Ascending(cps) && forall i :: 0 <= i < |cps| ==> cps[i] in python
    ensures classes.Keys == python.Keys
    ensures engine.None? ==> classes == python && decided == []
    ensures engine.Some? ==> forall i :: 0 <= i < |cps| ==>
              classes[cps[i]] == (if cps[i] in engine.value then Some(engine.value[cps[i]]) else None)
    ensures forall c :: c in decided <==> c in cps && classes[c] != python[c]
  {
    classes, decided := python, [];
    if engine.Some? {
      for i := 0 to |cps|
        invariant classes.Keys == python.Keys
        invariant forall k :: i <= k < |cps| ==> classes[cps[k]] == python[cps[k]]
        invariant forall k :: 0 <= k < i ==>
                    classes[cps[k]] == (if cps[k] in engine.value then Some(engine.value[cps[k]]) else None)
        invariant forall c :: c in decided <==> c in cps[..i] && classes[c] != python[c]
      {
        var c := cps[i];
        assert cps[..i + 1] == cps[..i] + [c];
        assert c !in cps[..i];
        var answer := if c in engine.value then Some(engine.value[c]) else None;
        if answer != classes[c] {
          decided := decided + [c];
          classes := classes[c := answer];
        }
      }
      assert cps[..|cps|] == cps;
    }
  }

  method BuildClasses<K(==)>(cps: seq<nat>, cls: nat -> Option<K>) returns (ranges: seq<Range<K>>)
    requires Ascending(cps)
    ensures IsTable(ranges, cps, cls)
    ensures forall c: nat :: Lookup(ranges, c) == if c in cps then cls(c) else None
  {
    hide IsTable, Lookup;
    ranges := [];
    TableNone(cls);
    assert cps[..0] == [];
    for i := 0 to |cps|
      invariant IsTable(ranges, cps[..i], cls)
    {
      TableNext(ranges, cps, i, cls);
      var c, k := cps[i], cls(cps[i]);
      if k.None? { continue; }
      var n := |ranges|;
      if n > 0 && ranges[n - 1].cls == k.value && ranges[n - 1].hi + 1 == c {
        ranges := ranges[n - 1 := ranges[n - 1].(hi := c)];
      } else {
        ranges := ranges + [Range(c, c, k.value)];
      }
    }
    assert cps[..|cps|] == cps;
    TableAnswers(ranges, cps, cls);
  }

  // ----- scripts/gen-unicode-nfc.py

  function UpTo(max: nat): (r: seq<nat>)
    ensures |r| == max && forall i :: 0 <= i < max ==> r[i] == i
  {
    seq(max, i requires 0 <= i < max => i)
  }

  lemma InUpTo(max: nat)
    ensures forall c: nat :: c in UpTo(max) <==> c < max
  {
    forall c: nat ensures c in UpTo(max) <==> c < max {
      if c < max { assert UpTo(max)[c] == c; }
    }
  }

  /** A class of zero, and that of a code point left out, is none. */
  function Combining(skip: set<nat>, ccc: nat -> nat): nat -> Option<nat>
  {
    (c: nat) => if c in skip || ccc(c) == 0 then None else Some(ccc(c))
  }

  method BuildCcc(max: nat, skip: set<nat>, combining: nat -> nat) returns (ccc: seq<Range<nat>>)
    ensures IsTable(ccc, UpTo(max), Combining(skip, combining))
    ensures forall c: nat ::
              Lookup(ccc, c) == if c < max && c !in skip && combining(c) != 0 then Some(combining(c)) else None
  {
    hide IsTable, Lookup;
    ghost var all, cls := UpTo(max), Combining(skip, combining);
    ccc := [];
    TableNone(cls);
    assert all[..0] == [];
    for cp := 0 to max
      invariant IsTable(ccc, all[..cp], cls)
    {
      TableNext(ccc, all, cp, cls);
      if cp in skip { continue; }
      var k, n := combining(cp), |ccc|;
      if k != 0 && n > 0 && ccc[n - 1].cls == k && ccc[n - 1].hi + 1 == cp {
        ccc := ccc[n - 1 := ccc[n - 1].(hi := cp)];
      } else if k != 0 {
        ccc := ccc + [Range(cp, cp, k)];
      }
    }
    assert all[..max] == all;
    TableAnswers(ccc, all, cls);
    InUpTo(max);
  }

  /** A code point, where its decomposition starts in the pool, and its length. */
  datatype Row = Row(cp: nat, offset: nat, len: nat)

  /** The rows lie end to end in the pool, in the order of the decompositions, and fill it. */
  predicate Tiles(rows: seq<Row>, pool: seq<nat>, dec: seq<(nat, seq<nat>)>)
  {
    && |rows| == |dec|
    && (forall i :: 0 <= i < |rows| ==>
          && rows[i].cp == dec[i].0 && rows[i].len == |dec[i].1|
          && rows[i].offset + rows[i].len <= |pool|
          && pool[rows[i].offset..][..rows[i].len] == dec[i].1)
    && (rows != [] ==> rows[0].offset == 0)
    && (forall i :: 0 < i < |rows| ==> rows[i].offset == rows[i - 1].offset + rows[i - 1].len)
    && |pool| == if rows == [] then 0 else rows[|rows| - 1].offset + rows[|rows| - 1].len
  }

  method BuildPool(dec: seq<(nat, seq<nat>)>) returns (rows: seq<Row>, pool: seq<nat>)
    ensures Tiles(rows, pool, dec)
  {
    rows, pool := [], [];
    for i := 0 to |dec|
      invariant Tiles(rows, pool, dec[..i])
    {
      TilesNext(rows, pool, dec, i);
      var (cp, d) := dec[i];
      rows := rows + [Row(cp, |pool|, |d|)];
      pool := pool + d;
    }
    assert dec[..|dec|] == dec;
  }

  lemma TilesNext(rows: seq<Row>, pool: seq<nat>, dec: seq<(nat, seq<nat>)>, i: nat)
    requires i < |dec| && Tiles(rows, pool, dec[..i])
    ensures Tiles(rows + [Row(dec[i].0, |pool|, |dec[i].1|)], pool + dec[i].1, dec[..i + 1])
  {
    var r, p := rows + [Row(dec[i].0, |pool|, |dec[i].1|)], pool + dec[i].1;
    forall k | 0 <= k < |r| ensures p[r[k].offset..][..r[k].len] == dec[..i + 1][k].1 {
      if k < i { assert p[r[k].offset..][..r[k].len] == pool[r[k].offset..][..r[k].len]; }
    }
  }

  /** Every place of the pool belongs to exactly one row. */
  lemma {:induction false} PoolPlace(rows: seq<Row>, pool: seq<nat>, dec: seq<(nat, seq<nat>)>, p: nat) returns (i: nat)
    requires Tiles(rows, pool, dec) && p < |pool|
    ensures i < |rows| && rows[i].offset <= p < rows[i].offset + rows[i].len
    ensures forall k :: 0 <= k < |rows| && rows[k].offset <= p < rows[k].offset + rows[k].len ==> k == i
  {
    i := |rows| - 1;
    while p < rows[i].offset
      invariant i < |rows| && p < rows[i].offset + rows[i].len
      decreases i
    {
      i := i - 1;
    }
    forall k | 0 <= k < |rows| && k != i ensures !(rows[k].offset <= p < rows[k].offset + rows[k].len) {
      if k < i { Offsets(rows, pool, dec, k, i); } else { Offsets(rows, pool, dec, i, k); }
    }
  }

  lemma {:induction false} Offsets(rows: seq<Row>, pool: seq<nat>, dec: seq<(nat, seq<nat>)>, j: nat, k: nat)
    requires Tiles(rows, pool, dec) && j < k < |rows|
    ensures rows[j].offset + rows[j].len <= rows[k].offset
  {
    if j < k - 1 { Offsets(rows, pool, dec, j, k - 1); }
  }

  // ----- minimality

  function Starts<K>(table: seq<Range<K>>): set<nat>
  {
    set i | 0 <= i < |table| :: table[i].lo
  }

  lemma {:induction false} StartsCount<K>(table: seq<Range<K>>)
    ensures |Starts(table)| <= |table|
    ensures InOrder(table) ==> |Starts(table)| == |table|
  {
    if table != [] {
      var init, last := table[..|table| - 1], table[|table| - 1];
      StartsCount(init);
      assert Starts(table) == Starts(init) + {last.lo};
      if InOrder(table) { assert last.lo !in Starts(init); }
    }
  }

  /** Right before a range of a merged table, the answer is another. */
  lemma BeforeStart<K>(table: seq<Range<K>>, i: nat, b: nat)
    requires InOrder(table) && Merged(table) && i < |table| && b + 1 == table[i].lo
    ensures Lookup(table, b) != Some(table[i].cls)
  {
    LookupIs(table, b);
    if Lookup(table, b).Some? {
      var m :| 0 <= m < |table| && Covers(table[m], b);
      assert m < i;
      assert m < i - 1 ==> table[m].hi < table[i - 1].lo <= table[i - 1].hi < table[i].lo;
    }
  }

  /** A range of a merged table starts where any table with the same answers has to start one. */
  lemma StartIsForced<K>(table: seq<Range<K>>, other: seq<Range<K>>, i: nat)
    requires InOrder(table) && Merged(table) && InOrder(other) && i < |table|
    requires forall c: nat :: Lookup(table, c) == Lookup(other, c)
    ensures table[i].lo in Starts(other)
  {
    var c := table[i].lo;
    LookupIs(table, c);
    assert Covers(table[i], c);
    LookupIs(other, c);
    var j :| 0 <= j < |other| && Covers(other[j], c);
    if other[j].lo < c {
      LookupIs(other, c - 1);
      assert Covers(other[j], c - 1);
      BeforeStart(table, i, c - 1);
    }
    assert other[j].lo == c;
  }

  /** No sorted, disjoint table with the same answers has fewer rows. */
  lemma TableIsMinimal<K>(table: seq<Range<K>>, cps: seq<nat>, cls: nat -> Option<K>, other: seq<Range<K>>)
    requires IsTable(table, cps, cls) && InOrder(other)
    requires forall c: nat :: Lookup(other, c) == ClassIn(cps, cls, c)
    ensures |table| <= |other|
  {
    forall s | s in Starts(table) ensures s in Starts(other) {
      var i :| 0 <= i < |table| && table[i].lo == s;
      StartIsForced(table, other, i);
    }
    StartsCount(table);
    StartsCount(other);
    SubsetCount(Starts(table), Starts(other));
  }

  lemma {:induction false} SubsetCount(x: set<nat>, y: set<nat>)
    requires x <= y
    ensures |x| <= |y|
  {
    if x != {} {
      var e :| e in x;
      SubsetCount(x - {e}, y - {e});
    }
  }

  /** A range covers listed code points of its own class only: it never spans a gap. */
  lemma NoGapSpanned<K>(table: seq<Range<K>>, cps: seq<nat>, cls: nat -> Option<K>, i: nat, c: nat)
    requires IsTable(table, cps, cls) && i < |table| && Covers(table[i], c)
    ensures c in cps && cls(c) == Some(table[i].cls)
  {
    LookupIs(table, c);
  }
}
