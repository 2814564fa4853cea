/** The diff reader yields exactly the added lines of a printed edit, each at its place in the new file. */
module DiffProofs {
  import opened Wrappers
  import Names
  import opened PyText
  import opened DiffReader

  // ----- numbers and headers

  lemma {:induction false} DecimalIs(n: nat)
    ensures (forall i :: 0 <= i < |Decimal(n)| ==> IsDigitChar(Decimal(n)[i])) && Decimal(n) != []
    ensures NumberOf(Decimal(n)) == n
  {
    var s, b := Decimal(n), Names.Dec(n);
    forall i | 0 <= i < |s| ensures IsDigitChar(s[i]) {
      assert Names.IsDigit(b[i]);
    }
    if n < 10 {
      assert s[..|s| - 1] == [];
      assert s[0] as int == b[0] as int == 48 + n;
    } else {
      DecimalIs(n / 10);
      assert s[..|s| - 1] == Decimal(n / 10);
      assert s[|s| - 1] as int == 48 + n % 10;
    }
  }

  /** The edit undone: what it added is removed, and the other way around. */
  function Undone(body: seq<Mark>): seq<Mark>
  {
    if body == [] then []
    else
      [match body[0] case Added(t) => Removed(t) case Removed(t) => Added(t) case m => m] + Undone(body[1..])
  }

  /** A hunk counts as many lines of the old file as the undone edit shows of its new one. */
  lemma {:induction false} OldSideIsNewSideUndone(body: seq<Mark>)
    ensures OldLen(body) == |NewSide(Undone(body))| && OldLen(Undone(body)) == |NewSide(body)|
  {
    if body != [] {
      OldSideIsNewSideUndone(body[1..]);
      assert Undone(body)[1..] == Undone(body[1..]);
    }
  }

  lemma {:induction false} DigitRun(d: string, rest: string)
    requires forall i :: 0 <= i < |d| ==> IsDigitChar(d[i])
    requires rest == [] || !IsDigitChar(rest[0])
    ensures DigitLen(d + rest) == |d|
  {
    if d == [] {
      assert d + rest == rest;
    } else {
      assert (d + rest)[1..] == d[1..] + rest;
      DigitRun(d[1..], rest);
    }
  }

  /** A decimal number in front of something that is no digit. */
  lemma Leads(n: nat, rest: string)
    requires rest == [] || !IsDigitChar(rest[0])
    ensures DigitLen(Decimal(n) + rest) == |Decimal(n)| > 0
    ensures (Decimal(n) + rest)[..|Decimal(n)|] == Decimal(n) && (Decimal(n) + rest)[|Decimal(n)|..] == rest
    ensures (forall i :: 0 <= i < |Decimal(n)| ==> IsDigitChar(Decimal(n)[i])) && NumberOf(Decimal(n)) == n
  {
    DecimalIs(n);
    DigitRun(Decimal(n), rest);
  }

  /** The old range of a hunk is read past. */
  lemma RangeRead(before: nat, len: nat, rest: string)
    requires rest != [] && !IsDigitChar(rest[0]) && rest[0] != ','
    ensures PastRange(Range(before, len) + rest) == Some(rest)
  {
    hide DigitLen, NumberOf, Decimal;
    var n := if len == 0 then before else before + 1;
    var r := Range(before, len) + rest;
    if len == 1 {
      Leads(n, rest);
      assert r == Decimal(n) + rest;
    } else {
      var t := "," + (Decimal(len) + rest);
      assert r == Decimal(n) + t;
      Leads(n, t);
      Leads(len, rest);
      assert t[1..] == Decimal(len) + rest;
      assert t[1 + |Decimal(len)|..] == rest by { assert t[1..][|Decimal(len)|..] == rest; }
    }
  }

  lemma StartRead(before: nat, len: nat, tail: string)
    requires tail == [] || !IsDigitChar(tail[0])
    ensures NewStart(" +" + (Range(before, len) + tail)) == Some(if len == 0 then before else before + 1)
  {
    hide DigitLen, NumberOf, Decimal;
    var n := if len == 0 then before else before + 1;
    var end := (if len == 1 then "" else "," + Decimal(len)) + tail;
    assert Range(before, len) + tail == Decimal(n) + end;
    assert (" +" + (Decimal(n) + end))[2..] == Decimal(n) + end;
    Leads(n, end);
  }

  /** The header of a hunk gives the number of its first new line, or of the one before an empty range. */
  lemma HeaderRead(h: Hunk, before: nat, after: nat)
    ensures "@@" <= PrintHeader(h, before, after)
    ensures HunkStart(PrintHeader(h, before, after)) == Some(if |NewSide(h.body)| == 0 then after else after + 1)
  {
    hide NewSide, OldLen, PastRange, NewStart, Range;
    var tail := " @@" + h.section;
    var u := " +" + (Range(after, |NewSide(h.body)|) + tail);
    var r := Range(before, OldLen(h.body)) + u;
    assert ("@@ -" + r)[4..] == r;
    RangeRead(before, OldLen(h.body), u);
    StartRead(after, |NewSide(h.body)|, tail);
  }

  lemma CutName(x: string)
    ensures NamedPath("+++ b/" + x).Some? && |NamedPath("+++ b/" + x).value| <= |x|
  {
    var raw, q := "+++ b/" + x, "b/" + x;
    assert raw[4..] == q && SkipSpace(q) == q;
    NameStays(q, 2);
    var t := TrimEnd(q);
    assert t[0] == q[0] == 'b' && t[1] == q[1] == '/';
    assert t[..2] == "b/";
    assert t[0] != "/dev/null"[0];
  }

  lemma {:induction false} NameStays(s: string, n: nat)
    requires n <= |s| && (n > 0 ==> !IsSpace(s[n - 1]))
    ensures n <= |TrimEnd(s)| && TrimEnd(s) <= s
  {
    if |s| > n && IsSpace(s[|s| - 1]) { NameStays(s[..|s| - 1], n); }
  }

  /** The name the reader takes from a name line. */
  function NameOf(p: string): string
  {
    var raw := "+++ b/" + p;
    assert |raw| >= 4;
    match NamedPath(raw) case None => "" case Some(q) => q
  }

  /** A name is read right exactly when it does not end in white space. */
  lemma NameRead(p: string)
    ensures NamedPath("+++ b/" + p) == Some(NameOf(p)) && |NameOf(p)| <= |p|
    ensures NameOf(p) == p <==> Trimmed(p)
  {
    CutName(p);
    var raw, q := "+++ b/" + p, "b/" + p;
    assert raw[4..] == q && SkipSpace(q) == q && q[2..] == p;
    assert q[|q| - 1] == if p == [] then '/' else p[|p| - 1];
    assert q[0] != "/dev/null"[0];
    if Trimmed(p) {
      assert TrimEnd(q) == q;
    } else {
      var shorter := p[..|p| - 1];
      assert q[..|q| - 1] == "b/" + shorter;
      assert TrimEnd(q) == TrimEnd("b/" + shorter) && |TrimEnd(q)| < |q|;
      NameStays(q, 2);
    }
  }

  lemma NullRead()
    ensures NamedPath("+++ /dev/null") == None
  {
    var q := "/dev/null";
    assert "+++ /dev/null"[4..] == q;
    assert SkipSpace(q) == q && TrimEnd(q) == q;
  }

  // ----- reading on

  lemma {:induction false} ReadConcat(x: seq<string>, y: seq<string>, st: State)
    ensures Read(x + y, st) == Read(x, st) + Read(y, Run(x, st)) && Run(x + y, st) == Run(y, Run(x, st))
  {
    hide Step, Yield;
    if x == [] {
      assert x + y == y;
      assert [] + Read(y, st) == Read(y, st);
    } else {
      assert (x + y)[1..] == x[1..] + y;
      ReadConcat(x[1..], y, Step(x[0], st));
    }
  }

  lemma AddedOfStep(path: string, x: seq<NewLine>, y: seq<NewLine>, n: nat)
    requires x != []
    ensures AddedOf(path, x + y, n)
        == (if x[0].added then [Hit(path, n, x[0].text)] else []) + AddedOf(path, x[1..] + y, n + 1)
  {
    assert (x + y)[1..] == x[1..] + y;
  }

  lemma {:induction false} AddedOfConcat(path: string, x: seq<NewLine>, y: seq<NewLine>, n: nat)
    ensures AddedOf(path, x + y, n) == AddedOf(path, x, n) + AddedOf(path, y, n + |x|)
  {
    if x == [] {
      assert x + y == y;
      assert [] + AddedOf(path, y, n) == AddedOf(path, y, n);
    } else {
      AddedOfStep(path, x, y, n);
      AddedOfStep(path, x, [], n);
      assert x + [] == x && x[1..] + [] == x[1..];
      hide AddedOf;
      AddedOfConcat(path, x[1..], y, n + 1);
      AppendAssoc(if x[0].added then [Hit(path, n, x[0].text)]
          else [], AddedOf(path, x[1..], n + 1), AddedOf(path, y, n + |x|));
    }
  }

  lemma {:induction false} NothingUnmarked(path: string, lines: seq<string>, n: nat)
    ensures AddedOf(path, Unmarked(lines), n) == [] && |Unmarked(lines)| == |lines|
  {
    if lines != [] {
      assert Unmarked(lines)[1..] == Unmarked(lines[1..]);
      NothingUnmarked(path, lines[1..], n + 1);
    }
  }

  /** An added line prints like a name line just when its text starts so. */
  lemma PrintsLikeName(t: string)
    ensures "+++ " <= "+" + t <==> "++ " <= t
  {
    var raw := "+" + t;
    assert raw[1..] == t;
    if |t| >= 3 {
      assert raw[..4] == "+" + t[..3];
      assert "+++ "[1..] == "++ " && "+" + "++ " == "+++ ";
    }
  }

  lemma FirstOf(m: Mark)
    ensures var raw := PrintMark(m);
            raw != [] && raw[0]
                == match m case Kept(_) => ' ' case Added(_) => '+' case Removed(_) => '-' case NoNewline => '\\'
    ensures m.Added? ==> PrintMark(m)[1..] == m.text
  {
  }

  lemma PlusFirst(raw: string)
    ensures "+++ " <= raw ==> Starts(raw, '+')
  {
  }

  lemma OtherFirst(raw: string)
    ensures raw != [] && raw[0] != '+' ==> !("+++ " <= raw)
    ensures raw != [] && raw[0] != '@' ==> !("@@" <= raw)
  {
  }

  /** One line of a hunk. */
  lemma MarkRead(m: Mark, p: string, n: nat)
    requires !LooksLikeName(m)
    ensures Yield(PrintMark(m), State(Some(p), n)) == AddedOf(p, InNew(m), n)
    ensures Step(PrintMark(m), State(Some(p), n)) == State(Some(p), n + |InNew(m)|)
  {
    FirstOf(m);
    OtherFirst(PrintMark(m));
    if m.Added? { PrintsLikeName(m.text); }
    assert !("+++ " <= PrintMark(m)) && !("@@" <= PrintMark(m));
    assert AddedOf(p, [], n + 1) == [];
    assert InNew(m) != [] ==> InNew(m)[1..] == [];
  }

  lemma {:induction false} BodyRead(body: seq<Mark>, p: string, n: nat)
    requires PlainBody(body)
    ensures Read(PrintBody(body), State(Some(p), n)) == AddedOf(p, NewSide(body), n)
    ensures Run(PrintBody(body), State(Some(p), n)) == State(Some(p), n + |NewSide(body)|)
  {
    hide Step, Yield, PrintMark, LooksLikeName, AddedOf, InNew;
    if body == [] {
      NoneAdded(p, n);
    } else {
      MarkRead(body[0], p, n);
      BodyRead(body[1..], p, n + |InNew(body[0])|);
      assert PrintBody(body)[1..] == PrintBody(body[1..]);
      AddedOfConcat(p, InNew(body[0]), NewSide(body[1..]), n);
    }
  }

  lemma NoneAdded(p: string, n: nat)
    ensures AddedOf(p, [], n) == []
  {
  }

  // ----- a whole diff

  /** A hunk's header and body, with `before` and `after` lines of the two files in front. */
  lemma HunkRead(h: Hunk, p: string, ln: nat, before: nat, after: nat)
    requires PlainBody(h.body)
    ensures var lines := [PrintHeader(h, before, after)] + PrintBody(h.body);
            && Read(lines, State(Some(p), ln)) == AddedOf(p, NewSide(h.body), after + 1)
            && Run(lines, State(Some(p), ln)).path == Some(p)
  {
    var head := PrintHeader(h, before, after);
    HeaderRead(h, before, after);
    var n := if |NewSide(h.body)| == 0 then after else after + 1;
    assert head[0] == '@' by { assert head[..2] == "@@"; }
    OtherFirst(head);
    assert Yield(head, State(Some(p), ln)) == [] && Step(head, State(Some(p), ln)) == State(Some(p), n);
    hide PrintHeader, Step, Yield, PrintBody, AddedOf, NewSide, HunkStart;
    BodyRead(h.body, p, n);
    assert ([head] + PrintBody(h.body))[1..] == PrintBody(h.body);
    if |NewSide(h.body)| == 0 {
      assert NewSide(h.body) == [];
      NoneAdded(p, n);
      NoneAdded(p, after + 1);
    }
  }

  lemma ImageSplit(p: string, h: Hunk, later: seq<NewLine>, n: nat)
    ensures AddedOf(p, (Unmarked(h.skip) + NewSide(h.body)) + later, n)
         == AddedOf(p, NewSide(h.body), n + |h.skip|) + AddedOf(p, later, n + |h.skip| + |NewSide(h.body)|)
  {
    hide AddedOf, Unmarked, NewSide;
    var skip, shown := Unmarked(h.skip), NewSide(h.body);
    NothingUnmarked(p, h.skip, n);
    AddedOfConcat(p, skip + shown, later, n);
    AddedOfConcat(p, skip, shown, n);
    assert [] + AddedOf(p, shown, n + |h.skip|) == AddedOf(p, shown, n + |h.skip|);
  }

  lemma {:induction false} HunksRead(hunks: seq<Hunk>, p: string, ln: nat, before: nat, after: nat)
    requires PlainHunks(hunks)
    ensures Read(PrintHunks(hunks, before, after), State(Some(p), ln)) == AddedOf(p, HunksImage(hunks), after + 1)
    decreases |hunks|
  {
    hide AddedOf, Read, Run, PrintHeader, PrintBody, NewSide, OldLen, Unmarked, PlainBody;
    if hunks == [] {
      NoneAdded(p, after + 1);
      assert Read([], State(Some(p), ln)) == [] by { ReadNone(State(Some(p), ln)); }
    } else {
      var h := hunks[0];
      var b, a := before + |h.skip|, after + |h.skip|;
      var lines := [PrintHeader(h, b, a)] + PrintBody(h.body);
      var rest := PrintHunks(hunks[1..], b + OldLen(h.body), a + |NewSide(h.body)|);
      HunkRead(h, p, ln, b, a);
      ReadConcat(lines, rest, State(Some(p), ln));
      HunksRead(hunks[1..], p, Run(lines, State(Some(p), ln)).lineno, b + OldLen(h.body), a + |NewSide(h.body)|);
      ImageSplit(p, h, HunksImage(hunks[1..]), after + 1);
    }
  }

  /** Lines above the names yield nothing and leave the file the reader is in. */
  lemma {:induction false} ExtraRead(extra: seq<string>, st: State)
    requires forall i :: 0 <= i < |extra| ==> !Starts(extra[i], '+') && !("@@" <= extra[i])
    ensures Read(extra, st) == [] && Run(extra, st).path == st.path
  {
    if extra != [] {
      var raw := extra[0];
      PlusFirst(raw);
      ExtraRead(extra[1..], Step(raw, st));
    }
  }

  predicate NoNames(lines: seq<string>) { forall i :: 0 <= i < |lines| ==> !("+++ " <= lines[i]) }

  /** Lines in a file that is gone. */
  lemma {:induction false} NoneYielded(lines: seq<string>, st: State)
    requires st.path == None && NoNames(lines)
    ensures Read(lines, st) == []
  {
    hide HunkStart, NamedPath;
    if lines != [] { NoneYielded(lines[1..], Step(lines[0], st)); }
  }

  /** No line of a deleted file's hunks looks like a name line. */
  lemma {:induction false} GoneBody(body: seq<Mark>)
    requires NewSide(body) == []
    ensures NoNames(PrintBody(body))
  {
    hide PrintMark;
    if body != [] {
      assert InNew(body[0]) == [] && NewSide(body[1..]) == [];
      FirstOf(body[0]);
      PlusFirst(PrintMark(body[0]));
      GoneBody(body[1..]);
    }
  }

  lemma {:induction false} GoneHunks(hunks: seq<Hunk>, before: nat, after: nat)
    requires HunksImage(hunks) == []
    ensures NoNames(PrintHunks(hunks, before, after))
    decreases |hunks|
  {
    hide PrintHeader, PrintBody, NewSide, OldLen, Unmarked;
    if hunks != [] {
      var h := hunks[0];
      var b, a := before + |h.skip|, after + |h.skip|;
      assert NewSide(h.body) == [] && HunksImage(hunks[1..]) == [];
      GoneBody(h.body);
      GoneHunks(hunks[1..], b + OldLen(h.body), a + |NewSide(h.body)|);
      HeaderFirst(h, b, a);
      var lines := [PrintHeader(h, b, a)] + PrintBody(h.body);
      var rest := PrintHunks(hunks[1..], b + OldLen(h.body), a + |NewSide(h.body)|);
      hide NoNames;
      NoNamesConcat([PrintHeader(h, b, a)], PrintBody(h.body));
      NoNamesConcat(lines, rest);
    }
  }

  lemma NoNamesConcat(x: seq<string>, y: seq<string>)
    requires NoNames(x) && NoNames(y)
    ensures NoNames(x + y)
  {
  }

  lemma HeaderFirst(h: Hunk, before: nat, after: nat)
    ensures NoNames([PrintHeader(h, before, after)])
  {
    hide Range;
    PlusFirst(PrintHeader(h, before, after));
  }

  lemma NamesRead(gone: string, plus: string, rest: seq<string>, st: State)
    requires "+++ " <= plus
    ensures Read(["--- " + gone, plus] + rest, st) == Read(rest, State(NamedPath(plus), st.lineno))
  {
    var minus := "--- " + gone;
    assert minus[0] == '-';
    OtherFirst(minus);
    assert Yield(minus, st) == [] && Step(minus, st) == st;
    assert Yield(plus, st) == [] && Step(plus, st) == State(NamedPath(plus), st.lineno);
    hide Yield, Step, NamedPath;
    var lines := [minus, plus] + rest;
    assert lines[0] == minus && lines[1..] == [plus] + rest && ([plus] + rest)[1..] == rest;
  }

  /** The part of a file's diff below its extra lines. */
  lemma NamedRead(f: FileDiff, st: State)
    requires WellFormed(f) && PlainHunks(f.hunks) && f.hunks != []
    ensures Read(["--- " + f.oldName, NewName(f.path)] + PrintHunks(f.hunks, 0, 0), st)
         == match f.path case None => [] case Some(p) => AddedOf(NameOf(p), HunksImage(f.hunks), 1)
  {
    hide PrintHunks, HunksImage, AddedOf, NamedPath, NameOf, Trimmed, Read, NoNames, PlainHunks;
    var rest := PrintHunks(f.hunks, 0, 0);
    NamesRead(f.oldName, NewName(f.path), rest, st);
    match f.path
    case None =>
      NullRead();
      assert HunksImage(f.hunks) == [];
      GoneHunks(f.hunks, 0, 0);
      NoneYielded(rest, State(None, st.lineno));
    case Some(p) =>
      NameRead(p);
      HunksRead(f.hunks, NameOf(p), st.lineno, 0, 0);
  }

  lemma ImageOfHunks(f: FileDiff, p: string)
    ensures AddedOf(p, Image(f), 1) == AddedOf(p, HunksImage(f.hunks), 1)
    ensures f.hunks == [] ==> AddedOf(p, Image(f), 1) == []
  {
    hide AddedOf, HunksImage, Unmarked;
    AddedOfConcat(p, HunksImage(f.hunks), Unmarked(f.tail), 1);
    NothingUnmarked(p, f.tail, 1 + |HunksImage(f.hunks)|);
    if f.hunks == [] { NoHunks(p); }
  }

  lemma NoHunks(p: string)
    ensures AddedOf(p, HunksImage([]), 1) == []
  {
  }

  function ExpectedOf(f: FileDiff): seq<Hit>
  {
    match f.path case None => [] case Some(p) => AddedOf(p, Image(f), 1)
  }

  lemma FileRead(f: FileDiff, st: State)
    requires WellFormed(f) && PlainHunks(f.hunks)
    ensures |Read(PrintFile(f), st)| == |ExpectedOf(f)| && (Read(PrintFile(f), st) == ExpectedOf(f) <==> RightName(f))
  {
    assert forall i :: 0 <= i < |f.extra| ==> !Starts(f.extra[i], '+') && !("@@" <= f.extra[i]);
    hide HunksImage, AddedOf, Image, PrintHunks, NewName, Read, Run, WellFormed, PlainHunks, NameOf, Trimmed,
         NothingAdded;
    ExtraRead(f.extra, st);
    if f.path.Some? {
      ImageOfHunks(f, f.path.value);
      NamesApart(NameOf(f.path.value), f.path.value, f.hunks);
      NameRead(f.path.value);
    }
    if f.hunks == [] {
      assert f.extra + [] == f.extra;
      assert NothingAdded(f.hunks) by { NoHunksAdd(); }
    } else {
      ReadConcat(f.extra, ["--- " + f.oldName, NewName(f.path)] + PrintHunks(f.hunks, 0, 0), st);
      NamedRead(f, Run(f.extra, st));
    }
  }

  lemma NoHunksAdd()
    ensures NothingAdded([])
  {
  }

  /** The same lines under two names differ unless there are none. */
  lemma NamesApart(q: string, p: string, hunks: seq<Hunk>)
    ensures |AddedOf(q, HunksImage(hunks), 1)| == |AddedOf(p, HunksImage(hunks), 1)|
    ensures AddedOf(q, HunksImage(hunks), 1) == AddedOf(p, HunksImage(hunks), 1) <==> q == p || NothingAdded(hunks)
  {
    hide HunksImage, AddedOf, NothingAdded;
    NamesDiffer(q, p, HunksImage(hunks), 1);
    CountNothing(hunks);
  }

  lemma {:induction false} NamesDiffer(q: string, p: string, image: seq<NewLine>, n: nat)
    ensures |AddedOf(q, image, n)| == |AddedOf(p, image, n)|
    ensures AddedOf(q, image, n) == AddedOf(p, image, n) <==> q == p || Count(image) == 0
  {
    if image != [] {
      NamesDiffer(q, p, image[1..], n + 1);
      var x, y := AddedOf(q, image[1..], n + 1), AddedOf(p, image[1..], n + 1);
      if image[0].added {
        var a, b := Hit(q, n, image[0].text), Hit(p, n, image[0].text);
        assert ([a] + x)[0] == a && ([b] + y)[0] == b && ([a] + x)[1..] == x && ([b] + y)[1..] == y;
      } else {
        assert [] + x == x && [] + y == y;
      }
    }
  }

  lemma {:induction false} CountNone(body: seq<Mark>)
    ensures Count(NewSide(body)) == 0 <==> NoAdded(body)
  {
    if body != [] {
      MarkPluses(body[0]);
      CountNone(body[1..]);
      CountConcat(InNew(body[0]), NewSide(body[1..]));
      NoAddedIs(body);
    }
  }

  lemma {:induction false} CountNothing(hunks: seq<Hunk>)
    ensures Count(HunksImage(hunks)) == 0 <==> NothingAdded(hunks)
  {
    hide Count, NoAdded, NewSide, Unmarked;
    if hunks == [] {
      NonePluses();
    } else {
      var h := hunks[0];
      CountNone(h.body);
      CountNothing(hunks[1..]);
      CountUnmarked(h.skip);
      CountConcat(Unmarked(h.skip), NewSide(h.body));
      CountConcat(Unmarked(h.skip) + NewSide(h.body), HunksImage(hunks[1..]));
      assert forall i :: 0 < i < |hunks| ==> hunks[i] == hunks[1..][i - 1];
    }
  }

  lemma {:induction false} NoAddedIs(body: seq<Mark>)
    requires body != []
    ensures NoAdded(body) <==> !body[0].Added? && NoAdded(body[1..])
  {
    assert forall i :: 0 < i < |body| ==> body[i] == body[1..][i - 1];
  }

  lemma HitsJoin(a: seq<Hit>, b: seq<Hit>, c: seq<Hit>, d: seq<Hit>)
    requires |a| == |c| && |b| == |d|
    ensures a + b == c + d <==> a == c && b == d
  {
    if a + b == c + d {
      assert a == (a + b)[..|a|] && c == (c + d)[..|a|] && b == (a + b)[|a|..] && d == (c + d)[|a|..];
    }
  }

  /** Of any edit whose added lines do not begin with `++ `, the reader yields as many lines as are
      added, and exactly those, each with its number in the new file, exactly when no name of a file
      that is added to ends in white space. */
  lemma {:induction false} DiffReads(files: seq<FileDiff>, st: State)
    requires AllWellFormed(files) && Plain(files)
    ensures |Read(Print(files), st)| == |Expected(files)|
    ensures Read(Print(files), st) == Expected(files) <==> RightNames(files)
  {
    hide WellFormed, PrintFile, AddedOf, Image, Step, Yield, RightName;
    if files != [] {
      var first, rest := PrintFile(files[0]), Print(files[1..]);
      FileRead(files[0], st);
      ReadConcat(first, rest, st);
      DiffReads(files[1..], Run(first, st));
      assert Expected(files) == ExpectedOf(files[0]) + Expected(files[1..]);
      HitsJoin(Read(first, st), Read(rest, Run(first, st)), ExpectedOf(files[0]), Expected(files[1..]));
      assert RightNames(files) <==> RightName(files[0]) && RightNames(files[1..]) by {
        assert forall i :: 0 < i < |files| ==> files[i] == files[1..][i - 1];
      }
    }
  }

  /** An expected line stands at its number in the new file. */
  lemma {:induction false} AddedStands(p: string, image: seq<NewLine>, n: nat, h: Hit)
    ensures h in AddedOf(p, image, n)
       <==> h.file == p && n <= h.line < n + |image| && image[h.line - n] == NewLine(h.text, true)
  {
    if image != [] {
      var rest := image[1..];
      AddedStands(p, rest, n + 1, h);
      var first := if image[0].added then [Hit(p, n, image[0].text)] else [];
      assert AddedOf(p, image, n) == first + AddedOf(p, rest, n + 1);
      hide AddedOf;
      assert h in first <==> image[0].added && h == Hit(p, n, image[0].text);
      assert h.line > n && h.line < n + |image| ==> image[h.line - n] == rest[h.line - (n + 1)];
    }
  }

  // ----- exactly when

  /** The lines that can yield. */
  function Pluses(lines: seq<string>): nat
  {
    if lines == [] then 0 else (if Starts(lines[0], '+') && !("+++ " <= lines[0]) then 1 else 0) + Pluses(lines[1..])
  }

  lemma {:induction false} PlusesConcat(x: seq<string>, y: seq<string>)
    ensures Pluses(x + y) == Pluses(x) + Pluses(y)
  {
    if x == [] {
      assert x + y == y;
    } else {
      assert (x + y)[1..] == x[1..] + y;
      PlusesConcat(x[1..], y);
    }
  }

  lemma {:induction false} YieldsAtMost(lines: seq<string>, st: State)
    ensures |Read(lines, st)| <= Pluses(lines)
  {
    hide Step;
    if lines != [] { YieldsAtMost(lines[1..], Step(lines[0], st)); }
  }

  function Count(image: seq<NewLine>): nat
  {
    if image == [] then 0 else (if image[0].added then 1 else 0) + Count(image[1..])
  }

  lemma {:induction false} CountConcat(x: seq<NewLine>, y: seq<NewLine>)
    ensures Count(x + y) == Count(x) + Count(y)
  {
    if x == [] {
      assert x + y == y;
    } else {
      assert (x + y)[1..] == x[1..] + y;
      CountConcat(x[1..], y);
    }
  }

  lemma {:induction false} CountIs(p: string, image: seq<NewLine>, n: nat)
    ensures |AddedOf(p, image, n)| == Count(image)
  {
    if image != [] { CountIs(p, image[1..], n + 1); }
  }

  lemma {:induction false} CountUnmarked(lines: seq<string>)
    ensures Count(Unmarked(lines)) == 0
  {
    if lines != [] {
      assert Unmarked(lines)[1..] == Unmarked(lines[1..]);
      CountUnmarked(lines[1..]);
    }
  }

  lemma MarkPluses(m: Mark)
    ensures Pluses([PrintMark(m)]) == if m.Added? && !LooksLikeName(m) then 1 else 0
    ensures Count(InNew(m)) == if m.Added? then 1 else 0
  {
    FirstOf(m);
    if m.Added? { PrintsLikeName(m.text); }
    hide PrintMark;
    assert [PrintMark(m)][1..] == [];
  }

  lemma {:induction false} BodyPluses(body: seq<Mark>)
    ensures Pluses(PrintBody(body)) <= Count(NewSide(body)) - if PlainBody(body) then 0 else 1
  {
    hide Pluses, PrintMark, LooksLikeName, InNew, Count;
    if body == [] {
      NonePluses();
    } else {
      MarkPluses(body[0]);
      BodyPluses(body[1..]);
      PlusesConcat([PrintMark(body[0])], PrintBody(body[1..]));
      CountConcat(InNew(body[0]), NewSide(body[1..]));
      assert PlainBody(body) <==> !LooksLikeName(body[0]) && PlainBody(body[1..]) by {
        assert forall i :: 0 < i < |body| ==> body[i] == body[1..][i - 1];
      }
      assert LooksLikeName(body[0]) ==> body[0].Added? by { Looks(body[0]); }
    }
  }

  lemma Looks(m: Mark)
    ensures LooksLikeName(m) ==> m.Added?
  {
  }

  lemma NonePluses()
    ensures Pluses([]) == 0 && Count([]) == 0
  {
  }

  lemma HeaderPluses(h: Hunk, before: nat, after: nat)
    ensures Pluses([PrintHeader(h, before, after)]) == 0
  {
    hide Range;
    assert [PrintHeader(h, before, after)][1..] == [];
  }

  lemma {:induction false} HunksPluses(hunks: seq<Hunk>, before: nat, after: nat)
    ensures Pluses(PrintHunks(hunks, before, after)) <= Count(HunksImage(hunks)) - if PlainHunks(hunks) then 0 else 1
    decreases |hunks|
  {
    hide Pluses, PrintHeader, PrintBody, NewSide, OldLen, Unmarked, PlainBody, Count;
    if hunks == [] {
      NonePluses();
    } else {
      var h := hunks[0];
      var b, a := before + |h.skip|, after + |h.skip|;
      var rest := PrintHunks(hunks[1..], b + OldLen(h.body), a + |NewSide(h.body)|);
      BodyPluses(h.body);
      HeaderPluses(h, b, a);
      HunksPluses(hunks[1..], b + OldLen(h.body), a + |NewSide(h.body)|);
      PlusesConcat([PrintHeader(h, b, a)], PrintBody(h.body));
      PlusesConcat([PrintHeader(h, b, a)] + PrintBody(h.body), rest);
      CountUnmarked(h.skip);
      CountConcat(Unmarked(h.skip), NewSide(h.body));
      CountConcat(Unmarked(h.skip) + NewSide(h.body), HunksImage(hunks[1..]));
      assert PlainHunks(hunks) <==> PlainBody(h.body) && PlainHunks(hunks[1..]) by {
        assert forall i :: 0 < i < |hunks| ==> hunks[i] == hunks[1..][i - 1];
      }
    }
  }

  lemma {:induction false} ExtraPluses(extra: seq<string>)
    requires forall i :: 0 <= i < |extra| ==> !Starts(extra[i], '+')
    ensures Pluses(extra) == 0
  {
    if extra != [] { ExtraPluses(extra[1..]); }
  }

  lemma NamesPluses(gone: string, path: Option<string>)
    ensures Pluses(["--- " + gone, NewName(path)]) == 0
  {
    var minus, plus := "--- " + gone, NewName(path);
    assert minus[0] == '-' && plus[..4] == "+++ ";
    var both, last := [minus, plus], [plus];
    assert both[1..] == last && last[1..] == [];
    assert Pluses(last) == 0;
  }

  lemma FilePluses(f: FileDiff)
    requires WellFormed(f)
    ensures Pluses(PrintFile(f)) <= |ExpectedOf(f)| - if PlainHunks(f.hunks) then 0 else 1
  {
    assert forall i :: 0 <= i < |f.extra| ==> !Starts(f.extra[i], '+');
    assert f.path.None? ==> HunksImage(f.hunks) == [];
    NonePluses();
    hide Pluses, Count, HunksImage, Unmarked, AddedOf, PrintHunks, NewName;
    ExtraPluses(f.extra);
    NamesPluses(f.oldName, f.path);
    HunksPluses(f.hunks, 0, 0);
    CountUnmarked(f.tail);
    CountConcat(HunksImage(f.hunks), Unmarked(f.tail));
    if f.path.Some? { CountIs(f.path.value, Image(f), 1); }
    if f.hunks == [] {
      assert f.extra + [] == f.extra;
    } else {
      PlusesConcat(["--- " + f.oldName, NewName(f.path)], PrintHunks(f.hunks, 0, 0));
      PlusesConcat(f.extra, ["--- " + f.oldName, NewName(f.path)] + PrintHunks(f.hunks, 0, 0));
    }
  }

  lemma {:induction false} PlusesExpected(files: seq<FileDiff>)
    requires AllWellFormed(files)
    ensures Pluses(Print(files)) <= |Expected(files)| - if Plain(files) then 0 else 1
  {
    hide Pluses, PrintFile, WellFormed, PlainHunks, AddedOf, Image;
    if files == [] {
      NonePluses();
    } else {
      FilePluses(files[0]);
      PlusesExpected(files[1..]);
      PlusesConcat(PrintFile(files[0]), Print(files[1..]));
      assert Expected(files) == ExpectedOf(files[0]) + Expected(files[1..]);
      assert Plain(files) <==> PlainHunks(files[0].hunks) && Plain(files[1..]) by {
        assert forall i :: 0 < i < |files| ==> files[i] == files[1..][i - 1];
      }
    }
  }

  /** The reader inverts the printer exactly when no added line begins with `++ ` and no name of a file
      that is added to ends in white space. */
  lemma ReadsExactlyWhenPlain(files: seq<FileDiff>)
    requires AllWellFormed(files)
    ensures Read(Print(files), START) == Expected(files) <==> Plain(files) && RightNames(files)
  {
    hide Read, Print, Expected, Plain, WellFormed, RightNames;
    if Plain(files) {
      DiffReads(files, START);
    } else {
      YieldsAtMost(Print(files), START);
      PlusesExpected(files);
    }
  }

  // ----- lines outside hunks

  /** Nothing is yielded before a file is named. */
  lemma {:induction false} NothingNamed(lines: seq<string>, st: State)
    requires st.path == None && forall i :: 0 <= i < |lines| ==> !("+++ " <= lines[i])
    ensures Read(lines, st) == []
  {
    if lines != [] {
      hide HunkStart;
      NothingNamed(lines[1..], Step(lines[0], st));
    }
  }

  function PlusLines(texts: seq<string>): (r: seq<string>)
    ensures |r| == |texts| && forall i :: 0 <= i < |r| ==> r[i] == "+" + texts[i]
  {
    seq(|texts|, i requires 0 <= i < |texts| => "+" + texts[i])
  }

  lemma {:induction false} Numbered(texts: seq<string>, path: string, n: nat)
    requires forall i :: 0 <= i < |texts| ==> !("++ " <= texts[i])
    ensures var hits := Read(PlusLines(texts), State(Some(path), n));
            |hits| == |texts| && forall i :: 0 <= i < |hits| ==> hits[i] == Hit(path, n + i, texts[i])
  {
    if texts != [] {
      assert PlusLines(texts)[1..] == PlusLines(texts[1..]);
      Numbered(texts[1..], path, n + 1);
      PlusLine(texts[0], path, n);
    }
  }

  lemma PlusInFront(x: string, y: string)
    ensures "+" + x <= "+" + y <==> x <= y
  {
    if x <= y { assert "+" + y == ("+" + x) + y[|x|..]; }
    if "+" + x <= "+" + y { assert ("+" + y)[1..][..|x|] == ("+" + x)[1..]; }
  }

  lemma PlusLine(text: string, path: string, n: nat)
    requires !("++ " <= text)
    ensures Yield("+" + text, State(Some(path), n)) == [Hit(path, n, text)]
    ensures Step("+" + text, State(Some(path), n)) == State(Some(path), n + 1)
  {
    var raw := "+" + text;
    assert raw[1..] == text;
    PlusInFront("++ ", text);
    assert "+" + "++ " == "+++ ";
    assert !("+++ " <= raw) && raw[0] == '+' && !("@@" <= raw);
  }

  /** Added lines that no hunk header introduces are numbered from zero, for the first file of a diff. */
  lemma {:induction false} NumberedFromZero(name: string, texts: seq<string>)
    requires Strip("b/" + name) == "b/" + name
    requires forall i :: 0 <= i < |texts| ==> !("++ " <= texts[i])
    ensures var hits := Read(["+++ b/" + name] + PlusLines(texts), START);
            |hits| == |texts| && forall i :: 0 <= i < |hits| ==> hits[i] == Hit(name, i, texts[i])
  {
    var raw := "+++ b/" + name;
    assert raw[4..] == "b/" + name && raw[..4] == "+++ " && ("b/" + name)[2..] == name;
    assert "b/" + name != "/dev/null" by { assert ("b/" + name)[0] == 'b'; }
    hide Strip;
    assert Step(raw, START) == State(Some(name), 0) && Yield(raw, START) == [];
    assert ([raw] + PlusLines(texts))[1..] == PlusLines(texts);
    Numbered(texts, name, 0);
    hide Read;
    assert [] + Read(PlusLines(texts), State(Some(name), 0)) == Read(PlusLines(texts), State(Some(name), 0));
  }
}
