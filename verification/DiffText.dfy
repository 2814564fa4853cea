/** The diff reader on the text of a diff, which `splitlines` also cuts at line breaks inside a line. */
module DiffText {
  import opened Wrappers
  import opened PyText
  import opened DiffReader
  import opened DiffProofs

  // ----- the pieces of a line

  /** What `splitlines` makes of one line and the line feed behind it. */
  function Pieces(l: string): (r: seq<string>)
    ensures r != []
  {
    assert l + "\n" != "";
    Splitlines(l + "\n")
  }

  /** The pieces behind the first line break. */
  function Tails(l: string): seq<string> { Pieces(l)[1..] }

  function Head(l: string): string { l[..FindBreak(l)] }

  function AllPieces(ls: seq<string>): seq<string>
  {
    if ls == [] then [] else Pieces(ls[0]) + AllPieces(ls[1..])
  }

  lemma {:induction false} FindBreakBehind(a: string, s: string)
    requires NoBreak(a)
    ensures FindBreak(a + s) == |a| + FindBreak(s)
  {
    if a == [] {
      assert a + s == s;
    } else {
      assert (a + s)[1..] == a[1..] + s;
      FindBreakBehind(a[1..], s);
    }
  }

  lemma {:induction false} FindBreakInside(l: string, rest: string)
    ensures FindBreak(l + ("\n" + rest)) == FindBreak(l)
  {
    var s := l + ("\n" + rest);
    if l != [] && !IsBreak(l[0]) {
      assert s[1..] == l[1..] + ("\n" + rest);
      FindBreakInside(l[1..], rest);
    }
  }

  /** Where the text goes on behind the first line break of `s`. */
  function Next(s: string): (n: nat)
    requires FindBreak(s) < |s|
    ensures FindBreak(s) < n <= |s|
  {
    var k := FindBreak(s);
    if "\r\n" <= s[k..] then k + 2 else k + 1
  }

  function Past(s: string): string
    requires FindBreak(s) < |s|
  {
    s[Next(s)..]
  }

  lemma NextIs(s: string)
    requires FindBreak(s) < |s|
    ensures var k := FindBreak(s);
            Next(s) == if k + 1 < |s| && s[k] == '\r' && s[k + 1] == '\n' then k + 2 else k + 1
  {
    hide FindBreak;
    var k := FindBreak(s);
    var t := s[k..];
    assert t[0] == s[k] && (k + 1 < |s| ==> t[1] == s[k + 1]);
  }

  lemma SliceAppend(x: string, y: string, n: nat)
    requires n <= |x|
    ensures (x + y)[n..] == x[n..] + y
  {
  }

  lemma SliceBehind(x: string, y: string, n: nat)
    requires n <= |y|
    ensures (x + y)[|x| + n..] == y[n..]
  {
  }

  lemma CutOnce(s: string)
    requires FindBreak(s) < |s|
    ensures Splitlines(s) == [Head(s)] + Splitlines(Past(s))
  {
  }

  lemma {:induction false} SplitPieces(l: string, rest: string)
    ensures Splitlines(l + ("\n" + rest)) == Pieces(l) + Splitlines(rest)
    decreases |l|
  {
    hide Splitlines, FindBreak;
    var s, t, k := l + ("\n" + rest), l + "\n", FindBreak(l);
    FindBreakInside(l, rest);
    FindBreakInside(l, "");
    assert "\n" + "" == "\n";
    CutOnce(s);
    CutOnce(t);
    assert Head(s) == Head(t) == l[..k];
    if k == |l| {
      assert s[k..] == "\n" + rest && t[k..] == "\n" && s[k + 1..] == rest && t[k + 1..] == "";
      NothingSplit();
    } else if k + 1 == |l| && l[k] == '\r' {
      assert s[k..] == "\r\n" + rest && t[k..] == "\r\n" && s[k + 2..] == rest && t[k + 2..] == "";
      NothingSplit();
    } else {
      PastInside(l, rest);
      PastInside(l, "");
      SplitPieces(Past(l), rest);
    }
  }

  lemma NothingSplit()
    ensures Splitlines("") == []
  {
  }

  /** A line break inside a line is passed as it is without what follows the line. */
  lemma PastInside(l: string, rest: string)
    requires FindBreak(l) < |l| && !(FindBreak(l) + 1 == |l| && l[FindBreak(l)] == '\r')
    ensures FindBreak(l + ("\n" + rest)) == FindBreak(l)
    ensures Past(l + ("\n" + rest)) == Past(l) + ("\n" + rest)
  {
    FindBreakInside(l, rest);
    NextIs(l);
    NextIs(l + ("\n" + rest));
    hide FindBreak, Next;
    SliceAppend(l, "\n" + rest, Next(l));
  }

  /** The text of a diff is read as the pieces of its lines. */
  lemma {:induction false} SplitIsPieces(ls: seq<string>)
    ensures Splitlines(Lines(ls)) == AllPieces(ls)
  {
    hide Splitlines, Pieces;
    if ls == [] {
      NothingSplit();
    } else {
      SplitPieces(ls[0], Lines(ls[1..]));
      SplitIsPieces(ls[1..]);
    }
  }

  lemma {:induction false} PiecesConcat(x: seq<string>, y: seq<string>)
    ensures AllPieces(x + y) == AllPieces(x) + AllPieces(y)
  {
    hide Pieces;
    if x == [] {
      assert x + y == y;
    } else {
      assert (x + y)[1..] == x[1..] + y;
      PiecesConcat(x[1..], y);
      AppendAssoc(Pieces(x[0]), AllPieces(x[1..]), AllPieces(y));
    }
  }

  /** A line is its head and its tails; without a line break it is one piece. */
  lemma PiecesAre(l: string)
    ensures Pieces(l) == [Head(l)] + Tails(l)
    ensures NoBreak(l) ==> Pieces(l) == [l] && Tails(l) == [] && Head(l) == l
  {
    FindBreakInside(l, "");
    assert "\n" + "" == "\n";
    hide FindBreak;
    CutOnce(l + "\n");
    assert Head(l + "\n") == Head(l);
    if NoBreak(l) {
      FirstPiece(l, '\n', "");
      NothingSplit();
      FindBreakWhole(l);
    }
  }

  lemma FindBreakWhole(l: string)
    requires NoBreak(l)
    ensures FindBreak(l) == |l|
  {
    FindBreakBehind(l, "");
    assert l + "" == l;
  }

  lemma PastBehind(a: string, t: string)
    requires NoBreak(a) && FindBreak(t) < |t|
    ensures FindBreak(a + t) == |a| + FindBreak(t)
    ensures Past(a + t) == Past(t)
  {
    FindBreakBehind(a, t);
    hide FindBreak;
    NextIs(t);
    NextIs(a + t);
    hide Next;
    SliceBehind(a, t, Next(t));
  }

  lemma TailsAre(l: string)
    ensures FindBreak(l + "\n") == FindBreak(l)
    ensures Tails(l) == Splitlines(Past(l + "\n"))
  {
    FindBreakInside(l, "");
    assert "\n" + "" == "\n";
    CutOnce(l + "\n");
    hide FindBreak, Splitlines;
  }

  /** What stands in front of a text does not change its tails. */
  lemma TailsBehind(a: string, s: string)
    requires NoBreak(a)
    ensures Tails(a + s) == Tails(s) && Head(a + s) == a + Head(s)
  {
    hide FindBreak, Splitlines, Tails, Past, NoBreak;
    TailsAre(s);
    TailsAre(a + s);
    PastBehind(a, s + "\n");
    FindBreakBehind(a, s);
    assert (a + s) + "\n" == a + (s + "\n");
    assert (a + s)[..|a| + FindBreak(s)] == a + s[..FindBreak(s)];
  }

  // ----- tails that cannot be taken for an added line or a hunk header

  predicate Quiet(t: string) { !Starts(t, '+') && !("@@" <= t) }

  predicate Tame(s: string) { forall i :: 0 <= i < |Tails(s)| ==> Quiet(Tails(s)[i]) }

  /** A tail that is neither a name line nor a header; it may still be taken for an added line. */
  predicate Passing(t: string) { !("+++ " <= t) && !("@@" <= t) }

  predicate Mild(s: string) { forall i :: 0 <= i < |Tails(s)| ==> Passing(Tails(s)[i]) }

  /** How many of some pieces are counted as lines of the new file. */
  function Counted(pieces: seq<string>): nat
  {
    if pieces == [] then 0
    else (if Starts(pieces[0], '-') || Starts(pieces[0], '\\') then 0 else 1) + Counted(pieces[1..])
  }

  function Shift(s: string): nat { Counted(Tails(s)) }

  lemma TameBehind(a: string, s: string)
    requires NoBreak(a)
    ensures Tame(a + s) <==> Tame(s)
    ensures Shift(a + s) == Shift(s)
  {
    hide Tails;
    TailsBehind(a, s);
  }

  lemma TameWhole(s: string)
    requires NoBreak(s)
    ensures Tame(s) && Shift(s) == 0
  {
    PiecesAre(s);
  }

  lemma {:induction false} QuietRead(pieces: seq<string>, p: string, n: nat)
    requires forall i :: 0 <= i < |pieces| ==> Quiet(pieces[i])
    ensures Read(pieces, State(Some(p), n)) == []
    ensures Run(pieces, State(Some(p), n)) == State(Some(p), n + Counted(pieces))
  {
    hide HunkStart, NamedPath;
    if pieces != [] {
      var raw := pieces[0];
      PlusFirst(raw);
      QuietRead(pieces[1..], p, Step(raw, State(Some(p), n)).lineno);
    }
  }

  // ----- one line of a hunk

  function ShiftOf(m: Mark): nat
  {
    match m case Kept(t) => Shift(t) case Removed(t) => Shift(t) case _ => 0
  }

  /** An added line is not broken, and a broken line of another kind has no tail that yields. */
  predicate Readable(m: Mark)
  {
    match m case Kept(t) => Tame(t) case Removed(t) => Tame(t) case Added(t) => NoBreak(t) case NoNewline => true
  }

  function Cut(m: Mark): Mark
  {
    match m case Kept(t) => Kept(Head(t)) case Removed(t) => Removed(Head(t)) case _ => m
  }

  lemma MarkParts(m: Mark)
    requires Readable(m)
    ensures Pieces(PrintMark(m)) == [PrintMark(Cut(m))] + Tails(PrintMark(m))
    ensures Tame(PrintMark(m)) && Shift(PrintMark(m)) == ShiftOf(m)
  {
    hide Pieces, Tails, FindBreak;
    PiecesAre(PrintMark(m));
    match m
    case Kept(t) =>
      TailsBehind(" ", t);
      TameBehind(" ", t);
    case Removed(t) =>
      TailsBehind("-", t);
      TameBehind("-", t);
    case Added(t) =>
      assert NoBreak("+" + t);
      TameWhole("+" + t);
    case NoNewline =>
      assert NoBreak(PrintMark(m));
      TameWhole(PrintMark(m));
  }

  lemma CutReads(m: Mark, p: string, n: nat)
    requires !LooksLikeName(m)
    ensures Yield(PrintMark(Cut(m)), State(Some(p), n)) == AddedOf(p, InNew(m), n)
    ensures Step(PrintMark(Cut(m)), State(Some(p), n)) == State(Some(p), n + |InNew(m)|)
  {
    hide PrintMark, Step, Yield, Head, AddedOf;
    MarkRead(Cut(m), p, n);
    OneAdded(p, m, n);
    OneAdded(p, Cut(m), n);
  }

  lemma MarkPieces(m: Mark, p: string, n: nat)
    requires !LooksLikeName(m) && Readable(m)
    ensures Read(Pieces(PrintMark(m)), State(Some(p), n)) == AddedOf(p, InNew(m), n)
    ensures Run(Pieces(PrintMark(m)), State(Some(p), n)) == State(Some(p), n + |InNew(m)| + ShiftOf(m))
  {
    hide PrintMark, Tails, Pieces, AddedOf, InNew, Step, Yield, ShiftOf, Cut, LooksLikeName, Readable, Read, Run, Quiet;
    MarkParts(m);
    CutReads(m, p, n);
    var head, tails := PrintMark(Cut(m)), Tails(PrintMark(m));
    OneRead(head, State(Some(p), n));
    QuietRead(tails, p, n + |InNew(m)|);
    ReadConcat([head], tails, State(Some(p), n));
    assert AddedOf(p, InNew(m), n) + [] == AddedOf(p, InNew(m), n);
  }

  lemma OneRead(l: string, st: State)
    ensures Read([l], st) == Yield(l, st) && Run([l], st) == Step(l, st)
  {
    hide Yield, Step;
    assert [l][1..] == [];
    assert Yield(l, st) + [] == Yield(l, st);
  }

  /** What is read of a hunk's lines when the next one has number `n`. */
  function Numbered(p: string, body: seq<Mark>, n: nat): seq<Hit>
  {
    if body == [] then []
    else
      (if body[0].Added? then [Hit(p, n, body[0].text)] else [])
      + Numbered(p, body[1..], n + |InNew(body[0])| + ShiftOf(body[0]))
  }

  predicate ReadableBody(body: seq<Mark>) { forall i :: 0 <= i < |body| ==> Readable(body[i]) }

  lemma {:induction false} BodyPieces(body: seq<Mark>, p: string, n: nat)
    requires PlainBody(body) && ReadableBody(body)
    ensures Read(AllPieces(PrintBody(body)), State(Some(p), n)) == Numbered(p, body, n)
    ensures Run(AllPieces(PrintBody(body)), State(Some(p), n)).path == Some(p)
  {
    hide Pieces, PrintMark, LooksLikeName, Read, Run, Readable, ShiftOf, InNew, AddedOf;
    if body == [] {
      PiecesNone(State(Some(p), n));
    } else {
      var m := body[0];
      MarkPieces(m, p, n);
      OneAdded(p, m, n);
      assert PrintBody(body)[1..] == PrintBody(body[1..]);
      var next := n + |InNew(m)| + ShiftOf(m);
      BodyPieces(body[1..], p, next);
      ReadConcat(Pieces(PrintMark(m)), AllPieces(PrintBody(body[1..])), State(Some(p), n));
    }
  }

  lemma PiecesNone(st: State)
    ensures Read(AllPieces([]), st) == [] && Run(AllPieces([]), st) == st
  {
  }

  lemma OneAdded(p: string, m: Mark, n: nat)
    ensures AddedOf(p, InNew(m), n) == if m.Added? then [Hit(p, n, m.text)] else []
  {
    assert AddedOf(p, [], n + 1) == [];
    assert InNew(m) != [] ==> InNew(m)[1..] == [];
  }

  // ----- one hunk

  /** No line above an added line is counted more than once. */
  predicate Steady(body: seq<Mark>)
  {
    body == [] || ((ShiftOf(body[0]) == 0 || NoAdded(body[1..])) && Steady(body[1..]))
  }

  lemma {:induction false} NoAddedIsSteady(body: seq<Mark>)
    requires NoAdded(body)
    ensures Steady(body)
  {
    hide ShiftOf;
    if body != [] {
      NoAddedIs(body);
      NoAddedIsSteady(body[1..]);
    }
  }

  lemma {:induction false} NothingNumbered(p: string, body: seq<Mark>, n: nat)
    requires NoAdded(body)
    ensures Numbered(p, body, n) == []
  {
    hide ShiftOf;
    if body != [] {
      NoAddedIs(body);
      NothingNumbered(p, body[1..], n + |InNew(body[0])| + ShiftOf(body[0]));
    }
  }

  /** The number read for a hunk's next line is never too low; the hits are right exactly when it is
      right, the file is, and the body is steady, or when there is no hit. */
  lemma {:induction false} NumberedIs(q: string, p: string, body: seq<Mark>, n: nat, m: nat)
    requires m <= n
    ensures |Numbered(q, body, n)| == |AddedOf(p, NewSide(body), m)|
    ensures Numbered(q, body, n) == AddedOf(p, NewSide(body), m)
        <==> NoAdded(body) || (q == p && n == m && Steady(body))
    decreases |body|
  {
    hide ShiftOf, AddedOf, InNew, NoAdded;
    if body == [] {
      NoneAdded(p, m);
      assert NoAdded(body) by { NoneIsNoAdded(); }
    } else {
      var mark, rest := body[0], body[1..];
      var sh := ShiftOf(mark);
      var k := |InNew(mark)|;
      NumberedIs(q, p, rest, n + k + sh, m + k);
      AddedOfConcat(p, InNew(mark), NewSide(rest), m);
      OneAdded(p, mark, m);
      NoAddedIs(body);
      if NoAdded(rest) { NoAddedIsSteady(rest); }
      AddedShiftsNothing(mark);
      var x, y := Numbered(q, rest, n + k + sh), AddedOf(p, NewSide(rest), m + k);
      if mark.Added? {
        FirstHit(Hit(q, n, mark.text), Hit(p, m, mark.text), x, y);
      } else {
        assert [] + x == x && [] + y == y;
      }
    }
  }

  lemma NoneIsNoAdded()
    ensures NoAdded([])
  {
  }

  lemma AddedShiftsNothing(m: Mark)
    ensures m.Added? ==> ShiftOf(m) == 0 && |InNew(m)| == 1
  {
  }

  lemma FirstHit(a: Hit, b: Hit, x: seq<Hit>, y: seq<Hit>)
    ensures [a] + x == [b] + y <==> a == b && x == y
  {
    assert ([a] + x)[0] == a && ([b] + y)[0] == b && ([a] + x)[1..] == x && ([b] + y)[1..] == y;
  }

  predicate SteadyHunk(h: Hunk) { NoAdded(h.body) || (Shift(h.section) == 0 && Steady(h.body)) }

  predicate ReadableHunk(h: Hunk) { Tame(h.section) && ReadableBody(h.body) }

  lemma {:induction false} DecimalNoBreak(n: nat)
    ensures NoBreak(Decimal(n))
  {
    DecimalIs(n);
    hide Decimal;
  }

  function HeaderStart(h: Hunk, before: nat, after: nat): string
  {
    "@@ -" + (Range(before, OldLen(h.body)) + (" +" + (Range(after, |NewSide(h.body)|) + " @@")))
  }

  lemma HeaderNoBreak(h: Hunk, before: nat, after: nat)
    ensures NoBreak(HeaderStart(h, before, after))
    ensures PrintHeader(h, before, after) == HeaderStart(h, before, after) + h.section
  {
    hide Decimal, OldLen, NewSide;
    var b, o, a, n := before, OldLen(h.body), after, |NewSide(h.body)|;
    DecimalNoBreak(if o == 0 then b else b + 1);
    DecimalNoBreak(o);
    DecimalNoBreak(if n == 0 then a else a + 1);
    DecimalNoBreak(n);
    assert NoBreak(Range(b, o)) && NoBreak(Range(a, n));
    hide Range;
  }

  lemma HeaderLine(h: Hunk, p: string, ln: nat, before: nat, after: nat)
    ensures Yield(PrintHeader(h, before, after), State(Some(p), ln)) == []
    ensures Step(PrintHeader(h, before, after), State(Some(p), ln))
         == State(Some(p), if |NewSide(h.body)| == 0 then after else after + 1)
  {
    hide PrintHeader, HunkStart, NewSide;
    HeaderRead(h, before, after);
    var head := PrintHeader(h, before, after);
    assert head[0] == '@' by { assert head[..2] == "@@"; }
    OtherFirst(head);
  }

  /** A printed header is read by its head, and its tails are those of the section. */
  lemma HeaderPieces(h: Hunk, p: string, ln: nat, before: nat, after: nat)
    requires Tame(h.section)
    ensures var n := if |NewSide(h.body)| == 0 then after else after + 1;
            && Read(Pieces(PrintHeader(h, before, after)), State(Some(p), ln)) == []
            && Run(Pieces(PrintHeader(h, before, after)), State(Some(p), ln)) == State(Some(p), n + Shift(h.section))
  {
    hide PrintHeader, HeaderStart, Head, Tails, Pieces, Step, Yield, NewSide, Read, Run, Quiet;
    var line, cut := PrintHeader(h, before, after), h.(section := Head(h.section));
    HeaderNoBreak(h, before, after);
    HeaderNoBreak(cut, before, after);
    assert HeaderStart(cut, before, after) == HeaderStart(h, before, after) by { SameStart(h, cut, before, after); }
    TailsBehind(HeaderStart(h, before, after), h.section);
    PiecesAre(line);
    HeaderLine(cut, p, ln, before, after);
    OneRead(PrintHeader(cut, before, after), State(Some(p), ln));
    var n := if |NewSide(h.body)| == 0 then after else after + 1;
    QuietRead(Tails(line), p, n);
    ReadConcat([Head(line)], Tails(line), State(Some(p), ln));
  }

  lemma SameStart(h: Hunk, g: Hunk, before: nat, after: nat)
    requires h.body == g.body
    ensures HeaderStart(g, before, after) == HeaderStart(h, before, after)
  {
    hide Range, OldLen, NewSide;
  }

  lemma HunkPieces(h: Hunk, q: string, p: string, ln: nat, before: nat, after: nat)
    requires PlainBody(h.body) && ReadableHunk(h)
    ensures var lines := AllPieces([PrintHeader(h, before, after)] + PrintBody(h.body));
            && |Read(lines, State(Some(q), ln))| == |AddedOf(p, NewSide(h.body), after + 1)|
            && (Read(lines, State(Some(q), ln)) == AddedOf(p, NewSide(h.body), after + 1)
                <==> NoAdded(h.body) || (q == p && SteadyHunk(h)))
            && Run(lines, State(Some(q), ln)).path == Some(q)
  {
    hide AllPieces, Pieces, PrintHeader, PrintBody, Numbered, Read, Run, NewSide, AddedOf, Shift, Steady, NoAdded,
         Tame, ReadableBody, PlainBody;
    var head, n := PrintHeader(h, before, after), if |NewSide(h.body)| == 0 then after else after + 1;
    PiecesConcat([head], PrintBody(h.body));
    PiecesOne(head);
    HeaderPieces(h, q, ln, before, after);
    var at := n + Shift(h.section);
    BodyPieces(h.body, q, at);
    ReadConcat(Pieces(head), AllPieces(PrintBody(h.body)), State(Some(q), ln));
    assert [] + Numbered(q, h.body, at) == Numbered(q, h.body, at);
    if |NewSide(h.body)| == 0 {
      NoNewNoAdded(h.body);
      NothingNumbered(q, h.body, at);
      assert NewSide(h.body) == [];
      NoneAdded(p, after + 1);
    } else {
      NumberedIs(q, p, h.body, at, after + 1);
    }
  }

  lemma PiecesOne(l: string)
    ensures AllPieces([l]) == Pieces(l)
  {
    hide Pieces;
    assert [l][1..] == [];
    assert Pieces(l) + [] == Pieces(l);
  }

  lemma {:induction false} NoNewNoAdded(body: seq<Mark>)
    requires |NewSide(body)| == 0
    ensures NoAdded(body)
  {
    if body != [] {
      assert |InNew(body[0])| == 0 && |NewSide(body[1..])| == 0;
      NoNewNoAdded(body[1..]);
      NoAddedIs(body);
    }
  }

  // ----- hunks

  predicate ReadableHunks(hunks: seq<Hunk>) { forall i :: 0 <= i < |hunks| ==> ReadableHunk(hunks[i]) }

  /** Every hunk of file `p`, read as of file `q`, is read right. */
  predicate RightHunks(q: string, p: string, hunks: seq<Hunk>)
  {
    forall i :: 0 <= i < |hunks| ==> NoAdded(hunks[i].body) || (q == p && SteadyHunk(hunks[i]))
  }

  lemma {:induction false} HunksPieces(hunks: seq<Hunk>, q: string, p: string, ln: nat, before: nat, after: nat)
    requires PlainHunks(hunks) && ReadableHunks(hunks)
    ensures var lines := AllPieces(PrintHunks(hunks, before, after));
            && |Read(lines, State(Some(q), ln))| == |AddedOf(p, HunksImage(hunks), after + 1)|
            && (Read(lines, State(Some(q), ln)) == AddedOf(p, HunksImage(hunks), after + 1)
                <==> RightHunks(q, p, hunks))
    decreases |hunks|
  {
    hide AllPieces, AddedOf, Read, Run, PrintHeader, PrintBody, NewSide, OldLen, Unmarked, PlainBody, ReadableHunk,
         NoAdded, SteadyHunk, RightHunks;
    if hunks == [] {
      NoneAdded(p, after + 1);
      PiecesNone(State(Some(q), ln));
      assert RightHunks(q, p, []) by { NoHunksRight(q, p); }
    } else {
      var h := hunks[0];
      var b, a := before + |h.skip|, after + |h.skip|;
      var lines := [PrintHeader(h, b, a)] + PrintBody(h.body);
      var rest := PrintHunks(hunks[1..], b + OldLen(h.body), a + |NewSide(h.body)|);
      HunkPieces(h, q, p, ln, b, a);
      PiecesConcat(lines, rest);
      var st := State(Some(q), ln);
      ReadConcat(AllPieces(lines), AllPieces(rest), st);
      var ln' := Run(AllPieces(lines), st).lineno;
      HunksPieces(hunks[1..], q, p, ln', b + OldLen(h.body), a + |NewSide(h.body)|);
      ImageSplit(p, h, HunksImage(hunks[1..]), after + 1);
      HitsJoin(Read(AllPieces(lines), st), Read(AllPieces(rest), State(Some(q), ln')),
               AddedOf(p, NewSide(h.body), a + 1), AddedOf(p, HunksImage(hunks[1..]), a + |NewSide(h.body)| + 1));
      RightHunksIs(q, p, hunks);
    }
  }

  lemma NoHunksRight(q: string, p: string)
    ensures RightHunks(q, p, [])
  {
  }

  lemma RightHunksIs(q: string, p: string, hunks: seq<Hunk>)
    requires hunks != []
    ensures RightHunks(q, p, hunks)
       <==> (NoAdded(hunks[0].body) || (q == p && SteadyHunk(hunks[0]))) && RightHunks(q, p, hunks[1..])
  {
    hide NoAdded, SteadyHunk;
    assert forall i :: 0 < i < |hunks| ==> hunks[i] == hunks[1..][i - 1];
  }

  // ----- a file

  /** The name the reader takes a file for, its path cut at the first line break. */
  function ReadPath(p: string): string { NameOf(Head(p)) }

  /** A path is read right exactly when it is not broken and does not end in white space. */
  lemma PathRead(p: string)
    ensures NamedPath("+++ b/" + Head(p)) == Some(ReadPath(p)) && (ReadPath(p) == p <==> NoBreak(p) && Trimmed(p))
  {
    hide NamedPath, Trimmed, NameOf;
    NameRead(Head(p));
    if NoBreak(p) {
      FindBreakWhole(p);
      assert Head(p) == p;
    } else {
      FindBreakShort(p);
    }
  }

  lemma FindBreakShort(p: string)
    requires !NoBreak(p)
    ensures FindBreak(p) < |p|
  {
    assert p[..|p|] == p;
  }

  predicate Calm(ls: seq<string>) { forall i :: 0 <= i < |ls| ==> Tame(ls[i]) }

  /** No piece of calm lines looks like a name or a header when no line does. */
  lemma {:induction false} CalmPieces(ls: seq<string>)
    requires Calm(ls)
    ensures (forall i :: 0 <= i < |ls| ==> Quiet(ls[i])) ==> forall i :: 0 <= i < |AllPieces(ls)| ==>
        Quiet(AllPieces(ls)[i])
    ensures NoNames(ls) ==> NoNames(AllPieces(ls))
  {
    hide Pieces, Tails, FindBreak;
    if ls != [] {
      CalmPieces(ls[1..]);
      PiecesAre(ls[0]);
      HeadOf(ls[0]);
      forall i | 0 <= i < |Tails(ls[0])| ensures !("+++ " <= Tails(ls[0])[i]) {
        assert Quiet(Tails(ls[0])[i]);
        PlusFirst(Tails(ls[0])[i]);
      }
    }
  }

  /** A line's head looks like the line. */
  lemma HeadOf(l: string)
    ensures Quiet(l) ==> Quiet(Head(l))
    ensures "+++ " <= Head(l) <==> "+++ " <= l
    ensures Starts(Head(l), '+') ==> Starts(l, '+')
  {
    if "+++ " <= l {
      FindBreakBehind("+++ ", l[4..]);
      assert l == "+++ " + l[4..];
    }
    if "@@" <= Head(l) { assert l[..2] == Head(l)[..2]; }
  }

  /** The lines above a file's hunks have no tail that yields or looks like a header. */
  predicate ReadableTop(f: FileDiff) { Calm(f.extra) && Tame(f.oldName) && (f.path.Some? ==> Tame(f.path.value)) }

  predicate LegibleMark(m: Mark)
  {
    match m case Kept(t) => Mild(t) case Removed(t) => Mild(t) case Added(t) => NoBreak(t) case NoNewline => true
  }

  predicate LegibleHunk(h: Hunk) { Mild(h.section) && forall k :: 0 <= k < |h.body| ==> LegibleMark(h.body[k]) }

  /** No line below is taken for a name or a header. */
  predicate LegibleHunks(hunks: seq<Hunk>) { forall i :: 0 <= i < |hunks| ==> LegibleHunk(hunks[i]) }

  predicate LegibleFile(f: FileDiff) { ReadableTop(f) && LegibleHunks(f.hunks) }

  /** Nor for an added line, where the file has a name. */
  predicate ReadableFile(f: FileDiff) { LegibleFile(f) && (f.path.Some? ==> ReadableHunks(f.hunks)) }

  /** The file's name is not broken and does not end in white space, and no broken line makes a number
      wrong; a hunk that adds nothing does not matter. */
  predicate RightFile(f: FileDiff)
  {
    f.path.Some? ==> forall i :: 0 <= i < |f.hunks| ==>
      NoAdded(f.hunks[i].body) || (NoBreak(f.path.value) && Trimmed(f.path.value) && SteadyHunk(f.hunks[i]))
  }

  /** The three lines above a file's hunks, read from their pieces. */
  lemma NamesPieces(f: FileDiff, rest: seq<string>, st: State) returns (ln: nat)
    requires WellFormed(f) && ReadableTop(f)
    ensures Read(AllPieces((f.extra + ["--- " + f.oldName, NewName(f.path)]) + rest), st)
         == Read(AllPieces(rest), State(match f.path case None => None case Some(p) => Some(ReadPath(p)), ln))
  {
    var minus, plus := "--- " + f.oldName, NewName(f.path);
    var top := f.extra + [minus, plus];
    TopRead(f, st);
    hide NewName, ReadPath, Step, Yield, Read, Run, AllPieces, Pieces, Calm, Tame;
    PiecesConcat(top, rest);
    ReadConcat(AllPieces(top), AllPieces(rest), st);
    ln := Run(AllPieces(top), st).lineno;
    assert [] + Read(AllPieces(rest), Run(AllPieces(top), st)) == Read(AllPieces(rest), Run(AllPieces(top), st));
  }

  lemma TopRead(f: FileDiff, st: State)
    requires WellFormed(f) && ReadableTop(f)
    ensures var top := AllPieces(f.extra + ["--- " + f.oldName, NewName(f.path)]);
            && Read(top, st) == []
            && Run(top, st).path == match f.path case None => None case Some(p) => Some(ReadPath(p))
  {
    var minus, plus := "--- " + f.oldName, NewName(f.path);
    assert forall i :: 0 <= i < |f.extra| ==> Quiet(f.extra[i]);
    hide NewName, ReadPath, Read, Run, Pieces, Tame, AllPieces, Quiet;
    ExtraPieces(f.extra, st);
    var st1 := Run(AllPieces(f.extra), st);
    MinusPieces(f.oldName, st1);
    PlusPieces(f.path, Run(Pieces(minus), st1));
    PiecesConcat(f.extra, [minus, plus]);
    PiecesTwo(minus, plus);
    ReadConcat(AllPieces(f.extra), Pieces(minus) + Pieces(plus), st);
    ReadConcat(Pieces(minus), Pieces(plus), st1);
  }

  lemma PiecesTwo(x: string, y: string)
    ensures AllPieces([x, y]) == Pieces(x) + Pieces(y)
  {
    assert [x, y] == [x] + [y];
    PiecesConcat([x], [y]);
    PiecesOne(x);
    PiecesOne(y);
  }

  lemma ExtraPieces(extra: seq<string>, st: State)
    requires forall i :: 0 <= i < |extra| ==> Quiet(extra[i])
    requires Calm(extra)
    ensures Read(AllPieces(extra), st) == [] && Run(AllPieces(extra), st).path == st.path
  {
    CalmPieces(extra);
    hide AllPieces;
    assert forall i :: 0 <= i < |AllPieces(extra)| ==> Quiet(AllPieces(extra)[i]);
    ExtraRead(AllPieces(extra), st);
  }

  lemma MinusPieces(name: string, st: State)
    requires Tame(name)
    ensures Read(Pieces("--- " + name), st) == [] && Run(Pieces("--- " + name), st).path == st.path
  {
    var minus := "--- " + name;
    TameBehind("--- ", name);
    assert minus[0] == '-';
    assert Quiet(minus) by { OtherFirst(minus); }
    assert Calm([minus]);
    PiecesOne(minus);
    ExtraPieces([minus], st);
  }

  /** One line that yields nothing, with its tails. */
  lemma LinePieces(head: string, tails: seq<string>, p: string, st: State)
    requires Yield(head, st) == [] && Step(head, st).path == Some(p)
    requires forall i :: 0 <= i < |tails| ==> Quiet(tails[i])
    ensures Read([head] + tails, st) == [] && Run([head] + tails, st).path == Some(p)
  {
    hide Yield, Step, Quiet;
    assert ([head] + tails)[1..] == tails;
    QuietRead(tails, p, Step(head, st).lineno);
  }

  lemma PlusPieces(path: Option<string>, st: State)
    requires path.Some? ==> Tame(path.value)
    ensures Read(Pieces(NewName(path)), st) == []
    ensures Run(Pieces(NewName(path)), st).path == match path case None => None case Some(p) => Some(ReadPath(p))
  {
    hide ReadPath, Read, Run, Pieces, Tame;
    match path
    case None => GonePieces(st);
    case Some(p) => NamedPieces(p, st);
  }

  lemma NamedPieces(p: string, st: State)
    requires Tame(p)
    ensures Read(Pieces("+++ b/" + p), st) == []
    ensures Run(Pieces("+++ b/" + p), st).path == Some(ReadPath(p))
  {
    hide ReadPath, NamedPath, Read, Run, FindBreak;
    TailsBehind("+++ b/", p);
    PiecesAre("+++ b/" + p);
    PathRead(p);
    var head := "+++ b/" + Head(p);
    hide Head, Tails, Pieces;
    assert head[..4] == "+++ ";
    LinePieces(head, Tails(p), ReadPath(p), st);
  }

  lemma GonePieces(st: State)
    ensures Read(Pieces("+++ /dev/null"), st) == [] && Run(Pieces("+++ /dev/null"), st).path == None
  {
    hide Pieces, Read, Run, NamedPath, Tails, Head, FindBreak;
    var plus := "+++ /dev/null";
    assert NoBreak(plus);
    PiecesAre(plus);
    NullRead();
    OneRead(plus, st);
    assert plus[..4] == "+++ ";
  }

  /** A file's lines, from their pieces: as many hits as it has added lines, and the right ones exactly
      when the file is right. */
  lemma FilePieces(f: FileDiff, st: State)
    requires WellFormed(f) && PlainHunks(f.hunks) && ReadableFile(f)
    ensures |Read(AllPieces(PrintFile(f)), st)| == |ExpectedOf(f)|
    ensures Read(AllPieces(PrintFile(f)), st) == ExpectedOf(f) <==> RightFile(f)
  {
    hide AllPieces, Read, PrintFile, PlainHunks, Image, AddedOf, NoAdded, SteadyHunk, NoBreak;
    if f.hunks == [] {
      PlainFile(f, st);
    } else if f.path.None? {
      GoneFile(f, st);
    } else {
      NamedFile(f, f.path.value, st);
    }
  }

  /** A file without hunks. */
  lemma PlainFile(f: FileDiff, st: State)
    requires WellFormed(f) && ReadableTop(f) && f.hunks == []
    ensures Read(AllPieces(PrintFile(f)), st) == ExpectedOf(f) == []
  {
    assert forall i :: 0 <= i < |f.extra| ==> Quiet(f.extra[i]);
    hide AllPieces, Read, Run, Image, AddedOf, Calm, Quiet;
    if f.path.Some? { ImageOfHunks(f, f.path.value); }
    assert f.extra + [] == f.extra;
    ExtraPieces(f.extra, st);
  }

  lemma NamedParts(f: FileDiff, p: string)
    requires WellFormed(f) && ReadableFile(f) && f.path == Some(p)
    ensures ReadableTop(f) && ReadableHunks(f.hunks) && ExpectedOf(f) == AddedOf(p, Image(f), 1)
  {
  }

  lemma RightFileIs(f: FileDiff, p: string, q: string)
    requires f.path == Some(p) && (q == p <==> NoBreak(p) && Trimmed(p))
    ensures RightFile(f) <==> RightHunks(q, p, f.hunks)
  {
    hide NoAdded, SteadyHunk, NoBreak, Trimmed;
  }

  lemma NamedFile(f: FileDiff, p: string, st: State)
    requires WellFormed(f) && PlainHunks(f.hunks) && ReadableFile(f) && f.hunks != [] && f.path == Some(p)
    ensures |Read(AllPieces(PrintFile(f)), st)| == |ExpectedOf(f)|
    ensures Read(AllPieces(PrintFile(f)), st) == ExpectedOf(f) <==> RightFile(f)
  {
    hide Trimmed, ExpectedOf, AllPieces, Read, PrintFile, PrintHunks, Image, AddedOf, HunksImage, ReadPath, WellFormed,
         PlainHunks, ReadableFile, ReadableTop, ReadableHunks, NoBreak, RightFile, RightHunks;
    NamedParts(f, p);
    var ln := BelowTop(f, st);
    PathRead(p);
    RightFileIs(f, p, ReadPath(p));
    ImageOfHunks(f, p);
    HunksPieces(f.hunks, ReadPath(p), p, ln, 0, 0);
  }

  lemma BelowTop(f: FileDiff, st: State) returns (ln: nat)
    requires WellFormed(f) && ReadableTop(f) && f.hunks != []
    ensures Read(AllPieces(PrintFile(f)), st)
         == Read(AllPieces(PrintHunks(f.hunks, 0, 0)),
                 State(match f.path case None => None case Some(p) => Some(ReadPath(p)), ln))
  {
    hide AllPieces, Read, WellFormed, ReadableTop, PrintHunks, NewName, ReadPath;
    var names, hunks := ["--- " + f.oldName, NewName(f.path)], PrintHunks(f.hunks, 0, 0);
    ln := NamesPieces(f, hunks, st);
    AppendAssoc(f.extra, names, hunks);
  }

  lemma GoneFile(f: FileDiff, st: State)
    requires WellFormed(f) && PlainHunks(f.hunks) && LegibleFile(f) && f.hunks != [] && f.path.None?
    ensures Read(AllPieces(PrintFile(f)), st) == []
  {
    hide AllPieces, Read, WellFormed, ReadableTop, PrintHunks, HunksImage, NoNames, LegibleHunks, PlainHunks, TameHunks;
    var ln := BelowTop(f, st);
    HunksMore(f.hunks, 0, 0);
    NoneYielded(AllPieces(PrintHunks(f.hunks, 0, 0)), State(None, ln));
  }

  // ----- what is yielded at most once, and what more

  lemma MildBehind(a: string, s: string)
    requires NoBreak(a)
    ensures Mild(a + s) <==> Mild(s)
  {
    hide Tails;
    TailsBehind(a, s);
  }

  lemma {:induction false} PlusesQuiet(ts: seq<string>)
    requires forall i :: 0 <= i < |ts| ==> Passing(ts[i])
    ensures Pluses(ts) == 0 <==> forall i :: 0 <= i < |ts| ==> Quiet(ts[i])
  {
    if ts != [] {
      PlusesQuiet(ts[1..]);
      assert forall i :: 0 < i < |ts| ==> ts[i] == ts[1..][i - 1];
    }
  }

  /** The pieces of a line that is no name line: its head's plus, and one more when it is not tame. */
  lemma LineMore(l: string)
    requires Mild(l) && !("+++ " <= l)
    ensures NoNames(Pieces(l)) && Pluses(Pieces(l)) >= Pluses([l]) + if Tame(l) then 0 else 1
  {
    hide Tails, Pieces, Head, FindBreak;
    PiecesAre(l);
    HeadOf(l);
    HeadStarts(l);
    PlusesConcat([Head(l)], Tails(l));
    PlusesQuiet(Tails(l));
    assert [l][1..] == [] && [Head(l)][1..] == [];
  }

  lemma HeadStarts(l: string)
    ensures Starts(l, '+') ==> Starts(Head(l), '+')
  {
    if Starts(l, '+') {
      FindBreakBehind("+", l[1..]);
      assert l == "+" + l[1..];
    }
  }

  lemma MarkLine(m: Mark)
    requires LegibleMark(m)
    ensures Mild(PrintMark(m)) && (Tame(PrintMark(m)) <==> TameMark(m))
  {
    hide Tails, Mild, Tame;
    match m
    case Kept(t) =>
      MildBehind(" ", t);
      TameBehind(" ", t);
    case Removed(t) =>
      MildBehind("-", t);
      TameBehind("-", t);
    case Added(t) =>
      assert NoBreak("+" + t);
      TameWhole("+" + t);
      TameIsMild("+" + t);
    case NoNewline =>
      assert NoBreak(PrintMark(m));
      TameWhole(PrintMark(m));
      TameIsMild(PrintMark(m));
  }

  lemma MarkMore(m: Mark)
    requires LegibleMark(m) && !LooksLikeName(m)
    ensures NoNames(Pieces(PrintMark(m)))
    ensures Pluses(Pieces(PrintMark(m))) >= Count(InNew(m)) + if TameMark(m) then 0 else 1
  {
    FirstOf(m);
    OtherFirst(PrintMark(m));
    if m.Added? { PrintsLikeName(m.text); }
    assert !("+++ " <= PrintMark(m));
    hide Pieces, PrintMark, Pluses, LegibleMark, TameMark, Mild, Tame, Count, LooksLikeName, InNew;
    MarkLine(m);
    MarkPluses(m);
    MarkCounts(m);
    LineMore(PrintMark(m));
  }

  lemma MarkCounts(m: Mark)
    requires !LooksLikeName(m)
    ensures Pluses([PrintMark(m)]) == Count(InNew(m))
  {
    MarkPluses(m);
  }

  lemma TameIsMild(s: string)
    requires Tame(s)
    ensures Mild(s)
  {
    hide Tails;
    forall i | 0 <= i < |Tails(s)| ensures Passing(Tails(s)[i]) {
      assert Quiet(Tails(s)[i]);
      PlusFirst(Tails(s)[i]);
    }
  }

  lemma {:induction false} BodyMore(body: seq<Mark>)
    requires PlainBody(body) && forall k :: 0 <= k < |body| ==> LegibleMark(body[k])
    ensures NoNames(AllPieces(PrintBody(body)))
    ensures Pluses(AllPieces(PrintBody(body))) >= Count(NewSide(body)) + if TameBody(body) then 0 else 1
  {
    hide Pieces, PrintMark, LooksLikeName, LegibleMark, TameMark, Pluses, Count, InNew;
    if body == [] {
      NonePluses();
    } else {
      MarkMore(body[0]);
      BodyMore(body[1..]);
      assert PrintBody(body)[1..] == PrintBody(body[1..]);
      var first, rest := Pieces(PrintMark(body[0])), AllPieces(PrintBody(body[1..]));
      NoNamesConcat(first, rest);
      PlusesConcat(first, rest);
      CountConcat(InNew(body[0]), NewSide(body[1..]));
      assert forall k :: 0 < k < |body| ==> body[k] == body[1..][k - 1];
    }
  }

  lemma HeaderMore(h: Hunk, before: nat, after: nat)
    requires Mild(h.section)
    ensures var pieces := Pieces(PrintHeader(h, before, after));
            NoNames(pieces) && Pluses(pieces) >= if Tame(h.section) then 0 else 1
  {
    hide Pieces, Pluses, Mild, Tame, HeaderStart;
    HeaderNoBreak(h, before, after);
    MildBehind(HeaderStart(h, before, after), h.section);
    TameBehind(HeaderStart(h, before, after), h.section);
    HeaderFirst(h, before, after);
    HeaderPluses(h, before, after);
    hide PrintHeader;
    assert !("+++ " <= [PrintHeader(h, before, after)][0]);
    LineMore(PrintHeader(h, before, after));
  }

  /** Of a hunk's lines at least the added ones look added, and one more when a tail does. */
  lemma HunkMore(h: Hunk, before: nat, after: nat)
    requires PlainBody(h.body) && LegibleHunk(h)
    ensures var pieces := AllPieces([PrintHeader(h, before, after)] + PrintBody(h.body));
            NoNames(pieces) && Pluses(pieces) >= Count(NewSide(h.body)) + if TameHunk(h) then 0 else 1
  {
    hide AllPieces, Pieces, PrintHeader, PrintBody, Pluses, Count, NoNames, Tame, Mild, TameBody, PlainBody,
         LegibleMark;
    var head := PrintHeader(h, before, after);
    HeaderMore(h, before, after);
    BodyMore(h.body);
    PiecesOne(head);
    PiecesConcat([head], PrintBody(h.body));
    PlusesConcat(Pieces(head), AllPieces(PrintBody(h.body)));
    NoNamesConcat(Pieces(head), AllPieces(PrintBody(h.body)));
  }

  lemma {:induction false} HunksMore(hunks: seq<Hunk>, before: nat, after: nat)
    requires PlainHunks(hunks) && LegibleHunks(hunks)
    ensures var pieces := AllPieces(PrintHunks(hunks, before, after));
            NoNames(pieces) && Pluses(pieces) >= Count(HunksImage(hunks)) + if TameHunks(hunks) then 0 else 1
    decreases |hunks|
  {
    hide PrintHeader, PrintBody, NewSide, OldLen, Unmarked, PlainBody, Count, Pluses, NoNames, LegibleHunk, TameHunk,
         Pieces;
    if hunks == [] {
      NonePluses();
      assert NoNames([]) by { NoneNamed(); }
    } else {
      var h := hunks[0];
      var b, a := before + |h.skip|, after + |h.skip|;
      var lines := [PrintHeader(h, b, a)] + PrintBody(h.body);
      var rest := PrintHunks(hunks[1..], b + OldLen(h.body), a + |NewSide(h.body)|);
      hide AllPieces;
      HunkMore(h, b, a);
      HunksMore(hunks[1..], b + OldLen(h.body), a + |NewSide(h.body)|);
      PiecesConcat(lines, rest);
      PlusesConcat(AllPieces(lines), AllPieces(rest));
      NoNamesConcat(AllPieces(lines), AllPieces(rest));
      CountUnmarked(h.skip);
      CountConcat(Unmarked(h.skip), NewSide(h.body));
      CountConcat(Unmarked(h.skip) + NewSide(h.body), HunksImage(hunks[1..]));
      assert forall i :: 0 < i < |hunks| ==> hunks[i] == hunks[1..][i - 1];
    }
  }

  lemma NoneNamed()
    ensures NoNames([])
  {
  }

  /** In a file with a name every line that looks added is yielded. */
  lemma {:induction false} YieldsAll(lines: seq<string>, st: State)
    requires st.path.Some? && NoNames(lines)
    ensures |Read(lines, st)| == Pluses(lines)
  {
    hide HunkStart, NamedPath;
    if lines != [] {
      OtherFirst(lines[0]);
      YieldsAll(lines[1..], Step(lines[0], st));
    }
  }

  lemma CountOfFile(f: FileDiff, p: string)
    requires f.path == Some(p)
    ensures |ExpectedOf(f)| == Count(HunksImage(f.hunks))
  {
    hide Count, HunksImage, Unmarked, AddedOf;
    CountIs(p, Image(f), 1);
    CountUnmarked(f.tail);
    CountConcat(HunksImage(f.hunks), Unmarked(f.tail));
  }

  /** Of a file at least as many lines are yielded as it has added ones, and more when a tail in a file
      with a name is taken for an added line. */
  lemma FileMore(f: FileDiff, st: State)
    requires WellFormed(f) && PlainHunks(f.hunks) && LegibleFile(f)
    ensures |Read(AllPieces(PrintFile(f)), st)| >= |ExpectedOf(f)| + if TameNamed(f) then 0 else 1
  {
    hide AllPieces, Read, PrintFile, PrintHunks, PlainHunks, Image, AddedOf, HunksImage, Count, Pluses, NoNames,
         TameHunk, ReadPath,
         LegibleHunks, WellFormed, ReadableTop;
    if f.hunks == [] {
      PlainFile(f, st);
    } else if f.path.None? {
      GoneFile(f, st);
    } else {
      var ln := BelowTop(f, st);
      HunksMore(f.hunks, 0, 0);
      YieldsAll(AllPieces(PrintHunks(f.hunks, 0, 0)), State(Some(ReadPath(f.path.value)), ln));
      CountOfFile(f, f.path.value);
    }
  }

  // ----- whole diffs

  predicate ReadableFiles(files: seq<FileDiff>) { forall i :: 0 <= i < |files| ==> ReadableFile(files[i]) }

  predicate RightFiles(files: seq<FileDiff>) { forall i :: 0 <= i < |files| ==> RightFile(files[i]) }

  lemma {:induction false} FilesPieces(files: seq<FileDiff>, st: State)
    requires AllWellFormed(files) && Plain(files) && ReadableFiles(files)
    ensures |Read(AllPieces(Print(files)), st)| == |Expected(files)|
    ensures Read(AllPieces(Print(files)), st) == Expected(files) <==> RightFiles(files)
  {
    hide WellFormed, PlainHunks, ReadableFile, RightFile, PrintFile, AddedOf, Image, Read, Run, AllPieces;
    if files == [] {
      PiecesNone(st);
    } else {
      var first, rest := AllPieces(PrintFile(files[0])), AllPieces(Print(files[1..]));
      FilePieces(files[0], st);
      PiecesConcat(PrintFile(files[0]), Print(files[1..]));
      ReadConcat(first, rest, st);
      FilesPieces(files[1..], Run(first, st));
      assert Expected(files) == ExpectedOf(files[0]) + Expected(files[1..]);
      HitsJoin(Read(first, st), Read(rest, Run(first, st)), ExpectedOf(files[0]), Expected(files[1..]));
      assert RightFiles(files) <==> RightFile(files[0]) && RightFiles(files[1..]) by {
        assert forall i :: 0 < i < |files| ==> files[i] == files[1..][i - 1];
      }
    }
  }

  // ----- broken added lines

  predicate UnbrokenBody(body: seq<Mark>) { forall i :: 0 <= i < |body| ==> body[i].Added? ==> NoBreak(body[i].text) }

  predicate UnbrokenHunks(hunks: seq<Hunk>) { forall i :: 0 <= i < |hunks| ==> UnbrokenBody(hunks[i].body) }

  /** No added line holds a line break. */
  predicate Unbroken(files: seq<FileDiff>) { forall i :: 0 <= i < |files| ==> UnbrokenHunks(files[i].hunks) }

  /** What the text of a hit is: without a line break, and not `++ ` in front. */
  predicate Proper(t: string) { NoBreak(t) && !("++ " <= t) }

  predicate AllClean(hits: seq<Hit>) { forall i :: 0 <= i < |hits| ==> Proper(hits[i].text) }

  lemma CleanJoin(x: seq<Hit>, y: seq<Hit>)
    ensures AllClean(x + y) <==> AllClean(x) && AllClean(y)
  {
    if AllClean(x + y) {
      forall i | 0 <= i < |x| ensures Proper(x[i].text) { assert (x + y)[i] == x[i]; }
      forall i | 0 <= i < |y| ensures Proper(y[i].text) { assert (x + y)[|x| + i] == y[i]; }
    }
  }

  /** Whatever lines without a break are read, a hit's text is proper. */
  lemma {:induction false} ReadClean(lines: seq<string>, st: State)
    requires forall i :: 0 <= i < |lines| ==> NoBreak(lines[i])
    ensures AllClean(Read(lines, st))
  {
    hide Step;
    if lines != [] {
      YieldClean(lines[0], st);
      hide Yield;
      ReadClean(lines[1..], Step(lines[0], st));
      CleanJoin(Yield(lines[0], st), Read(lines[1..], Step(lines[0], st)));
    }
  }

  lemma YieldClean(raw: string, st: State)
    requires NoBreak(raw)
    ensures AllClean(Yield(raw, st))
  {
    if Yield(raw, st) != [] {
      PrintsLikeName(raw[1..]);
      assert raw == "+" + raw[1..];
    }
  }

  lemma MarkClean(p: string, m: Mark, n: nat)
    ensures AllClean(AddedOf(p, InNew(m), n)) <==> (m.Added? ==> Proper(m.text))
  {
    OneAdded(p, m, n);
    if m.Added? { assert [Hit(p, n, m.text)][0].text == m.text; }
  }

  lemma {:induction false} BodyClean(p: string, body: seq<Mark>, n: nat)
    ensures AllClean(AddedOf(p, NewSide(body), n)) <==> UnbrokenBody(body) && PlainBody(body)
  {
    hide AddedOf, InNew, NoBreak;
    if body == [] {
      NoneAdded(p, n);
    } else {
      MarkClean(p, body[0], n);
      BodyClean(p, body[1..], n + |InNew(body[0])|);
      AddedOfConcat(p, InNew(body[0]), NewSide(body[1..]), n);
      CleanJoin(AddedOf(p, InNew(body[0]), n), AddedOf(p, NewSide(body[1..]), n + |InNew(body[0])|));
      assert forall i :: 0 < i < |body| ==> body[i] == body[1..][i - 1];
    }
  }

  lemma {:induction false} HunksClean(p: string, hunks: seq<Hunk>, n: nat)
    ensures AllClean(AddedOf(p, HunksImage(hunks), n)) <==> UnbrokenHunks(hunks) && PlainHunks(hunks)
  {
    hide AddedOf, NewSide, UnbrokenBody, PlainBody, AllClean, Unmarked;
    if hunks == [] {
      NoneAdded(p, n);
      assert AllClean([]) by { NoneClean(); }
    } else {
      var h := hunks[0];
      var m := n + |h.skip|;
      BodyClean(p, h.body, m);
      HunksClean(p, hunks[1..], m + |NewSide(h.body)|);
      ImageSplit(p, h, HunksImage(hunks[1..]), n);
      CleanJoin(AddedOf(p, NewSide(h.body), m), AddedOf(p, HunksImage(hunks[1..]), m + |NewSide(h.body)|));
      assert forall i :: 0 < i < |hunks| ==> hunks[i] == hunks[1..][i - 1];
    }
  }

  lemma NoneClean()
    ensures AllClean([])
  {
  }

  lemma {:induction false} GoneUnbroken(hunks: seq<Hunk>)
    requires HunksImage(hunks) == []
    ensures UnbrokenHunks(hunks) && PlainHunks(hunks)
  {
    NoneAdded("", 0);
    NoneClean();
    HunksClean("", hunks, 0);
  }

  lemma FileClean(f: FileDiff)
    requires WellFormed(f)
    ensures AllClean(ExpectedOf(f)) <==> UnbrokenHunks(f.hunks) && PlainHunks(f.hunks)
  {
    assert f.path.None? ==> HunksImage(f.hunks) == [];
    hide HunksImage, AddedOf, Image, UnbrokenHunks, PlainHunks;
    match f.path
    case None =>
      GoneUnbroken(f.hunks);
      NoneClean();
    case Some(p) =>
      ImageOfHunks(f, p);
      HunksClean(p, f.hunks, 1);
  }

  lemma {:induction false} ExpectedClean(files: seq<FileDiff>)
    requires AllWellFormed(files)
    ensures AllClean(Expected(files)) <==> Unbroken(files) && Plain(files)
  {
    hide WellFormed, AddedOf, Image, UnbrokenHunks, PlainHunks, AllClean;
    if files == [] {
      NoneClean();
    } else {
      FileClean(files[0]);
      ExpectedClean(files[1..]);
      assert Expected(files) == ExpectedOf(files[0]) + Expected(files[1..]);
      CleanJoin(ExpectedOf(files[0]), Expected(files[1..]));
      assert forall i :: 0 < i < |files| ==> files[i] == files[1..][i - 1];
    }
  }

  /** An added line with a line break in it, or with `++ ` in front, is always misread, whatever else
      the diff holds. */
  lemma BrokenAddedIsMisread(files: seq<FileDiff>)
    requires AllWellFormed(files) && !(Unbroken(files) && Plain(files))
    ensures Read(Splitlines(Lines(Print(files))), START) != Expected(files)
  {
    hide Read, Print, Expected, Splitlines, Lines, Unbroken, Plain, WellFormed, AllClean;
    PiecesHaveNoBreak(Lines(Print(files)));
    ReadClean(Splitlines(Lines(Print(files))), START);
    ExpectedClean(files);
  }

  lemma {:induction false} PiecesHaveNoBreak(s: string)
    ensures forall i :: 0 <= i < |Splitlines(s)| ==> NoBreak(Splitlines(s)[i])
    decreases |s|
  {
    if s != [] {
      var k := FindBreak(s);
      assert s[..|s|] == s;
      if k < |s| { PiecesHaveNoBreak(s[if "\r\n" <= s[k..] then k + 2 else k + 1..]); }
    }
  }

  // ----- the exact condition

  /** Broken lines, added ones apart, have no tail that could be taken for an added line or a header. */
  predicate TameMark(m: Mark) { match m case Kept(t) => Tame(t) case Removed(t) => Tame(t) case _ => true }

  predicate TameBody(body: seq<Mark>) { forall k :: 0 <= k < |body| ==> TameMark(body[k]) }

  predicate TameHunk(h: Hunk) { Tame(h.section) && TameBody(h.body) }

  predicate TameHunks(hunks: seq<Hunk>) { forall i :: 0 <= i < |hunks| ==> TameHunk(hunks[i]) }

  /** In a file with a name, no broken line has a tail that could be taken for an added one. */
  predicate TameNamed(f: FileDiff) { f.path.Some? ==> TameHunks(f.hunks) }

  predicate TameFiles(files: seq<FileDiff>) { forall i :: 0 <= i < |files| ==> TameNamed(files[i]) }

  predicate MildMark(m: Mark) { match m case Kept(t) => Mild(t) case Removed(t) => Mild(t) case _ => true }

  predicate MildHunk(h: Hunk) { Mild(h.section) && forall k :: 0 <= k < |h.body| ==> MildMark(h.body[k]) }

  /** No tail of a broken line, added ones apart, could be taken for a name line or a header; nor, above
      the hunks, for an added line. */
  predicate MildFile(f: FileDiff) { ReadableTop(f) && forall i :: 0 <= i < |f.hunks| ==> MildHunk(f.hunks[i]) }

  predicate MildFiles(files: seq<FileDiff>) { forall i :: 0 <= i < |files| ==> MildFile(files[i]) }

  predicate LegibleFiles(files: seq<FileDiff>) { forall i :: 0 <= i < |files| ==> LegibleFile(files[i]) }

  lemma MildIsLegible(files: seq<FileDiff>)
    requires MildFiles(files) && Unbroken(files)
    ensures LegibleFiles(files)
  {
    hide Mild, NoBreak, ReadableTop;
    forall i | 0 <= i < |files| ensures LegibleFile(files[i]) {
      var f := files[i];
      assert MildFile(f) && UnbrokenHunks(f.hunks);
      forall j | 0 <= j < |f.hunks| ensures LegibleHunk(f.hunks[j]) {
        var h := f.hunks[j];
        assert UnbrokenBody(h.body) && MildHunk(h);
        forall k | 0 <= k < |h.body| ensures LegibleMark(h.body[k]) { assert MildMark(h.body[k]); }
      }
    }
  }

  lemma TameIsReadable(files: seq<FileDiff>)
    requires LegibleFiles(files) && TameFiles(files) && Unbroken(files)
    ensures ReadableFiles(files)
  {
    hide Tame, NoBreak, LegibleFile;
    forall i | 0 <= i < |files| ensures ReadableFile(files[i]) {
      var f := files[i];
      assert LegibleFile(f) && TameNamed(f) && UnbrokenHunks(f.hunks);
      forall j | 0 <= j < |f.hunks| && f.path.Some? ensures ReadableHunk(f.hunks[j]) {
        var h := f.hunks[j];
        assert UnbrokenBody(h.body) && TameHunk(h);
        forall k | 0 <= k < |h.body| ensures Readable(h.body[k]) { assert TameMark(h.body[k]); }
      }
    }
  }

  lemma {:induction false} FilesMore(files: seq<FileDiff>, st: State)
    requires AllWellFormed(files) && Plain(files) && LegibleFiles(files)
    ensures |Read(AllPieces(Print(files)), st)| >= |Expected(files)| + if TameFiles(files) then 0 else 1
  {
    hide WellFormed, PlainHunks, LegibleFile, TameNamed, PrintFile, AddedOf, Image, Read, Run, AllPieces;
    if files == [] {
      PiecesNone(st);
    } else {
      var first, rest := AllPieces(PrintFile(files[0])), AllPieces(Print(files[1..]));
      FileMore(files[0], st);
      PiecesConcat(PrintFile(files[0]), Print(files[1..]));
      ReadConcat(first, rest, st);
      FilesMore(files[1..], Run(first, st));
      assert Expected(files) == ExpectedOf(files[0]) + Expected(files[1..]);
      assert forall i :: 0 < i < |files| ==> files[i] == files[1..][i - 1];
    }
  }

  /** From the text of a diff in which no tail of a broken line looks like a name line or a header,
      exactly the added lines are read with their numbers exactly when no added line is broken or begins
      with `++ `, no tail in a file with a name looks like an added line, and no broken name, name that
      ends in white space, nor broken line above an added line counts. */
  lemma TextReadsExactly(files: seq<FileDiff>)
    requires AllWellFormed(files) && MildFiles(files)
    ensures Read(Splitlines(Lines(Print(files))), START) == Expected(files)
       <==> Plain(files) && Unbroken(files) && TameFiles(files) && RightFiles(files)
  {
    hide Read, Print, Expected, Splitlines, Lines, Unbroken, WellFormed, MildFile, LegibleFile, TameFiles, Plain,
         RightFiles,
         ReadableFile, AllPieces;
    if !(Unbroken(files) && Plain(files)) {
      BrokenAddedIsMisread(files);
    } else {
      MildIsLegible(files);
      SplitIsPieces(Print(files));
      if TameFiles(files) {
        TameIsReadable(files);
        FilesPieces(files, START);
      } else {
        FilesMore(files, START);
      }
    }
  }

  /** No line but added ones holds a line break. */
  predicate OnlyAddedBroken(files: seq<FileDiff>)
  {
    forall i :: 0 <= i < |files| ==>
      var f := files[i];
      && NoBreak(f.oldName) && (f.path.Some? ==> NoBreak(f.path.value))
      && (forall k :: 0 <= k < |f.extra| ==> NoBreak(f.extra[k]))
      && forall j :: 0 <= j < |f.hunks| ==> SolidHunk(f.hunks[j])
  }

  predicate SolidHunk(h: Hunk)
  {
    NoBreak(h.section) && forall k :: 0 <= k < |h.body| ==> Solid(h.body[k])
  }

  predicate Solid(m: Mark) { match m case Kept(t) => NoBreak(t) case Removed(t) => NoBreak(t) case _ => true }

  lemma SolidIsTame(m: Mark)
    requires Solid(m)
    ensures TameMark(m) && ShiftOf(m) == 0
  {
    hide Tails;
    match m
    case Kept(t) => TameWhole(t);
    case Removed(t) => TameWhole(t);
    case _ =>
  }

  lemma {:induction false} SolidIsSteady(body: seq<Mark>)
    requires forall k :: 0 <= k < |body| ==> Solid(body[k])
    ensures Steady(body)
  {
    hide ShiftOf, Solid, NoAdded;
    if body != [] {
      SolidIsTame(body[0]);
      SolidIsSteady(body[1..]);
    }
  }

  lemma SolidHunkIs(h: Hunk)
    requires SolidHunk(h)
    ensures MildHunk(h) && TameHunk(h) && SteadyHunk(h)
  {
    hide Tails, Shift, Tame, Mild, Steady, NoAdded, Solid;
    TameWhole(h.section);
    TameIsMild(h.section);
    SolidIsSteady(h.body);
    forall k | 0 <= k < |h.body| ensures TameMark(h.body[k]) && MildMark(h.body[k]) {
      SolidIsTame(h.body[k]);
      MarkMild(h.body[k]);
    }
  }

  lemma MarkMild(m: Mark)
    requires TameMark(m)
    ensures MildMark(m)
  {
    hide Tame, Mild;
    match m
    case Kept(t) => TameIsMild(t);
    case Removed(t) => TameIsMild(t);
    case _ =>
  }

  lemma SolidFile(f: FileDiff)
    requires NoBreak(f.oldName) && (f.path.Some? ==> NoBreak(f.path.value))
    requires (forall k :: 0 <= k < |f.extra| ==> NoBreak(f.extra[k])) && forall j :: 0 <= j < |f.hunks| ==>
        SolidHunk(f.hunks[j])
    ensures MildFile(f) && TameNamed(f) && (RightFile(f) <==> RightName(f))
  {
    hide SolidHunk, MildHunk, TameHunk, SteadyHunk, Tails, Tame, NoBreak, NoAdded, Trimmed;
    TameWhole(f.oldName);
    if f.path.Some? { TameWhole(f.path.value); }
    forall k | 0 <= k < |f.extra| ensures Tame(f.extra[k]) { TameWhole(f.extra[k]); }
    forall j | 0 <= j < |f.hunks| ensures MildHunk(f.hunks[j]) && TameHunk(f.hunks[j]) && SteadyHunk(f.hunks[j]) {
      SolidHunkIs(f.hunks[j]);
    }
  }

  /** Where line breaks stand in added lines only, the text is read right exactly when none does, no
      added line begins with `++ ` and no name of a file that is added to ends in white space. */
  lemma BreaksInAddedLines(files: seq<FileDiff>)
    requires AllWellFormed(files) && OnlyAddedBroken(files)
    ensures Read(Splitlines(Lines(Print(files))), START) == Expected(files)
       <==> Plain(files) && Unbroken(files) && RightNames(files)
  {
    hide Read, Print, Expected, Splitlines, Lines, Unbroken, WellFormed, Plain, NoBreak, SolidHunk, MildFile,
         TameNamed, RightFile,
         RightName;
    forall i | 0 <= i < |files|
      ensures MildFile(files[i]) && TameNamed(files[i]) && (RightFile(files[i]) <==> RightName(files[i]))
    {
      SolidFile(files[i]);
    }
    TextReadsExactly(files);
  }

  /** `splitlines` gives back the lines a diff was printed with exactly when none of them holds a line
      break of another kind. */
  lemma SplitGivesLines(files: seq<FileDiff>)
    ensures Splitlines(Lines(Print(files))) == Print(files)
       <==> forall i :: 0 <= i < |Print(files)| ==> NoBreak(Print(files)[i])
  {
    hide Print, Lines, Splitlines, NoBreak;
    PiecesHaveNoBreak(Lines(Print(files)));
    if forall i :: 0 <= i < |Print(files)| ==> NoBreak(Print(files)[i]) {
      SplitlinesOfLines(Print(files));
    }
  }

  // ----- failing inputs

  /** A break in a text, what follows it being neither white space's nor a mark's. */
  lemma OneTail(x: string, c: char, y: string)
    requires NoBreak(x) && IsBreak(c) && NoBreak(y) && (c == '\r' ==> y != [])
    ensures Pieces(x + ([c] + y)) == [x, y] && Tails(x + ([c] + y)) == [y]
  {
    var l, t := x + ([c] + y), y + "\n";
    assert l + "\n" == x + ([c] + t);
    assert y != [] ==> t[0] == y[0] && !IsBreak(y[0]);
    FirstPiece(x, c, t);
    PiecesAre(y);
  }

  /** What is read of an added line below a broken one: its number is higher by the pieces that count. */
  lemma BrokenLineShifts(m: Mark, z: string, p: string, n: nat)
    requires !m.Added? && TameMark(m) && NoBreak(z) && !("++ " <= z)
    ensures var body := [m, Added(z)];
            && AddedOf(p, NewSide(body), n) == [Hit(p, n + |InNew(m)|, z)]
            && Read(Splitlines(Lines(PrintBody(body))), State(Some(p), n)) == [Hit(p, n + |InNew(m)| + ShiftOf(m), z)]
  {
    hide Splitlines, Lines, AllPieces, PrintMark, Tame, NoBreak, ShiftOf, PrintBody, Read, AddedOf, NewSide;
    var body, last := [m, Added(z)], [Added(z)];
    assert Readable(m) && Readable(Added(z));
    SplitIsPieces(PrintBody(body));
    BodyPieces(body, p, n);
    NumberedTwo(m, z, p, n);
    NewOfTwo(m, z, p, n);
  }

  lemma NumberedTwo(m: Mark, z: string, p: string, n: nat)
    requires !m.Added?
    ensures Numbered(p, [m, Added(z)], n) == [Hit(p, n + |InNew(m)| + ShiftOf(m), z)]
  {
    hide ShiftOf, InNew;
    var body, last := [m, Added(z)], [Added(z)];
    assert body[1..] == last && last[1..] == [];
    assert Numbered(p, last, n + |InNew(m)| + ShiftOf(m)) == [Hit(p, n + |InNew(m)| + ShiftOf(m), z)];
  }

  lemma NewOfTwo(m: Mark, z: string, p: string, n: nat)
    requires !m.Added?
    ensures AddedOf(p, NewSide([m, Added(z)]), n) == [Hit(p, n + |InNew(m)|, z)]
  {
    var body, last := [m, Added(z)], [Added(z)];
    assert body[1..] == last && last[1..] == [];
    var one := [NewLine(z, true)];
    assert NewSide(last) == one && one[1..] == [];
    OneAdded(p, m, n);
    AddedOfConcat(p, InNew(m), one, n);
    assert AddedOf(p, one, n + |InNew(m)|) == [Hit(p, n + |InNew(m)|, z)];
    hide AddedOf;
  }

  lemma FormFeedTail()
    ensures Tame("x\U{c}y") && Shift("x\U{c}y") == 1
  {
    var t := "x\U{c}y";
    assert t == "x" + (['\U{c}'] + "y");
    OneTail("x", '\U{c}', "y");
    assert Quiet("y");
    hide Tails;
    assert Tails(t) == ["y"] && ["y"][1..] == [];
  }

  /** Of an added line with a break in it, only the text in front of the break is read: what follows is
      in no hit, and the next line is numbered one too high. */
  lemma BrokenAddedIsCut(x: string, c: char, y: string, p: string, n: nat)
    requires NoBreak(x) && IsBreak(c) && NoBreak(y) && (c == '\r' ==> y != []) && !("++ " <= x)
    requires Quiet(y) && !Starts(y, '-') && !Starts(y, '\\')
    ensures var body := [Added(x + ([c] + y))];
            && AddedOf(p, NewSide(body), n) == [Hit(p, n, x + ([c] + y))]
            && Read(Splitlines(Lines(PrintBody(body))), State(Some(p), n)) == [Hit(p, n, x)]
            && Run(Splitlines(Lines(PrintBody(body))), State(Some(p), n)).lineno == n + 2
  {
    hide Splitlines, Lines, Pieces, Tails, AllPieces, AddedOf, FindBreak;
    var t := x + ([c] + y);
    AddedAlone(t, p, n);
    SplitIsPieces(["+" + t]);
    PiecesOne("+" + t);
    assert "+" + t == ("+" + x) + ([c] + y);
    OneTail("+" + x, c, y);
    CutRead(x, y, p, n);
    assert ["+" + x] + [y] == ["+" + x, y];
  }

  lemma AddedAlone(t: string, p: string, n: nat)
    ensures PrintBody([Added(t)]) == ["+" + t] && AddedOf(p, NewSide([Added(t)]), n) == [Hit(p, n, t)]
  {
    var body := [Added(t)];
    assert body[1..] == [];
    OneAdded(p, Added(t), n);
    assert InNew(Added(t)) + NewSide([]) == InNew(Added(t));
  }

  lemma CutRead(x: string, y: string, p: string, n: nat)
    requires !("++ " <= x) && Quiet(y) && !Starts(y, '-') && !Starts(y, '\\')
    ensures Read(["+" + x] + [y], State(Some(p), n)) == [Hit(p, n, x)]
    ensures Run(["+" + x] + [y], State(Some(p), n)).lineno == n + 2
  {
    MarkRead(Added(x), p, n);
    OneAdded(p, Added(x), n);
    var tails := [y];
    assert tails[1..] == [] && Counted(tails) == 1;
    hide Yield, Step, AddedOf;
    OneRead("+" + x, State(Some(p), n));
    QuietRead(tails, p, n + 1);
    ReadConcat(["+" + x], tails, State(Some(p), n));
    assert [Hit(p, n, x)] + [] == [Hit(p, n, x)];
  }

  /** A diff of one file that exists, its only hunk at its top. */
  function OneFile(body: seq<Mark>): seq<FileDiff>
  {
    [FileDiff([], "a/f", Some("f"), [Hunk([], body, "")], [])]
  }

  /** What each condition says of such a diff. */
  lemma OneFileIs(body: seq<Mark>)
    ensures AllWellFormed(OneFile(body)) && (Plain(OneFile(body)) <==> PlainBody(body))
    ensures Unbroken(OneFile(body)) <==> UnbrokenBody(body)
  {
    var files, hunks := OneFile(body), [Hunk([], body, "")];
    assert files[0].hunks == hunks && hunks[0].body == body;
    hide PlainBody, UnbrokenBody, Image;
    assert PlainHunks(hunks) <==> PlainBody(body);
    assert UnbrokenHunks(hunks) <==> UnbrokenBody(body);
  }

  lemma OneFileMild(body: seq<Mark>)
    requires forall k :: 0 <= k < |body| ==> MildMark(body[k])
    ensures MildFiles(OneFile(body))
  {
    TameWhole("");
    TameIsMild("");
    TameWhole("f");
    TameWhole("a/f");
    hide Tame, Mild, MildMark;
    var f := OneFile(body)[0];
    assert f.hunks[0].body == body;
    assert MildFile(f);
  }

  lemma OneFileRight(body: seq<Mark>)
    ensures RightFiles(OneFile(body)) <==> NoAdded(body) || Steady(body)
  {
    TameWhole("");
    hide Shift, NoAdded, Steady;
    var f := OneFile(body)[0];
    assert f.hunks[0].body == body && NoBreak("f") && Trimmed("f");
    assert RightFile(f) <==> NoAdded(body) || SteadyHunk(f.hunks[0]);
  }

  /** An added line that begins with `++ ` is not read: a whole diff in which that happens. */
  lemma PlusPlusIsMissed()
    ensures var files := OneFile([Added("++ y")]);
            && AllWellFormed(files) && Unbroken(files)
            && Read(Print(files), START) != Expected(files)
            && Read(Splitlines(Lines(Print(files))), START) != Expected(files)
  {
    var body := [Added("++ y")];
    assert "++ y"[..3] == "++ ";
    assert LooksLikeName(body[0]) && UnbrokenBody(body);
    hide Read, Print, Expected, Splitlines, Lines, Plain, Unbroken, RightNames, OneFile, WellFormed;
    OneFileIs(body);
    ReadsExactlyWhenPlain(OneFile(body));
    BrokenAddedIsMisread(OneFile(body));
  }

  /** A file whose name ends in a space: a whole diff whose added line is yielded for another name. */
  lemma SpacedNameIsMisread()
    ensures var files := [FileDiff([], "a/f ", Some("f "), [Hunk([], [Added("x")], "")], [])];
            AllWellFormed(files) && Plain(files) && Read(Print(files), START) != Expected(files)
  {
    var hunks := [Hunk([], [Added("x")], "")];
    var files := [FileDiff([], "a/f ", Some("f "), hunks, [])];
    assert "x"[0] != "++ "[0] && PlainBody(hunks[0].body);
    assert hunks[0].body[0].Added? && !NothingAdded(hunks);
    hide Read, Print, Expected;
    assert "f "[|"f "| - 1] == ' ' && !Trimmed("f ");
    assert !RightName(files[0]);
    ReadsExactlyWhenPlain(files);
  }

  /** A form feed in a removed line: a whole diff, as printed without context, that is misread. */
  lemma RemovedFormFeedIsMisread()
    ensures var files := OneFile([Removed("x\U{c}y"), Added("z")]);
            && AllWellFormed(files) && Plain(files) && Unbroken(files)
            && Read(Splitlines(Lines(Print(files))), START) != Expected(files)
  {
    var body := [Removed("x\U{c}y"), Added("z")];
    FormFeedTail();
    TameIsMild("x\U{c}y");
    hide Read, Print, Expected, Splitlines, Lines, Plain, Unbroken, OneFile, WellFormed, Tame, Mild, Shift,
         RightFiles, TameFiles,
         MildFiles;
    assert PlainBody(body) && UnbrokenBody(body);
    assert body[1..][0].Added? && body[1].Added?;
    assert !Steady(body) && !NoAdded(body);
    OneFileIs(body);
    OneFileMild(body);
    OneFileRight(body);
    TextReadsExactly(OneFile(body));
  }

  /** A form feed in an added line: likewise. */
  lemma AddedFormFeedIsMisread()
    ensures var files := OneFile([Added("x\U{c}y")]);
            AllWellFormed(files) && Plain(files) && Read(Splitlines(Lines(Print(files))), START) != Expected(files)
  {
    var t := "x\U{c}y";
    var body := [Added(t)];
    assert IsBreak(t[1]) && !NoBreak(t);
    assert !UnbrokenBody(body) by { assert body[0].Added?; }
    assert PlainBody(body) by { assert t[0] != "++ "[0]; }
    hide Read, Print, Expected, Splitlines, Lines, Plain, Unbroken, OneFile, WellFormed;
    OneFileIs(body);
    BrokenAddedIsMisread(OneFile(body));
  }

  /** A tail that looks like a header can make the number right by chance, so the exact condition is
      about tame breaks. */
  lemma RightByChance(p: string)
    ensures var body := [Removed("x\U{c}@@ -1 +1"), Added("z")];
            && !Steady(body)
            && Read(Splitlines(Lines(PrintBody(body))), State(Some(p), 1)) == [Hit(p, 1, "z")]
                == AddedOf(p, NewSide(body), 1)
  {
    hide NoBreak, Steady, Read, Splitlines, Lines, PrintBody, AddedOf, NewSide, Starts;
    var tail, t := "@@ -1 +1", "x\U{c}@@ -1 +1";
    ChanceText(tail, t);
    ChanceHeader();
    ChanceRead(tail, p);
    ChanceShift(t, tail);
    ChancePieces(t, tail);
    NewOfTwo(Removed(t), "z", p, 1);
  }

  lemma ChanceText(tail: string, t: string)
    requires tail == "@@ -1 +1" && t == "x\U{c}@@ -1 +1"
    ensures t == "x" + (['\U{c}'] + tail) && "-" + t == "-x" + (['\U{c}'] + tail)
    ensures NoBreak(tail) && NoBreak("+z") && Starts(tail, '@')
  {
  }

  lemma ChanceShift(t: string, tail: string)
    requires t == "x" + (['\U{c}'] + tail) && NoBreak(tail) && Starts(tail, '@')
    ensures !Steady([Removed(t), Added("z")])
  {
    hide Pieces, FindBreak;
    OneTail("x", '\U{c}', tail);
    hide Tails;
    var one, body, last := [tail], [Removed(t), Added("z")], [Added("z")];
    assert one[1..] == [] && Counted(one) == 1;
    assert body[1..] == last && last[0].Added?;
  }

  lemma ChancePieces(t: string, tail: string)
    requires "-" + t == "-x" + (['\U{c}'] + tail) && NoBreak(tail)
    ensures Splitlines(Lines(PrintBody([Removed(t), Added("z")]))) == ["-x", tail, "+z"]
  {
    hide Splitlines, Lines, AllPieces, Pieces, Tails, FindBreak, Head;
    var body, last := [Removed(t), Added("z")], [Added("z")];
    assert body[1..] == last && last[1..] == [];
    assert PrintBody(last) == ["+z"] by { assert "+" + "z" == "+z"; }
    assert PrintBody(body) == ["-" + t, "+z"];
    SplitIsPieces(["-" + t, "+z"]);
    PiecesTwo("-" + t, "+z");
    OneTail("-x", '\U{c}', tail);
    assert NoBreak("+z");
    PiecesAre("+z");
    assert ["-x", tail] + ["+z"] == ["-x", tail, "+z"];
  }

  lemma ChanceHeader()
    ensures HunkStart("@@ -1 +1") == Some(1)
  {
    var s := "@@ -1 +1";
    var r, u, d := "1 +1", " +1", "1";
    assert s[4..] == r && r[1..] == u && u[2..] == d && d[1..] == "";
    assert DigitLen(d) == 1 && d[..1] == d;
    assert DigitLen(r) == 1 by { assert !IsDigitChar(u[0]); }
    assert !Starts(u, ',');
    assert NumberOf(d) == 1 by { assert d[..0] == ""; }
  }

  lemma ChanceRead(tail: string, p: string)
    requires "@@" <= tail && HunkStart(tail) == Some(1)
    ensures Read(["-x", tail, "+z"], State(Some(p), 1)) == [Hit(p, 1, "z")]
  {
    hide HunkStart, NamedPath;
    var all, two, last := ["-x", tail, "+z"], [tail, "+z"], ["+z"];
    assert all[1..] == two && two[1..] == last && last[1..] == [];
    OtherFirst("-x");
    assert tail[0] == '@' by { assert tail[..2] == "@@"; }
    OtherFirst(tail);
    OtherFirst("+z");
    PrintsLikeName("z");
    assert "+" + "z" == "+z" && "+z"[1..] == "z";
    var st := State(Some(p), 1);
    assert Yield("-x", st) == [] && Step("-x", st) == st;
    assert Yield(tail, st) == [] && Step(tail, st) == st;
    assert Yield("+z", st) == [Hit(p, 1, "z")];
    hide Yield, Step;
    OneRead("+z", st);
  }
}
