/** The calls the scan reports, by the lines they stand on: the line numbers of the stripped text, and
    those of the source. */
module PortabilityCalls {
  import opened Wrappers
  import opened PyText
  import opened Portability
  import opened PortabilityProofs
  import Lexer

  // ----- stripped lines and raw lines

  function Stripped(text: string): (r: string)
    ensures |r| == |text|
  {
    Lexer.Lex(text, Lexer.Code)
  }

  /** Number of the line that holds offset `p`, from 0. */
  function LineOf(text: string, p: nat): nat
    requires p <= |text|
  {
    Breaks(text[..p])
  }

  /** Offset of the first character of line `i`. */
  function Offset(lines: seq<string>, i: nat): nat
    requires i <= |lines|
  {
    if i == 0 then 0 else Offset(lines, i - 1) + |lines[i - 1]| + 1
  }

  /** As many lines, each as long as the other. */
  predicate SameLines(x: seq<string>, y: seq<string>)
  {
    |x| == |y| && forall i :: 0 <= i < |x| ==> |x[i]| == |y[i]|
  }

  lemma {:induction false} SameBreaksSameLines(x: string, y: string)
    requires Lexer.SameBreaks(x, y)
    ensures SameLines(Split(x), Split(y))
    decreases |x|
  {
    BeforeNewline(x, 0);
    BeforeNewline(y, 0);
    var k := FindNewline(x, 0);
    assert FindNewline(y, 0) == k;
    if k < |x| {
      SameBreaksSameLines(x[k + 1..], y[k + 1..]);
    }
  }

  /** When no break is added, as many breaks are the same breaks. */
  lemma {:induction false} SameCountSameBreaks(x: string, y: string)
    requires |x| == |y| && (forall i :: 0 <= i < |x| ==> (y[i] == '\n' ==> x[i] == '\n')) && Breaks(x) == Breaks(y)
    ensures Lexer.SameBreaks(x, y)
  {
    if x != [] {
      FewerBreaks(y[1..], x[1..]);
      SameCountSameBreaks(x[1..], y[1..]);
      forall i | 0 <= i < |x| ensures x[i] == '\n' <==> y[i] == '\n' {
        if i > 0 { assert x[i] == x[1..][i - 1] && y[i] == y[1..][i - 1]; }
      }
    }
  }

  /** The stripped text has the source's lines, as many and each as long, exactly when it has as many,
      and exactly when no literal holds a backslash before a line break. */
  lemma LinesCorrespond(text: string)
    ensures SameLines(Split(text), Split(Stripped(text))) <==> !Lexer.SplicedLiteral(text, Lexer.Code)
    ensures |Split(text)| == |Split(Stripped(text))| <==> !Lexer.SplicedLiteral(text, Lexer.Code)
  {
    hide Split, Breaks;
    var r := Stripped(text);
    Lexer.LexKeepsBreaks(text, Lexer.Code);
    StrippedLines(text, Lexer.Code);
    LinesAndBreaks(text);
    LinesAndBreaks(r);
    if !Lexer.SplicedLiteral(text, Lexer.Code) {
      SameBreaksSameLines(text, r);
    }
    if |Split(text)| == |Split(r)| {
      SameCountSameBreaks(text, r);
    }
  }

  lemma {:induction false} OffsetShifts(line: string, rest: seq<string>, i: nat)
    requires 0 < i <= 1 + |rest|
    ensures Offset([line] + rest, i) == |line| + 1 + Offset(rest, i - 1)
  {
    if i > 1 { OffsetShifts(line, rest, i - 1); }
  }

  /** The columns of line `i` are on line `i`. */
  lemma {:induction false} LineOfOffset(text: string, i: nat, c: nat)
    requires i < |Split(text)| && c <= |Split(text)[i]|
    ensures Offset(Split(text), i) + c <= |text| && LineOf(text, Offset(Split(text), i) + c) == i
    decreases |text|
  {
    hide Breaks;
    var k := FindNewline(text, 0);
    BeforeNewline(text, 0);
    if i == 0 {
      NoBreaks(text[..c]);
    } else {
      var rest := text[k + 1..];
      OffsetShifts(text[..k], Split(rest), i);
      LineOfOffset(rest, i - 1, c);
      BelowFirst(text, k, Offset(Split(rest), i - 1) + c);
    }
  }

  lemma BelowFirst(text: string, k: nat, p: nat)
    requires k < |text| && text[k] == '\n' && (forall j :: 0 <= j < k ==> text[j] != '\n') && k + 1 + p <= |text|
    ensures LineOf(text, k + 1 + p) == 1 + LineOf(text[k + 1..], p)
  {
    var line, feed, rest := text[..k], ['\n'], text[k + 1..][..p];
    assert text[..k + 1 + p] == line + (feed + rest);
    BreaksAdd(line, feed + rest);
    NoBreaks(line);
    assert (feed + rest)[1..] == rest;
  }

  /** Up to any offset the source has at least the breaks of the stripped text, and as many when no
      literal is spliced. */
  lemma RawLineIsLater(text: string, p: nat)
    requires p <= |text|
    ensures LineOf(Stripped(text), p) <= LineOf(text, p) < |Split(text)|
    ensures !Lexer.SplicedLiteral(text, Lexer.Code) ==> LineOf(Stripped(text), p) == LineOf(text, p)
  {
    hide Split;
    var r := Stripped(text);
    StrippedLines(text, Lexer.Code);
    FewerBreaks(r[..p], text[..p]);
    assert text == text[..p] + text[p..];
    BreaksAdd(text[..p], text[p..]);
    LinesAndBreaks(text);
    Lexer.LexKeepsBreaks(text, Lexer.Code);
    if !Lexer.SplicedLiteral(text, Lexer.Code) { FewerBreaks(text[..p], r[..p]); }
  }

  // ----- the calls of a line

  /** A call found at a column is in the list of the line's calls: none is skipped with another. */
  lemma {:induction false} CallIsListed(line: string, i: nat, c: nat)
    requires i <= c < |line| && CallAt(line, c).Some?
    ensures CallAt(line, c).value.0 in Calls(line, i)
    decreases |line| - i
  {
    if i < c {
      match CallAt(line, i)
      case None => CallIsListed(line, i + 1, c);
      case Some((name, end)) =>
        CallsApart(line, i, c);
        CallIsListed(line, end, c);
    }
  }

  lemma CallsApart(line: string, i: nat, c: nat)
    requires i < c < |line| && CallAt(line, i).Some? && CallAt(line, c).Some?
    ensures CallAt(line, i).value.1 <= c
  {
    hide MISSING;
    var w := WordLen(line[i..]);
    var after := SkipSpace(line[i + w..]);
    var end := |line| - |after| + 1;
    assert forall j :: i <= j < i + w ==> IsWordChar(line[j]) by {
      assert forall j :: i <= j < i + w ==> line[j] == line[i..][j - i];
    }
    assert c >= i + w;
    if c < end {
      NotSpaceYet(line[i + w..], c - i - w);
      assert line[c] == line[i + w..][c - i - w];
      assert !IsWordChar(line[c]);
      NoCallHere(line, c);
    }
  }

  /** In front of what is left are spaces, and the first character left follows them. */
  lemma {:induction false} NotSpaceYet(s: string, i: nat)
    requires i < |s| && i <= |s| - |SkipSpace(s)|
    ensures i < |s| - |SkipSpace(s)| ==> IsSpace(s[i])
    ensures i == |s| - |SkipSpace(s)| ==> s[i] == SkipSpace(s)[0]
  {
    if i > 0 { NotSpaceYet(s[1..], i - 1); }
  }

  // ----- the reported calls

  lemma {:induction false} CollectHas(lines: seq<string>, ss: seq<Status>, raws: seq<string>, n: nat, i: nat, h: Hit)
    requires i < n <= |lines| == |ss| && |lines| <= |raws| && ss[i].Read? && h in LineHits(lines[i], raws[i], i)
    ensures h in Collect(lines, ss, raws, n)
  {
    hide LineHits;
    if i < n - 1 { CollectHas(lines, ss, raws, n - 1, i, h); }
  }

  lemma {:induction false} CollectOnly(lines: seq<string>, ss: seq<Status>, raws: seq<string>, n: nat, h: Hit)
    requires n <= |lines| == |ss| && |lines| <= |raws| && h in Collect(lines, ss, raws, n)
    ensures 0 < h.line <= n && ss[h.line - 1].Read?
    ensures h.name in Calls(lines[h.line - 1], 0) && !Contains(raws[h.line - 1], ESCAPE)
  {
    hide Calls, Contains;
    if h in Collect(lines, ss, raws, n - 1) { CollectOnly(lines, ss, raws, n - 1, h); }
  }

  /** What the scan says of a listed call by the number of its stripped line: it is reported there
      exactly when the line is read and the raw line of that number carries no escape. */
  lemma CallByIndex(text: string, i: nat, name: string)
    requires i < |Split(Stripped(text))| && name in Calls(Split(Stripped(text))[i], 0)
    ensures i < |Split(text)|
    ensures Hit(i + 1, name) in Hits(text)
       <==> Scan(Split(Stripped(text)), [], false)[i].Read? && !Contains(Split(text)[i], ESCAPE)
  {
    RawLineExists(text);
    hide Scan, Calls, Split, Contains;
    var lines, raws := Split(Stripped(text)), Split(text);
    var ss := Scan(lines, [], false);
    if ss[i].Read? && !Contains(raws[i], ESCAPE) {
      var k :| 0 <= k < |Calls(lines[i], 0)| && Calls(lines[i], 0)[k] == name;
      assert LineHits(lines[i], raws[i], i)[k] == Hit(i + 1, name);
      CollectHas(lines, ss, raws, |lines|, i, Hit(i + 1, name));
    }
    if Hit(i + 1, name) in Hits(text) {
      CollectOnly(lines, ss, raws, |lines|, Hit(i + 1, name));
    }
  }

  /** A listed call at column `c` of stripped line `i`, which stands on the source's line `at`. A call
      Windows compiles is reported under the stripped line's number unless the raw line of that number
      carries the escape, and when every condition is decided no other call is. That line is the
      call's own exactly when no line break above the call is lost, and always when no literal is
      spliced; otherwise it is an earlier one. */
  lemma EveryLiveCallIsReported(text: string, g: Group, env: Env, i: nat, c: nat)
    requires LinesOf(g) == Split(Stripped(text)) && WellFormed(g) && AllSpelled(g) && Windows(env)
    requires i < |LinesOf(g)| && c < |LinesOf(g)[i]| && CallAt(LinesOf(g)[i], c).Some?
    ensures i < |Split(text)| && Offset(LinesOf(g), i) + c < |text|
    ensures var hit, marked := Hit(i + 1, CallAt(LinesOf(g)[i], c).value.0), Contains(Split(text)[i], ESCAPE);
            && (Fates(g, true, 0, env)[i] == Kept && !marked ==> hit in Hits(text))
            && (hit in Hits(text) ==> !marked && (Decided(g) ==> Fates(g, true, 0, env)[i] == Kept))
    ensures var at := LineOf(text, Offset(LinesOf(g), i) + c);
            && i <= at < |Split(text)|
            && (!Lexer.SplicedLiteral(text, Lexer.Code) ==> at == i)
  {
    hide Scan, Fates, LinesOf, Calls, CallAt, Split, Contains, WellFormed, AllSpelled, Windows, Decided, Hits, Stripped,
         LineOf, Offset;
    var lines := LinesOf(g);
    CallIsListed(lines[i], 0, c);
    CallByIndex(text, i, CallAt(lines[i], c).value.0);
    ScanIsSound(g, env, Decided(g));
    LineOfOffset(Stripped(text), i, c + 1);
    LineOfOffset(Stripped(text), i, c);
    RawLineIsLater(text, Offset(lines, i) + c);
  }

  // ----- a call that is not reported

  const CALL: string := "fork();"

  function Comment(): string { "/portability: ok" }

  /** The second line: the end of a string, and a comment. */
  function Ending(): string { "\"" + ("/" + Comment()) }

  /** A string continued on a second line, which ends in a comment, and a call below. */
  function Spliced(): string { "\"\\" + ("\n" + (Ending() + ("\n" + CALL))) }

  lemma SplitFirst(line: string, rest: string)
    requires OneLine(line)
    ensures Split(line + ("\n" + rest)) == [line] + Split(rest)
  {
    var s := line + ("\n" + rest);
    BeforeNewline(s, 0);
    assert s[|line|] == '\n';
    var k := FindNewline(s, 0);
    assert forall j :: 0 <= j < |line| ==> s[j] == line[j];
    assert k == |line|;
    assert s[..k] == line && s[k + 1..] == rest;
  }

  lemma SplitLast(line: string)
    requires OneLine(line)
    ensures Split(line) == [line]
  {
    BeforeNewline(line, 0);
  }

  lemma {:induction false} LexLine(s: string, rest: string)
    requires OneLine(s)
    ensures Lexer.Lex(s + ("\n" + rest), Lexer.Line) == Lexer.Spaces(|s|) + ("\n" + Lexer.Lex(rest, Lexer.Code))
  {
    var t := s + ("\n" + rest);
    if s == [] {
      assert t == "\n" + rest && t[1..] == rest;
    } else {
      assert t[1..] == s[1..] + ("\n" + rest);
      LexLine(s[1..], rest);
      assert " " + Lexer.Spaces(|s| - 1) == Lexer.Spaces(|s|);
    }
  }

  lemma {:induction false} NoCalls(line: string, i: nat)
    requires i <= |line| && forall k :: 0 <= k < |line| ==> !IsWordChar(line[k])
    ensures Calls(line, i) == []
    decreases |line| - i
  {
    if i < |line| {
      NoCallHere(line, i);
      NoCalls(line, i + 1);
    }
  }

  lemma OnOneLine()
    ensures OneLine("\"\\") && OneLine(Comment()) && OneLine(Ending()) && OneLine(CALL) && OneLine(Blanked())
    ensures "/" <= Comment() && |Comment()| == 16
  {
  }

  lemma SplicedLines()
    ensures Split(Spliced()) == ["\"\\", Ending(), CALL]
  {
    OnOneLine();
    hide Ending, CALL, Split;
    SplitFirst("\"\\", Ending() + ("\n" + CALL));
    SplitFirst(Ending(), CALL);
    SplitLast(CALL);
  }

  /** The literal and the comment, blanked: the break inside the literal is gone. */
  function Blanked(): string { "\"  \"" + (" " + Lexer.Spaces(16)) }

  lemma Regroup(comment: string, rest: string)
    ensures "\"\\" + ("\n" + (("\"" + ("/" + comment)) + ("\n" + rest)))
         == "\"\\\n\"" + ("/" + (comment + ("\n" + rest)))
  {
  }

  lemma SplicedStripped()
    ensures Stripped(Spliced()) == Blanked() + ("\n" + CALL)
  {
    OnOneLine();
    CodeKept();
    hide Comment, CALL, Lexer.Lex, Lexer.Spaces;
    var tail := Comment() + ("\n" + CALL);
    Regroup(Comment(), CALL);
    LexLiteral("/" + tail);
    LexComment(Comment(), CALL);
    BlankedJoin(Lexer.Spaces(16), CALL);
  }

  lemma BlankedJoin(spaces: string, rest: string)
    ensures "\"  \"" + (" " + (spaces + ("\n" + rest))) == "\"  \"" + (" " + spaces) + ("\n" + rest)
  {
  }

  lemma LexLiteral(tail: string)
    ensures Lexer.Lex("\"\\\n\"" + tail, Lexer.Code) == "\"  \"" + Lexer.Lex(tail, Lexer.Code)
  {
    var s := "\"\\\n\"" + tail;
    assert s[1..] == "\\\n\"" + tail && s[1..][2..] == "\"" + tail && ("\"" + tail)[1..] == tail;
    assert Lexer.Lex("\"" + tail, Lexer.Literal('\"')) == "\"" + Lexer.Lex(tail, Lexer.Code);
    assert Lexer.Lex(s[1..], Lexer.Literal('\"')) == "  " + ("\"" + Lexer.Lex(tail, Lexer.Code));
  }

  lemma LexComment(comment: string, rest: string)
    requires OneLine(comment) && "/" <= comment
    ensures Lexer.Lex("/" + (comment + ("\n" + rest)), Lexer.Code)
         == " " + (Lexer.Spaces(|comment|) + ("\n" + Lexer.Lex(rest, Lexer.Code)))
  {
    var s := "/" + (comment + ("\n" + rest));
    assert s[1..] == comment + ("\n" + rest) && s[..2] == "//";
    LexLine(comment, rest);
  }

  lemma CodeKept()
    ensures Lexer.Lex(CALL, Lexer.Code) == CALL
  {
    LexPlain(CALL);
  }

  lemma {:induction false} LexPlain(s: string)
    requires forall i :: 0 <= i < |s| ==> s[i] != '/' && !Lexer.IsQuote(s[i])
    ensures Lexer.Lex(s, Lexer.Code) == s
  {
    if s != [] { LexPlain(s[1..]); }
  }

  lemma BlankedLines()
    ensures Split(Stripped(Spliced())) == [Blanked(), CALL]
  {
    OnOneLine();
    SplicedStripped();
    hide Blanked, CALL, Split, Stripped, Spliced;
    SplitFirst(Blanked(), CALL);
    SplitLast(CALL);
  }

  lemma EscapeOn()
    ensures Contains(Ending(), ESCAPE)
  {
    assert Ending()[3..] == ESCAPE;
  }

  lemma CallOfCall()
    ensures Calls(CALL, 0) == ["fork"]
  {
    ForkIsCalled();
  }

  lemma EscapeOff()
    ensures !Contains(CALL, ESCAPE)
  {
  }

  lemma PlainLines()
    ensures Of(Blanked()).Plain? && Of(CALL).Plain?
  {
    GluedText();
    BlankedStart();
    hide Strip;
  }

  lemma BlankedStart()
    ensures Strip(Blanked()) != [] && Strip(Blanked())[0] == '\"'
  {
    var b := Blanked();
    assert SkipSpace(b) == b;
    StartStays(b);
  }

  lemma {:induction false} StartStays(s: string)
    requires s != [] && !IsSpace(s[0])
    ensures TrimEnd(s) != [] && TrimEnd(s)[0] == s[0]
  {
    if IsSpace(s[|s| - 1]) { StartStays(s[..|s| - 1]); }
  }

  lemma BothRead()
    ensures Scan([Blanked(), CALL], [], false) == [Read, Read]
  {
    PlainLines();
    hide Blanked, CALL, Of, Step;
    ScanStep(Blanked(), [CALL], []);
    ScanStep(CALL, [], []);
    assert Scan([], [], false) == [];
    assert !Guarded([]);
    assert [Blanked()] + [CALL] == [Blanked(), CALL] && [CALL] + [] == [CALL];
  }

  lemma NoWords()
    ensures forall k :: 0 <= k < |Blanked()| ==> !IsWordChar(Blanked()[k])
  {
  }

  lemma NothingHit(lines: seq<string>, ss: seq<Status>, raws: seq<string>)
    requires |lines| == |ss| == 2 && |raws| == 3
    requires Calls(lines[0], 0) == [] && Contains(raws[1], ESCAPE)
    ensures Collect(lines, ss, raws, 2) == []
  {
    hide Calls, Contains;
    assert LineHits(lines[0], raws[0], 0) == [] && LineHits(lines[1], raws[1], 1) == [];
    assert Collect(lines, ss, raws, 0) == [];
    assert Collect(lines, ss, raws, 1) == [];
  }

  /** The stripped text's second line is the call, which is the source's third line: the escape on the
      source's second line is taken for the call's, so a call whose line carries none is not reported. */
  lemma SplicedLiteralHidesCall()
    ensures Split(Spliced()) == ["\"\\", Ending(), CALL] && Split(Stripped(Spliced())) == [Blanked(), CALL]
    ensures Calls(CALL, 0) == ["fork"] && !Contains(CALL, ESCAPE) && Contains(Ending(), ESCAPE)
    ensures Scan(Split(Stripped(Spliced())), [], false) == [Read, Read] && Hits(Spliced()) == []
  {
    hide Calls, Contains, Scan, Split, Stripped, Spliced, Blanked, Ending, CALL, Hits, Collect;
    SplicedLines();
    BlankedLines();
    EscapeOff();
    CallOfCall();
    EscapeOn();
    BothRead();
    NoWords();
    NoCalls(Blanked(), 0);
    NothingHit(Split(Stripped(Spliced())), [Read, Read], Split(Spliced()));
    assert Hits(Spliced()) == [] by { HitsAre(Spliced()); }
  }

  lemma HitsAre(text: string)
    ensures |Split(Stripped(text))| <= |Split(text)|
    ensures var lines := Split(Stripped(text));
            Hits(text) == Collect(lines, Scan(lines, [], false), Split(text), |lines|)
  {
    RawLineExists(text);
  }
}
