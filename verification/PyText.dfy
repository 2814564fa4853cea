/** Text as Python has it: white space, and the three ways of cutting a text into lines. */
module PyText {
  /** `str.isspace` of one character, which is also what `\s` matches. */
  predicate IsSpace(c: char)
  {
    || c == ' ' || '\t' <= c <= '\r' || '\U{1c}' <= c <= '\U{1f}' || c == '\U{85}' || c == '\U{a0}' || c == '\U{1680}'
    || '\U{2000}' <= c <= '\U{200a}' || c == '\U{2028}' || c == '\U{2029}' || c == '\U{202f}' || c == '\U{205f}'
        || c == '\U{3000}'
  }

  function SkipSpace(s: string): (r: string)
    ensures |r| <= |s| && (r != [] ==> !IsSpace(r[0]))
  {
    if s != [] && IsSpace(s[0]) then SkipSpace(s[1..]) else s
  }

  function TrimEnd(s: string): (r: string)
    ensures |r| <= |s| && (r != [] ==> !IsSpace(r[|r| - 1]))
  {
    if s != [] && IsSpace(s[|s| - 1]) then TrimEnd(s[..|s| - 1]) else s
  }

  function Strip(s: string): string { TrimEnd(SkipSpace(s)) }

  // ----- str.split("\n")

  /** `text.find("\n", i)`, the end when there is none. */
  function FindNewline(s: string, i: nat): (r: nat)
    requires i <= |s|
    ensures i <= r <= |s|
    decreases |s| - i
  {
    if i == |s| || s[i] == '\n' then i else FindNewline(s, i + 1)
  }

  lemma {:induction false} BeforeNewline(s: string, i: nat)
    requires i <= |s|
    ensures var k := FindNewline(s, i);
            (forall j :: i <= j < k ==> s[j] != '\n') && (k < |s| ==> s[k] == '\n')
    decreases |s| - i
  {
    if i < |s| && s[i] != '\n' { BeforeNewline(s, i + 1); }
  }

  /** `text.split("\n")`. */
  function Split(text: string): (r: seq<string>)
    ensures |r| >= 1
    decreases |text|
  {
    var k := FindNewline(text, 0);
    if k == |text| then [text] else [text[..k]] + Split(text[k + 1..])
  }

  /** `"\n".join(lines) + "\n"`, for at least one line. */
  function Lines(lines: seq<string>): string
  {
    if lines == [] then [] else lines[0] + ("\n" + Lines(lines[1..]))
  }

  predicate OneLine(s: string) { forall i :: 0 <= i < |s| ==> s[i] != '\n' }

  lemma {:induction false} LinesOfSplit(text: string)
    ensures Lines(Split(text)) == text + "\n"
    ensures forall i :: 0 <= i < |Split(text)| ==> OneLine(Split(text)[i])
    decreases |text|
  {
    var k := FindNewline(text, 0);
    BeforeNewline(text, 0);
    if k < |text| {
      var rest := text[k + 1..];
      LinesOfSplit(rest);
      assert Split(text) == [text[..k]] + Split(rest);
      assert Split(text)[1..] == Split(rest);
      assert text + "\n" == text[..k] + ("\n" + (rest + "\n"));
    }
  }

  lemma {:induction false} LinesConcat(x: seq<string>, y: seq<string>)
    ensures Lines(x + y) == Lines(x) + Lines(y)
  {
    if x == [] {
      assert x + y == y;
    } else {
      assert (x + y)[1..] == x[1..] + y;
      LinesConcat(x[1..], y);
    }
  }

  // ----- str.splitlines() and universal newlines

  /** The characters `str.splitlines` ends a line at. */
  predicate IsBreak(c: char)
  {
    '\n' <= c <= '\r' || '\U{1c}' <= c <= '\U{1e}' || c == '\U{85}' || c == '\U{2028}' || c == '\U{2029}'
  }

  predicate NoBreak(s: string) { forall i :: 0 <= i < |s| ==> !IsBreak(s[i]) }

  function FindBreak(s: string): (k: nat)
    ensures k <= |s| && NoBreak(s[..k]) && (k < |s| ==> IsBreak(s[k]))
  {
    if s == [] || IsBreak(s[0]) then 0
    else
      assert forall i :: 0 < i < 1 + FindBreak(s[1..]) ==> s[i] == s[1..][i - 1];
      1 + FindBreak(s[1..])
  }

  /** `text.splitlines()`: a final line break does not start another line. */
  function Splitlines(s: string): seq<string>
    decreases |s|
  {
    if s == [] then []
    else
      var k := FindBreak(s);
      if k == |s| then [s] else [s[..k]] + Splitlines(s[if "\r\n" <= s[k..] then k + 2 else k + 1..])
  }

  lemma {:induction false} BreakAt(a: string, c: char, b: string)
    requires NoBreak(a) && IsBreak(c)
    ensures FindBreak(a + ([c] + b)) == |a|
  {
    assert (a + ([c] + b))[|a|] == c;
  }

  /** The first line of a text, a carriage return and a line feed being one break. */
  lemma FirstPiece(a: string, c: char, b: string)
    requires NoBreak(a) && IsBreak(c) && !(c == '\r' && b != [] && b[0] == '\n')
    ensures Splitlines(a + ([c] + b)) == [a] + Splitlines(b)
  {
    var s := a + ([c] + b);
    BreakAt(a, c, b);
    var t := s[|a|..];
    assert t == [c] + b && t[0] == c && (b != [] ==> t[1] == b[0]);
    assert s[..|a|] == a && s[|a| + 1..] == b;
  }

  /** Lines without other line breaks, each ended by a line feed, are read back as they are. */
  lemma {:induction false} SplitlinesOfLines(lines: seq<string>)
    requires forall i :: 0 <= i < |lines| ==> NoBreak(lines[i])
    ensures Splitlines(Lines(lines)) == lines
  {
    if lines != [] {
      hide Splitlines, NoBreak;
      FirstPiece(lines[0], '\n', Lines(lines[1..]));
      SplitlinesOfLines(lines[1..]);
    }
  }

  /** What a text file opened with universal newlines reads as. */
  function Universal(s: string): (r: string)
    ensures forall i :: 0 <= i < |r| ==> r[i] != '\r'
    decreases |s|
  {
    if s == [] then []
    else if "\r\n" <= s then "\n" + Universal(s[2..])
    else [if s[0] == '\r' then '\n' else s[0]] + Universal(s[1..])
  }

  lemma {:induction false} UniversalKeeps(s: string)
    requires forall i :: 0 <= i < |s| ==> s[i] != '\r'
    ensures Universal(s) == s
  {
    if s != [] {
      assert !("\r\n" <= s) by { assert s[0] != '\r'; }
      UniversalKeeps(s[1..]);
    }
  }

  lemma {:induction false} UniversalConcat(x: string, rest: string)
    requires forall i :: 0 <= i < |x| ==> x[i] != '\r'
    ensures Universal(x + rest) == x + Universal(rest)
  {
    if x == [] {
      assert x + rest == rest && x + Universal(rest) == Universal(rest);
    } else {
      var s := x + rest;
      assert s[1..] == x[1..] + rest && s[0] == x[0];
      UniversalConcat(x[1..], rest);
      assert x == [x[0]] + x[1..];
    }
  }

  lemma LineEnds(y: string)
    ensures Universal("\r\n" + y) == "\n" + Universal(y) && Universal("\n" + y) == "\n" + Universal(y)
    ensures y == [] || y[0] != '\n' ==> Universal("\r" + y) == "\n" + Universal(y)
  {
    var s, t, u := "\r\n" + y, "\n" + y, "\r" + y;
    assert s[2..] == y && t[1..] == y && u[1..] == y && s[..2] == "\r\n";
    assert |u| > 1 ==> u[1] == y[0];
  }

  /** Each of the three line ends is read as a line feed, and anything else as it is. */
  lemma UniversalReads(x: string, y: string)
    requires forall i :: 0 <= i < |x| ==> x[i] != '\r'
    ensures Universal(x + ("\r\n" + y)) == x + ("\n" + Universal(y))
    ensures Universal(x + ("\n" + y)) == x + ("\n" + Universal(y))
    ensures y == [] || y[0] != '\n' ==> Universal(x + ("\r" + y)) == x + ("\n" + Universal(y))
    ensures Universal(x) == x
  {
    hide Universal;
    UniversalKeeps(x);
    UniversalConcat(x, "\r\n" + y);
    UniversalConcat(x, "\n" + y);
    UniversalConcat(x, "\r" + y);
    LineEnds(y);
  }

  lemma PairParts(a: string, b: string)
    ensures var s := a + ("\r\n" + b);
            && s == a + (['\r'] + ("\n" + b)) && s[..|a|] == a && s[|a| + 2..] == b && "\r\n" <= s[|a|..]
  {
    var s := a + ("\r\n" + b);
    assert s[|a|..] == "\r\n" + b;
  }

  /** A carriage return and a line feed end one line; a text without a line break is one line. */
  lemma FirstPieceOfPair(a: string, b: string)
    requires NoBreak(a)
    ensures Splitlines(a + ("\r\n" + b)) == [a] + Splitlines(b)
    ensures a != [] ==> Splitlines(a) == [a]
  {
    PairParts(a, b);
    BreakAt(a, '\r', "\n" + b);
    if a != [] { WholePiece(a); }
    hide NoBreak, FindBreak;
  }

  lemma WholePiece(a: string)
    requires NoBreak(a)
    ensures FindBreak(a) == |a|
  {
  }

  /** The characters that end a line, and those that are white space, by their numbers. */
  lemma BreakTable(c: char)
    ensures IsBreak(c) <==> c as int in {10, 11, 12, 13, 28, 29, 30, 0x85, 0x2028, 0x2029}
    ensures IsSpace(c) <==> c as int in {9, 10, 11, 12, 13, 28, 29, 30, 31, 32, 0x85, 0xA0, 0x1680, 0x2000, 0x2001,
        0x2002, 0x2003, 0x2004, 0x2005, 0x2006, 0x2007, 0x2008, 0x2009, 0x200A, 0x2028, 0x2029, 0x202F, 0x205F, 0x3000}
  {
  }
}
