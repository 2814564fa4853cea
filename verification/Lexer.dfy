/** scripts/check-portability.py, `strip_comments`: comments and literals blanked, checked against a
    lexer that reads one character at a time (comments and literals as in sections 6.4.9 and 6.4.5 of
    ISO/IEC 9899:2011, with no line splicing). */
module Lexer {
  import opened Wrappers
  import opened PyText

  predicate IsQuote(c: char) { c == '\"' || c == '\'' }

  function Spaces(n: nat): (r: string)
    ensures |r| == n && forall i :: 0 <= i < n ==> r[i] == ' '
  {
    seq(n, _ => ' ')
  }

  /** A comment character, blanked unless it ends a line. */
  function Blank(c: char): char { if c == '\n' then c else ' ' }

  function BlankAll(s: string): (r: string)
    ensures |r| == |s| && forall i :: 0 <= i < |s| ==> r[i] == Blank(s[i])
  {
    seq(|s|, i requires 0 <= i < |s| => Blank(s[i]))
  }

  // ----- the reference lexer

  datatype State = Code | Line | Block | Literal(quote: char)

  /** The text left of `s` when the lexer stands in state `st`: code and the quotes of literals stay,
      everything inside a comment or a literal becomes a space, and a line break stays one except
      right after a backslash inside a literal. */
  function Lex(s: string, st: State): (r: string)
    ensures |r| == |s|
  {
    if s == [] then []
    else
      match st
      case Code =>
        if "//" <= s then " " + Lex(s[1..], Line)
        else if "/*" <= s then "  " + Lex(s[2..], Block)
        else if IsQuote(s[0]) then [s[0]] + Lex(s[1..], Literal(s[0]))
        else [s[0]] + Lex(s[1..], Code)
      case Line =>
        if s[0] == '\n' then ['\n'] + Lex(s[1..], Code) else " " + Lex(s[1..], Line)
      case Block =>
        if "*/" <= s then "  " + Lex(s[2..], Code) else [Blank(s[0])] + Lex(s[1..], Block)
      case Literal(q) =>
        if s[0] == q || s[0] == '\n' then [s[0]] + Lex(s[1..], Code)
        else if s[0] == '\\' && |s| > 1 then "  " + Lex(s[2..], Literal(q))
        else " " + Lex(s[1..], Literal(q))
  }

  /** A backslash right before a line break, met inside a literal. */
  predicate SplicedLiteral(s: string, st: State)
    decreases |s|
  {
    if s == [] then false
    else
      match st
      case Code =>
        if "//" <= s then SplicedLiteral(s[1..], Line)
        else if "/*" <= s then SplicedLiteral(s[2..], Block)
        else if IsQuote(s[0]) then SplicedLiteral(s[1..], Literal(s[0]))
        else SplicedLiteral(s[1..], Code)
      case Line => SplicedLiteral(s[1..], if s[0] == '\n' then Code else Line)
      case Block => if "*/" <= s then SplicedLiteral(s[2..], Code) else SplicedLiteral(s[1..], Block)
      case Literal(q) =>
        if s[0] == q || s[0] == '\n' then SplicedLiteral(s[1..], Code)
        else if s[0] == '\\' && |s| > 1 then s[1] == '\n' || SplicedLiteral(s[2..], Literal(q))
        else SplicedLiteral(s[1..], Literal(q))
  }

  /** Line breaks stand where they stood. */
  predicate SameBreaks(s: string, r: string)
  {
    |s| == |r| && forall i :: 0 <= i < |s| ==> (s[i] == '\n' <==> r[i] == '\n')
  }

  lemma BreaksConcat(a: string, b: string, c: string, d: string)
    requires |a| == |c| && |b| == |d|
    ensures SameBreaks(a + b, c + d) <==> SameBreaks(a, c) && SameBreaks(b, d)
  {
    if SameBreaks(a + b, c + d) {
      forall i | 0 <= i < |a|
          ensures a[i] == '\n' <==> c[i] == '\n' { assert (a + b)[i] == a[i] && (c + d)[i] == c[i]; }
      forall i | 0 <= i < |b| ensures b[i] == '\n' <==> d[i] == '\n' {
        assert (a + b)[|a| + i] == b[i] && (c + d)[|c| + i] == d[i];
      }
    }
  }

  /** One step of the lexer: how many characters it takes, what it leaves and where it goes. */
  lemma LexStep(s: string, st: State) returns (n: nat, out: string, next: State)
    requires s != []
    ensures 1 <= n <= 2 && n <= |s| && |out| == n
    ensures Lex(s, st) == out + Lex(s[n..], next)
    ensures forall i :: 0 <= i < n ==> out[i] == s[i] || out[i] == ' '
    ensures SplicedLiteral(s, st) <==> !SameBreaks(s[..n], out) || SplicedLiteral(s[n..], next)
    ensures SameBreaks(s[..n], out) <==> !(st.Literal? && s[0] != st.quote && s[0] == '\\' && |s| > 1 && s[1] == '\n')
  {
    n, out, next := 1, [s[0]], Code;
    match st
    case Code =>
      if "//" <= s { out, next := " ", Line; }
      else if "/*" <= s { n, out, next := 2, "  ", Block; }
      else if IsQuote(s[0]) { next := Literal(s[0]); }
    case Line => if s[0] != '\n' { out, next := " ", Line; }
    case Block =>
      if "*/" <= s { n, out := 2, "  "; } else { out, next := [Blank(s[0])], Block; }
    case Literal(q) =>
      if s[0] == q || s[0] == '\n' {
      } else if s[0] == '\\' && |s| > 1 { n, out, next := 2, "  ", st; }
      else { out, next := " ", st; }
  }

  /** Every line break is kept exactly when no literal holds a backslash before one. */
  lemma {:induction false} LexKeepsBreaks(s: string, st: State)
    ensures SameBreaks(s, Lex(s, st)) <==> !SplicedLiteral(s, st)
    decreases |s|
  {
    if s != [] {
      var n, out, next := LexStep(s, st);
      LexKeepsBreaks(s[n..], next);
      BreaksConcat(s[..n], s[n..], out, Lex(s[n..], next));
      assert s == s[..n] + s[n..];
    }
  }

  /** A source whose line count is not kept: a string continued by a backslash on the next line. */
  lemma SplicedStringLosesItsBreak()
    ensures !SameBreaks("\"\\\n\"", Lex("\"\\\n\"", Code))
  {
    var t := "\"\\\n\"";
    assert SplicedLiteral(t[1..], Literal('\"'));
    LexKeepsBreaks(t, Code);
  }

  /** The state the lexer is in when it reads its own output at the same place. */
  function Reread(st: State): State { if st.Literal? then st else Code }

  /** Lexing the output changes nothing. */
  lemma {:induction false} LexTwice(s: string, st: State)
    requires st.Literal? ==> IsQuote(st.quote)
    ensures Lex(Lex(s, st), Reread(st)) == Lex(s, st)
    decreases |s|
  {
    if s != [] {
      var r := Lex(s, st);
      match st
      case Code =>
        if "//" <= s {
          LexTwice(s[1..], Line);
          assert r[1..] == Lex(s[1..], Line);
        } else if "/*" <= s {
          LexTwice(s[2..], Block);
          TwoSpaces(Lex(s[2..], Block));
        } else if IsQuote(s[0]) {
          LexTwice(s[1..], Literal(s[0]));
          assert r[1..] == Lex(s[1..], Literal(s[0]));
        } else {
          LexTwice(s[1..], Code);
          assert r[1..] == Lex(s[1..], Code);
          if |s| > 1 { var n, out, next := LexStep(s[1..], Code); assert r[1] == out[0]; assert s[1..][0] == s[1]; }
        }
      case Line =>
        LexTwice(s[1..], if s[0] == '\n' then Code else Line);
        assert r[1..] == Lex(s[1..], if s[0] == '\n' then Code else Line);
      case Block =>
        if "*/" <= s {
          LexTwice(s[2..], Code);
          TwoSpaces(Lex(s[2..], Code));
        } else {
          LexTwice(s[1..], Block);
          assert r[1..] == Lex(s[1..], Block);
        }
      case Literal(q) =>
        if s[0] == q || s[0] == '\n' {
          LexTwice(s[1..], Code);
          assert r[1..] == Lex(s[1..], Code);
        } else if s[0] == '\\' && |s| > 1 {
          LexTwice(s[2..], st);
          TwoSpacesIn(Lex(s[2..], st), q);
        } else {
          LexTwice(s[1..], st);
          assert r[1..] == Lex(s[1..], st);
        }
    }
  }

  lemma TwoSpaces(r: string)
    ensures Lex("  " + r, Code) == "  " + Lex(r, Code)
  {
    assert ("  " + r)[1..] == " " + r && (" " + r)[1..] == r;
  }

  lemma TwoSpacesIn(r: string, q: char)
    requires IsQuote(q)
    ensures Lex("  " + r, Literal(q)) == "  " + Lex(r, Literal(q))
  {
    assert ("  " + r)[1..] == " " + r && (" " + r)[1..] == r;
  }

  // ----- the script

  /** Past the next end of a block comment, the end when there is none. */
  function FindClose(s: string, i: nat): (r: nat)
    requires i <= |s|
    ensures i <= r <= |s|
    decreases |s| - i
  {
    if i == |s| then i else if "*/" <= s[i..] then i + 2 else FindClose(s, i + 1)
  }

  lemma {:induction false} LineComment(s: string, i: nat)
    requires i <= |s|
    ensures var j := FindNewline(s, i);
            Lex(s[i..], Line) == Spaces(j - i) + Lex(s[j..], Code)
    decreases |s| - i
  {
    LineStep(s, i);
    hide Lex;
    if i < |s| && s[i] != '\n' {
      LineComment(s, i + 1);
      var j := FindNewline(s, i);
      PrependSpaces(1, j - i - 1);
      assert Spaces(1) == " ";
      AppendAssoc(Spaces(1), Spaces(j - i - 1), Lex(s[j..], Code));
    } else {
      assert Spaces(0) + Lex(s[i..], Code) == Lex(s[i..], Code);
    }
  }

  lemma LineStep(s: string, i: nat)
    requires i <= |s|
    ensures Lex(s[i..], Line) == if i < |s| && s[i] != '\n' then " " + Lex(s[i + 1..], Line) else Lex(s[i..], Code)
  {
    if i < |s| { assert s[i..][1..] == s[i + 1..]; }
  }

  lemma {:induction false} BlockComment(s: string, i: nat)
    requires i <= |s|
    ensures var j := FindClose(s, i);
            Lex(s[i..], Block) == BlankAll(s[i..j]) + Lex(s[j..], Code)
    decreases |s| - i
  {
    var j := FindClose(s, i);
    if i == |s| {
    } else if "*/" <= s[i..] {
      assert s[i] == s[i..][0] == '*' && s[i + 1] == s[i..][1] == '/';
      assert BlankAll(s[i..j]) == "  ";
      assert s[i..][2..] == s[j..];
    } else {
      BlockComment(s, i + 1);
      assert s[i..][1..] == s[i + 1..];
      assert BlankAll(s[i..j]) == [Blank(s[i])] + BlankAll(s[i + 1..j]);
      assert BlankAll(s[i..j]) + Lex(s[j..], Code) == [Blank(s[i])] + (BlankAll(s[i + 1..j]) + Lex(s[j..], Code));
    }
  }

  /** Where the loop over a literal stops: at its quote, a line break, or past the end. */
  function LitEnd(s: string, j: nat, c: char): (r: nat)
    ensures j <= r && (r < |s| ==> s[r] == c || s[r] == '\n')
    decreases |s| + 1 - j
  {
    if j >= |s| || s[j] == c || s[j] == '\n' then j
    else LitEnd(s, j + (if s[j] == '\\' then 2 else 1), c)
  }

  function Min(x: nat, y: nat): nat { if x < y then x else y }

  /** What follows a literal that stops at `e`: its quote, when it has one, and code again. */
  function AfterLiteral(s: string, e: nat, c: char): string
  {
    if e < |s| && s[e] == c then [c] + Lex(s[e + 1..], Code) else Lex(s[Min(e, |s|)..], Code)
  }

  /** The rest of a literal: spaces to its end, then what follows it. */
  lemma {:induction false} LiteralRest(s: string, j: nat, c: char)
    requires j <= |s| && IsQuote(c)
    ensures var e := LitEnd(s, j, c);
            Lex(s[j..], Literal(c)) == Spaces(Min(e, |s|) - j) + AfterLiteral(s, e, c)
    decreases |s| - j
  {
    hide Lex, AfterLiteral, LitEnd;
    var e := LitEnd(s, j, c);
    if j == |s| || s[j] == c || s[j] == '\n' {
      LiteralStops(s, j, c);
    } else {
      LiteralStep(s, j, c);
      var n := if s[j] == '\\' && j + 1 < |s| then 2 else 1;
      LiteralRest(s, j + n, c);
      PrependSpaces(n, Min(e, |s|) - (j + n));
      AppendAssoc(Spaces(n), Spaces(Min(e, |s|) - (j + n)), AfterLiteral(s, e, c));
    }
  }

  /** One turn of the loop over a literal. A backslash that ends the text takes one character of it. */
  lemma LiteralStep(s: string, j: nat, c: char)
    requires j < |s| && IsQuote(c) && s[j] != c && s[j] != '\n'
    ensures var n := if s[j] == '\\' && j + 1 < |s| then 2 else 1;
            && Lex(s[j..], Literal(c)) == Spaces(n) + Lex(s[j + n..], Literal(c))
            && Min(LitEnd(s, j, c), |s|) == Min(LitEnd(s, j + n, c), |s|)
            && AfterLiteral(s, LitEnd(s, j, c), c) == AfterLiteral(s, LitEnd(s, j + n, c), c)
  {
    assert Spaces(1) == " " && Spaces(2) == "  ";
    if s[j] == '\\' && j + 1 < |s| {
      assert s[j..][2..] == s[j + 2..];
    } else {
      assert s[j..][1..] == s[j + 1..];
      if s[j] == '\\' {
        assert LitEnd(s, j + 1, c) == j + 1 && LitEnd(s, j + 2, c) == j + 2;
      }
    }
  }

  lemma LiteralStops(s: string, j: nat, c: char)
    requires j <= |s| && IsQuote(c) && (j < |s| ==> s[j] == c || s[j] == '\n')
    ensures LitEnd(s, j, c) == j && Lex(s[j..], Literal(c)) == Spaces(0) + AfterLiteral(s, j, c)
  {
    assert Spaces(0) == "";
    if j < |s| { assert s[j..][1..] == s[j + 1..]; }
  }

  lemma PrependSpaces(m: nat, n: nat)
    ensures Spaces(m + n) == Spaces(m) + Spaces(n)
    ensures Spaces(1) == " " && Spaces(2) == "  "
  {
  }

  /** The script's three jumps produce what the character lexer produces. */
  method StripComments(text: string) returns (out: string)
    ensures out == Lex(text, Code)
  {
    hide Lex, Spaces, BlankAll, FindNewline, FindClose;
    out := [];
    var i, n := 0, |text|;
    while i < n
      invariant i <= n && Lex(text, Code) == out + Lex(text[i..], Code)
    {
      var c := text[i];
      ghost var before := out;
      if "//" <= text[i..] {
        var j := FindNewline(text, i);
        LineStart(text, i);
        out := out + Spaces(j - i);
        AppendAssoc(before, Spaces(j - i), Lex(text[j..], Code));
        i := j;
      } else if "/*" <= text[i..] {
        var j := FindClose(text, i + 2);
        BlockStart(text, i);
        out := out + BlankAll(text[i..j]);
        AppendAssoc(before, BlankAll(text[i..j]), Lex(text[j..], Code));
        i := j;
      } else if IsQuote(c) {
        var piece, next := BlankLiteral(text, i);
        out := out + piece;
        AppendAssoc(before, piece, Lex(text[next..], Code));
        i := next;
      } else {
        CodeStart(text, i);
        out := out + [c];
        i := i + 1;
        AppendAssoc(before, [c], Lex(text[i..], Code));
      }
    }
    assert text[i..] == [] && Lex([], Code) == [] by { LexNothing(); }
    assert out + [] == out;
  }

  lemma LexNothing()
    ensures Lex([], Code) == []
  {
  }

  lemma CodeStart(s: string, i: nat)
    requires i < |s| && !("//" <= s[i..]) && !("/*" <= s[i..]) && !IsQuote(s[i])
    ensures Lex(s[i..], Code) == [s[i]] + Lex(s[i + 1..], Code)
  {
    assert s[i..][0] == s[i] && s[i..][1..] == s[i + 1..];
  }

  lemma LineStart(s: string, i: nat)
    requires i < |s| && "//" <= s[i..]
    ensures var j := FindNewline(s, i);
            Lex(s[i..], Code) == Spaces(j - i) + Lex(s[j..], Code) && j > i
  {
    assert s[i] == s[i..][0] == '/';
    assert s[i..][1..] == s[i + 1..];
    LineComment(s, i + 1);
    var j := FindNewline(s, i);
    PrependSpaces(1, j - i - 1);
    AppendAssoc(" ", Spaces(j - i - 1), Lex(s[j..], Code));
  }

  lemma BlockStart(s: string, i: nat)
    requires i < |s| && "/*" <= s[i..]
    ensures i + 2 <= |s|
    ensures var j := FindClose(s, i + 2);
            Lex(s[i..], Code) == BlankAll(s[i..j]) + Lex(s[j..], Code)
  {
    assert s[i] == s[i..][0] == '/' && s[i + 1] == s[i..][1] == '*';
    assert s[i..][2..] == s[i + 2..];
    BlockComment(s, i + 2);
    var j := FindClose(s, i + 2);
    assert BlankAll(s[i..j]) == "  " + BlankAll(s[i + 2..j]);
    AppendAssoc("  ", BlankAll(s[i + 2..j]), Lex(s[j..], Code));
  }

  lemma LiteralStart(s: string, i: nat)
    requires i < |s| && IsQuote(s[i])
    ensures var j := LitEnd(s, i + 1, s[i]);
            var closed := j < |s| && s[j] == s[i];
            var end := if closed then j + 1 else Min(j, |s|);
            Lex(s[i..], Code)
            == [s[i]] + Spaces(Min(j, |s|) - i - 1) + (if closed then [s[i]] else []) + Lex(s[end..], Code)
  {
    hide Lex, Spaces, LitEnd;
    QuoteStart(s, i);
    var c, j := s[i], LitEnd(s, i + 1, s[i]);
    LiteralRest(s, i + 1, c);
    var body := Spaces(Min(j, |s|) - i - 1);
    AppendAssoc([c], body, AfterLiteral(s, j, c));
    if j < |s| && s[j] == c {
      AppendAssoc([c] + body, [c], Lex(s[j + 1..], Code));
    } else {
      assert [c] + body + [] == [c] + body;
    }
  }

  lemma QuoteStart(s: string, i: nat)
    requires i < |s| && IsQuote(s[i])
    ensures Lex(s[i..], Code) == [s[i]] + Lex(s[i + 1..], Literal(s[i]))
  {
    assert s[i..][0] == s[i] && s[i..][1..] == s[i + 1..];
  }

  /** The piece the script appends for the literal at `i`, and where it goes on. */
  method BlankLiteral(text: string, i: nat) returns (piece: string, next: nat)
    requires i < |text| && IsQuote(text[i])
    ensures i < next <= |text| && Lex(text[i..], Code) == piece + Lex(text[next..], Code)
  {
    hide Lex;
    var c, n, j := text[i], |text|, i + 1;
    while j < n && text[j] != c && text[j] != '\n'
      invariant i < j <= n + 1 && LitEnd(text, i + 1, c) == LitEnd(text, j, c)
      decreases n + 1 - j
    {
      j := j + if text[j] == '\\' then 2 else 1;
    }
    var m := if j < n then j else n;
    var closed := j < n && text[j] == c;
    LiteralStart(text, i);
    piece := [c] + Spaces(m - i - 1) + if closed then [c] else [];
    next := if closed then j + 1 else m;
  }
}
