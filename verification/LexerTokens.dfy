/** What stripping leaves of a source, token by token: code stays, and nothing of a comment or of a
    literal's inside does. */
module LexerTokens {
  import opened Wrappers
  import opened PyText
  import opened Lexer

  /** A source is a sequence of code characters, comments and literals; `closed` says whether the end
      of a block comment or the closing quote is there. */
  datatype Token =
    | Char(c: char)
    | LineComment(b: string)
    | BlockComment(b: string, closed: bool)
    | Quoted(q: char, b: string, closed: bool)

  function Raw(t: Token): string
  {
    match t
    case Char(c) => [c]
    case LineComment(b) => "//" + b
    case BlockComment(b, closed) => "/*" + (b + if closed then "*/" else "")
    case Quoted(q, b, closed) => [q] + (b + if closed then [q] else [])
  }

  function Print(ts: seq<Token>): string
  {
    if ts == [] then [] else Raw(ts[0]) + Print(ts[1..])
  }

  /** No end of a block comment. */
  predicate NoClose(b: string)
  {
    forall i :: 0 <= i < |b| - 1 ==> b[i] != '*' || b[i + 1] != '/'
  }

  /** The inside of a literal: characters that do not end it, and backslashes each with what follows. */
  predicate Inside(b: string, q: char)
  {
    b == []
    || (b[0] == '\\' && |b| > 1 && Inside(b[2..], q))
    || (b[0] != '\\' && b[0] != q && b[0] != '\n' && Inside(b[1..], q))
  }

  /** The token is what it says when `next` follows it. */
  predicate Proper(t: Token, next: string)
  {
    match t
    case Char(c) => c != '\"' && c != '\'' && (c == '/' && next != [] ==> next[0] != '/' && next[0] != '*')
    case LineComment(b) => OneLine(b) && (next == [] || next[0] == '\n')
    case BlockComment(b, closed) => NoClose(b) && (closed || next == [])
    case Quoted(q, b, closed) =>
      && (q == '\"' || q == '\'')
      && if closed then Inside(b, q)
         else if next != [] then Inside(b, q) && next[0] == '\n'
         else Inside(b, q) || (b != [] && b[|b| - 1] == '\\' && Inside(b[..|b| - 1], q))
  }

  predicate ProperAll(ts: seq<Token>)
  {
    ts == [] || (Proper(ts[0], Print(ts[1..])) && ProperAll(ts[1..]))
  }

  /** Spaces, and the line breaks of `s`. */
  function Wiped(s: string): (r: string)
    ensures |r| == |s| && forall i :: 0 <= i < |s| ==> r[i] == if s[i] == '\n' then '\n' else ' '
  {
    seq(|s|, i requires 0 <= i < |s| => if s[i] == '\n' then '\n' else ' ')
  }

  /** What is left of a token: a code character, the quotes of a literal, the line breaks of a block
      comment, and spaces. */
  function Left(t: Token): (r: string)
    ensures |r| == |Raw(t)|
  {
    match t
    case Char(c) => [c]
    case LineComment(b) => Spaces(|b| + 2)
    case BlockComment(_, _) => Wiped(Raw(t))
    case Quoted(q, b, closed) => [q] + (Spaces(|b|) + if closed then [q] else [])
  }

  function LeftAll(ts: seq<Token>): string
  {
    if ts == [] then [] else Left(ts[0]) + LeftAll(ts[1..])
  }

  // ----- one token

  lemma {:induction false} LexLineComment(b: string, next: string)
    requires OneLine(b) && (next == [] || next[0] == '\n')
    ensures Lex(b + next, Line) == Spaces(|b|) + Lex(next, Code)
  {
    var s := b + next;
    if b == [] {
      assert s == next && Spaces(0) == [];
    } else {
      assert s[1..] == b[1..] + next;
      LexLineComment(b[1..], next);
      assert Spaces(|b|) == " " + Spaces(|b| - 1);
    }
  }

  lemma {:induction false} LexBlockComment(b: string, next: string)
    requires NoClose(b)
    ensures Lex(b + ("*/" + next), Block) == Wiped(b + "*/") + Lex(next, Code)
    ensures next == [] ==> Lex(b, Block) == Wiped(b)
  {
    hide Lex;
    if b == [] {
      CloseComment(next);
    } else {
      LexBlockComment(b[1..], next);
      CommentStep(b, next);
      assert (b + "*/")[1..] == b[1..] + "*/";
      assert Wiped(b + "*/") == [Blank(b[0])] + Wiped(b[1..] + "*/");
      assert Wiped(b) == [Blank(b[0])] + Wiped(b[1..]);
      AppendAssoc([Blank(b[0])], Wiped(b[1..] + "*/"), Lex(next, Code));
    }
  }

  lemma CloseComment(next: string)
    ensures Lex([] + ("*/" + next), Block) == Wiped([] + "*/") + Lex(next, Code) && Lex([], Block) == Wiped([])
  {
    var s: string := [] + ("*/" + next);
    assert s == "*/" + next && s[2..] == next && Wiped([] + "*/") == "  ";
  }

  /** One character of a comment. */
  lemma CommentStep(b: string, next: string)
    requires b != [] && NoClose(b)
    ensures Lex(b + ("*/" + next), Block) == [Blank(b[0])] + Lex(b[1..] + ("*/" + next), Block)
    ensures Lex(b, Block) == [Blank(b[0])] + Lex(b[1..], Block)
  {
    var s := b + ("*/" + next);
    assert s[0] == b[0] && s[1] == if |b| > 1 then b[1] else '*';
    assert s[1..] == b[1..] + ("*/" + next);
  }

  lemma {:induction false} LexInside(b: string, q: char, next: string)
    requires IsQuote(q) && Inside(b, q)
    ensures Lex(b + next, Literal(q)) == Spaces(|b|) + Lex(next, Literal(q))
    decreases |b|
  {
    var s := b + next;
    if b == [] {
      assert s == next && Spaces(0) == [];
    } else {
      var n := if b[0] == '\\' then 2 else 1;
      assert s[n..] == b[n..] + next && s[0] == b[0];
      LexInside(b[n..], q, next);
      PrependSpaces(n, |b| - n);
      hide Lex;
      AppendAssoc(Spaces(n), Spaces(|b| - n), Lex(next, Literal(q)));
      assert Lex(s, Literal(q)) == Spaces(n) + Lex(s[n..], Literal(q)) by { InsideStep(s, q); }
    }
  }

  lemma InsideStep(s: string, q: char)
    requires s != [] && IsQuote(q) && s[0] != q && s[0] != '\n' && (s[0] == '\\' ==> |s| > 1)
    ensures var n := if s[0] == '\\' then 2 else 1;
            Lex(s, Literal(q)) == Spaces(n) + Lex(s[n..], Literal(q))
  {
    assert Spaces(1) == " " && Spaces(2) == "  ";
  }

  /** One token and what follows it. */
  lemma {:induction false} TokenLeft(t: Token, next: string)
    requires Proper(t, next)
    ensures Lex(Raw(t) + next, Code) == Left(t) + Lex(next, Code)
  {
    hide Lex;
    match t
    case Char(c) => CharLeft(c, next);
    case LineComment(b) => LineLeft(b, next);
    case BlockComment(b, closed) => BlockLeft(b, closed, next);
    case Quoted(q, b, closed) => QuotedLeft(q, b, closed, next);
  }

  lemma {:induction false} CharLeft(c: char, next: string)
    requires Proper(Char(c), next)
    ensures Lex([c] + next, Code) == [c] + Lex(next, Code)
  {
    var s := [c] + next;
    assert s[1..] == next && s[0] == c;
  }

  lemma {:induction false} LineLeft(b: string, next: string)
    requires Proper(LineComment(b), next)
    ensures Lex("//" + b + next, Code) == Spaces(|b| + 2) + Lex(next, Code)
  {
    var s := "//" + b + next;
    assert "//" <= s && s[1..] == ("/" + b) + next;
    LexLineComment("/" + b, next);
    PrependSpaces(1, |b| + 1);
    assert Lex(s, Code) == " " + Lex(s[1..], Line);
    hide Lex;
    AppendAssoc(" ", Spaces(|b| + 1), Lex(next, Code));
  }

  lemma {:induction false} BlockLeft(b: string, closed: bool, next: string)
    requires Proper(BlockComment(b, closed), next)
    ensures Lex(Raw(BlockComment(b, closed)) + next, Code) == Wiped(Raw(BlockComment(b, closed))) + Lex(next, Code)
  {
    hide Lex, NoClose;
    var rest := b + if closed then "*/" else "";
    LexBlockComment(b, next);
    BlockParts(b, closed, next);
    OpenBlock(rest + next);
    LexNothing();
    AppendAssoc("  ", Wiped(rest), Lex(next, Code));
  }

  lemma BlockParts(b: string, closed: bool, next: string)
    ensures var rest := b + if closed then "*/" else "";
            && "/*" + rest + next == "/*" + (rest + next) && Wiped("/*" + rest) == "  " + Wiped(rest)
            && (closed ==> rest + next == b + ("*/" + next))
            && (!closed && next == [] ==> rest + next == b && rest == b && Wiped(rest) + next == Wiped(rest))
  {
  }

  lemma OpenBlock(rest: string)
    ensures Lex("/*" + rest, Code) == "  " + Lex(rest, Block)
  {
    var s := "/*" + rest;
    assert s[..2] == "/*" && s[2..] == rest;
  }

  lemma {:induction false} QuotedLeft(q: char, b: string, closed: bool, next: string)
    requires Proper(Quoted(q, b, closed), next)
    ensures Lex(Raw(Quoted(q, b, closed)) + next, Code) == Left(Quoted(q, b, closed)) + Lex(next, Code)
  {
    var t := Raw(Quoted(q, b, closed));
    var tail := (if closed then [q] else []) + next;
    assert (t + next)[0] == q && (t + next)[1..] == b + tail;
    if Inside(b, q) {
      LexInside(b, q, tail);
      LiteralEnds(q, closed, next);
      hide Lex;
      AppendAssoc(Spaces(|b|), if closed then [q] else [], Lex(next, Code));
      AppendAssoc([q], Spaces(|b|) + (if closed then [q] else []), Lex(next, Code));
    } else {
      var front := b[..|b| - 1];
      LexInside(front, q, "\\");
      assert b + tail == front + "\\";
      PrependSpaces(|b| - 1, 1);
      assert Lex("\\", Literal(q)) == " ";
      assert Lex(next, Code) == [];
    }
  }

  lemma LiteralEnds(q: char, closed: bool, next: string)
    requires IsQuote(q) && (closed || next == [] || next[0] == '\n')
    ensures Lex((if closed then [q] else []) + next, Literal(q)) == (if closed then [q] else []) + Lex(next, Code)
  {
    if closed {
      assert ([q] + next)[1..] == next;
    } else {
      assert [] + next == next;
    }
  }

  // ----- whole sources

  /** Stripping a source leaves what is left of its tokens. */
  lemma {:induction false} StripsTokens(ts: seq<Token>)
    requires ProperAll(ts)
    ensures Lex(Print(ts), Code) == LeftAll(ts)
  {
    if ts == [] {
      LexNothing();
    } else {
      hide Lex, Proper;
      TokenLeft(ts[0], Print(ts[1..]));
      StripsTokens(ts[1..]);
    }
  }

  lemma {:induction false} FoundClose(s: string, i: nat)
    requires i <= |s|
    ensures var j := FindClose(s, i);
            (i + 2 <= j && s[j - 2..j] == "*/" && NoClose(s[i..j - 2])) || (j == |s| && NoClose(s[i..]))
    decreases |s| - i
  {
    if i < |s| {
      if "*/" <= s[i..] {
        assert s[i..i + 2] == s[i..][..2];
      } else {
        FoundClose(s, i + 1);
        assert |s| - i > 1 ==> s[i..][0] == s[i] && s[i..][1] == s[i + 1];
      }
    }
  }

  /** The inside of a literal at the front of `s`. */
  lemma {:induction false} TakeInside(s: string, q: char) returns (n: nat)
    requires IsQuote(q)
    ensures n <= |s|
    ensures (Inside(s[..n], q) && (n < |s| ==> s[n] == q || s[n] == '\n'))
            || (n == |s| > 0 && s[n - 1] == '\\' && Inside(s[..n - 1], q))
    decreases |s|
  {
    if s == [] || s[0] == q || s[0] == '\n' { return 0; }
    if s == "\\" { return 1; }
    var k := if s[0] == '\\' then 2 else 1;
    n := TakeInside(s[k..], q);
    assert s[k..][..n] == s[..k + n][k..];
    if n > 0 { assert s[k..][..n - 1] == s[..k + n - 1][k..]; }
    n := k + n;
  }

  /** The first token of a source and what follows it. */
  lemma {:induction false} FirstToken(s: string) returns (t: Token, n: nat)
    requires s != []
    ensures 0 < n <= |s| && Raw(t) == s[..n] && Proper(t, s[n..])
  {
    hide Inside, NoClose, OneLine;
    if "//" <= s {
      t, n := LineToken(s);
    } else if "/*" <= s {
      t, n := BlockToken(s);
    } else if IsQuote(s[0]) {
      n := TakeInside(s[1..], s[0]);
      t, n := QuotedToken(s, n);
    } else {
      t, n := Char(s[0]), 1;
      if s[0] == '/' && |s| > 1 { assert s[..2] == ['/', s[1]]; }
    }
  }

  lemma {:induction false} LineToken(s: string) returns (t: Token, n: nat)
    requires "//" <= s
    ensures 0 < n <= |s| && Raw(t) == s[..n] && Proper(t, s[n..])
  {
    n := FindNewline(s, 2);
    BeforeNewline(s, 2);
    t := LineComment(s[2..n]);
    assert s[..n] == s[..2] + s[2..n];
  }

  lemma {:induction false} BlockToken(s: string) returns (t: Token, n: nat)
    requires "/*" <= s
    ensures 0 < n <= |s| && Raw(t) == s[..n] && Proper(t, s[n..])
  {
    hide NoClose, FindClose;
    n := FindClose(s, 2);
    FoundClose(s, 2);
    if 4 <= n && s[n - 2..n] == "*/" && NoClose(s[2..n - 2]) {
      t := BlockComment(s[2..n - 2], true);
      assert s[..n] == s[..2] + (s[2..n - 2] + s[n - 2..n]);
    } else {
      t := BlockComment(s[2..], false);
      assert s[..n] == s[..2] + (s[2..] + "");
    }
  }

  lemma {:induction false} QuotedToken(s: string, m: nat) returns (t: Token, n: nat)
    requires s != [] && IsQuote(s[0]) && m <= |s| - 1
    requires (Inside(s[1..][..m], s[0]) && (m < |s| - 1 ==> s[1..][m] == s[0] || s[1..][m] == '\n'))
             || (m == |s| - 1 > 0 && s[1..][m - 1] == '\\' && Inside(s[1..][..m - 1], s[0]))
    ensures 0 < n <= |s| && Raw(t) == s[..n] && Proper(t, s[n..])
  {
    var q, b := s[0], s[1..][..m];
    var closed := m < |s| - 1 && s[m + 1] == q;
    t, n := Quoted(q, b, closed), if closed then m + 2 else m + 1;
    assert s[..n] == [q] + (b + if closed then [q] else []);
    if b != [] { assert b[|b| - 1] == s[1..][m - 1] && b[..|b| - 1] == s[1..][..m - 1]; }
    if n < |s| && !closed { assert s[n..][0] == s[1..][m]; }
  }

  /** Every source is such a sequence of tokens. */
  lemma {:induction false} EverySourceIsTokens(s: string) returns (ts: seq<Token>)
    ensures ProperAll(ts) && Print(ts) == s
    decreases |s|
  {
    if s == [] {
      ts := [];
    } else {
      var t, n := FirstToken(s);
      var rest := EverySourceIsTokens(s[n..]);
      ts := [t] + rest;
      assert ts[1..] == rest && s == s[..n] + s[n..];
    }
  }
}
