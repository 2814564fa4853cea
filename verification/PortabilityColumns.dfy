/** Where in the source a reported call stands: in its code, never inside a comment or a literal. */
module PortabilityColumns {
  import opened Wrappers
  import opened PyText
  import opened Lexer
  import opened LexerTokens
  import opened Portability
  import opened PortabilityProofs
  import opened PortabilityCalls

  // ----- comments and literals in any source

  predicate PlainCode(x: string)
  {
    forall i :: 0 <= i < |x| ==> x[i] != '/' && x[i] != '\"' && x[i] != '\''
  }

  lemma {:induction false} CodeStays(x: string, rest: string)
    requires PlainCode(x)
    ensures Stripped(x + rest) == x + Stripped(rest)
  {
    var s := x + rest;
    if x == [] {
      assert s == rest && x + Stripped(rest) == Stripped(rest);
    } else {
      assert s[0] == x[0] && s[1..] == x[1..] + rest;
      CodeStays(x[1..], rest);
      AppendAssoc([x[0]], x[1..], Stripped(rest));
      assert [x[0]] + x[1..] == x;
    }
  }

  lemma {:induction false} AfterCode(x: string, t: Token, y: string)
    requires PlainCode(x) && Proper(t, y)
    ensures Stripped(x + (Raw(t) + y)) == x + (Left(t) + Stripped(y))
  {
    hide Lex, Proper, Left, Raw;
    CodeStays(x, Raw(t) + y);
    TokenLeft(t, y);
  }

  /** A block comment behind code: spaces for its characters, its line breaks kept, and the source
      after it stripped from there. */
  lemma {:induction false} BlockCommentGoes(x: string, b: string, y: string)
    requires PlainCode(x) && NoClose(b)
    ensures Stripped(x + (("/*" + (b + "*/")) + y)) == x + (Wiped("/*" + (b + "*/")) + Stripped(y))
  {
    hide Lex, NoClose;
    AfterCode(x, BlockComment(b, true), y);
  }

  /** A line comment behind code, up to the end of its line. */
  lemma {:induction false} LineCommentGoes(x: string, b: string, y: string)
    requires PlainCode(x) && OneLine(b) && (y == [] || y[0] == '\n')
    ensures Stripped(x + (("//" + b) + y)) == x + (Spaces(|b| + 2) + Stripped(y))
  {
    hide Lex, OneLine;
    AfterCode(x, LineComment(b), y);
  }

  /** The inside of a literal behind code. */
  lemma {:induction false} LiteralGoes(x: string, q: char, b: string, y: string)
    requires PlainCode(x) && (q == '\"' || q == '\'') && Inside(b, q)
    ensures Stripped(x + (([q] + (b + [q])) + y)) == x + (([q] + (Spaces(|b|) + [q])) + Stripped(y))
  {
    hide Lex, Inside;
    AfterCode(x, Quoted(q, b, true), y);
  }

  // ----- columns

  /** Whether a column of the token is inside it: anywhere in a comment, between the quotes of a
      literal. */
  predicate CoveredIn(t: Token, p: nat)
  {
    match t
    case Char(_) => false
    case LineComment(_) => true
    case BlockComment(_, _) => true
    case Quoted(_, b, _) => 0 < p <= |b|
  }

  predicate Covered(ts: seq<Token>, p: nat)
    requires p < |Print(ts)|
  {
    var n := |Raw(ts[0])|;
    if p < n then CoveredIn(ts[0], p) else Covered(ts[1..], p - n)
  }

  /** Stripping leaves nothing of a covered column and everything of the others. */
  lemma {:induction false} ColumnLeft(ts: seq<Token>, p: nat)
    requires p < |Print(ts)|
    ensures |LeftAll(ts)| == |Print(ts)|
    ensures if Covered(ts, p) then LeftAll(ts)[p] in {' ', '\n'} else LeftAll(ts)[p] == Print(ts)[p]
  {
    var t, n := ts[0], |Raw(ts[0])|;
    LeftLength(ts[1..]);
    if p >= n { ColumnLeft(ts[1..], p - n); }
  }

  lemma {:induction false} LeftLength(ts: seq<Token>)
    ensures |LeftAll(ts)| == |Print(ts)|
  {
    if ts != [] { LeftLength(ts[1..]); }
  }

  /** The character at a column of a line, by its offset in the text. */
  lemma {:induction false} SplitColumn(text: string, i: nat, c: nat)
    requires i < |Split(text)| && c < |Split(text)[i]|
    ensures Offset(Split(text), i) + c < |text| && Split(text)[i][c] == text[Offset(Split(text), i) + c]
    decreases |text|
  {
    var k := FindNewline(text, 0);
    if i > 0 {
      var rest := text[k + 1..];
      OffsetShifts(text[..k], Split(rest), i);
      SplitColumn(rest, i - 1, c);
    }
  }

  // ----- calls

  /** The functions the Windows build lacks. */
  predicate Lacks(name: string)
  {
    || name == "setenv" || name == "unsetenv" || name == "realpath" || name == "getline" || name == "getdelim"
    || name == "strsep" || name == "timegm" || name == "posix_memalign" || name == "aligned_alloc"
    || name == "fmemopen" || name == "open_memstream" || name == "fork" || name == "pipe" || name == "symlink"
    || name == "readlink" || name == "sigaction" || name == "mmap" || name == "getpagesize"
  }

  /** In front of it a name would be longer, or a member's. */
  predicate Joins(c: char)
  {
    'a' <= c <= 'z' || 'A' <= c <= 'Z' || '0' <= c <= '9' || c == '_' || c == '.' || c == '>'
  }

  /** The call `name (` at column `c`, with `n` spaces between. */
  predicate CallText(line: string, c: nat, name: string, n: nat)
  {
    var e := c + |name|;
    && e + n < |line| && Lacks(name) && line[c..e] == name && (c > 0 ==> !Joins(line[c - 1]))
    && (forall k :: e <= k < e + n ==> IsSpace(line[k])) && line[e + n] == '('
  }

  lemma LacksIsMissing(name: string)
    ensures Lacks(name) <==> name in MISSING
  {
  }

  lemma LackedAreWords(name: string)
    requires Lacks(name)
    ensures name != [] && forall k :: 0 <= k < |name| ==> IsWordChar(name[k])
  {
  }

  lemma {:induction false} SpacesSkipped(s: string, n: nat)
    requires n < |s| && (forall k :: 0 <= k < n ==> IsSpace(s[k])) && !IsSpace(s[n])
    ensures SkipSpace(s) == s[n..]
  {
    if n > 0 { SpacesSkipped(s[1..], n - 1); }
  }

  lemma {:induction false} SkippedAreSpaces(s: string)
    ensures var n := |s| - |SkipSpace(s)|;
            n <= |s| && SkipSpace(s) == s[n..] && forall k :: 0 <= k < n ==> IsSpace(s[k])
  {
    if s != [] && IsSpace(s[0]) {
      SkippedAreSpaces(s[1..]);
      var n := |s| - |SkipSpace(s)|;
      forall k | 0 <= k < n ensures IsSpace(s[k]) { if k > 0 { assert s[k] == s[1..][k - 1]; } }
    }
  }

  /** A call is found exactly where one stands, and ends behind its bracket. */
  lemma {:induction false} CallReads(line: string, c: nat, name: string, e: nat)
    requires c <= |line|
    ensures CallAt(line, c) == Some((name, e))
       <==> c + |name| < e && CallText(line, c, name, e - c - |name| - 1)
  {
    hide MISSING, Lacks, CallAt, CallText;
    if c + |name| < e && CallText(line, c, name, e - c - |name| - 1) {
      CallThere(line, c, name, e - c - |name| - 1);
    }
    if CallAt(line, c) == Some((name, e)) {
      CallOnly(line, c, name, e);
    }
  }

  lemma {:induction false} CallOnly(line: string, c: nat, name: string, e: nat)
    requires c <= |line| && CallAt(line, c) == Some((name, e))
    ensures c + |name| < e && CallText(line, c, name, e - c - |name| - 1)
  {
    hide MISSING, Lacks;
    LacksIsMissing(name);
    var w := WordLen(line[c..]);
    var after := line[c + w..];
    SkippedAreSpaces(after);
    var n := |after| - |SkipSpace(after)|;
    forall k | c + w <= k < c + w + n ensures IsSpace(line[k]) { assert line[k] == after[k - c - w]; }
    assert line[c + w + n] == after[n] == SkipSpace(after)[0];
  }

  lemma {:induction false} WordIs(s: string, name: string)
    requires name <= s && |name| < |s| && !IsWordChar(s[|name|])
    requires forall k :: 0 <= k < |name| ==> IsWordChar(name[k])
    ensures WordLen(s) == |name|
  {
    forall k | 0 <= k < |name| ensures IsWordChar(s[k]) { assert s[k] == name[k]; }
  }

  /** The text from the name on, and from behind it. */
  lemma CallPieces(line: string, c: nat, name: string, n: nat)
    requires c <= |line| && CallText(line, c, name, n)
    ensures name <= line[c..] && |name| < |line[c..]| && !IsWordChar(line[c..][|name|])
    ensures n < |line[c + |name|..]| && line[c + |name|..][n] == '('
    ensures line[c + |name|..][n..] == line[c + |name| + n..]
    ensures var t := line[c + |name|..]; forall k :: 0 <= k < n ==> IsSpace(t[k])
  {
    hide Lacks;
    var e := c + |name|;
    assert line[c..][..|name|] == name && line[c..][|name|] == line[e];
    assert forall k :: 0 <= k < n ==> line[e..][k] == line[e + k];
  }

  lemma {:induction false} CallThere(line: string, c: nat, name: string, n: nat)
    requires c <= |line| && CallText(line, c, name, n)
    ensures CallAt(line, c) == Some((name, c + |name| + n + 1))
  {
    hide MISSING, Lacks, WordLen, SkipSpace;
    LacksIsMissing(name);
    LackedAreWords(name);
    var e := c + |name|;
    CallPieces(line, c, name, n);
    WordIs(line[c..], name);
    SpacesSkipped(line[e..], n);
  }

  /** The character at a column of a stripped line is the source's own, in its code. */
  lemma {:induction false} InCode(ts: seq<Token>, i: nat, k: nat)
    requires ProperAll(ts) && i < |Split(Stripped(Print(ts)))| && k < |Split(Stripped(Print(ts)))[i]|
    requires Split(Stripped(Print(ts)))[i][k] != ' '
    ensures var at := Offset(Split(Stripped(Print(ts))), i);
            && at + k < |Print(ts)| && !Covered(ts, at + k)
            && Print(ts)[at + k] == Split(Stripped(Print(ts)))[i][k]
  {
    hide Split, Lex, ProperAll, Print, Covered, LeftAll, Offset;
    var text := Stripped(Print(ts));
    SplitColumn(text, i, k);
    StripsTokens(ts);
    ColumnLeft(ts, Offset(Split(text), i) + k);
    LinesOfSplit(text);
  }

  /** A call found in the stripped source is a call of the source's code: every character of its name
      and its bracket stand there, in no comment and inside no literal. */
  lemma {:induction false} HitStandsInCode(ts: seq<Token>, i: nat, c: nat, name: string, e: nat)
    requires ProperAll(ts) && i < |Split(Stripped(Print(ts)))| && c < |Split(Stripped(Print(ts)))[i]|
    requires CallAt(Split(Stripped(Print(ts)))[i], c) == Some((name, e))
    ensures var at := Offset(Split(Stripped(Print(ts))), i) + c;
            && Lacks(name) && at + |name| < |Print(ts)| && Print(ts)[at..at + |name|] == name
            && forall k :: at <= k < at + |name| ==> !Covered(ts, k)
    ensures var bracket := Offset(Split(Stripped(Print(ts))), i) + e - 1;
            0 <= bracket < |Print(ts)| && Print(ts)[bracket] == '(' && !Covered(ts, bracket)
  {
    hide Lacks, Split, Lex, CallAt, ProperAll, Print, Covered, Offset, MISSING, Stripped;
    var line := Split(Stripped(Print(ts)))[i];
    CallOnly(line, c, name, e);
    LackedAreWords(name);
    var at := Offset(Split(Stripped(Print(ts))), i);
    InCode(ts, i, e - 1);
    forall k | at + c <= k < at + c + |name|
      ensures k < |Print(ts)| && !Covered(ts, k) && Print(ts)[k] == name[k - at - c]
    {
      var m: nat := k - at;
      assert line[c..c + |name|][m - c] == line[m] == name[m - c];
      InCode(ts, i, m);
    }
    assert at + c + |name| <= at + e - 1;
    assert Print(ts)[at + c..at + c + |name|] == name;
  }

  // ----- what the conditions say, by the macros' names

  predicate WindowsMacro(name: string)
  {
    || name == "_WIN32" || name == "_WIN64" || name == "__MINGW32__" || name == "__MINGW64__" || name == "_MSC_VER"
  }

  predicate PlatformMacro(name: string)
  {
    || name == "__linux__" || name == "__APPLE__" || name == "__unix__" || name == "__FreeBSD__"
    || name == "__OpenBSD__" || name == "__NetBSD__"
  }

  lemma MacroTables(name: string)
    ensures (WindowsMacro(name) <==> name in WIN) && (PlatformMacro(name) <==> name in POSIX)
    ensures !(WindowsMacro(name) && PlatformMacro(name))
  {
  }

  lemma {:induction false} NameIsWhole(name: string)
    requires IsName(name)
    ensures Strip(name) == name && name[0] != '!'
  {
    assert IsWordChar(name[0]) && IsWordChar(name[|name| - 1]);
    assert SkipSpace(name) == name;
    TrimEndKeeps(name);
  }

  /** A test of a macro's name, in the spelling with brackets: Windows only, never Windows, or neither;
      negated, never Windows for a Windows macro and undecided for any other. */
  lemma {:induction false} KindReads(name: string)
    requires IsName(name)
    ensures CondKind("defined(" + name + ")")
         == if WindowsMacro(name) then Win else if PlatformMacro(name) then Posix else Other
    ensures CondKind("!defined(" + name + ")") == if WindowsMacro(name) then Posix else Other
    ensures OpenerKind(Ifdef(name)) == CondKind("defined(" + name + ")")
    ensures OpenerKind(Ifndef(name))
         == if WindowsMacro(name) then Posix else Other
  {
    hide WIN, POSIX, IsName, WindowsMacro, PlatformMacro, Strip, DefinedName;
    MacroTables(name);
    NameIsWhole(name);
    IfdefNames(name);
    NegatedName(name);
  }

  lemma {:induction false} NegatedName(name: string)
    requires IsName(name)
    ensures CondKind("!defined(" + name + ")") == if name in WIN then Posix else Other
  {
    hide WIN, POSIX;
    var c := "!defined(" + name + ")";
    NameIsWhole(name);
    Trimmed(name);
    BracketedName("defined", name);
    hide IsName, DefinedName;
    Negation(name);
    TrimEndKeeps(c);
    assert Strip(c) == c;
    NegatedKind(c, "defined" + (['('] + (name + ")")), name);
  }

  lemma Negation(name: string)
    ensures var c, d := "!defined(" + name + ")", "defined" + (['('] + (name + ")"));
            && c[0] == '!' && c[|c| - 1] == ')' && c[1..] == d && SkipSpace(d) == d && SkipSpace(c) == c
            && DefinedName(c) == None
  {
    var c := "!defined(" + name + ")";
    assert c[0] != "defined"[0];
  }

  lemma NegatedKind(c: string, d: string, name: string)
    requires Strip(c) == c && c != [] && c[0] == '!' && SkipSpace(c[1..]) == d
    requires DefinedName(d) == Some(name) && DefinedName(c) == None
    ensures CondKind(c) == if name in WIN then Posix else Other
  {
    hide Strip, DefinedName, SkipSpace, WIN, POSIX;
  }

  // ----- the directives

  /** A line of a hash, white space, a word and what follows it. */
  predicate HashLine(line: string, gap: string, word: string, rest: string)
  {
    && line == "#" + (gap + (word + rest)) && IsName(word) && (forall k :: 0 <= k < |gap| ==> IsSpace(gap[k]))
    && (rest != [] ==> !IsWordChar(rest[0]))
  }

  lemma {:induction false} NoSpaceInWords(word: string)
    requires IsName(word)
    ensures !IsSpace(word[0]) && !IsSpace(word[|word| - 1])
  {
    assert IsWordChar(word[0]) && IsWordChar(word[|word| - 1]);
  }

  lemma {:induction false} SkipGap(gap: string, t: string)
    requires (forall k :: 0 <= k < |gap| ==> IsSpace(gap[k])) && t != [] && !IsSpace(t[0])
    ensures SkipSpace(gap + t) == t
  {
    if gap == [] {
      assert gap + t == t;
    } else {
      assert (gap + t)[1..] == gap[1..] + t && (gap + t)[0] == gap[0];
      SkipGap(gap[1..], t);
    }
  }

  /** The seven directives, by their words: any other word is none, and neither is a line without a
      hash in front. */
  lemma {:induction false} DirectiveReads(line: string, gap: string, word: string, rest: string)
    requires HashLine(line, gap, word, rest)
    ensures Parse(line)
         == if word == "ifdef" then Ifdef(Strip(rest)) else if word == "ifndef" then Ifndef(Strip(rest))
            else if word == "if" then If(rest) else if word == "elif" then Elif(rest)
            else if word == "else" then Else else if word == "endif" then Endif
            else if word == "define" then Define else Plain
  {
    hide SkipSpace, Strip, WordLen;
    NoSpaceInWords(word);
    var t := word + rest;
    SkipGap(gap, t);
    assert line[1..] == gap + t && line[0] == '#';
    assert t[..|word|] == word && t[|word|..] == rest;
    WordRuns(word, rest);
    hide IsName;
  }

  lemma {:induction false} WordRuns(word: string, rest: string)
    requires IsName(word) && (rest != [] ==> !IsWordChar(rest[0]))
    ensures WordLen(word + rest) == |word|
  {
    WordEnds(word + rest, |word|);
  }

  /** A line that does not begin with a hash is no directive. */
  lemma {:induction false} PlainReads(line: string)
    requires line == [] || line[0] != '#'
    ensures Parse(line) == Plain
  {
  }

  /** An `#else` is compiled by Windows alone behind a branch Windows never compiles, never by Windows
      behind one for Windows alone, and undecided otherwise; behind an `#elif` it is never compiled on
      Windows when an earlier branch was. */
  lemma {:induction false} ElseReads(f: Frame, k: Kind)
    ensures AfterElse(Opened(k)).kind == if k == Win then Posix else if k == Posix then Win else Other
    ensures f.won ==> AfterElse(f).kind == Posix
    ensures !f.won ==> AfterElse(f).kind == if f.first == Posix then Win else Other
    ensures AfterElse(f).won == f.won && AfterElse(f).first == f.first
  {
  }
}
