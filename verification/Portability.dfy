/** scripts/check-portability.py, `cond_kind` and `scan`: which lines the Windows build never compiles,
    checked against conditional inclusion as section 6.10.1 of ISO/IEC 9899:2011 has it. */
module Portability {
  import opened Wrappers
  import opened PyText
  import Lexer

  // ----- text

  predicate IsWordChar(c: char) { 'a' <= c <= 'z' || 'A' <= c <= 'Z' || '0' <= c <= '9' || c == '_' }

  /** Length of the leading run of word characters. */
  function WordLen(s: string): (n: nat)
    ensures n <= |s| && (n < |s| ==> !IsWordChar(s[n])) && forall i :: 0 <= i < n ==> IsWordChar(s[i])
  {
    if s != [] && IsWordChar(s[0]) then 1 + WordLen(s[1..]) else 0
  }

  predicate IsName(s: string)
  {
    s != [] && forall i :: 0 <= i < |s| ==> IsWordChar(s[i])
  }

  // ----- cond_kind

  const WIN: set<string> := {"_WIN32", "_WIN64", "__MINGW32__", "__MINGW64__", "_MSC_VER"}
  const POSIX: set<string> := {"__linux__", "__APPLE__", "__unix__", "__FreeBSD__", "__OpenBSD__", "__NetBSD__"}

  datatype Kind = Win | Posix | Other

  /** The name in a text matching `defined\s*\(?\s*NAME\s*\)?`, whose two brackets are optional
      each for itself. */
  function DefinedName(s: string): Option<string>
  {
    if !("defined" <= s) then None
    else
      var u := SkipSpace(s[7..]);
      var v := if u != [] && u[0] == '(' then SkipSpace(u[1..]) else u;
      Some(TrimEnd(if v != [] && v[|v| - 1] == ')' then v[..|v| - 1] else v))
  }

  function CondKind(cond: string): Kind
  {
    var c := Strip(cond);
    var negated := if c != [] && c[0] == '!' then DefinedName(SkipSpace(c[1..])) else None;
    var plain := DefinedName(c);
    if negated.Some? && negated.value in WIN then Posix
    else if plain.Some? && plain.value in WIN then Win
    else if plain.Some? && plain.value in POSIX then Posix
    else Other
  }

  // ----- directives

  datatype Directive =
    | Plain | Define | Endif | Else
    | If(cond: string) | Ifdef(name: string) | Ifndef(name: string) | Elif(cond: string)

  /** A stripped line as the directive pattern reads it. */
  function Parse(s: string): Directive
  {
    if s == [] || s[0] != '#' then Plain
    else
      var t := SkipSpace(s[1..]);
      var w := WordLen(t);
      var word, rest := t[..w], t[w..];
      if word == "ifdef" then Ifdef(Strip(rest))
      else if word == "ifndef" then Ifndef(Strip(rest))
      else if word == "if" then If(rest)
      else if word == "elif" then Elif(rest)
      else if word == "else" then Else
      else if word == "endif" then Endif
      else if word == "define" then Define
      else Plain
  }

  predicate Continues(line: string)
  {
    var s := Strip(line);
    s != [] && s[|s| - 1] == '\\'
  }

  // ----- the frame stack

  /** An open conditional: the kind of the current branch, whether an earlier one was Windows-only,
      and the kind of the first. */
  datatype Frame = Frame(kind: Kind, won: bool, first: Kind)

  function Opened(k: Kind): Frame { Frame(k, k == Win, k) }

  /** The kind of the first branch of a conditional. */
  function OpenerKind(d: Directive): Kind
    requires d.If? || d.Ifdef? || d.Ifndef?
  {
    match d
    case If(c) => CondKind(c)
    case Ifdef(name) => CondKind("defined(" + name + ")")
    case Ifndef(name) =>
      match CondKind("defined(" + name + ")") case Win => Posix case Posix => Other case Other => Other
  }

  function AfterElif(f: Frame, cond: string): Frame
  {
    var k := if f.won then Posix else CondKind(cond);
    Frame(k, f.won || k == Win, f.first)
  }

  function AfterElse(f: Frame): Frame
  {
    f.(kind := if f.won then Posix else if f.first == Posix then Win else Other)
  }

  function Step(stack: seq<Frame>, d: Directive): seq<Frame>
  {
    var top := |stack| - 1;
    match d
    case Plain => stack
    case Define => stack
    case If(_) => stack + [Opened(OpenerKind(d))]
    case Ifdef(_) => stack + [Opened(OpenerKind(d))]
    case Ifndef(_) => stack + [Opened(OpenerKind(d))]
    case Elif(c) => if stack == [] then stack else stack[..top] + [AfterElif(stack[top], c)]
    case Else => if stack == [] then stack else stack[..top] + [AfterElse(stack[top])]
    case Endif => if stack == [] then stack else stack[..top]
  }

  predicate Guarded(stack: seq<Frame>)
  {
    exists i :: 0 <= i < |stack| && stack[i].kind == Posix
  }

  /** What the scan does with a line: skip it as a directive or a part of a macro, skip it as never
      compiled on Windows, or read it for calls. */
  datatype Status = Control | Skipped | Read

  /** The statuses of lines read from a given state. */
  function Scan(lines: seq<string>, stack: seq<Frame>, inDefine: bool): (r: seq<Status>)
    ensures |r| == |lines|
  {
    if lines == [] then []
    else
      var s := Strip(lines[0]);
      if inDefine then [Control] + Scan(lines[1..], stack, Continues(lines[0]))
      else
        var d := Parse(s);
        if d.Plain? then [if Guarded(stack) then Skipped else Read] + Scan(lines[1..], stack, false)
        else [Control] + Scan(lines[1..], Step(stack, d), d.Define? && Continues(lines[0]))
  }

  // ----- the calls of a line

  const MISSING: set<string> := {
    "setenv", "unsetenv", "realpath", "getline", "getdelim", "strsep", "timegm", "posix_memalign", "aligned_alloc",
    "fmemopen", "open_memstream", "fork", "pipe", "symlink", "readlink", "sigaction", "mmap", "getpagesize"}

  /** The call pattern at position `i`: a listed name, not part of a longer word or a member access,
      then spaces and a bracket. The value is the name and the position after the bracket. */
  function CallAt(line: string, i: nat): (r: Option<(string, nat)>)
    requires i <= |line|
    ensures r.Some? ==> r.value.0 in MISSING && i < r.value.1 <= |line|
  {
    var w := WordLen(line[i..]);
    var after := SkipSpace(line[i + w..]);
    if i > 0 && (IsWordChar(line[i - 1]) || line[i - 1] == '.' || line[i - 1] == '>') then None
    else if line[i..i + w] in MISSING && after != [] && after[0] == '(' then
      Some((line[i..i + w], |line| - |after| + 1))
    else None
  }

  /** `[m.group(1) for m in CALL.finditer(line)]` from position `i` on. */
  function Calls(line: string, i: nat): seq<string>
    requires i <= |line|
    decreases |line| - i
  {
    if i == |line| then []
    else
      match CallAt(line, i)
      case None => Calls(line, i + 1)
      case Some((name, end)) => [name] + Calls(line, end)
  }

  // ----- the whole scan

  function Breaks(text: string): nat
  {
    if text == [] then 0 else (if text[0] == '\n' then 1 else 0) + Breaks(text[1..])
  }

  lemma {:induction false} BreaksAdd(x: string, y: string)
    ensures Breaks(x + y) == Breaks(x) + Breaks(y)
  {
    if x == [] {
      assert x + y == y;
    } else {
      assert (x + y)[1..] == x[1..] + y;
      BreaksAdd(x[1..], y);
    }
  }

  lemma {:induction false} NoBreaks(x: string)
    requires forall i :: 0 <= i < |x| ==> x[i] != '\n'
    ensures Breaks(x) == 0
  {
    if x != [] { NoBreaks(x[1..]); }
  }

  lemma {:induction false} LinesAndBreaks(text: string)
    ensures |Split(text)| == 1 + Breaks(text)
    decreases |text|
  {
    var k := FindNewline(text, 0);
    BeforeNewline(text, 0);
    NoBreaks(text[..k]);
    assert text == text[..k] + text[k..];
    BreaksAdd(text[..k], text[k..]);
    if k < |text| {
      assert text[k..][1..] == text[k + 1..];
      LinesAndBreaks(text[k + 1..]);
    }
  }

  lemma {:induction false} FewerBreaks(x: string, y: string)
    requires |x| == |y| && forall i :: 0 <= i < |x| ==> (x[i] == '\n' ==> y[i] == '\n')
    ensures Breaks(x) <= Breaks(y)
  {
    if x != [] { FewerBreaks(x[1..], y[1..]); }
  }

  /** Every line of the stripped text has a line of the raw text beside it. */
  lemma {:induction false} StrippedLines(text: string, st: Lexer.State)
    ensures forall i :: 0 <= i < |text| ==> (Lexer.Lex(text, st)[i] == '\n' ==> text[i] == '\n')
    decreases |text|
  {
    if text != [] {
      var n, out, next := Lexer.LexStep(text, st);
      StrippedLines(text[n..], next);
      var r := Lexer.Lex(text, st);
      forall i | 0 <= i < |text| && r[i] == '\n' ensures text[i] == '\n' {
        if i >= n { assert r[i] == Lexer.Lex(text[n..], next)[i - n]; }
      }
    }
  }

  lemma RawLineExists(text: string)
    ensures |Split(Lexer.Lex(text, Lexer.Code))| <= |Split(text)|
  {
    StrippedLines(text, Lexer.Code);
    FewerBreaks(Lexer.Lex(text, Lexer.Code), text);
    LinesAndBreaks(text);
    LinesAndBreaks(Lexer.Lex(text, Lexer.Code));
  }

  const ESCAPE: string := "portability: ok"

  predicate Contains(s: string, part: string)
  {
    exists i :: 0 <= i <= |s| && part <= s[i..]
  }

  datatype Hit = Hit(line: nat, name: string)

  function HitsOf(calls: seq<string>, line: nat): (r: seq<Hit>)
    ensures |r| == |calls| && forall i :: 0 <= i < |r| ==> r[i] == Hit(line, calls[i])
  {
    seq(|calls|, i requires 0 <= i < |calls| => Hit(line, calls[i]))
  }

  /** The hits of one line that is read. */
  function LineHits(line: string, raw: string, i: nat): seq<Hit>
  {
    if Contains(raw, ESCAPE) then [] else HitsOf(Calls(line, 0), i + 1)
  }

  /** The hits of the first `n` lines. */
  function Collect(lines: seq<string>, ss: seq<Status>, raws: seq<string>, n: nat): seq<Hit>
    requires n <= |lines| == |ss| && |lines| <= |raws|
  {
    if n == 0 then []
    else Collect(lines, ss, raws, n - 1) + if ss[n - 1].Read? then LineHits(lines[n - 1], raws[n - 1], n - 1) else []
  }

  /** Line number and function of every unguarded call. */
  function Hits(text: string): seq<Hit>
  {
    RawLineExists(text);
    var lines := Split(Lexer.Lex(text, Lexer.Code));
    Collect(lines, Scan(lines, [], false), Split(text), |lines|)
  }

  method ScanSource(text: string) returns (hits: seq<Hit>)
    ensures hits == Hits(text)
  {
    hide Calls, Parse, Step, Guarded, Contains, Split, Continues;
    var stripped := Lexer.StripComments(text);
    RawLineExists(text);
    var raws, lines := Split(text), Split(stripped);
    ghost var ss := Scan(lines, [], false);
    var stack: seq<Frame>, inDefine, i := [], false, 0;
    hits := [];
    assert lines[0..] == lines && ss[0..] == ss;
    while i < |lines|
      invariant i <= |lines|
      invariant ss[i..] == Scan(lines[i..], stack, inDefine)
      invariant hits == Collect(lines, ss, raws, i)
    {
      ghost var here := Scan(lines[i..], stack, inDefine);
      assert lines[i..][0] == lines[i] && lines[i..][1..] == lines[i + 1..];
      assert ss[i] == here[0] && ss[i + 1..] == here[1..];
      var line := lines[i];
      if inDefine {
        inDefine := Continues(line);
      } else {
        var d := Parse(Strip(line));
        if d.Plain? {
          if !Guarded(stack) {
            hits := hits + LineHits(line, raws[i], i);
          }
        } else {
          stack := Step(stack, d);
          inDefine := d.Define? && Continues(line);
        }
      }
      i := i + 1;
    }
  }
}
