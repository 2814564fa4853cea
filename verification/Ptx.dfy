/** scripts/embed-ptx.py and the two readers of the header it writes: `ptx_from_header` of
    scripts/cuda-act-probe.py and `embedded_text` of scripts/check-ptx-source.py. */
module Ptx {
  import opened Wrappers
  import opened PyText

  // ----- printing

  const VERSION: string := ".version"
  const PINNED: string := ".version 7.8"

  /** The index of the first line that starts with `.version`, or the number of lines. */
  function FirstVersion(lines: seq<string>): (k: nat)
    ensures k <= |lines| && (k < |lines| ==> VERSION <= lines[k])
    ensures forall i :: 0 <= i < k ==> !(VERSION <= lines[i])
  {
    if lines == [] || VERSION <= lines[0] then 0 else 1 + FirstVersion(lines[1..])
  }

  function Pin(lines: seq<string>): (r: seq<string>)
    ensures |r| == |lines|
  {
    var k := FirstVersion(lines);
    if k < |lines| then lines[k := PINNED] else lines
  }

  /** The text a header stands for: the file's, with its version line pinned, and a line feed. */
  function Carried(raw: string): string { Lines(Pin(Split(Universal(raw)))) }

  /** `s.replace(c, sub)`. */
  function Replace(s: string, c: char, sub: string): string
  {
    if s == [] then [] else (if s[0] == c then sub else [s[0]]) + Replace(s[1..], c, sub)
  }

  /** Each quote and each backslash with a backslash in front. */
  function Escape(s: string): string
  {
    if s == [] then []
    else if s[0] == '\\' || s[0] == '\"' then ['\\', s[0]] + Escape(s[1..])
    else [s[0]] + Escape(s[1..])
  }

  lemma {:induction false} ReplaceConcat(x: string, y: string, c: char, sub: string)
    ensures Replace(x + y, c, sub) == Replace(x, c, sub) + Replace(y, c, sub)
  {
    if x == [] {
      assert x + y == y;
    } else {
      assert (x + y)[1..] == x[1..] + y;
      ReplaceConcat(x[1..], y, c, sub);
    }
  }

  /** Replacing backslashes first and quotes second escapes every character once. */
  lemma {:induction false} ReplacesAreEscape(s: string)
    ensures Replace(Replace(s, '\\', "\\\\"), '\"', "\\\"") == Escape(s)
  {
    if s != [] {
      ReplacesAreEscape(s[1..]);
      var head := if s[0] == '\\' then "\\\\" else [s[0]];
      ReplaceConcat(head, Replace(s[1..], '\\', "\\\\"), '\"', "\\\"");
      assert "\\\\"[1..] == "\\" && "\\"[1..] == "" && [s[0]][1..] == "";
      assert Replace("", '\"', "\\\"") == "";
      assert Replace("\\", '\"', "\\\"") == "\\";
      assert Replace(head, '\"', "\\\"") == if s[0] == '\"' then "\\\"" else head;
    }
  }

  /** The literal of one line. */
  function Quoted(line: string): string { "\"" + (Escape(line) + ("\\n" + "\"")) }

  function Literals(lines: seq<string>): (r: seq<string>)
    ensures |r| == |lines| && forall i :: 0 <= i < |r| ==> r[i] == "    " + Quoted(lines[i])
  {
    if lines == [] then [] else ["    " + Quoted(lines[0])] + Literals(lines[1..])
  }

  function Lead(): string { "static const char *" }

  function Declaration(name: string): string { Lead() + (name + " =") }

  /** The header's text, `comments` being the lines above the declaration. */
  function Header(raw: string, comments: seq<string>, name: string): string
  {
    Lines(comments + ([Declaration(name)] + (Literals(Pin(Split(Universal(raw)))) + [";"])))
  }

  /** Line `k` is the first that starts with `.version`. */
  predicate FirstAt(lines: seq<string>, k: nat)
  {
    k < |lines| && ".version" <= lines[k] && forall i :: 0 <= i < k ==> !(".version" <= lines[i])
  }

  /** The first line that starts with `.version` becomes `.version 7.8`; every other line stays. */
  lemma PinIs(lines: seq<string>)
    ensures |Pin(lines)| == |lines|
    ensures forall k :: 0 <= k < |lines| ==> Pin(lines)[k] == if FirstAt(lines, k) then ".version 7.8" else lines[k]
  {
    var n := FirstVersion(lines);
    if n < |lines| { assert FirstAt(lines, n); }
    forall k | 0 <= k < |lines| ensures FirstAt(lines, k) <==> k == n {
    }
  }

  method PinVersion(text: string) returns (lines: seq<string>)
    ensures lines == Pin(Split(text)) && |lines| == |Split(text)|
    ensures forall k :: 0 <= k < |lines| ==>
              lines[k] == if FirstAt(Split(text), k) then ".version 7.8" else Split(text)[k]
  {
    hide Split;
    PinIs(Split(text));
    lines := Split(text);
    ghost var before, k := lines, FirstVersion(lines);
    var i := 0;
    while i < |lines|
      invariant i <= k && lines == before
    {
      if VERSION <= lines[i] {
        lines := lines[i := PINNED];
        break;
      }
      i := i + 1;
    }
  }

  method Embed(raw: string, comments: seq<string>, name: string) returns (header: string)
    ensures header == Header(raw, comments, name)
  {
    hide Replace, Escape, Split, Universal, Lines, Pin, Quoted, FirstAt;
    var lines := PinVersion(Universal(raw));
    var out := comments + [Declaration(name)];
    var n := 0;
    ghost var all := Literals(lines);
    while n < |lines|
      invariant n <= |lines|
      invariant out == comments + [Declaration(name)] + all[..n]
    {
      var esc := Replace(Replace(lines[n], '\\', "\\\\"), '\"', "\\\"");
      PrintedLine(lines[n]);
      out := out + ["    \"" + esc + "\\n\""];
      NextLine(comments + [Declaration(name)], all, n);
      n := n + 1;
    }
    assert all[..n] == all;
    out := out + [";"];
    Regrouped(comments, [Declaration(name)], all, [";"]);
    header := Lines(out);
  }

  lemma NextLine(front: seq<string>, all: seq<string>, n: nat)
    requires n < |all|
    ensures front + all[..n] + [all[n]] == front + all[..n + 1]
  {
  }

  lemma Regrouped(a: seq<string>, b: seq<string>, c: seq<string>, d: seq<string>)
    ensures a + b + c + d == a + (b + (c + d))
  {
  }

  lemma PrintedLine(line: string)
    ensures "    \"" + Replace(Replace(line, '\\', "\\\\"), '\"', "\\\"") + "\\n\"" == "    " + Quoted(line)
  {
    hide Replace, Escape;
    ReplacesAreEscape(line);
  }

  // ----- the reader of scripts/cuda-act-probe.py

  /** `text.find(part)`. */
  function Find(s: string, part: string): (r: Option<nat>)
    ensures r.Some? ==> r.value <= |s| && part <= s[r.value..]
    ensures r.Some? ==> forall i :: 0 <= i < r.value ==> !(part <= s[i..])
    ensures r.None? ==> forall i :: 0 <= i <= |s| ==> !(part <= s[i..])
  {
    if part <= s then (assert s[0..] == s; Some(0))
    else if s == [] then None
    else
      assert forall i :: 0 < i <= |s| ==> s[i..] == s[1..][i - 1..];
      assert s[0..] == s;
      match Find(s[1..], part)
      case None => None
      case Some(k) => Some(1 + k)
  }

  /** `((?:\\.|[^"\\])*)"` right after an opening quote: the length of the literal's body. */
  function Body(s: string): (r: Option<nat>)
    ensures r.Some? ==> r.value < |s| && s[r.value] == '\"'
    decreases |s|
  {
    if s == [] then None
    else if s[0] == '\"' then Some(0)
    else if s[0] == '\\' && (|s| == 1 || s[1] == '\n') then None
    else
      var n := if s[0] == '\\' then 2 else 1;
      match Body(s[n..])
      case None => None
      case Some(k) => Some(n + k)
  }

  /** `re.findall` of the literal pattern. */
  function FindAll(s: string): seq<string>
    decreases |s|
  {
    if s == [] then []
    else if s[0] != '\"' then FindAll(s[1..])
    else
      match Body(s[1..])
      case None => FindAll(s[1..])
      case Some(k) => [s[1..][..k]] + FindAll(s[1..][k + 1..])
  }

  function Meant(c: char): char
  {
    match c case 'n' => '\n' case 't' => '\t' case 'r' => '\r' case '0' => '\0' case _ => c
  }

  /** `re.sub(r'\\(.)', ...)`. */
  function Unescape(s: string): string
    decreases |s|
  {
    if s == [] then []
    else if s[0] == '\\' && |s| > 1 && s[1] != '\n' then [Meant(s[1])] + Unescape(s[2..])
    else [s[0]] + Unescape(s[1..])
  }

  function UnescapeAll(lits: seq<string>): string
  {
    if lits == [] then [] else Unescape(lits[0]) + UnescapeAll(lits[1..])
  }

  function PtxName(): string { "k_ptx_src" }

  /** `ptx_from_header` on a file's content, `None` standing for the `ValueError` of `index`. */
  function FromHeader(content: string): Option<string>
  {
    var text := Universal(content);
    match Find(text, PtxName())
    case None => None
    case Some(start) =>
      match Find(text[start..], ";\n")
      case None => None
      case Some(end) => Some(UnescapeAll(FindAll(text[start..][..end])))
  }

  method PtxFromHeader(content: string) returns (r: Option<string>)
    ensures r == FromHeader(content)
  {
    hide Unescape, FindAll, Find, Universal;
    var text := Universal(content);
    var start := Find(text, PtxName());
    if start.None? { return None; }
    var end := Find(text[start.value..], ";\n");
    if end.None? { return None; }
    var lits := FindAll(text[start.value..][..end.value]);
    var out, i := "", 0;
    assert lits[0..] == lits;
    while i < |lits|
      invariant i <= |lits|
      invariant UnescapeAll(lits) == out + UnescapeAll(lits[i..])
    {
      assert lits[i..][0] == lits[i] && lits[i..][1..] == lits[i + 1..];
      out := out + Unescape(lits[i]);
      i := i + 1;
    }
    assert out + [] == out;
    r := Some(out);
  }

  // ----- the reader of scripts/check-ptx-source.py

  /** What a Python string literal makes of a backslash and this character. */
  function PythonMeant(c: char): Option<char>
  {
    match c
    case '\\' => Some('\\') case '\"' => Some('\"') case '\'' => Some('\'')
    case 'n' => Some('\n') case 't' => Some('\t') case 'r' => Some('\r')
    case 'a' => Some('\U{7}') case 'b' => Some('\U{8}') case 'f' => Some('\U{c}') case 'v' => Some('\U{b}')
    case _ => None
  }

  /** The value of what follows an opening quote, through its closing quote and to the end of the
      text. */
  function AfterQuote(s: string): Option<string>
    decreases |s|
  {
    if s == [] || s[0] == '\0' || s[0] == '\n' then None
    else if s[0] == '\"' then if |s| == 1 then Some([]) else None
    else if s[0] != '\\' then Prepend(s[0], AfterQuote(s[1..]))
    else if |s| == 1 || PythonMeant(s[1]).None? then None
    else Prepend(PythonMeant(s[1]).value, AfterQuote(s[2..]))
  }

  function Prepend(c: char, r: Option<string>): Option<string>
  {
    match r case None => None case Some(t) => Some([c] + t)
  }

  /** `ast.literal_eval` of one double-quoted literal. */
  function LiteralEval(s: string): Option<string>
  {
    if s == [] || s[0] != '\"' then None else AfterQuote(s[1..])
  }

  function JoinLiterals(lines: seq<string>): Option<string>
  {
    if lines == [] then Some([])
    else
      var line := Strip(lines[0]);
      if !("\"" <= line) then JoinLiterals(lines[1..])
      else
        match (LiteralEval(line), JoinLiterals(lines[1..]))
        case (Some(x), Some(y)) => Some(x + y)
        case _ => None
  }

  /** `embedded_text` on a file's content, `None` standing for a literal `ast` refuses. */
  function EmbeddedText(content: string): Option<string>
  {
    JoinLiterals(Splitlines(Universal(content)))
  }
}
