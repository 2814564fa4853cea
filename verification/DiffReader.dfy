/** scripts/check-content-hygiene.py, `added_lines`: the added lines of a unified diff, checked against
    a printer of the unified format (the `-u` output of `diff` in POSIX.1-2008). */
module DiffReader {
  import opened Wrappers
  import opened Bytes
  import Names
  import opened PyText

  // ----- the reader

  datatype Hit = Hit(file: string, line: nat, text: string)

  /** The file the reader is in and the number of its next line. */
  datatype State = State(path: Option<string>, lineno: nat)

  predicate Starts(s: string, c: char) { s != [] && s[0] == c }

  predicate IsDigitChar(c: char) { '0' <= c <= '9' }

  /** Length of the leading run of digits. */
  function DigitLen(s: string): (n: nat)
    ensures n <= |s| && (n < |s| ==> !IsDigitChar(s[n])) && forall i :: 0 <= i < n ==> IsDigitChar(s[i])
  {
    if s != [] && IsDigitChar(s[0]) then 1 + DigitLen(s[1..]) else 0
  }

  /** `int()` of digits. */
  function NumberOf(s: string): nat
    requires forall i :: 0 <= i < |s| ==> IsDigitChar(s[i])
  {
    if s == [] then 0
    else
      assert IsDigitChar(s[|s| - 1]);
      10 * NumberOf(s[..|s| - 1]) + (s[|s| - 1] as int - '0' as int)
  }

  /** What follows a match of `\d+(?:,\d+)?`. */
  function PastRange(s: string): Option<string>
  {
    var a := DigitLen(s);
    var t := s[a..];
    var b := if Starts(t, ',') then DigitLen(t[1..]) else 0;
    if a == 0 then None else Some(if b > 0 then t[1 + b..] else t)
  }

  /** The number that ` \+(\d+)` captures. */
  function NewStart(s: string): Option<nat>
  {
    if !(" +" <= s) || DigitLen(s[2..]) == 0 then None else Some(NumberOf(s[2..][..DigitLen(s[2..])]))
  }

  /** The number the pattern `@@ -\d+(?:,\d+)? \+(\d+)` captures. */
  function HunkStart(raw: string): Option<nat>
  {
    if !("@@ -" <= raw) then None
    else
      match PastRange(raw[4..])
      case None => None
      case Some(u) => NewStart(u)
  }

  /** The file a `+++ ` line names. */
  function NamedPath(raw: string): Option<string>
    requires |raw| >= 4
  {
    var p := Strip(raw[4..]);
    if p == "/dev/null" then None else if "b/" <= p then Some(p[2..]) else Some(p)
  }

  function Step(raw: string, st: State): State
  {
    if "+++ " <= raw then st.(path := NamedPath(raw))
    else if "@@" <= raw then st.(lineno := match HunkStart(raw) case Some(n) => n case None => 0)
    else if st.path.Some? && !Starts(raw, '-') && !Starts(raw, '\\') then st.(lineno := st.lineno + 1)
    else st
  }

  function Yield(raw: string, st: State): seq<Hit>
  {
    if "+++ " <= raw || "@@" <= raw || !Starts(raw, '+') || st.path.None? then []
    else [Hit(st.path.value, st.lineno, raw[1..])]
  }

  function Read(lines: seq<string>, st: State): seq<Hit>
  {
    if lines == [] then [] else Yield(lines[0], st) + Read(lines[1..], Step(lines[0], st))
  }

  function Run(lines: seq<string>, st: State): State
  {
    if lines == [] then st else Run(lines[1..], Step(lines[0], st))
  }

  const START: State := State(None, 0)

  lemma ReadNext(lines: seq<string>, i: nat, st: State, hits: seq<Hit>)
    requires i < |lines|
    ensures hits + Read(lines[i..], st) == (hits + Yield(lines[i], st)) + Read(lines[i + 1..], Step(lines[i], st))
  {
    assert lines[i..][0] == lines[i] && lines[i..][1..] == lines[i + 1..];
    hide Step, Yield;
  }

  method AddedLines(diff: string) returns (hits: seq<Hit>)
    ensures hits == Read(Splitlines(diff), START)
  {
    hide Splitlines, HunkStart, NamedPath, Read;
    var lines := Splitlines(diff);
    var path: Option<string>, lineno: nat := None, 0;
    var i := 0;
    hits := [];
    assert lines[0..] == lines;
    while i < |lines|
      invariant i <= |lines|
      invariant Read(lines, START) == hits + Read(lines[i..], State(path, lineno))
    {
      var raw := lines[i];
      ReadNext(lines, i, State(path, lineno), hits);
      ghost var st, before := State(path, lineno), hits;
      if "+++ " <= raw {
        path := NamedPath(raw);
      } else if "@@" <= raw {
        var m := HunkStart(raw);
        lineno := if m.Some? then m.value else 0;
      } else if Starts(raw, '+') && path.Some? {
        hits := hits + [Hit(path.value, lineno, raw[1..])];
        lineno := lineno + 1;
      } else if !Starts(raw, '-') && path.Some? && !Starts(raw, '\\') {
        lineno := lineno + 1;
      }
      assert hits == before + Yield(raw, st) && Step(raw, st) == State(path, lineno);
      i := i + 1;
    }
    assert lines[i..] == [] && hits + [] == hits;
    assert Read([], State(path, lineno)) == [] by { ReadNone(State(path, lineno)); }
  }

  lemma ReadNone(st: State)
    ensures Read([], st) == []
  {
  }

  // ----- the printer

  /** A line of a hunk. */
  datatype Mark = Kept(text: string) | Added(text: string) | Removed(text: string) | NoNewline

  /** The common lines passed over before a hunk, and the hunk. */
  datatype Hunk = Hunk(skip: seq<string>, body: seq<Mark>, section: string)

  /** An edit of one file: the lines above its names, the names (no new one for a deleted file), its
      hunks, and the common lines after the last. */
  datatype FileDiff = FileDiff(extra: seq<string>, oldName: string, path: Option<string>, hunks: seq<Hunk>,
      tail: seq<string>)

  /** A line of the new file, and whether the edit added it. */
  datatype NewLine = NewLine(text: string, added: bool)

  function PrintMark(m: Mark): string
  {
    match m
    case Kept(t) => " " + t
    case Added(t) => "+" + t
    case Removed(t) => "-" + t
    case NoNewline => "\\ No newline at end of file"
  }

  function PrintBody(body: seq<Mark>): seq<string>
  {
    if body == [] then [] else [PrintMark(body[0])] + PrintBody(body[1..])
  }

  function InNew(m: Mark): seq<NewLine>
  {
    match m case Kept(t) => [NewLine(t, false)] case Added(t) => [NewLine(t, true)] case _ => []
  }

  /** The lines of the new file a hunk shows. */
  function NewSide(body: seq<Mark>): seq<NewLine>
  {
    if body == [] then [] else InNew(body[0]) + NewSide(body[1..])
  }

  /** The number of lines of the old file a hunk shows. */
  function OldLen(body: seq<Mark>): nat
  {
    if body == [] then 0 else (if body[0].Kept? || body[0].Removed? then 1 else 0) + OldLen(body[1..])
  }

  function Chars(s: seq<byte>): (r: string)
    ensures |r| == |s| && forall i :: 0 <= i < |r| ==> r[i] as int == s[i] as int
  {
    seq(|s|, i requires 0 <= i < |s| => s[i] as char)
  }

  function Decimal(n: nat): string { Chars(Names.Dec(n)) }

  /** The range of `len` lines that stand after `before` others; an empty range names the line before
      it, and a length of one is not printed. */
  function Range(before: nat, len: nat): string
  {
    Decimal(if len == 0 then before else before + 1) + (if len == 1 then "" else "," + Decimal(len))
  }

  /** The header of a hunk with `old` and `new` lines of the two files before it. */
  function PrintHeader(h: Hunk, before: nat, after: nat): string
  {
    "@@ -" + (Range(before, OldLen(h.body)) + (" +" + (Range(after, |NewSide(h.body)|) + (" @@" + h.section))))
  }

  function PrintHunks(hunks: seq<Hunk>, before: nat, after: nat): seq<string>
  {
    if hunks == [] then []
    else
      var h := hunks[0];
      var b, a := before + |h.skip|, after + |h.skip|;
      ([PrintHeader(h, b, a)] + PrintBody(h.body))
      + PrintHunks(hunks[1..], b + OldLen(h.body), a + |NewSide(h.body)|)
  }

  function NewName(path: Option<string>): string
  {
    match path case None => "+++ /dev/null" case Some(p) => "+++ b/" + p
  }

  function PrintFile(f: FileDiff): seq<string>
  {
    f.extra + if f.hunks == [] then [] else ["--- " + f.oldName, NewName(f.path)] + PrintHunks(f.hunks, 0, 0)
  }

  function Print(files: seq<FileDiff>): seq<string>
  {
    if files == [] then [] else PrintFile(files[0]) + Print(files[1..])
  }

  // ----- what the edit adds

  function Unmarked(lines: seq<string>): seq<NewLine>
  {
    if lines == [] then [] else [NewLine(lines[0], false)] + Unmarked(lines[1..])
  }

  function HunksImage(hunks: seq<Hunk>): seq<NewLine>
  {
    if hunks == [] then [] else (Unmarked(hunks[0].skip) + NewSide(hunks[0].body)) + HunksImage(hunks[1..])
  }

  /** The new file, line by line. */
  function Image(f: FileDiff): seq<NewLine> { HunksImage(f.hunks) + Unmarked(f.tail) }

  /** The added lines of an image whose first line has number `n`. */
  function AddedOf(path: string, image: seq<NewLine>, n: nat): seq<Hit>
  {
    if image == [] then []
    else (if image[0].added then [Hit(path, n, image[0].text)] else []) + AddedOf(path, image[1..], n + 1)
  }

  /** The added lines of every file, each with its number in the new file. */
  function Expected(files: seq<FileDiff>): seq<Hit>
  {
    if files == [] then []
    else (match files[0].path case None => [] case Some(p) => AddedOf(p, Image(files[0]), 1)) + Expected(files[1..])
  }

  /** What `diff` and `git` print: no line above the names looks like a part of a hunk, and a deleted
      file has no new line. */
  predicate WellFormed(f: FileDiff)
  {
    && (forall i :: 0 <= i < |f.extra| ==> !Starts(f.extra[i], '+') && !("@@" <= f.extra[i]))
    && (f.path.None? ==> Image(f) == [])
  }

  predicate AllWellFormed(files: seq<FileDiff>) { forall i :: 0 <= i < |files| ==> WellFormed(files[i]) }

  predicate Trimmed(p: string) { p == [] || !IsSpace(p[|p| - 1]) }

  predicate NoAdded(body: seq<Mark>) { forall i :: 0 <= i < |body| ==> !body[i].Added? }

  predicate NothingAdded(hunks: seq<Hunk>) { forall i :: 0 <= i < |hunks| ==> NoAdded(hunks[i].body) }

  /** A file's name does not end in white space, or nothing is added to it. */
  predicate RightName(f: FileDiff) { f.path.Some? ==> Trimmed(f.path.value) || NothingAdded(f.hunks) }

  predicate RightNames(files: seq<FileDiff>) { forall i :: 0 <= i < |files| ==> RightName(files[i]) }

  /** Added text that prints like the name line of a file. */
  predicate LooksLikeName(m: Mark) { m.Added? && "++ " <= m.text }

  predicate PlainBody(body: seq<Mark>) { forall i :: 0 <= i < |body| ==> !LooksLikeName(body[i]) }

  predicate PlainHunks(hunks: seq<Hunk>) { forall i :: 0 <= i < |hunks| ==> PlainBody(hunks[i].body) }

  predicate Plain(files: seq<FileDiff>) { forall i :: 0 <= i < |files| ==> PlainHunks(files[i].hunks) }
}
