/** Both readers of the embedded header recover the text it was printed from. */
module PtxProofs {
  import opened Wrappers
  import opened PyText
  import opened Ptx

  // ----- one literal

  lemma After(x: string, y: string, z: string)
    ensures (x + y) + z == x + (y + z) && ((x + y) + z)[|x| + |y|..] == z
  {
  }

  function Later(n: nat, r: Option<nat>): Option<nat>
  {
    match r case None => None case Some(k) => Some(n + k)
  }

  /** One printed character, read as part of a literal. */
  lemma BodyStep(c: char, t: string)
    requires c != '\n'
    ensures Body(['\\', c] + t) == Later(2, Body(t))
    ensures c != '\\' && c != '\"' ==> Body([c] + t) == Later(1, Body(t))
  {
    assert (['\\', c] + t)[2..] == t && ([c] + t)[1..] == t;
  }

  /** The pattern's literal is the printed line, whatever follows. */
  lemma {:induction false} BodyOfEscape(s: string, t: string)
    requires OneLine(s)
    ensures Body(Escape(s) + t) == Later(|Escape(s)|, Body(t))
  {
    hide Body, Escape;
    if s == [] {
      assert Escape(s) == [] by { EscapeOfNone(); }
      assert Escape(s) + t == t;
    } else {
      var e := Escape(s[1..]);
      assert OneLine(s[1..]) && s[0] != '\n';
      EscapeFirst(s);
      BodyOfEscape(s[1..], t);
      BodyStep(s[0], e + t);
      After(Escaped(s[0]), e, t);
    }
  }

  /** A character as it is printed. */
  function Escaped(c: char): string { if c == '\\' || c == '\"' then ['\\', c] else [c] }

  lemma EscapeFirst(s: string)
    requires s != []
    ensures Escape(s) == Escaped(s[0]) + Escape(s[1..])
  {
  }

  lemma EscapeOfNone()
    ensures Escape([]) == []
  {
  }

  lemma BodyOfLine(line: string, rest: string)
    requires OneLine(line)
    ensures Body((Escape(line) + "\\n") + ("\"" + rest)) == Some(|Escape(line)| + 2)
  {
    var t := "\"" + rest;
    BodyOfEscape(line, ['\\', 'n'] + t);
    BodyStep('n', t);
    assert Body(t) == Some(0);
    hide Escape, Body;
    assert (Escape(line) + "\\n") + t == Escape(line) + (['\\', 'n'] + t);
  }

  lemma UnescapeStep(c: char, t: string)
    ensures c == '\\' || c == '\"' ==> Unescape(['\\', c] + t) == [c] + Unescape(t)
    ensures c != '\\' ==> Unescape([c] + t) == [c] + Unescape(t)
  {
    assert (['\\', c] + t)[2..] == t && ([c] + t)[1..] == t;
  }

  lemma UnescapeEnd()
    ensures Unescape("\\n") == "\n"
  {
    assert "\\n"[2..] == "" && ['\n'] + [] == "\n";
  }

  lemma {:induction false} UnescapeOfEscape(s: string)
    ensures Unescape(Escape(s) + "\\n") == s + "\n"
  {
    hide Unescape;
    UnescapeEnd();
    if s == [] {
      assert Escape(s) + "\\n" == "\\n" && s + "\n" == "\n";
    } else {
      var t := Escape(s[1..]) + "\\n";
      UnescapeOfEscape(s[1..]);
      UnescapeStep(s[0], t);
      assert Escape(s) + "\\n" == (if s[0] == '\\' || s[0] == '\"' then ['\\', s[0]] else [s[0]]) + t;
      assert s + "\n" == [s[0]] + (s[1..] + "\n");
    }
  }

  lemma {:induction false} NoQuotes(x: string, y: string)
    requires forall i :: 0 <= i < |x| ==> x[i] != '\"'
    ensures FindAll(x + y) == FindAll(y)
  {
    if x == [] {
      assert x + y == y;
    } else {
      assert (x + y)[1..] == x[1..] + y;
      NoQuotes(x[1..], y);
    }
  }

  lemma FindAllAt(body: string, rest: string)
    requires Body(body + ("\"" + rest)) == Some(|body|)
    ensures FindAll("\"" + (body + ("\"" + rest))) == [body] + FindAll(rest)
  {
    hide Body;
    var t := body + ("\"" + rest);
    assert ("\"" + t)[1..] == t && t[..|body|] == body && t[|body| + 1..] == rest;
  }

  lemma FindAllOfLine(line: string, rest: string)
    requires OneLine(line)
    ensures FindAll("    " + Quoted(line) + ("\n" + rest)) == [Escape(line) + "\\n"] + FindAll(rest)
  {
    hide Body, Escape, FindAll;
    var e := Escape(line) + "\\n";
    var t := "\"" + (e + ("\"" + ("\n" + rest)));
    BodyOfLine(line, "\n" + rest);
    FindAllAt(e, "\n" + rest);
    NoQuotes("    ", t);
    NoQuotes("\n", rest);
    Printed(line, rest);
  }

  lemma Printed(line: string, rest: string)
    ensures "    " + Quoted(line) + ("\n" + rest) == "    " + ("\"" + ((Escape(line) + "\\n") + ("\"" + ("\n" + rest))))
  {
    hide Escape;
  }

  lemma {:induction false} FindAllOfLines(lines: seq<string>)
    requires forall i :: 0 <= i < |lines| ==> OneLine(lines[i])
    ensures UnescapeAll(FindAll(Lines(Literals(lines)))) == Lines(lines)
  {
    assert FindAll("") == [];
    hide FindAll, Unescape, Escape, Quoted;
    if lines != [] {
      FindAllOfLines(lines[1..]);
      var rest := Lines(Literals(lines[1..]));
      assert Literals(lines)[1..] == Literals(lines[1..]);
      assert Lines(Literals(lines)) == "    " + Quoted(lines[0]) + ("\n" + rest);
      FindAllOfLine(lines[0], rest);
      UnescapeOfEscape(lines[0]);
      var lit := Escape(lines[0]) + "\\n";
      assert ([lit] + FindAll(rest))[1..] == FindAll(rest);
      assert lines[0] + ("\n" + Lines(lines[1..])) == (lines[0] + "\n") + Lines(lines[1..]);
    }
  }

  // ----- the first reader

  /** Everything from the name on, up to the semicolon that ends the declaration. */
  function Declared(raw: string, name: string): seq<string>
  {
    [name + " ="] + Literals(Pin(Split(Universal(raw))))
  }

  lemma LinesOne(line: string)
    ensures Lines([line]) == line + "\n"
  {
    assert [line][1..] == [];
    assert line + ("\n" + []) == line + "\n";
  }

  lemma LinesParts(comments: seq<string>, lead: string, rest: string, lits: seq<string>, last: string)
    ensures Lines(comments + ([lead + rest] + (lits + [last])))
         == (Lines(comments) + lead) + (Lines([rest] + lits) + (last + "\n"))
  {
    LinesConcat(comments, [lead + rest] + (lits + [last]));
    LinesConcat([lead + rest], lits + [last]);
    LinesConcat(lits, [last]);
    LinesConcat([rest], lits);
    LinesOne(last);
    LinesOne(rest);
    LinesOne(lead + rest);
    hide Lines;
  }

  lemma HeaderParts(raw: string, comments: seq<string>, name: string)
    ensures Header(raw, comments, name) == (Lines(comments) + Lead()) + (Lines(Declared(raw, name)) + ";\n")
  {
    hide Split, Universal, Pin, Lines, Literals;
    LinesParts(comments, Lead(), name + " =", Literals(Pin(Split(Universal(raw)))), ";");
    assert ";" + "\n" == ";\n";
  }

  lemma PinnedLines(raw: string)
    ensures forall i :: 0 <= i < |Pin(Split(Universal(raw)))| ==> OneLine(Pin(Split(Universal(raw)))[i])
  {
    LinesOfSplit(Universal(raw));
  }

  /** A non-empty line that does not end in a semicolon. */
  predicate Open(line: string) { line != [] && line[|line| - 1] != ';' && OneLine(line) }

  lemma Two(c: char, d: char, s: string, i: nat)
    requires i <= |s| && [c, d] <= s[i..]
    ensures i + 1 < |s| && s[i] == c && s[i + 1] == d
  {
    assert |s[i..]| >= 2 && s[i..][0] == c && s[i..][1] == d;
  }

  /** No semicolon ends a line before the terminator. */
  lemma {:induction false} NoEarlierEnd(lines: seq<string>, end: string, i: nat)
    requires forall k :: 0 <= k < |lines| ==> Open(lines[k])
    requires i < |Lines(lines)|
    ensures !([';', '\n'] <= (Lines(lines) + end)[i..])
  {
    var s, n := Lines(lines) + end, |lines[0]|;
    var rest := Lines(lines[1..]) + end;
    assert s == lines[0] + ("\n" + rest);
    if i > n {
      NoEarlierEnd(lines[1..], end, i - n - 1);
      assert s[i..] == rest[i - n - 1..];
    } else {
      assert s[n] == '\n' && (i < n ==> s[i] == lines[0][i]) && (i + 1 < n ==> s[i + 1] == lines[0][i + 1]);
      if [';', '\n'] <= s[i..] {
        Two(';', '\n', s, i);
        assert false;
      }
    }
  }

  lemma FindsEnd(lines: seq<string>)
    requires forall k :: 0 <= k < |lines| ==> Open(lines[k])
    ensures Find(Lines(lines) + ";\n", ";\n") == Some(|Lines(lines)|)
  {
    hide Lines;
    var s := Lines(lines) + ";\n";
    assert s[|Lines(lines)|..] == ";\n";
    var r := Find(s, ";\n");
    if r.Some? && r.value < |Lines(lines)| { NoEarlierEnd(lines, ";\n", r.value); }
  }

  lemma {:induction false} EscapeOneLine(s: string)
    ensures OneLine(s) ==> OneLine(Escape(s))
  {
    if s != [] { EscapeOneLine(s[1..]); }
  }

  lemma DeclaredIsOpen(raw: string, name: string)
    requires OneLine(name)
    ensures forall k :: 0 <= k < |Declared(raw, name)| ==> Open(Declared(raw, name)[k])
  {
    hide Split, Universal, Pin, Escape;
    PinnedLines(raw);
    var lines := Pin(Split(Universal(raw)));
    forall k | 0 <= k < |lines| ensures Open("    " + Quoted(lines[k])) {
      EscapeOneLine(lines[k]);
    }
    assert Open(name + " =");
  }

  lemma PartAt(part: string, s: string, i: nat)
    requires i <= |s| && part <= s[i..]
    ensures i + |part| <= |s| && forall j :: i <= j < i + |part| ==> s[j] == part[j - i]
  {
    forall j | i <= j < i + |part| ensures s[j] == part[j - i] {
      assert s[i..][j - i] == s[j];
    }
  }

  lemma SpansNoBreak(a: string, b: string, part: string, i: nat)
    requires i <= |a| && OneLine(part) && part != [] && part <= (a + ("\n" + b))[i..]
    ensures part <= a[i..]
  {
    var s := a + ("\n" + b);
    assert s[|a|] == '\n';
    PartAt(part, s, i);
    assert i + |part| <= |a|;
    assert a[i..][..|part|] == s[i..][..|part|];
  }

  /** The name of the variable is not spelled before its declaration. */
  lemma {:induction false} NoEarlierName(comments: seq<string>, lead: string, part: string, tail: string, i: nat)
    requires OneLine(part) && part != [] && forall k :: 0 <= k < |lead| ==> lead[k] != part[0]
    requires forall c :: c in comments ==> Find(c, part).None?
    requires i < |Lines(comments)| + |lead|
    ensures !(part <= (Lines(comments) + (lead + tail))[i..])
  {
    var s := Lines(comments) + (lead + tail);
    hide Find;
    if comments == [] {
      assert s[i] == lead[i];
      if part <= s[i..] { PartAt(part, s, i); }
    } else {
      var n, rest := |comments[0]|, Lines(comments[1..]) + (lead + tail);
      assert s == comments[0] + ("\n" + rest);
      if i > n {
        NoEarlierName(comments[1..], lead, part, tail, i - n - 1);
        assert s[i..] == rest[i - n - 1..];
      } else if part <= s[i..] {
        assert comments[0] in comments;
        SpansNoBreak(comments[0], rest, part, i);
      }
    }
  }

  lemma FindsName(comments: seq<string>, lead: string, part: string, tail: string)
    requires OneLine(part) && part != [] && forall k :: 0 <= k < |lead| ==> lead[k] != part[0]
    requires part <= tail && forall c :: c in comments ==> Find(c, part).None?
    ensures Find(Lines(comments) + (lead + tail), part) == Some(|Lines(comments)| + |lead|)
  {
    hide Lines, Find, OneLine;
    var s, n := Lines(comments) + (lead + tail), |Lines(comments)| + |lead|;
    assert s[n..] == tail;
    var r := Find(s, part);
    if r.Some? && r.value < n { NoEarlierName(comments, lead, part, tail, r.value); }
  }

  predicate NoReturn(s: string) { forall i :: 0 <= i < |s| ==> s[i] != '\r' }

  lemma {:induction false} LinesNoReturn(lines: seq<string>)
    ensures NoReturn(Lines(lines)) <==> forall i :: 0 <= i < |lines| ==> NoReturn(lines[i])
  {
    if lines != [] {
      LinesNoReturn(lines[1..]);
      var a, b := lines[0], Lines(lines[1..]);
      NoReturnConcat(a, "\n" + b);
      NoReturnConcat("\n", b);
      assert forall i :: 0 < i < |lines| ==> lines[i] == lines[1..][i - 1];
    }
  }

  lemma NoReturnConcat(a: string, b: string)
    ensures NoReturn(a + b) <==> NoReturn(a) && NoReturn(b)
  {
    if NoReturn(a + b) {
      forall i | 0 <= i < |a| ensures a[i] != '\r' { assert (a + b)[i] == a[i]; }
      forall i | 0 <= i < |b| ensures b[i] != '\r' { assert (a + b)[|a| + i] == b[i]; }
    }
  }

  lemma {:induction false} PrintedNoReturn(s: string)
    requires NoReturn(s)
    ensures NoReturn(Escape(s)) && NoReturn("    " + Quoted(s))
  {
    if s != [] { PrintedNoReturn(s[1..]); }
  }

  lemma PinnedNoReturn(raw: string)
    ensures forall i :: 0 <= i < |Pin(Split(Universal(raw)))| ==> NoReturn(Pin(Split(Universal(raw)))[i])
  {
    LinesOfSplit(Universal(raw));
    LinesNoReturn(Split(Universal(raw)));
    NoReturnConcat(Universal(raw), "\n");
  }

  /** The header reads back as it was written: it holds no carriage return. */
  lemma HeaderIsPlain(raw: string, comments: seq<string>, name: string)
    requires NoReturn(name) && forall c :: c in comments ==> NoReturn(c)
    ensures NoReturn(Header(raw, comments, name))
  {
    assert NoReturn(Declaration(name)) && NoReturn(";");
    hide Split, Universal, Pin, Escape, Quoted, NoReturn, Declaration, Lines;
    var lines := Pin(Split(Universal(raw)));
    PinnedNoReturn(raw);
    forall i | 0 <= i < |lines| ensures NoReturn(Literals(lines)[i]) {
      PrintedNoReturn(lines[i]);
    }
    LinesNoReturn(comments + ([Declaration(name)] + (Literals(lines) + [";"])));
  }

  lemma DeclaredReads(raw: string)
    ensures PtxName() <= Lines(Declared(raw, PtxName()))
    ensures UnescapeAll(FindAll(Lines(Declared(raw, PtxName())))) == Carried(raw)
  {
    hide Find, FindAll, Unescape, Universal, Split, Pin, Literals;
    var lits := Literals(Pin(Split(Universal(raw))));
    var head := PtxName() + " =";
    assert ([head] + lits)[1..] == lits;
    assert Lines([head] + lits) == (head + "\n") + Lines(lits);
    NoQuotes(head + "\n", Lines(lits));
    PinnedLines(raw);
    FindAllOfLines(Pin(Split(Universal(raw))));
  }

  lemma LeadsNotToName()
    ensures OneLine(PtxName()) && NoReturn(PtxName()) && PtxName() != []
    ensures forall k :: 0 <= k < |Lead()| ==> Lead()[k] != PtxName()[0]
  {
  }

  /** A text in which both searches succeed. */
  lemma ReadsBack(text: string, start: nat, body: string)
    requires NoReturn(text) && Find(text, PtxName()) == Some(start)
    requires text[start..] == body + ";\n" && Find(body + ";\n", ";\n") == Some(|body|)
    ensures FromHeader(text) == Some(UnescapeAll(FindAll(body)))
  {
    hide Find, Universal, UnescapeAll, FindAll;
    UniversalKeeps(text);
    assert (body + ";\n")[..|body|] == body;
  }

  /** `ptx_from_header` gives back the lines of the text the header was printed from, whatever the text,
      the first that starts with `.version` as `.version 7.8`, and a line feed behind the last. */
  lemma HeaderCarriesSource(raw: string, comments: seq<string>) returns (lines: seq<string>)
    requires forall c :: c in comments ==> NoReturn(c) && Find(c, "k_ptx_src").None?
    ensures FromHeader(Header(raw, comments, "k_ptx_src")) == Some(Carried(raw)) == Some(Lines(lines))
    ensures |lines| == |Split(Universal(raw))|
    ensures forall k :: 0 <= k < |lines| ==>
              lines[k] == if FirstAt(Split(Universal(raw)), k) then ".version 7.8" else Split(Universal(raw))[k]
  {
    lines := Pin(Split(Universal(raw)));
    PinIs(Split(Universal(raw)));
    assert Carried(raw) == Lines(lines);
    LeadsNotToName();
    hide Find, FindAll, Universal, Declared, Lines, Carried, UnescapeAll, Header, FromHeader, NoReturn, Open, Lead,
         PtxName;
    HeaderIsPlain(raw, comments, PtxName());
    HeaderParts(raw, comments, PtxName());
    DeclaredReads(raw);
    DeclaredIsOpen(raw, PtxName());
    FindsEnd(Declared(raw, PtxName()));
    var body := Lines(Declared(raw, PtxName()));
    FoundHeader(Header(raw, comments, PtxName()), comments, body);
  }

  /** The lines of a header: the comments, the declaration, a quoted line for each of the source's, and
      a semicolon. A quoted line is four spaces, a quote, the line with a backslash in front of each
      quote and backslash, `\n` and a quote. */
  lemma HeaderReads(raw: string, comments: seq<string>, name: string) returns (lines: seq<string>)
    ensures Header(raw, comments, name)
         == Lines(comments + (["static const char *" + (name + " =")] + (lines + [";"])))
    ensures |lines| == |Split(Universal(raw))|
    ensures forall k :: 0 <= k < |lines| ==>
              lines[k] == "    " + ("\"" + (Escape(Pin(Split(Universal(raw)))[k]) + "\\n\""))
  {
    lines := Literals(Pin(Split(Universal(raw))));
    hide Universal, Split, Lines, Pin, Escape;
  }

  /** Each escaped character stands for itself or for the control character it names. */
  lemma {:induction false} EscapesRead(c: char, rest: string)
    ensures c != '\\' ==> Unescape([c] + rest) == [c] + Unescape(rest)
    ensures c != '\n' ==>
              Unescape("\\" + ([c] + rest))
              == [if c as int == 110 then 10 as char else if c as int == 116 then 9 as char
                  else if c as int == 114 then 13 as char else if c as int == 48 then 0 as char else c]
                 + Unescape(rest)
  {
    var s, t := [c] + rest, "\\" + ([c] + rest);
    assert s[1..] == rest && t[2..] == rest && t[1] == c;
  }

  /** In a Python literal ten characters may follow a backslash. */
  lemma PythonEscapes(c: char)
    ensures PythonMeant(c).Some? <==> c as int in {92, 34, 39, 110, 116, 114, 97, 98, 102, 118}
    ensures PythonMeant(c).Some? ==>
              (c as int, PythonMeant(c).value as int) in {(92, 92), (34, 34), (39, 39), (110, 10), (116, 9), (114, 13),
                (97, 7), (98, 8), (102, 12), (118, 11)}
  {
  }

  lemma FoundHeader(text: string, comments: seq<string>, body: string)
    requires text == (Lines(comments) + Lead()) + (body + ";\n") && NoReturn(text) && PtxName() <= body
    requires forall c :: c in comments ==> Find(c, PtxName()).None?
    requires Find(body + ";\n", ";\n") == Some(|body|)
    ensures FromHeader(text) == Some(UnescapeAll(FindAll(body)))
  {
    LeadsNotToName();
    hide Find, Lines, UnescapeAll, FindAll, FromHeader, NoReturn, Lead, PtxName;
    var l, tail := Lines(comments), body + ";\n";
    assert PtxName() <= tail;
    After(l, Lead(), tail);
    FindsName(comments, Lead(), PtxName(), tail);
    ReadsBack(text, |l| + |Lead()|, body);
  }

  // ----- the second reader

  /** No character that ends a line for `splitlines`, or that a Python literal may not hold. */
  predicate Printable(s: string) { NoBreak(s) && NoNul(s) }

  predicate NoNul(s: string) { forall i :: 0 <= i < |s| ==> s[i] != '\0' }

  /** Printable but for its line feeds. */
  predicate Clean(text: string)
  {
    forall i :: 0 <= i < |text| ==> text[i] == '\n' || (!IsBreak(text[i]) && text[i] != '\0')
  }

  lemma CleanConcat(a: string, b: string)
    ensures Clean(a + b) <==> Clean(a) && Clean(b)
  {
    if Clean(a + b) {
      forall i | 0 <= i < |a| ensures Clean([a[i]]) { assert (a + b)[i] == a[i]; }
      forall i | 0 <= i < |b| ensures Clean([b[i]]) { assert (a + b)[|a| + i] == b[i]; }
      assert forall i :: 0 <= i < |a| ==> [a[i]][0] == a[i];
      assert forall i :: 0 <= i < |b| ==> [b[i]][0] == b[i];
    }
  }

  lemma {:induction false} CleanLines(lines: seq<string>)
    requires forall i :: 0 <= i < |lines| ==> OneLine(lines[i])
    ensures Clean(Lines(lines)) <==> forall i :: 0 <= i < |lines| ==> Printable(lines[i])
  {
    if lines != [] {
      CleanLines(lines[1..]);
      CleanConcat(lines[0], "\n" + Lines(lines[1..]));
      CleanConcat("\n", Lines(lines[1..]));
      assert Clean(lines[0]) <==> Printable(lines[0]);
      assert forall i :: 0 < i < |lines| ==> lines[i] == lines[1..][i - 1];
    }
  }

  lemma EndOfLiteral()
    ensures AfterQuote("\\n\"") == Some("\n")
  {
    assert "\\n\""[2..] == "\"";
    assert AfterQuote("\"") == Some([]);
    assert ['\n'] + [] == "\n";
  }

  /** The value of a printed literal, which holds no line feed of its own. */
  lemma {:induction false} EvalOfEscape(s: string)
    requires OneLine(s)
    ensures AfterQuote(Escape(s) + "\\n\"") == if NoNul(s) then Some(s + "\n") else None
  {
    hide AfterQuote;
    EndOfLiteral();
    if s == [] {
      assert Escape(s) + "\\n\"" == "\\n\"" && s + "\n" == "\n";
    } else {
      var t := Escape(s[1..]) + "\\n\"";
      EvalOfEscape(s[1..]);
      EvalStep(s[0], t);
      assert s + "\n" == [s[0]] + (s[1..] + "\n");
      assert NoNul(s) <==> s[0] != '\0' && NoNul(s[1..]);
      EscapeOne(s[0]);
      assert Escape(s) + "\\n\"" == Escape([s[0]]) + t;
    }
  }

  lemma EscapeOne(c: char)
    ensures Escape([c]) == if c == '\\' || c == '\"' then ['\\', c] else [c]
  {
    assert [c][1..] == [];
  }

  /** One printed character, read as part of a Python literal. */
  lemma EvalStep(c: char, t: string)
    requires c != '\n'
    ensures AfterQuote(Escape([c]) + t) == if c == '\0' then None else Prepend(c, AfterQuote(t))
  {
    EscapeOne(c);
    if c == '\\' || c == '\"' {
      assert (['\\', c] + t)[2..] == t;
    } else {
      assert ([c] + t)[1..] == t;
    }
  }

  /** A literal cut short is refused. */
  lemma {:induction false} Unclosed(s: string, n: nat)
    requires n <= |Escape(s)|
    ensures AfterQuote(Escape(s)[..n]) == None
  {
    if s != [] && n > 0 {
      var e := Escape(s)[..n];
      if s[0] == '\\' || s[0] == '\"' {
        if n >= 2 {
          assert e[2..] == Escape(s[1..])[..n - 2];
          Unclosed(s[1..], n - 2);
        }
      } else {
        assert e[1..] == Escape(s[1..])[..n - 1];
        Unclosed(s[1..], n - 1);
      }
    }
  }

  lemma {:induction false} TrimEndIsPrefix(s: string)
    requires s != [] && !IsSpace(s[0])
    ensures TrimEnd(s) != [] && TrimEnd(s) <= s
  {
    if IsSpace(s[|s| - 1]) {
      TrimEndIsPrefix(s[..|s| - 1]);
    }
  }

  /** A line that does not start with a quote is no literal. */
  lemma OtherLine(line: string, rest: seq<string>)
    requires line != [] && !IsSpace(line[0]) && line[0] != '\"'
    ensures JoinLiterals([line] + rest) == JoinLiterals(rest)
  {
    TrimEndIsPrefix(line);
    assert ([line] + rest)[1..] == rest;
  }

  lemma Indented(s: string)
    requires s != [] && !IsSpace(s[0])
    ensures SkipSpace("    " + s) == s
  {
    assert ("    " + s)[1..] == "   " + s;
    assert ("   " + s)[1..] == "  " + s;
    assert ("  " + s)[1..] == " " + s;
    assert (" " + s)[1..] == s;
    assert SkipSpace(s) == s && SkipSpace(" " + s) == s && SkipSpace("  " + s) == s && SkipSpace("   " + s) == s;
  }

  lemma Evaluated(line: string, rest: seq<string>)
    requires OneLine(line)
    ensures JoinLiterals(["    " + Quoted(line)] + rest)
         == match JoinLiterals(rest)
            case None => None
            case Some(t) => if NoNul(line) then Some((line + "\n") + t) else None
  {
    var q := Quoted(line);
    assert q != [] && q[0] == '\"' && q[|q| - 1] == '\"';
    Indented(q);
    assert TrimEnd(q) == q;
    assert q[1..] == Escape(line) + "\\n\"";
    EvalOfEscape(line);
    assert (["    " + q] + rest)[1..] == rest;
  }

  lemma Opening(x: string)
    ensures "    " + ("\"" + x) == "    \"" + x && (NoBreak(x) ==> NoBreak("    \"" + x))
  {
  }

  /** What is left of a printed line before a line break inside it is refused. */
  lemma CutLine(part: string, rest: seq<string>)
    ensures JoinLiterals([("    \"" + Escape(part))] + rest) == None
  {
    var e := Escape(part);
    hide Escape, AfterQuote, SkipSpace, TrimEnd;
    Opening(e);
    var q := "\"" + e;
    Indented(q);
    TrimEndIsPrefix(q);
    var t := TrimEnd(q);
    assert t[1..] == e[..|t| - 1];
    Unclosed(part, |t| - 1);
    First("    " + q, rest);
  }

  lemma First(line: string, rest: seq<string>)
    ensures LiteralEval(Strip(line)) == None && "\"" <= Strip(line) ==> JoinLiterals([line] + rest) == None
  {
    assert ([line] + rest)[1..] == rest;
  }

  lemma {:induction false} EscapeConcat(x: string, y: string)
    ensures Escape(x + y) == Escape(x) + Escape(y)
  {
    if x == [] {
      assert x + y == y;
    } else {
      assert (x + y)[1..] == x[1..] + y;
      EscapeConcat(x[1..], y);
    }
  }

  lemma {:induction false} EscapeNoBreak(s: string)
    requires NoBreak(s)
    ensures NoBreak(Escape(s))
  {
    if s != [] { EscapeNoBreak(s[1..]); }
  }

  lemma CutAt(a: string, c: char, tail: string) returns (more: seq<string>)
    requires NoBreak(a) && IsBreak(c)
    ensures Splitlines(a + ([c] + tail)) == [a] + more
  {
    var s := a + ([c] + tail);
    BreakAt(a, c, tail);
    assert s[..|a|] == a;
    more := Splitlines(s[if "\r\n" <= s[|a|..] then |a| + 2 else |a| + 1..]);
  }

  lemma PrintedBreak(part: string, c: char, after: string)
    requires IsBreak(c)
    ensures Quoted(part + ([c] + after)) == ("\"" + Escape(part)) + ([c] + (Escape(after) + "\\n\""))
  {
    EscapeConcat(part, [c] + after);
    EscapeConcat([c], after);
    EscapeOne(c);
    hide Escape;
    assert "\\n" + "\"" == "\\n\"";
  }

  lemma Regroup(i: string, q: string, p: string, c: string, e: string, rest: string)
    requires q == p + (c + e)
    ensures i + q + rest == (i + p) + (c + (e + rest))
  {
  }

  /** A printed line with another line break in it is cut at the first one. */
  lemma BrokenLine(line: string, rest: string) returns (part: string, more: seq<string>)
    requires !NoBreak(line)
    ensures Splitlines("    " + Quoted(line) + rest) == [("    \"" + Escape(part))] + more
  {
    var k := FindBreak(line);
    part := line[..k];
    var c, after := line[k], line[k + 1..];
    assert line == part + ([c] + after);
    PrintedBreak(part, c, after);
    EscapeNoBreak(part);
    hide Escape, Splitlines, Quoted, NoBreak;
    var i, p, e := "    ", "\"" + Escape(part), Escape(after) + "\\n\"";
    Opening(Escape(part));
    more := CutAt(i + p, c, e + rest);
    Regroup(i, Quoted(line), p, [c], e, rest);
  }

  lemma FirstLine(lines: seq<string>, tail: string)
    requires lines != []
    ensures Lines(lines) + tail == lines[0] + ("\n" + (Lines(lines[1..]) + tail))
  {
  }

  /** The literals of the printed lines, read up to the end of the declaration. */
  lemma {:induction false} LiteralsRead(lines: seq<string>)
    requires forall i :: 0 <= i < |lines| ==> OneLine(lines[i])
    ensures JoinLiterals(Splitlines(Lines(Literals(lines)) + ";\n"))
         == if forall i :: 0 <= i < |lines| ==> Printable(lines[i]) then Some(Lines(lines)) else None
  {
    hide JoinLiterals, Splitlines, Escape, Quoted, OneLine, NoBreak, NoNul;
    if lines == [] {
      assert Lines(Literals(lines)) + ";\n" == ";\n";
      LastLine();
    } else {
      var line, rest := lines[0], Lines(Literals(lines[1..])) + ";\n";
      LiteralsRead(lines[1..]);
      assert Literals(lines)[1..] == Literals(lines[1..]);
      FirstLine(Literals(lines), ";\n");
      FirstLine(lines, []);
      assert Lines(lines[1..]) + [] == Lines(lines[1..]) && Lines(lines) + [] == Lines(lines);
      assert (forall i :: 0 <= i < |lines| ==> Printable(lines[i]))
        <==> Printable(line) && forall i :: 0 <= i < |lines[1..]| ==> Printable(lines[1..][i]);
      if NoBreak(line) {
        QuotedNoBreak(line);
        FirstPiece("    " + Quoted(line), '\n', rest);
        Evaluated(line, Splitlines(rest));
        assert (line + "\n") + Lines(lines[1..]) == line + ("\n" + Lines(lines[1..]));
      } else {
        var part, more := BrokenLine(line, "\n" + rest);
        assert "    " + Quoted(line) + ("\n" + rest) == Lines(Literals(lines)) + ";\n";
        CutLine(part, more);
      }
    }
  }

  lemma QuotedNoBreak(line: string)
    requires NoBreak(line)
    ensures NoBreak("    " + Quoted(line))
  {
    EscapeNoBreak(line);
    hide Escape;
  }

  lemma LastLine()
    ensures JoinLiterals(Splitlines(";\n")) == Some("")
  {
    FirstPiece(";", '\n', "");
    assert ";" + ("\n" + "") == ";\n" && [";"] + [] == [";"];
    OtherLine(";", []);
    assert Splitlines("") == [] && JoinLiterals([]) == Some([]);
  }

  /** A line above the literals: not white space, no quote in front. */
  predicate IsComment(c: string) { c != [] && !IsSpace(c[0]) && c[0] != '\"' && NoBreak(c) }

  lemma {:induction false} CommentsSkipped(comments: seq<string>, rest: string)
    requires forall i :: 0 <= i < |comments| ==> IsComment(comments[i])
    ensures JoinLiterals(Splitlines(Lines(comments) + rest)) == JoinLiterals(Splitlines(rest))
  {
    hide JoinLiterals, Splitlines;
    if comments == [] {
      assert Lines(comments) + rest == rest;
    } else {
      CommentsSkipped(comments[1..], rest);
      var tail := Lines(comments[1..]) + rest;
      FirstPiece(comments[0], '\n', tail);
      assert Lines(comments) + rest == comments[0] + ("\n" + tail);
      OtherLine(comments[0], Splitlines(tail));
    }
  }

  /** `embedded_text` gives back the same text exactly when it holds no line break but line feeds
      and no NUL, and refuses the header otherwise. */
  lemma LiteralsCarryCleanSource(raw: string, comments: seq<string>, name: string)
    requires NoBreak(name) && forall i :: 0 <= i < |comments| ==> IsComment(comments[i])
    ensures EmbeddedText(Header(raw, comments, name)) == if Clean(Carried(raw)) then Some(Carried(raw)) else None
  {
    hide JoinLiterals, Splitlines, Split, Pin, Universal, Lines;
    var lines := Pin(Split(Universal(raw)));
    var header := Header(raw, comments, name);
    assert NoReturn(name) && forall c :: c in comments ==> NoReturn(c);
    HeaderIsPlain(raw, comments, name);
    UniversalKeeps(header);
    var lits := Literals(lines);
    DeclarationIsComment(name);
    LinesConcat(comments + [Declaration(name)], lits + [";"]);
    LinesConcat(lits, [";"]);
    LinesOne(";");
    assert comments + ([Declaration(name)] + (lits + [";"])) == (comments + [Declaration(name)]) + (lits + [";"]);
    assert ";" + "\n" == ";\n";
    CommentsSkipped(comments + [Declaration(name)], Lines(lits) + ";\n");
    PinnedLines(raw);
    LiteralsRead(lines);
    CleanLines(lines);
  }

  /** A source with a form feed in it: `ptx_from_header` reads it back, `embedded_text` refuses it. */
  lemma FormFeedIsRefused()
    ensures FromHeader(Header("a\U{c}b", [], PtxName())) == Some("a\U{c}b\n")
    ensures EmbeddedText(Header("a\U{c}b", [], PtxName())) == None
  {
    var raw := "a\U{c}b";
    assert NoBreak(PtxName());
    hide EmbeddedText, Header, FromHeader, PtxName;
    assert Universal(raw) == raw by { UniversalKeeps(raw); }
    BeforeNewline(raw, 0);
    assert Split(raw) == [raw];
    assert !(VERSION <= raw) by { assert VERSION[0] != raw[0]; }
    assert Pin([raw]) == [raw];
    assert Lines([raw]) == raw + "\n";
    assert (raw + "\n")[1] == '\U{c}' && IsBreak('\U{c}');
    assert raw + "\n" == "a\U{c}b\n";
    LiteralsCarryCleanSource(raw, [], PtxName());
    var lines := HeaderCarriesSource(raw, []);
  }

  lemma DeclarationIsComment(name: string)
    requires NoBreak(name)
    ensures IsComment(Declaration(name))
  {
  }
}