/** The scan against a reference preprocessor: conditional inclusion over well-nested groups. */
module PortabilityProofs {
  import opened Wrappers
  import opened PyText
  import opened Portability
  import Lexer

  // ----- the reference

  /** A sequence of lines as the grammar of section 6.10 nests them: program text, macro definitions
      with their continuation lines, and if-sections. */
  datatype Group =
    | Done
    | Text(line: string, next: Group)
    | Macro(line: string, more: seq<string>, next: Group)
    | Section(line: string, body: Group, rest: Chain, next: Group)

  datatype Chain =
    | Close(line: string)
    | ElseThen(line: string, body: Group, close: string)
    | ElifThen(line: string, body: Group, rest: Chain)

  function LinesOf(g: Group): seq<string>
  {
    match g
    case Done => []
    case Text(line, next) => [line] + LinesOf(next)
    case Macro(line, more, next) => ([line] + more) + LinesOf(next)
    case Section(line, body, rest, next) => ([line] + LinesOf(body)) + (ChainLines(rest) + LinesOf(next))
  }

  function ChainLines(c: Chain): seq<string>
  {
    match c
    case Close(line) => [line]
    case ElseThen(line, body, close) => [line] + (LinesOf(body) + [close])
    case ElifThen(line, body, rest) => [line] + (LinesOf(body) + ChainLines(rest))
  }

  function Repeat<T>(x: T, n: nat): (r: seq<T>)
    ensures |r| == n && forall i :: 0 <= i < n ==> r[i] == x
  {
    seq(n, _ => x)
  }

  function Of(line: string): Directive { Parse(Strip(line)) }

  predicate IsOpener(d: Directive) { d.If? || d.Ifdef? || d.Ifndef? }

  /** Every line of a macro but the last ends in a backslash. */
  predicate Continued(line: string, more: seq<string>)
    decreases |more|
  {
    if more == [] then !Continues(line) else Continues(line) && Continued(more[0], more[1..])
  }

  /** Every line is what its place in the tree says. */
  predicate WellFormed(g: Group)
  {
    match g
    case Done => true
    case Text(line, next) => Of(line).Plain? && WellFormed(next)
    case Macro(line, more, next) => Of(line).Define? && Continued(line, more) && WellFormed(next)
    case Section(line, body, rest, next) =>
      IsOpener(Of(line)) && WellFormed(body) && ChainWellFormed(rest) && WellFormed(next)
  }

  predicate ChainWellFormed(c: Chain)
  {
    match c
    case Close(line) => Of(line).Endif?
    case ElseThen(line, body, close) => Of(line).Else? && WellFormed(body) && Of(close).Endif?
    case ElifThen(line, body, rest) => Of(line).Elif? && WellFormed(body) && ChainWellFormed(rest)
  }

  /** An environment: which macros are defined at which line, and what any other condition evaluates
      to there. */
  datatype Env = Env(has: (nat, string) -> bool, other: (nat, string) -> bool)

  /** A condition as the language reads it: a test of one macro, or something else. */
  datatype Condition = Test(positive: bool, name: string) | Opaque

  /** The name tested by `defined NAME` or `defined ( NAME )`. */
  function TestedName(r: string): Option<string>
  {
    if !("defined" <= r) then None
    else
      var u := SkipSpace(r[7..]);
      if u != [] && u[0] == '(' then
        var v := SkipSpace(u[1..]);
        if v != [] && v[|v| - 1] == ')' && IsName(TrimEnd(v[..|v| - 1])) then Some(TrimEnd(v[..|v| - 1])) else None
      else if IsName(u) && |u| < |r| - 7 then Some(u)
      else None
  }

  /** Such a test, with or without `!` in front. */
  function Language(cond: string): Condition
  {
    var c := Strip(cond);
    var negated := c != [] && c[0] == '!';
    match TestedName(if negated then SkipSpace(c[1..]) else c)
    case None => Opaque
    case Some(name) => Test(!negated, name)
  }

  predicate True(cond: string, n: nat, env: Env)
  {
    match Language(cond)
    case Test(positive, name) => env.has(n, name) == positive
    case Opaque => env.other(n, cond)
  }

  predicate Holds(d: Directive, n: nat, env: Env)
    requires IsOpener(d) || d.Elif?
  {
    match d
    case If(c) => True(c, n, env)
    case Elif(c) => True(c, n, env)
    case Ifdef(name) => env.has(n, name)
    case Ifndef(name) => !env.has(n, name)
  }

  /** What becomes of a line: a directive or macro line, text that is dropped, text that is kept. */
  datatype Fate = Directive | Dropped | Kept

  /** Conditional inclusion: of an if-section in kept text, the first group whose condition holds is
      kept, or the else group when none does; nothing in a dropped group is. */
  function Fates(g: Group, live: bool, n: nat, env: Env): (r: seq<Fate>)
    requires WellFormed(g)
    ensures |r| == |LinesOf(g)|
  {
    match g
    case Done => []
    case Text(line, next) => [if live then Kept else Dropped] + Fates(next, live, n + 1, env)
    case Macro(line, more, next) =>
      Repeat(Directive, 1 + |more|) + Fates(next, live, n + 1 + |more|, env)
    case Section(line, body, rest, next) =>
      var t := Holds(Of(line), n, env);
      var m := n + 1 + |LinesOf(body)|;
      ([Directive] + Fates(body, live && t, n + 1, env))
      + (ChainFates(rest, live, t, m, env) + Fates(next, live, m + |ChainLines(rest)|, env))
  }

  function ChainFates(c: Chain, live: bool, taken: bool, n: nat, env: Env): (r: seq<Fate>)
    requires ChainWellFormed(c)
    ensures |r| == |ChainLines(c)|
  {
    match c
    case Close(line) => [Directive]
    case ElseThen(line, body, close) => [Directive] + (Fates(body, live && !taken, n + 1, env) + [Directive])
    case ElifThen(line, body, rest) =>
      var t := !taken && Holds(Of(line), n, env);
      [Directive] + (Fates(body, live && t, n + 1, env)
      + ChainFates(rest, live, taken || t, n + 1 + |LinesOf(body)|, env))
  }

  // ----- the scan of a tree

  /** The statuses of a group's lines, read with the frames of the enclosing conditionals. */
  function Statuses(g: Group, stack: seq<Frame>): (r: seq<Status>)
    requires WellFormed(g)
    ensures |r| == |LinesOf(g)|
  {
    match g
    case Done => []
    case Text(line, next) => [if Guarded(stack) then Skipped else Read] + Statuses(next, stack)
    case Macro(line, more, next) => Repeat(Control, 1 + |more|) + Statuses(next, stack)
    case Section(line, body, rest, next) =>
      var f := Opened(OpenerKind(Of(line)));
      ([Control] + Statuses(body, stack + [f])) + (ChainStatuses(rest, stack, f) + Statuses(next, stack))
  }

  function ChainStatuses(c: Chain, stack: seq<Frame>, f: Frame): (r: seq<Status>)
    requires ChainWellFormed(c)
    ensures |r| == |ChainLines(c)|
  {
    match c
    case Close(line) => [Control]
    case ElseThen(line, body, close) => [Control] + (Statuses(body, stack + [AfterElse(f)]) + [Control])
    case ElifThen(line, body, rest) =>
      var f' := AfterElif(f, Of(line).cond);
      [Control] + (Statuses(body, stack + [f']) + ChainStatuses(rest, stack, f'))
  }

  lemma ScanStep(line: string, tail: seq<string>, stack: seq<Frame>)
    ensures var d := Of(line);
            Scan([line] + tail, stack, false)
            == if d.Plain? then [if Guarded(stack) then Skipped else Read] + Scan(tail, stack, false)
               else [Control] + Scan(tail, Step(stack, d), d.Define? && Continues(line))
  {
    assert ([line] + tail)[1..] == tail;
  }

  lemma {:induction false} ScanMacro(more: seq<string>, tail: seq<string>, stack: seq<Frame>)
    requires more != [] ==> Continued(more[0], more[1..])
    ensures Scan(more + tail, stack, more != []) == Repeat(Control, |more|) + Scan(tail, stack, false)
  {
    hide Parse, Step, Guarded, Continues;
    if more == [] {
      assert more + tail == tail;
      assert Repeat(Control, 0) + Scan(tail, stack, false) == Scan(tail, stack, false);
    } else {
      assert (more + tail)[1..] == more[1..] + tail && (more + tail)[0] == more[0];
      ScanMacro(more[1..], tail, stack);
      AppendAssoc([Control], Repeat(Control, |more| - 1), Scan(tail, stack, false));
      assert [Control] + Repeat(Control, |more| - 1) == Repeat(Control, |more|);
    }
  }

  lemma ReadText(line: string, next: seq<string>, after: seq<Status>, tail: seq<string>, stack: seq<Frame>)
    requires Of(line).Plain? && Scan(next + tail, stack, false) == after + Scan(tail, stack, false)
    ensures Scan([line] + next + tail, stack, false)
         == [if Guarded(stack) then Skipped else Read] + after + Scan(tail, stack, false)
  {
    hide Scan, Parse, Step, Guarded;
    AppendAssoc([line], next, tail);
    ScanStep(line, next + tail, stack);
    AppendAssoc([if Guarded(stack) then Skipped else Read], after, Scan(tail, stack, false));
  }

  lemma ReadMacro(line: string, more: seq<string>, next: seq<string>, after: seq<Status>, tail: seq<string>,
      stack: seq<Frame>)
    requires Of(line).Define? && Continued(line, more)
    requires Scan(next + tail, stack, false) == after + Scan(tail, stack, false)
    ensures Scan([line] + more + next + tail, stack, false)
         == Repeat(Control, 1 + |more|) + after + Scan(tail, stack, false)
  {
    hide Scan, Parse, Step, Guarded, Of, Repeat, Continues;
    StepDefine(stack);
    ContinuedFirst(line, more);
    AppendAssoc([line] + more, next, tail);
    AppendAssoc([line], more, next + tail);
    ScanStep(line, more + (next + tail), stack);
    ScanMacro(more, next + tail, stack);
    var k := Repeat(Control, |more|);
    assert [Control] + k == Repeat(Control, 1 + |more|);
    hide Continued;
    AppendAssoc([Control], k, after + Scan(tail, stack, false));
    AppendAssoc([Control] + k, after, Scan(tail, stack, false));
  }

  lemma StepDefine(stack: seq<Frame>)
    ensures Step(stack, Define) == stack
  {
  }

  lemma ContinuedFirst(line: string, more: seq<string>)
    requires Continued(line, more)
    ensures Continues(line) == (more != []) && (more != [] ==> Continued(more[0], more[1..]))
  {
    hide Continues;
  }

  /** An if-section, given what its three parts scan to. */
  lemma ReadSection(line: string, body: seq<string>, rest: seq<string>, next: seq<string>, tail: seq<string>,
      stack: seq<Frame>, f: Frame, sb: seq<Status>, sc: seq<Status>, sn: seq<Status>)
    requires IsOpener(Of(line)) && f == Opened(OpenerKind(Of(line)))
    requires Scan(body + ((rest + next) + tail), stack + [f], false)
        == sb + Scan((rest + next) + tail, stack + [f], false)
    requires Scan(rest + (next + tail), stack + [f], false) == sc + Scan(next + tail, stack, false)
    requires Scan(next + tail, stack, false) == sn + Scan(tail, stack, false)
    ensures Scan(([line] + body) + (rest + next) + tail, stack, false)
         == ([Control] + sb) + (sc + sn) + Scan(tail, stack, false)
  {
    SectionStep(line, stack);
    hide Scan, Parse, Step, Guarded;
    AppendAssoc([line] + body, rest + next, tail);
    AppendAssoc([line], body, (rest + next) + tail);
    ScanStep(line, body + ((rest + next) + tail), stack);
    AppendAssoc(rest, next, tail);
    AppendAssoc(sc, sn, Scan(tail, stack, false));
    AppendAssoc([Control], sb, (sc + sn) + Scan(tail, stack, false));
    AppendAssoc([Control] + sb, sc + sn, Scan(tail, stack, false));
  }

  /** Reading a group's lines gives its statuses and leaves the frame stack as it was. */
  lemma {:induction false} ScanOfLines(g: Group, tail: seq<string>, stack: seq<Frame>)
    requires WellFormed(g)
    ensures Scan(LinesOf(g) + tail, stack, false) == Statuses(g, stack) + Scan(tail, stack, false)
    decreases g
  {
    hide Scan, Parse, Guarded, Continued;
    match g
    case Done =>
      assert [] + tail == tail;
      assert [] + Scan(tail, stack, false) == Scan(tail, stack, false);
    case Text(line, next) =>
      ScanOfLines(next, tail, stack);
      ReadText(line, LinesOf(next), Statuses(next, stack), tail, stack);
    case Macro(line, more, next) =>
      ScanOfLines(next, tail, stack);
      ReadMacro(line, more, LinesOf(next), Statuses(next, stack), tail, stack);
    case Section(line, body, rest, next) =>
      var f := Opened(OpenerKind(Of(line)));
      hide OpenerKind;
      ScanOfLines(body, (ChainLines(rest) + LinesOf(next)) + tail, stack + [f]);
      ScanOfChain(rest, LinesOf(next) + tail, stack, f);
      ScanOfLines(next, tail, stack);
      ReadSection(line, LinesOf(body), ChainLines(rest), LinesOf(next), tail, stack, f,
                  Statuses(body, stack + [f]), ChainStatuses(rest, stack, f), Statuses(next, stack));
  }

  lemma SectionStep(line: string, stack: seq<Frame>)
    requires IsOpener(Of(line))
    ensures Step(stack, Of(line)) == stack + [Opened(OpenerKind(Of(line)))]
  {
    hide Parse;
  }

  lemma {:induction false} ScanOfChain(c: Chain, tail: seq<string>, stack: seq<Frame>, f: Frame)
    requires ChainWellFormed(c)
    ensures Scan(ChainLines(c) + tail, stack + [f], false) == ChainStatuses(c, stack, f) + Scan(tail, stack, false)
    decreases c
  {
    assert (stack + [f])[..|stack|] == stack;
    match c
    case Close(line) =>
      ScanStep(line, tail, stack + [f]);
    case ElseThen(line, body, close) =>
      assert Step(stack + [f], Else) == stack + [AfterElse(f)];
      var f' := AfterElse(f);
      assert (stack + [f'])[..|stack|] == stack;
      assert Step(stack + [f'], Endif) == stack;
      hide Scan, Parse, Step, Guarded;
      AppendAssoc([line], LinesOf(body) + [close], tail);
      AppendAssoc(LinesOf(body), [close], tail);
      ScanStep(line, LinesOf(body) + ([close] + tail), stack + [f]);
      ScanOfLines(body, [close] + tail, stack + [f']);
      ScanStep(close, tail, stack + [f']);
      var sb := Statuses(body, stack + [f']);
      AppendAssoc(sb, [Control], Scan(tail, stack, false));
      AppendAssoc([Control], sb + [Control], Scan(tail, stack, false));
    case ElifThen(line, body, rest) =>
      var f' := AfterElif(f, Of(line).cond);
      assert Step(stack + [f], Of(line)) == stack + [f'];
      hide Scan, Parse, Step, Guarded, AfterElif;
      AppendAssoc([line], LinesOf(body) + ChainLines(rest), tail);
      AppendAssoc(LinesOf(body), ChainLines(rest), tail);
      ScanStep(line, LinesOf(body) + (ChainLines(rest) + tail), stack + [f]);
      ScanOfLines(body, ChainLines(rest) + tail, stack + [f']);
      ScanOfChain(rest, tail, stack, f');
      var sb, sc := Statuses(body, stack + [f']), ChainStatuses(rest, stack, f');
      AppendAssoc(sb, sc, Scan(tail, stack, false));
      AppendAssoc([Control], sb + sc, Scan(tail, stack, false));
  }

  // ----- what a kind says

  /** A Windows build: every Windows macro defined, no other platform's. */
  ghost predicate Windows(env: Env)
  {
    && (forall n: nat, m :: m in WIN ==> env.has(n, m))
    && forall n: nat, m :: m in POSIX ==> !env.has(n, m)
  }

  /** A condition the scan has an opinion on is a test of one macro to the language too. */
  predicate Spelled(cond: string)
  {
    CondKind(cond) == Other || Language(cond).Test?
  }

  lemma TrimEndKeeps(s: string)
    requires s != [] ==> !IsSpace(s[|s| - 1])
    ensures TrimEnd(s) == s
  {
  }

  lemma TestedIsFound(r: string)
    ensures TestedName(r).Some? ==> DefinedName(r) == TestedName(r)
  {
    if TestedName(r).Some? {
      var u := SkipSpace(r[7..]);
      if !(u != [] && u[0] == '(') {
        TrimEndKeeps(u);
        assert u[|u| - 1] != ')' by { assert IsWordChar(u[|u| - 1]); }
      }
    }
  }

  /** A spelled condition tests the name the scan found, with the sign the kind says. */
  lemma KindNamesTest(cond: string)
    requires CondKind(cond) != Other && Language(cond).Test?
    ensures Language(cond).positive ==> Language(cond).name in if CondKind(cond) == Win then WIN else POSIX
    ensures !Language(cond).positive ==> CondKind(cond) == Posix && Language(cond).name in WIN
  {
    var c := Strip(cond);
    var negated := c != [] && c[0] == '!';
    TestedIsFound(if negated then SkipSpace(c[1..]) else c);
    if negated { assert DefinedName(c) == None by { assert c[0] != "defined"[0]; } }
    hide TestedName, DefinedName, Strip;
  }

  lemma IfdefNames(name: string)
    requires Strip(name) == name
    ensures CondKind("defined(" + name + ")") == if name in WIN then Win else if name in POSIX then Posix else Other
  {
    var c := "defined(" + name + ")";
    Trimmed(name);
    assert c[|c| - 1] == ')' && c[0] == 'd';
    TrimEndKeeps(c);
    assert Strip(c) == c;
    assert c[..7] == "defined" && c[7..] == ['('] + (name + ")");
    BracketedName("defined", name);
    assert "defined" + (['('] + (name + ")")) == c;
    hide Strip, DefinedName;
  }

  lemma BracketedName(word: string, name: string)
    requires word == "defined" && (name != [] ==> !IsSpace(name[0]) && !IsSpace(name[|name| - 1]))
    ensures DefinedName(word + (['('] + (name + ")"))) == Some(name)
  {
    var v := name + ")";
    var u := ['('] + v;
    var c := word + u;
    assert |word| == 7 && c[..7] == word && c[7..] == u && u[1..] == v && v[..|v| - 1] == name;
    assert SkipSpace(u) == u && SkipSpace(v) == v;
    TrimEndKeeps(name);
    hide SkipSpace, TrimEnd;
  }

  lemma Trimmed(name: string)
    requires Strip(name) == name
    ensures name != [] ==> !IsSpace(name[0]) && !IsSpace(name[|name| - 1])
  {
    var t := SkipSpace(name);
    assert |TrimEnd(t)| <= |t| <= |name|;
    TrimEndFull(t);
    SkipSpaceFull(name);
  }

  lemma TrimEndFull(s: string)
    ensures |TrimEnd(s)| == |s| ==> TrimEnd(s) == s
  {
  }

  lemma SkipSpaceFull(s: string)
    ensures |SkipSpace(s)| == |s| ==> SkipSpace(s) == s
  {
  }

  lemma StripTwice(s: string)
    ensures Strip(Strip(s)) == Strip(s)
  {
    var t := SkipSpace(s);
    var r := TrimEnd(t);
    TrimEndHead(t);
    assert SkipSpace(r) == r;
    TrimEndKeeps(r);
  }

  lemma {:induction false} TrimEndHead(s: string)
    ensures TrimEnd(s) <= s
  {
    if s != [] && IsSpace(s[|s| - 1]) { TrimEndHead(s[..|s| - 1]); }
  }

  /** The kind of a directive: Windows-only conditions hold on Windows, the others' never do. */
  lemma KindIsTrue(line: string, n: nat, env: Env)
    requires Windows(env) && (IsOpener(Of(line)) || Of(line).Elif?)
    requires (Of(line).If? || Of(line).Elif?) ==> Spelled(Of(line).cond)
    ensures var k := if Of(line).Elif? then CondKind(Of(line).cond) else OpenerKind(Of(line));
            (k == Win ==> Holds(Of(line), n, env)) && (k == Posix ==> !Holds(Of(line), n, env))
  {
    var d := Of(line);
    if d.If? || d.Elif? {
      if CondKind(d.cond) != Other { KindNamesTest(d.cond); }
    } else {
      assert Strip(d.name) == d.name by { NameIsStripped(line); }
      IfdefNames(d.name);
    }
  }

  lemma NameIsStripped(line: string)
    requires Of(line).Ifdef? || Of(line).Ifndef?
    ensures Strip(Of(line).name) == Of(line).name
  {
    hide Strip;
    var t := SkipSpace(Strip(line)[1..]);
    StripTwice(t[WordLen(t)..]);
  }

  // ----- soundness and exactness

  /** Every condition the scan has an opinion on is properly spelled. */
  predicate AllSpelled(g: Group)
  {
    match g
    case Done => true
    case Text(_, next) => AllSpelled(next)
    case Macro(_, _, next) => AllSpelled(next)
    case Section(line, body, rest, next) =>
      (Of(line).If? ==> Spelled(Of(line).cond)) && AllSpelled(body) && ChainSpelled(rest) && AllSpelled(next)
  }

  predicate ChainSpelled(c: Chain)
  {
    match c
    case Close(_) => true
    case ElseThen(_, body, _) => AllSpelled(body)
    case ElifThen(line, body, rest) =>
      (Of(line).Elif? ==> Spelled(Of(line).cond)) && AllSpelled(body) && ChainSpelled(rest)
  }

  /** Every condition is a test of a Windows macro, of either sign, or a positive test of another
      platform's. */
  predicate Decided(g: Group)
  {
    match g
    case Done => true
    case Text(_, next) => Decided(next)
    case Macro(_, _, next) => Decided(next)
    case Section(line, body, rest, next) =>
      IsOpener(Of(line)) && OpenerKind(Of(line)) != Other && Decided(body) && ChainDecided(rest) && Decided(next)
  }

  predicate ChainDecided(c: Chain)
  {
    match c
    case Close(_) => true
    case ElseThen(_, body, _) => Decided(body)
    case ElifThen(line, body, rest) =>
      Of(line).Elif? && CondKind(Of(line).cond) != Other && Decided(body) && ChainDecided(rest)
  }

  /** The scan skips as never compiled only what is dropped, and in the exact case all of it. */
  predicate Agree(ss: seq<Status>, fs: seq<Fate>, exact: bool)
  {
    && |ss| == |fs|
    && forall i :: 0 <= i < |ss| ==>
         && (ss[i] == Control <==> fs[i] == Directive)
         && (ss[i] == Skipped ==> fs[i] == Dropped)
         && (exact && fs[i] == Dropped ==> ss[i] == Skipped)
  }

  lemma AgreeConcat(s1: seq<Status>, s2: seq<Status>, f1: seq<Fate>, f2: seq<Fate>, exact: bool)
    requires Agree(s1, f1, exact) && Agree(s2, f2, exact)
    ensures Agree(s1 + s2, f1 + f2, exact)
  {
  }

  lemma GuardedBy(stack: seq<Frame>, f: Frame)
    ensures Guarded(stack + [f]) <==> Guarded(stack) || f.kind == Posix
  {
    var s := stack + [f];
    if f.kind == Posix { assert s[|stack|].kind == Posix; }
    if i :| 0 <= i < |stack| && stack[i].kind == Posix { assert s[i].kind == Posix; }
  }

  /** The frames are to the enclosing state as they must be: guarded only when dropped. */
  predicate Follows(stack: seq<Frame>, live: bool, exact: bool)
  {
    (Guarded(stack) ==> !live) && (exact && !live ==> Guarded(stack))
  }

  /** A frame of a chain: it has won only when a branch was taken, and in the exact case just then,
      its first branch being decided. */
  predicate Tracks(f: Frame, taken: bool, exact: bool)
  {
    (f.won ==> taken) && (exact ==> (taken ==> f.won) && f.first != Other && (!f.won ==> f.first == Posix))
  }

  lemma ControlAgrees(n: nat, exact: bool)
    ensures Agree(Repeat(Control, n), Repeat(Directive, n), exact) && Agree([Control], [Directive], exact)
  {
  }

  /** A directive line before a group. */
  lemma AgreeAfterControl(s: seq<Status>, f: seq<Fate>, exact: bool)
    requires Agree(s, f, exact)
    ensures Agree([Control] + s, [Directive] + f, exact)
  {
    AgreeConcat([Control], s, [Directive], f, exact);
  }

  lemma OpenedFollows(line: string, stack: seq<Frame>, live: bool, n: nat, env: Env, exact: bool)
    requires Windows(env) && Follows(stack, live, exact) && IsOpener(Of(line))
    requires (Of(line).If? ==> Spelled(Of(line).cond)) && (exact ==> OpenerKind(Of(line)) != Other)
    ensures var f, t := Opened(OpenerKind(Of(line))), Holds(Of(line), n, env);
            Follows(stack + [f], live && t, exact) && Tracks(f, t, exact)
  {
    KindIsTrue(line, n, env);
    hide Of, Guarded, Windows, Holds, OpenerKind, Spelled, CondKind;
    GuardedBy(stack, Opened(OpenerKind(Of(line))));
  }

  lemma ElifFollows(line: string, stack: seq<Frame>, f: Frame, live: bool, taken: bool, n: nat, env: Env, exact: bool)
    requires Windows(env) && Follows(stack, live, exact) && Tracks(f, taken, exact) && Of(line).Elif?
    requires Spelled(Of(line).cond) && (exact ==> CondKind(Of(line).cond) != Other)
    ensures var f', t := AfterElif(f, Of(line).cond), !taken && Holds(Of(line), n, env);
            Follows(stack + [f'], live && t, exact) && Tracks(f', taken || t, exact)
  {
    KindIsTrue(line, n, env);
    hide Of, Guarded, Windows, Holds, OpenerKind, Spelled, CondKind;
    GuardedBy(stack, AfterElif(f, Of(line).cond));
  }

  lemma ElseFollows(stack: seq<Frame>, f: Frame, live: bool, taken: bool, exact: bool)
    requires Follows(stack, live, exact) && Tracks(f, taken, exact)
    ensures Follows(stack + [AfterElse(f)], live && !taken, exact)
  {
    hide Guarded;
    GuardedBy(stack, AfterElse(f));
  }

  lemma {:induction false} GroupAgrees(g: Group, stack: seq<Frame>, live: bool, n: nat, env: Env, exact: bool)
    requires WellFormed(g) && AllSpelled(g) && (exact ==> Decided(g)) && Windows(env) && Follows(stack, live, exact)
    ensures Agree(Statuses(g, stack), Fates(g, live, n, env), exact)
    decreases g
  {
    hide Of, Guarded, Windows, Holds, OpenerKind, Spelled, CondKind, Agree, LinesOf, ChainLines, Continued, Follows,
         Tracks, Opened;
    match g
    case Done => ControlAgrees(0, exact);
    case Text(line, next) =>
      GroupAgrees(next, stack, live, n + 1, env, exact);
      TextAgrees(stack, live, exact);
      AgreeConcat([if Guarded(stack) then Skipped else Read], Statuses(next, stack),
                  [if live then Kept else Dropped], Fates(next, live, n + 1, env), exact);
    case Macro(line, more, next) =>
      GroupAgrees(next, stack, live, n + 1 + |more|, env, exact);
      ControlAgrees(1 + |more|, exact);
      AgreeConcat(Repeat(Control, 1 + |more|), Statuses(next, stack),
                  Repeat(Directive, 1 + |more|), Fates(next, live, n + 1 + |more|, env), exact);
    case Section(line, body, rest, next) =>
      var f, t, m := Opened(OpenerKind(Of(line))), Holds(Of(line), n, env), n + 1 + |LinesOf(body)|;
      OpenedFollows(line, stack, live, n, env, exact);
      GroupAgrees(body, stack + [f], live && t, n + 1, env, exact);
      ChainAgrees(rest, stack, f, live, t, m, env, exact);
      GroupAgrees(next, stack, live, m + |ChainLines(rest)|, env, exact);
      SectionAgrees(line, body, rest, next, stack, f, live, t, n, env, exact);
  }

  lemma SectionParts(line: string, body: Group, rest: Chain, next: Group, stack: seq<Frame>, live: bool, n: nat,
      env: Env)
    requires WellFormed(Section(line, body, rest, next))
    ensures IsOpener(Of(line)) && WellFormed(body) && ChainWellFormed(rest) && WellFormed(next)
    ensures var f := Opened(OpenerKind(Of(line)));
            Statuses(Section(line, body, rest, next), stack)
            == ([Control] + Statuses(body, stack + [f])) + (ChainStatuses(rest, stack, f) + Statuses(next, stack))
    ensures var t, m := Holds(Of(line), n, env), n + 1 + |LinesOf(body)|;
            Fates(Section(line, body, rest, next), live, n, env)
            == ([Directive] + Fates(body, live && t, n + 1, env))
               + (ChainFates(rest, live, t, m, env) + Fates(next, live, m + |ChainLines(rest)|, env))
  {
    hide *;
    SectionStatuses(line, body, rest, next, stack);
    SectionFates(line, body, rest, next, live, n, env);
  }

  lemma SectionStatuses(line: string, body: Group, rest: Chain, next: Group, stack: seq<Frame>)
    requires WellFormed(Section(line, body, rest, next))
    ensures IsOpener(Of(line)) && WellFormed(body) && ChainWellFormed(rest) && WellFormed(next)
    ensures var f := Opened(OpenerKind(Of(line)));
            Statuses(Section(line, body, rest, next), stack)
            == ([Control] + Statuses(body, stack + [f])) + (ChainStatuses(rest, stack, f) + Statuses(next, stack))
  {
    hide Parse, Strip, Guarded, OpenerKind, ChainStatuses, Opened;
  }

  lemma SectionFates(line: string, body: Group, rest: Chain, next: Group, live: bool, n: nat, env: Env)
    requires WellFormed(Section(line, body, rest, next))
    ensures IsOpener(Of(line)) && WellFormed(body) && ChainWellFormed(rest) && WellFormed(next)
    ensures var t, m := Holds(Of(line), n, env), n + 1 + |LinesOf(body)|;
            Fates(Section(line, body, rest, next), live, n, env)
            == ([Directive] + Fates(body, live && t, n + 1, env))
               + (ChainFates(rest, live, t, m, env) + Fates(next, live, m + |ChainLines(rest)|, env))
  {
    hide Parse, Strip, Holds, LinesOf, ChainLines, ChainFates;
  }

  /** An if-section, given that its three parts agree. */
  lemma SectionAgrees(line: string, body: Group, rest: Chain, next: Group, stack: seq<Frame>, f: Frame, live: bool,
      t: bool, n: nat, env: Env, exact: bool)
    requires WellFormed(Section(line, body, rest, next))
    requires f == Opened(OpenerKind(Of(line))) && t == Holds(Of(line), n, env)
    requires Agree(Statuses(body, stack + [f]), Fates(body, live && t, n + 1, env), exact)
    requires Agree(ChainStatuses(rest, stack, f), ChainFates(rest, live, t, n + 1 + |LinesOf(body)|, env), exact)
    requires Agree(Statuses(next, stack), Fates(next, live, n + 1 + |LinesOf(body)| + |ChainLines(rest)|, env), exact)
    ensures Agree(Statuses(Section(line, body, rest, next), stack),
        Fates(Section(line, body, rest, next), live, n, env), exact)
  {
    hide Of, Guarded, Holds, OpenerKind, Agree, LinesOf, ChainLines, ChainStatuses, ChainFates, Opened, Statuses,
         Fates, WellFormed;
    SectionParts(line, body, rest, next, stack, live, n, env);
    var m := n + 1 + |LinesOf(body)|;
    var sb, sc, sn := Statuses(body, stack + [f]), ChainStatuses(rest, stack, f), Statuses(next, stack);
    var fb, fc, fn := Fates(body, live && t, n + 1, env), ChainFates(rest, live, t, m, env),
        Fates(next, live, m + |ChainLines(rest)|, env);
    AgreeAfterControl(sb, fb, exact);
    AgreeConcat(sc, sn, fc, fn, exact);
    AgreeConcat([Control] + sb, sc + sn, [Directive] + fb, fc + fn, exact);
  }

  lemma TextAgrees(stack: seq<Frame>, live: bool, exact: bool)
    requires Follows(stack, live, exact)
    ensures Agree([if Guarded(stack) then Skipped else Read], [if live then Kept else Dropped], exact)
  {
    hide Guarded;
  }

  lemma {:induction false} ChainAgrees(c: Chain, stack: seq<Frame>, f: Frame, live: bool, taken: bool, n: nat,
      env: Env, exact: bool)
    requires ChainWellFormed(c) && ChainSpelled(c) && (exact ==> ChainDecided(c)) && Windows(env)
    requires Follows(stack, live, exact) && Tracks(f, taken, exact)
    ensures Agree(ChainStatuses(c, stack, f), ChainFates(c, live, taken, n, env), exact)
    decreases c
  {
    hide Of, Guarded, Windows, Holds, OpenerKind, Spelled, CondKind, Agree, LinesOf, ChainLines, Continued, Follows,
         Tracks, AfterElif, AfterElse;
    match c
    case Close(_) => ControlAgrees(1, exact);
    case ElseThen(line, body, close) =>
      var f' := AfterElse(f);
      ElseFollows(stack, f, live, taken, exact);
      GroupAgrees(body, stack + [f'], live && !taken, n + 1, env, exact);
      var sb, fb := Statuses(body, stack + [f']), Fates(body, live && !taken, n + 1, env);
      ControlAgrees(1, exact);
      AgreeConcat(sb, [Control], fb, [Directive], exact);
      AgreeAfterControl(sb + [Control], fb + [Directive], exact);
    case ElifThen(line, body, rest) =>
      var f' := AfterElif(f, Of(line).cond);
      var t := !taken && Holds(Of(line), n, env);
      var m := n + 1 + |LinesOf(body)|;
      ElifFollows(line, stack, f, live, taken, n, env, exact);
      GroupAgrees(body, stack + [f'], live && t, n + 1, env, exact);
      ChainAgrees(rest, stack, f', live, taken || t, m, env, exact);
      var sb, sc := Statuses(body, stack + [f']), ChainStatuses(rest, stack, f');
      var fb, fc := Fates(body, live && t, n + 1, env), ChainFates(rest, live, taken || t, m, env);
      AgreeConcat(sb, sc, fb, fc, exact);
      AgreeAfterControl(sb + sc, fb + fc, exact);
  }

  /** The scan of any well-nested source is sound on every Windows build: a line it skips as never
      compiled is one the preprocessor drops. When every condition is decided it is exact. */
  lemma ScanIsSound(g: Group, env: Env, exact: bool)
    requires WellFormed(g) && AllSpelled(g) && Windows(env) && (exact ==> Decided(g))
    ensures Agree(Scan(LinesOf(g), [], false), Fates(g, true, 0, env), exact)
  {
    hide Scan, Statuses, Fates, WellFormed, AllSpelled, Decided, Windows;
    ScanOfTree(g);
    GroupAgrees(g, [], true, 0, env, exact);
  }

  // ----- conditions that only look like tests

  /** `#if c`, a line, `#else`, a line, `#endif`. */
  function TwoWay(opener: string, x: string, other: string, y: string, close: string): Group
  {
    Section(opener, Text(x, Done), ElseThen(other, Text(y, Done), close), Done)
  }

  /** An environment of a Windows build in which every other condition is `value`. */
  function Build(value: bool): Env
  {
    Env((n: nat, m: string) => m in WIN, (n: nat, c: string) => value)
  }

  lemma BuildIsWindows(value: bool)
    ensures Windows(Build(value))
  {
    assert forall m :: m in POSIX ==> m !in WIN;
  }

  /** A well-nested source is scanned to its tree's statuses. */
  lemma ScanOfTree(g: Group)
    requires WellFormed(g)
    ensures Scan(LinesOf(g), [], false) == Statuses(g, [])
  {
    hide Statuses, LinesOf, WellFormed;
    ScanOfLines(g, [], []);
    assert LinesOf(g) + [] == LinesOf(g);
    assert Scan([], [], false) == [];
    assert Statuses(g, []) + [] == Statuses(g, []);
  }

  lemma BranchStatus(x: string, f: Frame)
    requires Of(x).Plain?
    ensures Statuses(Text(x, Done), [f]) == [if f.kind == Posix then Skipped else Read]
  {
    hide Parse, Strip;
    GuardedBy([], f);
    assert [] + [f] == [f];
    assert Statuses(Done, [f]) == [];
  }

  lemma ElseStatuses(other: string, y: string, close: string, f: Frame)
    requires ChainWellFormed(ElseThen(other, Text(y, Done), close))
    ensures ChainStatuses(ElseThen(other, Text(y, Done), close), [], f)
         == [Control, if AfterElse(f).kind == Posix then Skipped else Read, Control]
  {
    assert Of(y).Plain? by { hide Parse, Strip; assert WellFormed(Text(y, Done)); }
    hide Of, AfterElse;
    BranchStatus(y, AfterElse(f));
    assert [] + [AfterElse(f)] == [AfterElse(f)];
  }

  lemma TwoWayLines(opener: string, x: string, other: string, y: string, close: string)
    requires WellFormed(TwoWay(opener, x, other, y, close))
    ensures IsOpener(Of(opener)) && Of(x).Plain? && ChainWellFormed(ElseThen(other, Text(y, Done), close))
  {
    hide Parse, Strip;
    assert WellFormed(Text(x, Done)) && WellFormed(Text(y, Done));
  }

  lemma TwoWayStatuses(opener: string, x: string, other: string, y: string, close: string, f: Frame)
    requires WellFormed(TwoWay(opener, x, other, y, close)) && f == Opened(OpenerKind(Of(opener)))
    ensures Statuses(TwoWay(opener, x, other, y, close), [])
         == [Control, if f.kind == Posix then Skipped else Read, Control,
             if AfterElse(f).kind == Posix then Skipped else Read, Control]
  {
    hide Of, OpenerKind, Opened, AfterElse, ChainStatuses, Guarded, Fates, ChainFates, Holds, Build, Statuses,
         WellFormed, ChainWellFormed;
    TwoWayLines(opener, x, other, y, close);
    var rest := ElseThen(other, Text(y, Done), close);
    SectionParts(opener, Text(x, Done), rest, Done, [], true, 0, Build(true));
    BranchStatus(x, f);
    ElseStatuses(other, y, close, f);
    assert [] + [f] == [f];
    assert Statuses(Done, []) == [] by { assert |Statuses(Done, [])| == |LinesOf(Done)|; }
  }

  lemma TwoWayFates(opener: string, x: string, other: string, y: string, close: string, env: Env)
    requires WellFormed(TwoWay(opener, x, other, y, close))
    ensures Fates(TwoWay(opener, x, other, y, close), true, 0, env)
         == [Directive, if Holds(Of(opener), 0, env) then Kept else Dropped, Directive,
             if Holds(Of(opener), 0, env) then Dropped else Kept, Directive]
  {
    hide Parse, Strip, Holds;
    var t := Holds(Of(opener), 0, env);
    assert Fates(Text(x, Done), t, 1, env) == [if t then Kept else Dropped];
    assert Fates(Text(y, Done), !t, 3, env) == [if !t then Kept else Dropped];
  }

  lemma TwoWaySpelled(opener: string, x: string, other: string, y: string, close: string)
    requires WellFormed(TwoWay(opener, x, other, y, close)) && Of(opener).If?
    ensures AllSpelled(TwoWay(opener, x, other, y, close)) <==> Spelled(Of(opener).cond)
  {
    hide Spelled, Of;
    assert AllSpelled(Done);
    assert AllSpelled(Text(x, Done));
    assert AllSpelled(Text(y, Done));
    assert ChainSpelled(ElseThen(other, Text(y, Done), close));
  }

  /** Opening brackets of a text, less its closing ones. */
  function Unclosed(s: string): int
  {
    if s == [] then 0
    else (if s[0] == '(' then 1 else if s[0] == ')' then -1 else 0) + Unclosed(s[1..])
  }

  /** What the grammar asks of every condition: as many closing brackets as opening ones. */
  predicate Balanced(cond: string) { Unclosed(cond) == 0 }

  /** A condition without the spaces around it and a `!` in front. */
  function Bare(cond: string): string
  {
    var c := Strip(cond);
    if c != [] && c[0] == '!' then SkipSpace(c[1..]) else c
  }

  /** An ordinary identifier that the scan takes for a test: `defined_WIN32`. */
  predicate Glued(cond: string)
  {
    CondKind(cond) != Other && |Bare(cond)| >= 7 && Bare(cond)[7..] in WIN + POSIX
  }

  lemma {:induction false} UnclosedConcat(x: string, y: string)
    ensures Unclosed(x + y) == Unclosed(x) + Unclosed(y)
  {
    if x == [] {
      assert x + y == y;
    } else {
      assert (x + y)[1..] == x[1..] + y;
      UnclosedConcat(x[1..], y);
    }
  }

  lemma {:induction false} NoBrackets(s: string)
    requires forall i :: 0 <= i < |s| ==> s[i] != '(' && s[i] != ')'
    ensures Unclosed(s) == 0
  {
    if s != [] { NoBrackets(s[1..]); }
  }

  lemma {:induction false} UnclosedSkip(s: string)
    ensures Unclosed(SkipSpace(s)) == Unclosed(s)
  {
    if s != [] && IsSpace(s[0]) { UnclosedSkip(s[1..]); }
  }

  lemma {:induction false} UnclosedTrim(s: string)
    ensures Unclosed(TrimEnd(s)) == Unclosed(s)
  {
    if s != [] && IsSpace(s[|s| - 1]) {
      UnclosedLast(s);
      UnclosedTrim(s[..|s| - 1]);
    }
  }

  lemma UnclosedFirst(s: string)
    requires s != []
    ensures Unclosed(s) == (if s[0] == '(' then 1 else if s[0] == ')' then -1 else 0) + Unclosed(s[1..])
  {
  }

  lemma UnclosedLast(s: string)
    requires s != []
    ensures var c := s[|s| - 1];
            Unclosed(s) == Unclosed(s[..|s| - 1]) + if c == '(' then 1 else if c == ')' then -1 else 0
  {
    var front, last := s[..|s| - 1], [s[|s| - 1]];
    assert s == front + last && last[1..] == [];
    UnclosedConcat(front, last);
  }

  lemma UnclosedBare(cond: string)
    ensures Unclosed(Bare(cond)) == Unclosed(cond)
  {
    hide IsSpace, SkipSpace, TrimEnd;
    UnclosedSkip(cond);
    UnclosedTrim(SkipSpace(cond));
    var c := Strip(cond);
    if c != [] && c[0] == '!' { UnclosedSkip(c[1..]); }
  }

  lemma ListedIsName(name: string)
    requires name in WIN + POSIX
    ensures IsName(name)
  {
  }

  /** Of a test the scan recognises, each bracket that is there counts once. */
  lemma BracketsOf(r: string)
    requires DefinedName(r).Some? && IsName(DefinedName(r).value)
    ensures var u := SkipSpace(r[7..]);
            var v := if u != [] && u[0] == '(' then SkipSpace(u[1..]) else u;
            && v != []
            && Unclosed(r) == (if u[0] == '(' then 1 else 0) - (if v[|v| - 1] == ')' then 1 else 0)
  {
    hide SkipSpace, TrimEnd, IsSpace, IsWordChar, Unclosed, IsName;
    var u := SkipSpace(r[7..]);
    var v := if u != [] && u[0] == '(' then SkipSpace(u[1..]) else u;
    var name := DefinedName(r).value;
    NameHasNoBrackets(name);
    BracketClosed(v);
    assert v != [] by { NoEmptyName(name); }
    BracketOpened(u);
    BracketsInFront(r);
  }

  /** In front of the brackets stands a word without any. */
  lemma BracketsInFront(r: string)
    requires "defined" <= r
    ensures Unclosed(r) == Unclosed(SkipSpace(r[7..]))
  {
    hide Unclosed, SkipSpace;
    assert Unclosed("defined") == 0 by { NoBrackets("defined"); }
    UnclosedSkip(r[7..]);
    UnclosedConcat("defined", r[7..]);
    assert r == "defined" + r[7..];
  }

  lemma BracketOpened(u: string)
    requires u != []
    ensures Unclosed(u) == if u[0] == '(' then 1 + Unclosed(SkipSpace(u[1..])) else Unclosed(u)
  {
    hide Unclosed, SkipSpace;
    UnclosedFirst(u);
    UnclosedSkip(u[1..]);
  }

  lemma BracketClosed(v: string)
    ensures v != [] && v[|v| - 1] == ')' ==> Unclosed(v) == Unclosed(TrimEnd(v[..|v| - 1])) - 1
    ensures !(v != [] && v[|v| - 1] == ')') ==> Unclosed(v) == Unclosed(TrimEnd(v))
  {
    hide Unclosed, TrimEnd;
    UnclosedTrim(v);
    if v != [] {
      UnclosedTrim(v[..|v| - 1]);
      UnclosedLast(v);
    }
  }

  lemma NoEmptyName(name: string)
    requires IsName(name)
    ensures name != [] && TrimEnd("") == ""
  {
  }

  lemma NameHasNoBrackets(name: string)
    requires IsName(name)
    ensures Unclosed(name) == 0
  {
    NoBrackets(name);
  }

  lemma TrimEndOfNothing()
    ensures TrimEnd("") == ""
  {
  }

  /** A test the scan recognises is none to the language exactly when it is glued or a bracket is
      missing. */
  lemma TestedUnless(r: string, name: string)
    requires DefinedName(r) == Some(name) && IsName(name) && (r != [] ==> !IsSpace(r[|r| - 1]))
    ensures TestedName(r).None? <==> r[7..] == name || Unclosed(r) != 0
  {
    hide IsSpace, TrimEnd, SkipSpace, Unclosed, IsWordChar;
    BracketsOf(r);
    if SkipSpace(r[7..])[0] == '(' { BracketedTest(r, name); } else { OpenTest(r, name); }
  }

  lemma BracketedTest(r: string, name: string)
    requires DefinedName(r) == Some(name) && IsName(name)
    requires var u := SkipSpace(r[7..]); u != [] && u[0] == '(' && SkipSpace(u[1..]) != []
    ensures r[7..] != name
    ensures var v := SkipSpace(SkipSpace(r[7..])[1..]); TestedName(r).None? <==> v[|v| - 1] != ')'
  {
    FirstOfSkip(r[7..]);
    hide TrimEnd, SkipSpace;
  }

  lemma OpenTest(r: string, name: string)
    requires DefinedName(r) == Some(name) && IsName(name) && (r != [] ==> !IsSpace(r[|r| - 1]))
    requires var u := SkipSpace(r[7..]); u != [] && u[0] != '('
    ensures var u := SkipSpace(r[7..]); TestedName(r).None? <==> r[7..] == name || u[|u| - 1] == ')'
  {
    FirstOfSkip(r[7..]);
    TailOfSkip(r[7..]);
    hide SkipSpace, TrimEnd, IsSpace;
    var u := SkipSpace(r[7..]);
    if u[|u| - 1] == ')' {
      assert !IsName(u) by { assert !IsWordChar(u[|u| - 1]); }
    } else {
      TrimEndKeeps(u);
      assert name == u;
    }
  }

  /** Glued to the word is glued to the whole name. */
  lemma GluedIsWhole(r: string)
    requires DefinedName(r).Some? && IsName(r[7..])
    ensures DefinedName(r) == Some(r[7..])
  {
    var u := r[7..];
    FirstOfSkip(u);
    TrimEndKeeps(u) by { assert IsWordChar(u[|u| - 1]); }
    hide SkipSpace, TrimEnd;
    assert IsWordChar(u[0]) && IsWordChar(u[|u| - 1]);
  }

  lemma FirstOfSkip(s: string)
    ensures s != [] && IsWordChar(s[0]) ==> SkipSpace(s) == s
  {
  }

  lemma {:induction false} TailOfSkip(s: string)
    ensures |SkipSpace(s)| == |s| ==> SkipSpace(s) == s
    ensures SkipSpace(s) != [] ==> s != [] && SkipSpace(s)[|SkipSpace(s)| - 1] == s[|s| - 1]
  {
    if s != [] && IsSpace(s[0]) { TailOfSkip(s[1..]); }
  }

  lemma BareHasNoTail(cond: string)
    ensures Bare(cond) != [] ==> !IsSpace(Bare(cond)[|Bare(cond)| - 1])
  {
    var c := Strip(cond);
    if c != [] && c[0] == '!' { TailOfSkip(c[1..]); }
    hide IsSpace, SkipSpace, TrimEnd;
  }

  /** What the scan recognises is a test of a listed name. */
  lemma KindIsOfName(cond: string)
    requires CondKind(cond) != Other
    ensures DefinedName(Bare(cond)).Some? && DefinedName(Bare(cond)).value in WIN + POSIX
  {
    var c := Strip(cond);
    if c != [] && c[0] == '!' { assert !("defined" <= c) by { assert "defined"[0] == 'd'; } }
    hide DefinedName, SkipSpace, Strip;
  }

  /** With its brackets balanced, a condition the scan has an opinion on and the language does not
      is exactly a glued name. */
  lemma UnspelledIsGlued(cond: string)
    requires Balanced(cond)
    ensures Spelled(cond) <==> !Glued(cond)
  {
    hide WIN, POSIX, TestedName, Unclosed, Strip, SkipSpace, TrimEnd, IsName, CondKind, Bare, Language;
    if CondKind(cond) != Other {
      KindIsOfName(cond);
      var r := Bare(cond);
      var name := DefinedName(r).value;
      ListedIsName(name);
      BareHasNoTail(cond);
      UnclosedBare(cond);
      TestedUnless(r, name);
      if r[7..] in WIN + POSIX {
        ListedIsName(r[7..]);
        GluedIsWhole(r);
      }
      LanguageOfBare(cond);
    }
  }

  lemma LanguageOfBare(cond: string)
    ensures Language(cond).Test? <==> TestedName(Bare(cond)).Some?
  {
    hide TestedName, SkipSpace, Strip;
  }

  // ----- which conditions are read soundly

  /** What the scan says of a two-branch conditional is sound on every Windows build. */
  ghost predicate TwoWaySound(opener: string, x: string, other: string, y: string, close: string)
    requires WellFormed(TwoWay(opener, x, other, y, close))
  {
    var g := TwoWay(opener, x, other, y, close);
    forall env :: Windows(env) ==> Agree(Scan(LinesOf(g), [], false), Fates(g, true, 0, env), false)
  }

  /** A two-branch conditional whose condition is spelled as the language wants it is scanned soundly
      on every Windows build; and among the conditions a compiler can accept, those with balanced
      brackets, it is scanned soundly exactly when the condition is not a glued name. */
  lemma SpelledExactlyWhenSound(opener: string, x: string, other: string, y: string, close: string)
    requires WellFormed(TwoWay(opener, x, other, y, close)) && Of(opener).If?
    ensures Spelled(Of(opener).cond) ==> TwoWaySound(opener, x, other, y, close)
    ensures Balanced(Of(opener).cond) ==> (TwoWaySound(opener, x, other, y, close) <==> !Glued(Of(opener).cond))
  {
    hide Scan, Parse, Strip, Spelled, Agree, LinesOf, Fates, WellFormed, Windows, TwoWay, AllSpelled, Balanced, Glued;
    var g := TwoWay(opener, x, other, y, close);
    TwoWaySpelled(opener, x, other, y, close);
    if Balanced(Of(opener).cond) { UnspelledIsGlued(Of(opener).cond); }
    if Spelled(Of(opener).cond) {
      forall env | Windows(env) ensures Agree(Scan(LinesOf(g), [], false), Fates(g, true, 0, env), false) {
        ScanIsSound(g, env, false);
      }
    } else if Balanced(Of(opener).cond) {
      var env, i := TwoWayDisagrees(opener, x, other, y, close);
      SkippedAndKept(Scan(LinesOf(g), [], false), Fates(g, true, 0, env), i);
    }
  }

  lemma SkippedAndKept(ss: seq<Status>, fs: seq<Fate>, i: nat)
    requires i < |ss| == |fs| && ss[i] == Skipped && fs[i] == Kept
    ensures !Agree(ss, fs, false)
  {
  }

  /** With a glued name, some Windows build compiles a line the scan skips. */
  lemma TwoWayDisagrees(opener: string, x: string, other: string, y: string, close: string) returns (env: Env, i: nat)
    requires WellFormed(TwoWay(opener, x, other, y, close)) && Of(opener).If?
    requires Balanced(Of(opener).cond) && Glued(Of(opener).cond)
    ensures Windows(env) && i == if CondKind(Of(opener).cond) == Posix then 1 else 3
    ensures |Scan(LinesOf(TwoWay(opener, x, other, y, close)), [], false)| == 5
    ensures Scan(LinesOf(TwoWay(opener, x, other, y, close)), [], false)[i] == Skipped
    ensures |Fates(TwoWay(opener, x, other, y, close), true, 0, env)| == 5
    ensures Fates(TwoWay(opener, x, other, y, close), true, 0, env)[i] == Kept
  {
    hide CondKind, Language, Of, Scan, Fates, LinesOf, TwoWay, WellFormed, OpenerKind, Glued, Balanced, Holds, Build,
         Windows;
    var c := Of(opener).cond;
    var k := CondKind(c);
    GluedIsOpaque(c);
    env := Build(k == Posix);
    i := if k == Posix then 1 else 3;
    BuildIsWindows(k == Posix);
    OpaqueHolds(opener, k == Posix);
    ScanOfTree(TwoWay(opener, x, other, y, close));
    TwoWayStatuses(opener, x, other, y, close, Opened(k));
    TwoWayFates(opener, x, other, y, close, env);
  }

  lemma GluedIsOpaque(cond: string)
    requires Balanced(cond) && Glued(cond)
    ensures CondKind(cond) != Other && Language(cond).Opaque?
  {
    hide CondKind, Language, Bare;
    UnspelledIsGlued(cond);
  }

  lemma OpaqueHolds(opener: string, value: bool)
    requires Of(opener).If? && Language(Of(opener).cond).Opaque?
    ensures Holds(Of(opener), 0, Build(value)) == value && OpenerKind(Of(opener)) == CondKind(Of(opener).cond)
  {
    hide Language, CondKind, Of;
  }

  lemma WordEnds(s: string, n: nat)
    requires n <= |s| && (n < |s| ==> !IsWordChar(s[n])) && forall i :: 0 <= i < n ==> IsWordChar(s[i])
    ensures WordLen(s) == n
  {
  }

  /** A trimmed line with `#` and a word in front is the directive of that word. */
  lemma DirectiveIs(line: string, word: string, rest: string)
    requires line == "#" + (word + rest) && !IsSpace(line[|line| - 1]) && IsName(word)
    requires rest != [] ==> !IsWordChar(rest[0])
    ensures word == "if" ==> Of(line) == If(rest)
    ensures word == "else" ==> Of(line) == Else
    ensures word == "endif" ==> Of(line) == Endif
  {
    TrimEndKeeps(line);
    assert SkipSpace(line) == line;
    var t := line[1..];
    assert t == word + rest && t[0] == word[0] && SkipSpace(t) == t;
    WordEnds(t, |word|);
    assert t[..|word|] == word && t[|word|..] == rest;
    hide SkipSpace, TrimEnd, WordLen, IsSpace, IsWordChar;
  }

  lemma GluedOpener()
    ensures Of("#if defined_WIN32") == If(" defined_WIN32")
  {
    hide Of;
    assert "#if defined_WIN32" == "#" + ("if" + " defined_WIN32");
    DirectiveIs("#if defined_WIN32", "if", " defined_WIN32");
  }

  lemma GluedElse()
    ensures Of("#else") == Else && Of("#endif") == Endif
  {
    hide Of;
    assert "#else" == "#" + ("else" + "") && "#endif" == "#" + ("endif" + "");
    DirectiveIs("#else", "else", "");
    DirectiveIs("#endif", "endif", "");
  }

  lemma GluedText()
    ensures Of("").Plain? && Of("fork();").Plain?
  {
    TrimEndKeeps("fork();");
    assert SkipSpace("fork();") == "fork();";
    hide SkipSpace, WordLen, TrimEnd;
    TrimEndOfNothing();
  }

  lemma GluedCondition()
    ensures Balanced(" defined_WIN32") && Glued(" defined_WIN32") && CondKind(" defined_WIN32") == Win
  {
    hide Strip, DefinedName, Unclosed, SkipSpace;
    GluedStrip();
    NoBrackets(" defined_WIN32");
    GluedName();
    assert "_WIN32" in WIN;
    GluedTo(" defined_WIN32", "defined_WIN32", "_WIN32");
  }

  lemma GluedTo(cond: string, r: string, name: string)
    requires Strip(cond) == r && r == "defined" + name && DefinedName(r) == Some(name) && name in WIN
    ensures Glued(cond) && CondKind(cond) == Win
  {
    hide Strip, DefinedName, SkipSpace, WIN, POSIX;
    assert r[0] == 'd' && r[7..] == name;
  }

  lemma GluedStrip()
    ensures Strip(" defined_WIN32") == "defined_WIN32"
  {
    var c, r := " defined_WIN32", "defined_WIN32";
    assert c[1..] == r && SkipSpace(r) == r && SkipSpace(c) == r;
    TrimEndKeeps(r);
  }

  lemma GluedName()
    ensures DefinedName("defined_WIN32") == Some("_WIN32")
  {
    var r := "defined_WIN32";
    assert r[..7] == "defined" && r[7..] == "_WIN32" && SkipSpace("_WIN32") == "_WIN32";
    TrimEndKeeps("_WIN32");
  }

  lemma ForkIsCalled()
    ensures Calls("fork();", 0) == ["fork"]
  {
    var line := "fork();";
    ForkAtStart();
    NoCallHere(line, 5);
    NoCallHere(line, 6);
    hide CallAt;
    assert Calls(line, 7) == [];
    assert Calls(line, 6) == [];
    assert Calls(line, 5) == [];
  }

  lemma ForkAtStart()
    ensures CallAt("fork();", 0) == Some(("fork", 5))
  {
    var line := "fork();";
    assert "fork" in MISSING;
    hide MISSING;
    assert line[0..] == line && line[0..4] == "fork" && line[4..] == "();" && SkipSpace("();") == "();";
    WordEnds(line, 4);
  }

  lemma NoCallHere(line: string, i: nat)
    requires i < |line| && !IsWordChar(line[i])
    ensures CallAt(line, i) == None
  {
    var word := line[i..i];
    assert |word| == 0 && word !in MISSING;
    hide MISSING;
    WordEnds(line[i..], 0);
    assert line[i..i + WordLen(line[i..])] == word;
  }

  /** `#if defined_WIN32` with a call in its `#else` branch: no Windows build need define a macro of
      that name, so one compiles the call, and the scan skips it. */
  lemma GluedNameIsMisread() returns (g: Group, env: Env)
    ensures g == TwoWay("#if defined_WIN32", "", "#else", "fork();", "#endif") && WellFormed(g) && Windows(env)
    ensures |LinesOf(g)| == 5 && LinesOf(g)[3] == "fork();" && Calls(LinesOf(g)[3], 0) == ["fork"]
    ensures Scan(LinesOf(g), [], false)[3] == Skipped && Fates(g, true, 0, env)[3] == Kept
  {
    g := TwoWay("#if defined_WIN32", "", "#else", "fork();", "#endif");
    GluedOpener();
    GluedElse();
    GluedText();
    GluedCondition();
    ForkIsCalled();
    hide Of, Calls, Glued, Balanced, CondKind, Scan, Fates, Windows;
    var i: nat;
    env, i := TwoWayDisagrees("#if defined_WIN32", "", "#else", "fork();", "#endif");
  }
}
