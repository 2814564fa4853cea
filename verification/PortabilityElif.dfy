/** A glued name in an `#elif`: the scan of a conditional of three branches, exactly when it is sound. */
module PortabilityElif {
  import opened Wrappers
  import opened PyText
  import opened Portability
  import opened PortabilityProofs

  /** The lines of `#if`, `#elif`, `#else` and `#endif` with one line of text in each branch. */
  datatype ThreeWay = ThreeWay(opener: string, x: string, elif: string, y: string, other: string, z: string,
      close: string)

  function RestOf(c: ThreeWay): Chain { ElseThen(c.other, Text(c.z, Done), c.close) }

  function TreeOf(c: ThreeWay): Group
  {
    Section(c.opener, Text(c.x, Done), ElifThen(c.elif, Text(c.y, Done), RestOf(c)), Done)
  }

  /** The opener's condition holds on every Windows build. */
  predicate AlwaysHolds(d: Directive)
    requires IsOpener(d)
  {
    match d
    case If(c) => Language(c).Test? && Language(c).name in if Language(c).positive then WIN else POSIX
    case Ifdef(name) => name in WIN
    case Ifndef(name) => name in POSIX
  }

  predicate GluedOpening(d: Directive) { d.If? && Glued(d.cond) }

  /** Where the condition of the opener is not bound to hold, and which way the other one goes. */
  predicate Negative(d: Directive) { d.Ifndef? || (d.If? && Language(d.cond).Test? && !Language(d.cond).positive) }

  /** A Windows build that defines every macro of no platform or none, and answers other conditions by
      the line they stand on. */
  function BuildOf(all: bool, first: bool, second: bool): Env
  {
    Env((n: nat, m: string) => m in WIN
        || (all && m !in POSIX), (n: nat, c: string) => if n == 0 then first else second)
  }

  lemma BuildOfIsWindows(all: bool, first: bool, second: bool)
    ensures Windows(BuildOf(all, first, second))
  {
    assert forall m :: m in POSIX ==> m !in WIN;
  }

  lemma AlwaysIsTrue(d: Directive, n: nat, env: Env)
    requires IsOpener(d) && Windows(env) && AlwaysHolds(d)
    ensures Holds(d, n, env)
  {
    hide Language, WIN, POSIX;
  }

  /** An opener that is not bound to hold fails on some Windows build. */
  lemma CanFail(d: Directive, second: bool)
    requires IsOpener(d) && !AlwaysHolds(d)
    ensures !Holds(d, 0, BuildOf(Negative(d), false, second))
  {
    hide Language;
  }

  lemma OpaqueIs(d: Directive, n: nat, all: bool, first: bool, second: bool)
    requires (d.If? || d.Elif?) && Language(d.cond).Opaque?
    ensures Holds(d, n, BuildOf(all, first, second)) == if n == 0 then first else second
  {
    hide Language;
  }

  // ----- the scan and the reference, line by line

  function StatusIn(f: Frame): Status { if f.kind == Posix then Skipped else Read }

  function FateOf(kept: bool): Fate { if kept then Kept else Dropped }

  lemma Parts(c: ThreeWay)
    requires WellFormed(TreeOf(c))
    ensures IsOpener(Of(c.opener)) && Of(c.x).Plain? && Of(c.elif).Elif? && Of(c.y).Plain? && Of(c.z).Plain?
    ensures ChainWellFormed(RestOf(c)) && WellFormed(Text(c.x, Done)) && WellFormed(Text(c.y, Done))
    ensures ChainWellFormed(ElifThen(c.elif, Text(c.y, Done), RestOf(c)))
  {
    hide Parse, Strip;
    assert ChainWellFormed(ElifThen(c.elif, Text(c.y, Done), RestOf(c)));
    assert ChainWellFormed(RestOf(c));
    assert WellFormed(Text(c.x, Done)) && WellFormed(Text(c.y, Done)) && WellFormed(Text(c.z, Done));
  }

  lemma ElifStatuses(c: ThreeWay, f: Frame)
    requires WellFormed(TreeOf(c)) && Of(c.elif).Elif?
    ensures ChainWellFormed(ElifThen(c.elif, Text(c.y, Done), RestOf(c)))
    ensures var f1 := AfterElif(f, Of(c.elif).cond);
            ChainStatuses(ElifThen(c.elif, Text(c.y, Done), RestOf(c)), [], f)
            == [Control, StatusIn(f1), Control, StatusIn(AfterElse(f1)), Control]
  {
    hide Of, AfterElif, AfterElse, Guarded;
    Parts(c);
    var f1 := AfterElif(f, Of(c.elif).cond);
    BranchStatus(c.y, f1);
    ElseStatuses(c.other, c.z, c.close, f1);
    assert [] + [f1] == [f1];
  }

  lemma TreeStatuses(c: ThreeWay)
    requires WellFormed(TreeOf(c))
    ensures IsOpener(Of(c.opener)) && Of(c.elif).Elif?
    ensures var f := Opened(OpenerKind(Of(c.opener)));
            var f1 := AfterElif(f, Of(c.elif).cond);
            Statuses(TreeOf(c), [])
            == [Control, StatusIn(f), Control, StatusIn(f1), Control, StatusIn(AfterElse(f1)), Control]
  {
    hide Of, OpenerKind, Opened, AfterElif, AfterElse, ChainStatuses, Guarded, Statuses, WellFormed, ChainWellFormed,
         StatusIn;
    Parts(c);
    var f := Opened(OpenerKind(Of(c.opener)));
    SectionParts(c.opener, Text(c.x, Done), ElifThen(c.elif, Text(c.y, Done), RestOf(c)), Done, [], true, 0,
        Build(true));
    BranchIs(c.x, f);
    ElifStatuses(c, f);
    assert [] + [f] == [f];
    assert Statuses(Done, []) == [] by { assert |Statuses(Done, [])| == |LinesOf(Done)|; }
    var f1 := AfterElif(f, Of(c.elif).cond);
    Joined(StatusIn(f), StatusIn(f1), StatusIn(AfterElse(f1)));
  }

  lemma Joined(a: Status, b: Status, c: Status)
    ensures ([Control] + [a]) + ([Control, b, Control, c, Control] + [])
        == [Control, a, Control, b, Control, c, Control]
  {
  }

  lemma BranchIs(x: string, f: Frame)
    requires Of(x).Plain? && WellFormed(Text(x, Done))
    ensures Statuses(Text(x, Done), [f]) == [StatusIn(f)]
  {
    BranchStatus(x, f);
  }

  lemma TreeFates(c: ThreeWay, env: Env)
    requires WellFormed(TreeOf(c)) && IsOpener(Of(c.opener)) && Of(c.elif).Elif?
    ensures var t, u := Holds(Of(c.opener), 0, env), Holds(Of(c.elif), 2, env);
            Fates(TreeOf(c), true, 0, env)
            == [Directive, FateOf(t), Directive, FateOf(!t && u), Directive, FateOf(!t && !u), Directive]
  {
    hide Parse, Strip, Holds;
    var t, u := Holds(Of(c.opener), 0, env), Holds(Of(c.elif), 2, env);
    Parts(c);
    assert Fates(Text(c.x, Done), t, 1, env) == [FateOf(t)];
    assert Fates(Text(c.y, Done), !t && u, 3, env) == [FateOf(!t && u)];
    assert Fates(Text(c.z, Done), !t && !u, 5, env) == [FateOf(!t && !u)];
    assert ChainFates(RestOf(c), true, t || u, 4, env) == [Directive, FateOf(!t && !u), Directive];
  }

  // ----- exactly when

  /** What the scan says of a three-branch conditional is sound on every Windows build. */
  ghost predicate Sound(c: ThreeWay)
    requires WellFormed(TreeOf(c))
  {
    forall env :: Windows(env) ==> Agree(Scan(LinesOf(TreeOf(c)), [], false), Fates(TreeOf(c), true, 0, env), false)
  }

  lemma ThreeWaySpelled(c: ThreeWay)
    requires WellFormed(TreeOf(c)) && Of(c.elif).Elif?
    requires (Of(c.opener).If? ==> Spelled(Of(c.opener).cond)) && Spelled(Of(c.elif).cond)
    ensures AllSpelled(TreeOf(c))
  {
    hide Spelled, Of;
    assert AllSpelled(Done);
    assert AllSpelled(Text(c.x, Done));
    assert AllSpelled(Text(c.y, Done));
    assert AllSpelled(Text(c.z, Done));
    assert ChainSpelled(RestOf(c));
  }

  /** The build on which a glued name is misread. */
  lemma MisreadingBuild(d: Directive, e: Directive) returns (env: Env)
    requires IsOpener(d) && e.Elif? && (d.If? ==> Balanced(d.cond)) && Balanced(e.cond)
    requires GluedOpening(d) || (Glued(e.cond) && !AlwaysHolds(d))
    ensures Windows(env)
    ensures GluedOpening(d) ==> OpenerKind(d) != Other && Holds(d, 0, env) == (OpenerKind(d) == Posix)
    ensures !GluedOpening(d) ==>
        CondKind(e.cond) != Other && !Holds(d, 0, env) && Holds(e, 2, env) == (CondKind(e.cond) == Posix)
  {
    hide Holds, BuildOf, Windows, Language, Glued, Balanced, AlwaysHolds, OpenerKind, CondKind;
    if GluedOpening(d) {
      GluedIsOpaque(d.cond);
      OpenerIs(d);
      env := BuildOf(false, OpenerKind(d) == Posix, false);
      BuildOfIsWindows(false, OpenerKind(d) == Posix, false);
      OpaqueIs(d, 0, false, OpenerKind(d) == Posix, false);
    } else {
      GluedIsOpaque(e.cond);
      env := BuildOf(Negative(d), false, CondKind(e.cond) == Posix);
      BuildOfIsWindows(Negative(d), false, CondKind(e.cond) == Posix);
      CanFail(d, CondKind(e.cond) == Posix);
      OpaqueIs(e, 2, Negative(d), false, CondKind(e.cond) == Posix);
    }
  }

  /** A glued opener, or a glued `#elif` below an opener that can fail: a build, and a line that is
      skipped and kept. */
  lemma Disagrees(c: ThreeWay) returns (env: Env)
    requires WellFormed(TreeOf(c)) && IsOpener(Of(c.opener)) && Of(c.elif).Elif?
    requires Of(c.opener).If? ==> Balanced(Of(c.opener).cond)
    requires Balanced(Of(c.elif).cond)
    requires GluedOpening(Of(c.opener)) || (Glued(Of(c.elif).cond) && !AlwaysHolds(Of(c.opener)))
    ensures Windows(env) && !Agree(Scan(LinesOf(TreeOf(c)), [], false), Fates(TreeOf(c), true, 0, env), false)
  {
    hide Of, Scan, Fates, LinesOf, TreeOf, WellFormed, Holds, Windows, GluedOpening, Glued, Balanced, AlwaysHolds,
         OpenerKind, CondKind,
         Agree;
    env := MisreadingBuild(Of(c.opener), Of(c.elif));
    ScanOfTree(TreeOf(c));
    TreeStatuses(c);
    TreeFates(c, env);
    var t, u := Holds(Of(c.opener), 0, env), Holds(Of(c.elif), 2, env);
    SkippedAndKept(Scan(LinesOf(TreeOf(c)), [], false), Fates(TreeOf(c), true, 0, env), if t then 1 else if u then 3
        else 5);
  }

  lemma OpenerIs(d: Directive)
    requires d.If?
    ensures OpenerKind(d) == CondKind(d.cond)
  {
    hide CondKind;
  }

  /** Below an opener that always holds, only its branch is kept, and the scan reads that. */
  lemma FirstBranchOnly(c: ThreeWay, env: Env)
    requires WellFormed(TreeOf(c)) && Windows(env) && IsOpener(Of(c.opener)) && Of(c.elif).Elif?
    requires (Of(c.opener).If? ==> Spelled(Of(c.opener).cond)) && AlwaysHolds(Of(c.opener))
    ensures Agree(Scan(LinesOf(TreeOf(c)), [], false), Fates(TreeOf(c), true, 0, env), false)
  {
    hide Of, Scan, Fates, LinesOf, TreeOf, WellFormed, Holds, Windows, Language, AlwaysHolds, OpenerKind, CondKind,
         Spelled;
    ScanOfTree(TreeOf(c));
    TreeStatuses(c);
    TreeFates(c, env);
    AlwaysIsTrue(Of(c.opener), 0, env);
    KindIsTrue(c.opener, 0, env);
  }

  /** Of the conditions a compiler can accept: a three-branch conditional is scanned soundly exactly
      when its opener is not a glued name, and its `#elif` is not one either unless the opener holds on
      every Windows build. */
  lemma ElifExactlyWhenSound(c: ThreeWay)
    requires WellFormed(TreeOf(c))
    ensures IsOpener(Of(c.opener)) && Of(c.elif).Elif?
    ensures (Of(c.opener).If? ==> Balanced(Of(c.opener).cond)) && Balanced(Of(c.elif).cond) ==>
              (Sound(c) <==> && !GluedOpening(Of(c.opener))
                             && (Glued(Of(c.elif).cond) ==> AlwaysHolds(Of(c.opener))))
  {
    Parts(c);
    hide Scan, Of, Agree, LinesOf, Fates, WellFormed, Windows, TreeOf, AllSpelled, Balanced, Glued, Spelled,
         AlwaysHolds;
    var d, e := Of(c.opener), Of(c.elif);
    if (d.If? ==> Balanced(d.cond)) && Balanced(e.cond) {
      if d.If? { UnspelledIsGlued(d.cond); }
      UnspelledIsGlued(e.cond);
      if GluedOpening(d) || (Glued(e.cond) && !AlwaysHolds(d)) {
        var env := Disagrees(c);
      } else {
        forall env | Windows(env)
            ensures Agree(Scan(LinesOf(TreeOf(c)), [], false), Fates(TreeOf(c), true, 0, env), false) {
          if Glued(e.cond) {
            FirstBranchOnly(c, env);
          } else {
            ThreeWaySpelled(c);
            ScanIsSound(TreeOf(c), env, false);
          }
        }
      }
    }
  }
}
