/** Whole models: the modules' own tensors while the modules run, inside their hooked units or not. */
module CastInUse {
  import opened CastAtUse
  import opened CastAtUseProofs

  // ----- the hooks of a model

  /** The modules cast by the hooks on module `m`: those of the unit registered on it, if there is one. */
  function UnitOn(hooked: seq<seq<nat>>, m: nat): (r: seq<nat>)
    requires forall u :: 0 <= u < |hooked| ==> hooked[u] != []
    ensures m in Roots(hooked) ==> r in hooked && r[0] == m
    ensures m !in Roots(hooked) ==> r == []
  {
    if hooked == [] then []
    else
      assert forall u :: 0 < u < |hooked| ==> Roots(hooked)[u] == Roots(hooked[1..])[u - 1];
      if hooked[0][0] == m then hooked[0] else UnitOn(hooked[1..], m)
  }

  predicate Units(hooked: seq<seq<nat>>, n: nat)
  {
    forall u :: 0 <= u < |hooked| ==> hooked[u] != [] && forall i :: 0 <= i < |hooked[u]| ==> hooked[u][i] < n
  }

  /** For every module, the modules its hooks cast. */
  function HookTable(modules: seq<Module>, hooked: seq<seq<nat>>): (r: seq<seq<Module>>)
    requires Units(hooked, |modules|)
    ensures |r| == |modules|
  {
    seq(|modules|, m requires 0 <= m < |modules| => ModulesOf(modules, UnitOn(hooked, m)))
  }

  function ModulesOf(modules: seq<Module>, unit: seq<nat>): (r: seq<Module>)
    requires forall i :: 0 <= i < |unit| ==> unit[i] < |modules|
    ensures |r| == |unit| && forall i :: 0 <= i < |r| ==> r[i] == modules[unit[i]]
  {
    seq(|unit|, i requires 0 <= i < |unit| => modules[unit[i]])
  }

  // ----- tensors in use

  /** The state after the hooks before a forward, `k` pairs of them. */
  function Entered(units: seq<seq<Slot>>, k: nat, m: nat, st: State): (r: State)
    requires m < |units| && AllWithin(units, |st.data|) && Sound(st)
    ensures |r.data| == |st.data| && Sound(r)
  {
    if k == 0 then st else Entered(units, k - 1, m, Pre(units, m, st))
  }

  function Own(m: Module): set<Slot> { set s | s in m }

  /** At every moment of a run no slot of `using` holds a narrow tensor, nor does any slot of a module
      while that module runs. */
  predicate WideInUse(modules: seq<Module>, units: seq<seq<Slot>>, regs: seq<nat>, passes: seq<Pass>, st: State,
      using: set<Slot>)
    requires |units| == |modules| && PassesKnown(passes, |units|)
    requires AllWithin(units, |st.data|) && AllWithin(modules, |st.data|) && Sound(st)
    requires forall s :: s in using ==> s < |st.data|
  {
    && (forall s :: s in using ==> !st.data[s].Narrow?)
    && (passes == [] ||
        var p := passes[0];
        var k := Times(regs, p.mod);
        FiredIsKnown(regs, p.inner, |units|);
        WrapKnown(k, p.mod, Fired(regs, p.inner), |units|);
        && WideInUse(modules, units, regs, p.inner, Entered(units, k, p.mod, st), using + Own(modules[p.mod]))
        && WideInUse(modules, units, regs, passes[1..], Run(units, Wrap(k, p.mod, Fired(regs, p.inner)), st), using))
  }

  /** Some open unit casts the slot. */
  predicate CoveredBy(units: seq<seq<Slot>>, open: set<nat>, s: Slot)
  {
    exists u :: u in open && u < |units| && s in units[u]
  }

  /** Every narrow tensor of a running module is covered by a unit that is open. */
  predicate CoveredInUse(modules: seq<Module>, units: seq<seq<Slot>>, regs: seq<nat>, passes: seq<Pass>,
      data: seq<Tensor>, open: set<nat>)
    requires PassesKnown(passes, |modules|) && AllWithin(modules, |data|)
  {
    passes == [] ||
    var p := passes[0];
    var within := if p.mod in regs then open + {p.mod} else open;
    && (forall s :: s in modules[p.mod] && data[s].Narrow? ==> CoveredBy(units, within, s))
    && CoveredInUse(modules, units, regs, p.inner, data, within)
    && CoveredInUse(modules, units, regs, passes[1..], data, open)
  }

  // ----- what is covered is what is wide

  /** The state while exactly the units of `open` are: their slots widened, the others as stored. */
  ghost predicate Opened(units: seq<seq<Slot>>, data: seq<Tensor>, open: set<nat>, st: State)
  {
    && |st.data| == |data|
    && (forall s :: 0 <= s < |data| ==> st.data[s] == if CoveredBy(units, open, s) then Float(data[s]) else data[s])
    && forall u :: Aside(st.saved, u) != [] ==> u in open
  }

  lemma CoveredByMore(units: seq<seq<Slot>>, open: set<nat>, m: nat, s: Slot)
    requires m < |units|
    ensures CoveredBy(units, open + {m}, s) <==> CoveredBy(units, open, s) || s in units[m]
  {
    if u :| u in open && u < |units| && s in units[u] { assert u in open + {m}; }
    if s in units[m] { assert m in open + {m}; }
  }

  lemma OpenedBefore(units: seq<seq<Slot>>, data: seq<Tensor>, open: set<nat>, m: nat, st: State)
    requires m < |units| && AllWithin(units, |st.data|) && Sound(st) && Opened(units, data, open, st)
    ensures Opened(units, data, open + {m}, Pre(units, m, st))
  {
    hide CoveredBy;
    forall s | 0 <= s < |data|
      ensures Pre(units, m, st).data[s] == if CoveredBy(units, open + {m}, s) then Float(data[s]) else data[s]
    {
      CoveredByMore(units, open, m, s);
    }
    forall u | Aside(Pre(units, m, st).saved, u) != [] ensures u in open + {m} { PreAside(units, m, st, u); }
  }

  /** The state one pair of hooks, or none, lets a module run in. */
  lemma EnteredOpen(units: seq<seq<Slot>>, data: seq<Tensor>, regs: seq<nat>, open: set<nat>, m: nat, st: State)
    requires m < |units| && AllWithin(units, |st.data|) && Sound(st) && Opened(units, data, open, st) && NoRepeats(regs)
    ensures Opened(units, data, if m in regs then open + {m} else open, Entered(units, Times(regs, m), m, st))
  {
    hide Opened, Pre, NoRepeats;
    TimesOnce(regs, m);
    if m in regs {
      OpenedBefore(units, data, open, m, st);
      assert Entered(units, 0, m, Pre(units, m, st)) == Pre(units, m, st);
    }
  }

  lemma SameIsOpened(units: seq<seq<Slot>>, data: seq<Tensor>, open: set<nat>, st: State, after: State)
    requires Opened(units, data, open, st) && Same(after, st)
    ensures Opened(units, data, open, after)
  {
    hide CoveredBy;
    forall u | Aside(after.saved, u) != [] ensures u in open { SameAside(after, st, u); }
  }

  /** A run without re-entry leaves an opened state as it was. */
  lemma OpenedAfter(units: seq<seq<Slot>>, data: seq<Tensor>, open: set<nat>, calls: seq<Call>, st: State)
    requires Known(calls, |units|) && AllWithin(units, |st.data|) && Sound(st) && Opened(units, data, open, st)
    requires NonReentrant(calls, open)
    ensures Opened(units, data, open, Run(units, calls, st))
  {
    assert forall u :: Aside(st.saved, u) != [] ==> u in open;
    hide Opened, Run, Same;
    NonReentrantIsHarmless(units, calls, st, open);
    HarmlessRestores(units, calls, st);
    SameIsOpened(units, data, open, st, Run(units, calls, st));
  }

  lemma WideWhenCovered(units: seq<seq<Slot>>, data: seq<Tensor>, open: set<nat>, st: State, s: Slot)
    requires Opened(units, data, open, st) && s < |data|
    ensures !st.data[s].Narrow? <==> (data[s].Narrow? ==> CoveredBy(units, open, s))
  {
    hide CoveredBy;
  }

  /** The slots in use when a module is entered. */
  lemma SlotsInUse(units: seq<seq<Slot>>, data: seq<Tensor>, own: Module, open: set<nat>, within: set<nat>, st: State,
      inside: State, using: set<Slot>)
    requires Opened(units, data, open, st) && Opened(units, data, within, inside) && open <= within
        && Within(own, |data|)
    requires forall s :: s in using ==> s < |data| && !st.data[s].Narrow?
    ensures (forall s :: s in using + Own(own) ==> !inside.data[s].Narrow?)
       <==> forall s :: s in own && data[s].Narrow? ==> CoveredBy(units, within, s)
  {
    forall s | s in using ensures !inside.data[s].Narrow? {
      WideWhenCovered(units, data, open, st, s);
      WideWhenCovered(units, data, within, inside, s);
    }
    hide Opened, CoveredBy;
    forall s | s in own ensures !inside.data[s].Narrow? <==> (data[s].Narrow? ==> CoveredBy(units, within, s)) {
      WideWhenCovered(units, data, within, inside, s);
    }
    forall s | s in own ensures s in using + Own(own) {
    }
  }

  lemma StillWide(units: seq<seq<Slot>>, data: seq<Tensor>, open: set<nat>, st: State, after: State, s: Slot)
    requires Opened(units, data, open, st) && Opened(units, data, open, after) && s < |data|
    ensures after.data[s] == st.data[s]
  {
    hide CoveredBy;
  }

  lemma FirstIsNonReentrant(regs: seq<nat>, passes: seq<Pass>, open: set<nat>)
    requires passes != [] && NoRepeats(regs) && PassesApart(regs, passes, open)
    ensures NonReentrant(Wrap(Times(regs, passes[0].mod), passes[0].mod, Fired(regs, passes[0].inner)), open)
  {
    hide NoRepeats;
    var p := passes[0];
    TimesOnce(regs, p.mod);
    FiredIsNonReentrant(regs, p.inner, if p.mod in regs then open + {p.mod} else open);
    WrapOnce(p.mod, Fired(regs, p.inner), open);
  }

  /** A first forward, seen from its hooks: at its moments and at those behind it. */
  lemma WideStep(modules: seq<Module>, units: seq<seq<Slot>>, regs: seq<nat>, passes: seq<Pass>, st: State,
      using: set<Slot>)
    requires passes != [] && |units| == |modules| && PassesKnown(passes, |units|)
    requires AllWithin(units, |st.data|) && AllWithin(modules, |st.data|) && Sound(st)
    requires forall s :: s in using ==> s < |st.data| && !st.data[s].Narrow?
    ensures var p, k := passes[0], Times(regs, passes[0].mod);
            var inside, used := Entered(units, k, p.mod, st), using + Own(modules[p.mod]);
            && (forall s :: s in used ==> s < |st.data|) && Known(Wrap(k, p.mod, Fired(regs, p.inner)), |units|)
            && var after := Run(units, Wrap(k, p.mod, Fired(regs, p.inner)), st);
               && (WideInUse(modules, units, regs, passes, st, using)
                   <==> && WideInUse(modules, units, regs, p.inner, inside, used)
                        && WideInUse(modules, units, regs, passes[1..], after, using))
               && (WideInUse(modules, units, regs, p.inner, inside, used) ==> forall s :: s in used ==>
                   !inside.data[s].Narrow?)
  {
    hide Entered, Run, Sound, Wrap, Fired;
    var p := passes[0];
    assert Within(modules[p.mod], |st.data|);
    FiredIsKnown(regs, p.inner, |units|);
    WrapKnown(Times(regs, p.mod), p.mod, Fired(regs, p.inner), |units|);
  }

  lemma CoveredStep(modules: seq<Module>, units: seq<seq<Slot>>, regs: seq<nat>, passes: seq<Pass>, data: seq<Tensor>,
      open: set<nat>)
    requires passes != [] && PassesKnown(passes, |modules|) && AllWithin(modules, |data|)
    ensures var p := passes[0];
            var within := if p.mod in regs then open + {p.mod} else open;
            CoveredInUse(modules, units, regs, passes, data, open)
            <==> && (forall s :: s in modules[p.mod] && data[s].Narrow? ==> CoveredBy(units, within, s))
                 && CoveredInUse(modules, units, regs, p.inner, data, within)
                 && CoveredInUse(modules, units, regs, passes[1..], data, open)
  {
    hide CoveredBy;
  }

  /** With each module hooked at most once and no hooked module running inside itself, the tensors in
      use are wide exactly when each narrow one is covered by an open unit. */
  lemma {:induction false} InUseExactly(
      modules: seq<Module>, units: seq<seq<Slot>>, regs: seq<nat>, passes: seq<Pass>, data: seq<Tensor>,
      open: set<nat>, st: State, using: set<Slot>)
    requires |units| == |modules| && PassesKnown(passes, |units|) && NoRepeats(regs) && PassesApart(regs, passes, open)
    requires AllWithin(units, |data|) && AllWithin(modules, |data|) && |st.data| == |data| && Sound(st)
    requires Opened(units, data, open, st)
    requires forall s :: s in using ==> s < |data| && !st.data[s].Narrow?
    ensures WideInUse(modules, units, regs, passes, st, using)
        <==> CoveredInUse(modules, units, regs, passes, data, open)
  {
    if passes != [] {
      hide Opened, CoveredBy, Entered, Run, Sound, NoRepeats, Wrap, Fired, Own, WideInUse, CoveredInUse;
      var p := passes[0];
      var k := Times(regs, p.mod);
      var within := if p.mod in regs then open + {p.mod} else open;
      var calls := Wrap(k, p.mod, Fired(regs, p.inner));
      FiredIsKnown(regs, p.inner, |units|);
      WrapKnown(k, p.mod, Fired(regs, p.inner), |units|);
      var inside, after := Entered(units, k, p.mod, st), Run(units, calls, st);
      EnteredOpen(units, data, regs, open, p.mod, st);
      SlotsInUse(units, data, modules[p.mod], open, within, st, inside, using);
      FirstIsNonReentrant(regs, passes, open);
      OpenedAfter(units, data, open, calls, st);
      forall s | s in using ensures !after.data[s].Narrow? { StillWide(units, data, open, st, after, s); }
      InUseExactly(modules, units, regs, passes[1..], data, open, after, using);
      WideStep(modules, units, regs, passes, st, using);
      CoveredStep(modules, units, regs, passes, data, open);
      if forall s :: s in using + Own(modules[p.mod]) ==> !inside.data[s].Narrow? {
        InUseExactly(modules, units, regs, p.inner, data, within, inside, using + Own(modules[p.mod]));
      }
    } else {
      hide Opened, CoveredBy, NoRepeats, Sound;
    }
  }

  // ----- the registered model

  lemma RegisteredUnits(modules: seq<Module>, blocks: seq<seq<nat>>, data: seq<Tensor>)
    requires AllWithin(modules, |data|) && Units(blocks, |modules|)
    ensures Units(blocks + Singles(modules, blocks, data, |modules|), |modules|)
  {
    SinglesAre(modules, blocks, data, |modules|);
    var singles := Singles(modules, blocks, data, |modules|);
    var hooked := blocks + singles;
    forall u | 0 <= u < |hooked|
        ensures hooked[u] != [] && forall i :: 0 <= i < |hooked[u]| ==> hooked[u][i] < |modules| {
      if u >= |blocks| { assert IsSingle(singles[u - |blocks|], blocks, |modules|); }
    }
  }

  lemma {:induction false} SlotsWithin(ms: seq<Module>, n: nat)
    requires forall i :: 0 <= i < |ms| ==> Within(ms[i], n)
    ensures Within(Slots(ms), n)
  {
    if ms != [] {
      SlotsWithin(ms[..|ms| - 1], n);
    }
  }

  lemma TableWithin(modules: seq<Module>, hooked: seq<seq<nat>>, n: nat)
    requires AllWithin(modules, n) && Units(hooked, |modules|)
    ensures AllWithin(UnitSlots(HookTable(modules, hooked)), n)
  {
    hide UnitOn;
    forall m | 0 <= m < |modules| ensures Within(UnitSlots(HookTable(modules, hooked))[m], n) {
      SlotsWithin(HookTable(modules, hooked)[m], n);
    }
  }

  /** The slots of the hooks of a registered model. */
  function CastSlots(modules: seq<Module>, blocks: seq<seq<nat>>, data: seq<Tensor>): (r: seq<seq<Slot>>)
    requires AllWithin(modules, |data|) && Units(blocks, |modules|)
    ensures |r| == |modules| && AllWithin(r, |data|)
  {
    RegisteredUnits(modules, blocks, data);
    var hooked := blocks + Singles(modules, blocks, data, |modules|);
    TableWithin(modules, hooked, |data|);
    UnitSlots(HookTable(modules, hooked))
  }

  /** The modules hooked in a registered model. */
  function HookedModules(modules: seq<Module>, blocks: seq<seq<nat>>, data: seq<Tensor>): seq<nat>
    requires AllWithin(modules, |data|) && Units(blocks, |modules|)
  {
    RegisteredUnits(modules, blocks, data);
    Roots(blocks + Singles(modules, blocks, data, |modules|))
  }

  lemma StartsOpened(units: seq<seq<Slot>>, data: seq<Tensor>)
    ensures Opened(units, data, {}, State(data, map[]))
  {
  }

  /** With no block listed twice, over every run of forwards in which no hooked module runs inside
      itself, everything is as stored at the end, what an open unit covers is wide throughout, and the
      running modules' own tensors are wide exactly when each of their narrow ones is covered by a unit
      open at the time. */
  lemma ModelIsTransparent(modules: seq<Module>, blocks: seq<seq<nat>>, passes: seq<Pass>, data: seq<Tensor>)
    requires AllWithin(modules, |data|) && Units(blocks, |modules|) && NoRepeats(Roots(blocks))
    requires PassesKnown(passes, |modules|) && PassesApart(HookedModules(modules, blocks, data), passes, {})
    ensures var units, regs := CastSlots(modules, blocks, data), HookedModules(modules, blocks, data);
            && Known(Fired(regs, passes), |units|)
            && Run(units, Fired(regs, passes), State(data, map[])).data == data
            && WideThroughout(units, Fired(regs, passes), State(data, map[]), {}, data)
            && (WideInUse(modules, units, regs, passes, State(data, map[]), {})
                <==> CoveredInUse(modules, units, regs, passes, data, {}))
  {
    HookedOnceEach(modules, blocks, data);
    hide Singles, Run, WideThroughout, NoRepeats, CastSlots, WideInUse, CoveredInUse, Opened;
    var units, regs := CastSlots(modules, blocks, data), HookedModules(modules, blocks, data);
    FiredIsKnown(regs, passes, |units|);
    FiredIsNonReentrant(regs, passes, {});
    RunIsTransparent(units, Fired(regs, passes), data);
    StartsOpened(units, data);
    InUseExactly(modules, units, regs, passes, data, {}, State(data, map[]), {});
  }

  // ----- where a block's modules run

  /** A module of a block that holds a narrow tensor runs only while a block it belongs to does. */
  predicate RunsInBlocks(modules: seq<Module>, blocks: seq<seq<nat>>, passes: seq<Pass>, data: seq<Tensor>,
      running: set<nat>)
    requires AllWithin(modules, |data|) && Units(blocks, |modules|) && PassesKnown(passes, |modules|)
  {
    passes == [] ||
    var p := passes[0];
    && (InBlock(blocks, p.mod) && HasNarrow(modules[p.mod], data) ==> InRunning(blocks, p.mod, running + {p.mod}))
    && RunsInBlocks(modules, blocks, p.inner, data, running + {p.mod})
    && RunsInBlocks(modules, blocks, passes[1..], data, running)
  }

  predicate InRunning(blocks: seq<seq<nat>>, m: nat, running: set<nat>)
    requires forall b :: 0 <= b < |blocks| ==> blocks[b] != []
  {
    exists b :: 0 <= b < |blocks| && m in blocks[b] && blocks[b][0] in running
  }

  /** No two modules share a narrow tensor. */
  predicate Untied(modules: seq<Module>, data: seq<Tensor>)
    requires AllWithin(modules, |data|)
  {
    forall m, k, s :: 0 <= m < |modules| && 0 <= k < |modules| && s in modules[m] && s in modules[k] && data[s].Narrow?
      ==> m == k
  }

  lemma {:induction false} UnitOnIs(hooked: seq<seq<nat>>, u: nat)
    requires (forall u :: 0 <= u < |hooked| ==> hooked[u] != []) && NoRepeats(Roots(hooked)) && u < |hooked|
    ensures UnitOn(hooked, hooked[u][0]) == hooked[u]
  {
    if u > 0 {
      assert Roots(hooked)[0] != Roots(hooked)[u];
      assert forall v :: 0 < v < |hooked| ==> Roots(hooked)[v] == Roots(hooked[1..])[v - 1];
      UnitOnIs(hooked[1..], u - 1);
    }
  }

  lemma {:induction false} SlotOfModule(ms: seq<Module>, s: Slot)
    ensures s in Slots(ms) <==> exists i :: 0 <= i < |ms| && s in ms[i]
  {
    if ms != [] {
      var front, last := ms[..|ms| - 1], ms[|ms| - 1];
      SlotOfModule(front, s);
      if s in last { assert s in ms[|ms| - 1]; }
      if i :| 0 <= i < |front| && s in front[i] { assert s in ms[i]; }
    }
  }

  /** The slots a unit's hooks cast are those of its modules. */
  lemma CastBy(modules: seq<Module>, hooked: seq<seq<nat>>, u: nat, s: Slot)
    requires Units(hooked, |modules|) && NoRepeats(Roots(hooked)) && u < |hooked| && hooked[u][0] < |modules|
    ensures s in UnitSlots(HookTable(modules, hooked))[hooked[u][0]]
       <==> exists m :: m in hooked[u] && s in modules[m]
  {
    UnitOnIs(hooked, u);
    var unit := hooked[u];
    SlotOfModule(ModulesOf(modules, unit), s);
    if m :| m in unit && s in modules[m] {
      var i :| 0 <= i < |unit| && unit[i] == m;
      assert ModulesOf(modules, unit)[i] == modules[m];
    }
    if i :| 0 <= i < |unit| && s in ModulesOf(modules, unit)[i] { assert unit[i] in unit; }
  }

  /** The open units are the hooked ones of the running modules. */
  ghost predicate OpenAre(open: set<nat>, running: set<nat>, regs: seq<nat>)
  {
    forall u :: u in open <==> u in running && u in regs
  }

  /** A registered model: its units, the modules hooked and the slots their hooks cast. */
  ghost predicate Registered(modules: seq<Module>, blocks: seq<seq<nat>>, data: seq<Tensor>, hooked: seq<seq<nat>>,
      units: seq<seq<Slot>>)
    requires AllWithin(modules, |data|) && Units(blocks, |modules|)
  {
    && hooked == blocks + Singles(modules, blocks, data, |modules|)
    && Units(hooked, |modules|) && NoRepeats(Roots(hooked)) && units == UnitSlots(HookTable(modules, hooked))
  }

  lemma UnitCovers(modules: seq<Module>, hooked: seq<seq<nat>>, u: nat, m: nat, s: Slot, open: set<nat>)
    requires Units(hooked, |modules|) && NoRepeats(Roots(hooked)) && u < |hooked| && hooked[u][0] in open
    requires m in hooked[u] && m < |modules| && s in modules[m]
    ensures CoveredBy(UnitSlots(HookTable(modules, hooked)), open, s)
  {
    CastBy(modules, hooked, u, s);
  }

  /** A single module's unit covers its own tensors. */
  lemma SingleCovers(modules: seq<Module>, blocks: seq<seq<nat>>, data: seq<Tensor>, hooked: seq<seq<nat>>,
      units: seq<seq<Slot>>, m: nat, s: Slot, open: set<nat>)
    requires AllWithin(modules, |data|) && Units(blocks, |modules|) && Registered(modules, blocks, data, hooked, units)
    requires m < |modules| && s in modules[m] && data[s].Narrow? && !InBlock(blocks, m)
        && (m in Roots(hooked) ==> m in open)
    ensures CoveredBy(units, open, s)
  {
    assert HasNarrow(modules[m], data) by { var i :| 0 <= i < |modules[m]| && modules[m][i] == s; }
    hide Singles, HasNarrow, NoRepeats, InBlock;
    SingleIsThere(modules, blocks, data, |modules|, m);
    var singles := Singles(modules, blocks, data, |modules|);
    var v :| 0 <= v < |singles| && singles[v] == [m];
    var u := |blocks| + v;
    assert hooked[u] == [m] && Roots(hooked)[u] == m && m in hooked[u];
    UnitCovers(modules, hooked, u, m, s, open);
  }

  /** So does a block that is open. */
  lemma BlockCovers(modules: seq<Module>, blocks: seq<seq<nat>>, data: seq<Tensor>, hooked: seq<seq<nat>>,
      units: seq<seq<Slot>>, m: nat, s: Slot, running: set<nat>, open: set<nat>)
    requires AllWithin(modules, |data|) && Units(blocks, |modules|) && Registered(modules, blocks, data, hooked, units)
    requires m < |modules| && s in modules[m] && InRunning(blocks, m, running) && OpenAre(open, running, Roots(hooked))
    ensures CoveredBy(units, open, s)
  {
    hide Singles, NoRepeats;
    var b :| 0 <= b < |blocks| && m in blocks[b] && blocks[b][0] in running;
    assert hooked[b] == blocks[b] && Roots(hooked)[b] == blocks[b][0];
    UnitCovers(modules, hooked, b, m, s, open);
  }

  /** Without ties, what covers a tensor of a block's module is a block of that module. */
  lemma OnlyBlocksCover(modules: seq<Module>, blocks: seq<seq<nat>>, data: seq<Tensor>, hooked: seq<seq<nat>>,
      units: seq<seq<Slot>>, m: nat, s: Slot, running: set<nat>, open: set<nat>)
    requires AllWithin(modules, |data|) && Units(blocks, |modules|) && Registered(modules, blocks, data, hooked, units)
    requires m < |modules| && s in modules[m] && data[s].Narrow? && InBlock(blocks, m) && Untied(modules, data)
    requires OpenAre(open, running, Roots(hooked)) && CoveredBy(units, open, s)
    ensures InRunning(blocks, m, running)
  {
    assert forall k :: 0 <= k < |modules| && s in modules[k] ==> k == m;
    hide Singles, NoRepeats, InBlock, Untied, CoveredBy;
    var u := CoveringUnit(modules, hooked, m, s, running, open);
    NotSingle(modules, blocks, data, hooked, u, m);
    assert hooked[u] == blocks[u];
  }

  lemma CoveringUnit(modules: seq<Module>, hooked: seq<seq<nat>>, m: nat, s: Slot, running: set<nat>, open: set<nat>)
      returns (u: nat)
    requires Units(hooked, |modules|) && NoRepeats(Roots(hooked)) && OpenAre(open, running, Roots(hooked))
    requires CoveredBy(UnitSlots(HookTable(modules, hooked)), open, s)
    requires forall k :: 0 <= k < |modules| && s in modules[k] ==> k == m
    ensures u < |hooked| && m in hooked[u] && hooked[u][0] in running
  {
    hide NoRepeats, HookTable, UnitSlots;
    var r :| r in open && r < |modules| && s in UnitSlots(HookTable(modules, hooked))[r];
    u :| 0 <= u < |hooked| && Roots(hooked)[u] == r;
    CastBy(modules, hooked, u, s);
    var k :| k in hooked[u] && s in modules[k];
  }

  lemma NotSingle(modules: seq<Module>, blocks: seq<seq<nat>>, data: seq<Tensor>, hooked: seq<seq<nat>>, u: nat, m: nat)
    requires AllWithin(modules, |data|) && hooked == blocks + Singles(modules, blocks, data, |modules|)
    requires u < |hooked| && m in hooked[u] && InBlock(blocks, m)
    ensures u < |blocks|
  {
    hide InBlock, Singles, IsSingle, Climbs;
    SinglesAre(modules, blocks, data, |modules|);
    if u >= |blocks| {
      var v := u - |blocks|;
      var singles := Singles(modules, blocks, data, |modules|);
      assert hooked[u] == singles[v];
      SingleHolds(singles[v], blocks, |modules|, m);
    }
  }

  lemma SingleHolds(unit: seq<nat>, blocks: seq<seq<nat>>, n: nat, m: nat)
    requires IsSingle(unit, blocks, n) && m in unit
    ensures !InBlock(blocks, m)
  {
    hide InBlock;
    assert unit == [unit[0]];
  }

  /** What covers a running module's tensors. */
  lemma OneCovered(modules: seq<Module>, blocks: seq<seq<nat>>, data: seq<Tensor>, hooked: seq<seq<nat>>,
      units: seq<seq<Slot>>, m: nat, running: set<nat>, open: set<nat>)
    requires AllWithin(modules, |data|) && Units(blocks, |modules|) && Registered(modules, blocks, data, hooked, units)
    requires m < |modules| && m in running && OpenAre(open, running, Roots(hooked))
    ensures var runs := InBlock(blocks, m) && HasNarrow(modules[m], data) ==> InRunning(blocks, m, running);
            var wide := forall s :: s in modules[m] && data[s].Narrow? ==> CoveredBy(units, open, s);
            (runs ==> wide) && (Untied(modules, data) ==> (wide ==> runs))
  {
    assert Within(modules[m], |data|);
    hide Registered, InBlock, InRunning, CoveredBy, Untied;
    forall s | s in modules[m] && data[s].Narrow?
      ensures !InBlock(blocks, m) || InRunning(blocks, m, running) ==> CoveredBy(units, open, s)
    {
      if InRunning(blocks, m, running) {
        BlockCovers(modules, blocks, data, hooked, units, m, s, running, open);
      } else if !InBlock(blocks, m) {
        SingleCovers(modules, blocks, data, hooked, units, m, s, open);
      }
    }
    if s :| s in modules[m] && data[s].Narrow? {
      if Untied(modules, data) && InBlock(blocks, m) && CoveredBy(units, open, s) {
        OnlyBlocksCover(modules, blocks, data, hooked, units, m, s, running, open);
      }
    }
  }

  lemma {:induction false} BlocksCover(modules: seq<Module>, blocks: seq<seq<nat>>, data: seq<Tensor>,
      hooked: seq<seq<nat>>, units: seq<seq<Slot>>, passes: seq<Pass>, running: set<nat>, open: set<nat>)
    requires AllWithin(modules, |data|) && Units(blocks, |modules|) && Registered(modules, blocks, data, hooked, units)
    requires PassesKnown(passes, |modules|) && OpenAre(open, running, Roots(hooked))
    ensures RunsInBlocks(modules, blocks, passes, data, running) ==>
        CoveredInUse(modules, units, Roots(hooked), passes, data, open)
    ensures Untied(modules, data) && CoveredInUse(modules, units, Roots(hooked), passes, data, open)
      ==> RunsInBlocks(modules, blocks, passes, data, running)
  {
    if passes != [] {
      hide Registered, InBlock, HasNarrow, InRunning, CoveredBy, Untied, Units, AllWithin;
      var p := passes[0];
      var within := if p.mod in Roots(hooked) then open + {p.mod} else open;
      OneCovered(modules, blocks, data, hooked, units, p.mod, running + {p.mod}, within);
      BlocksCover(modules, blocks, data, hooked, units, p.inner, running + {p.mod}, within);
      BlocksCover(modules, blocks, data, hooked, units, passes[1..], running, open);
    }
  }

  /** What a caller checks: when a module of a block that holds a narrow tensor runs only inside such a
      block, everything in use is wide; and in a model without tied tensors only then. */
  lemma WideInsideBlocks(modules: seq<Module>, blocks: seq<seq<nat>>, passes: seq<Pass>, data: seq<Tensor>)
    requires AllWithin(modules, |data|) && Units(blocks, |modules|) && NoRepeats(Roots(blocks))
    requires PassesKnown(passes, |modules|) && PassesApart(HookedModules(modules, blocks, data), passes, {})
    ensures var wide := WideInUse(modules, CastSlots(modules, blocks, data), HookedModules(modules, blocks, data),
        passes,
                                  State(data, map[]), {});
            && (RunsInBlocks(modules, blocks, passes, data, {}) ==> wide)
            && (Untied(modules, data) ==> (wide ==> RunsInBlocks(modules, blocks, passes, data, {})))
  {
    var hooked := blocks + Singles(modules, blocks, data, |modules|);
    HookedOnceEach(modules, blocks, data);
    RegisteredUnits(modules, blocks, data);
    ModelIsTransparent(modules, blocks, passes, data);
    var units := CastSlots(modules, blocks, data);
    assert Registered(modules, blocks, data, hooked, units);
    hide Registered, WideInUse, CoveredInUse, RunsInBlocks, Singles, NoRepeats, Untied;
    BlocksCover(modules, blocks, data, hooked, units, passes, {}, {});
  }

  // ----- a child alone

  /** A block of two modules, the second of which holds its one tensor, and that module run by itself. */
  lemma ChildAloneIsNarrow()
    ensures var modules, blocks, data, passes := [[], [0]], [[0, 1]], [Narrow(1.0)], [Pass(1, [])];
            && AllWithin(modules, |data|) && Units(blocks, |modules|) && NoRepeats(Roots(blocks))
            && PassesKnown(passes, |modules|) && PassesApart(HookedModules(modules, blocks, data), passes, {})
            && !WideInUse(modules, CastSlots(modules, blocks, data), HookedModules(modules, blocks, data), passes,
                          State(data, map[]), {})
  {
    var modules: seq<Module>, blocks: seq<seq<nat>> := [[], [0]], [[0, 1]];
    var data := [Narrow(1.0)];
    ChildModel();
    OnePass(HookedModules(modules, blocks, data), 1, 2);
    hide Units, WideInUse, CastSlots, HookedModules, PassesApart, PassesKnown, Untied, RunsInBlocks, NoRepeats;
    ChildRunsAlone();
    WideInsideBlocks(modules, blocks, [Pass(1, [])], data);
  }

  lemma OnePass(regs: seq<nat>, m: nat, n: nat)
    requires m < n
    ensures PassesKnown([Pass(m, [])], n) && PassesApart(regs, [Pass(m, [])], {})
  {
    var none: seq<Pass> := [];
    var passes := [Pass(m, none)];
    assert passes[1..] == none && PassesKnown(none, n) && PassesApart(regs, none, {}) && PassesApart(regs, none, {m});
    assert PassesApart(regs, none, if m in regs then {} + {m} else {});
  }

  lemma ChildModel()
    ensures var modules, blocks, data := [[], [0]], [[0, 1]], [Narrow(1.0)];
            AllWithin(modules, |data|) && Units(blocks, |modules|) && NoRepeats(Roots(blocks)) && Untied(modules, data)
  {
    var modules: seq<Module>, blocks: seq<seq<nat>> := [[], [0]], [[0, 1]];
    var data := [Narrow(1.0)];
    assert |modules[0]| == 0 && |modules[1]| == 1;
    assert blocks[0] == [0, 1];
  }

  lemma ChildRunsAlone()
    ensures var modules, blocks, data := [[], [0]], [[0, 1]], [Narrow(1.0)];
            && AllWithin(modules, |data|) && Units(blocks, |modules|) && PassesKnown([Pass(1, [])], |modules|)
            && !RunsInBlocks(modules, blocks, [Pass(1, [])], data, {})
  {
    ChildModel();
    OnePass([], 1, 2);
    var modules: seq<Module>, blocks: seq<seq<nat>> := [[], [0]], [[0, 1]];
    var data := [Narrow(1.0)];
    hide Untied, NoRepeats;
    assert blocks[0][1] == 1 && 1 in blocks[0] && InBlock(blocks, 1);
    assert data[modules[1][0]].Narrow? && HasNarrow(modules[1], data);
    assert !InRunning(blocks, 1, {} + {1});
  }
}
