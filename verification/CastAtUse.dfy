/** scripts/gold-logits.py, `upcast_at_use`: narrow tensors widened around the forward of the unit that
    uses them. */
module CastAtUse {
  import opened Wrappers

  // ----- tensors, units and the hooks' state

  /** A tensor in a stored type narrower than float32, one in float32, or one of no such type. */
  datatype Tensor = Narrow(value: real) | Wide(value: real) | Other

  /** A place that holds a tensor: a parameter, which several modules may share, or a buffer of one. */
  type Slot = nat

  datatype Held = Held(slot: Slot, tensor: Tensor)

  /** The tensors in their slots, and what each open unit has put aside. A unit goes by the number of
      the module its hooks are registered on. */
  datatype State = State(data: seq<Tensor>, saved: map<nat, seq<Held>>)

  predicate Within(slots: seq<Slot>, n: nat) { forall i :: 0 <= i < |slots| ==> slots[i] < n }

  predicate HeldWithin(held: seq<Held>, n: nat) { forall i :: 0 <= i < |held| ==> held[i].slot < n }

  predicate AllWithin(units: seq<seq<Slot>>, n: nat) { forall u :: 0 <= u < |units| ==> Within(units[u], n) }

  /** `.float()`. */
  function Float(t: Tensor): Tensor { if t.Narrow? then Wide(t.value) else t }

  /** The tensors with those of some slots widened. */
  function Widened(data: seq<Tensor>, slots: seq<Slot>): (r: seq<Tensor>)
    ensures |r| == |data|
    ensures forall s :: 0 <= s < |r| ==> r[s] == if s in slots then Float(data[s]) else data[s]
  {
    seq(|data|, s requires 0 <= s < |data| => if s in slots then Float(data[s]) else data[s])
  }

  /** The narrow tensors among some slots, each once, in order. */
  function HeldOf(data: seq<Tensor>, slots: seq<Slot>): (r: seq<Held>)
    requires Within(slots, |data|)
    ensures HeldWithin(r, |data|)
  {
    if slots == [] then []
    else
      var init, s := slots[..|slots| - 1], slots[|slots| - 1];
      HeldOf(data, init) + if data[s].Narrow? && s !in init then [Held(s, data[s])] else []
  }

  /** Every tensor put aside put back, in order. */
  function Restored(data: seq<Tensor>, held: seq<Held>): (r: seq<Tensor>)
    requires HeldWithin(held, |data|)
    ensures |r| == |data|
  {
    if held == [] then data
    else
      var h := held[|held| - 1];
      Restored(data, held[..|held| - 1])[h.slot := h.tensor]
  }

  /** `saved.pop(id, [])`, without the removal. */
  function Aside(saved: map<nat, seq<Held>>, u: nat): seq<Held> { if u in saved then saved[u] else [] }

  predicate Sound(st: State) { forall u :: u in st.saved ==> HeldWithin(st.saved[u], |st.data|) }

  /** The hook before a unit's forward. */
  function Pre(units: seq<seq<Slot>>, u: nat, st: State): (r: State)
    requires u < |units| && AllWithin(units, |st.data|)
    ensures |r.data| == |st.data| && (Sound(st) ==> Sound(r))
  {
    State(Widened(st.data, units[u]), st.saved[u := HeldOf(st.data, units[u])])
  }

  /** The hook after it. */
  function Post(u: nat, st: State): (r: State)
    requires Sound(st)
    ensures |r.data| == |st.data| && Sound(r)
  {
    State(Restored(st.data, Aside(st.saved, u)), st.saved - {u})
  }

  // ----- runs

  /** The forward of a unit, and the forwards of units it runs inside. */
  datatype Call = Call(unit: nat, inner: seq<Call>)

  predicate Known(calls: seq<Call>, n: nat)
  {
    calls == [] || (calls[0].unit < n && Known(calls[0].inner, n) && Known(calls[1..], n))
  }

  /** The hooks of a well-nested run, in order. */
  function Run(units: seq<seq<Slot>>, calls: seq<Call>, st: State): (r: State)
    requires Known(calls, |units|) && AllWithin(units, |st.data|) && Sound(st)
    ensures |r.data| == |st.data| && Sound(r)
  {
    if calls == [] then st
    else
      var u := calls[0].unit;
      Run(units, calls[1..], Post(u, Run(units, calls[0].inner, Pre(units, u, st))))
  }

  /** No unit runs inside itself. */
  predicate NonReentrant(calls: seq<Call>, open: set<nat>)
  {
    calls == [] ||
    (calls[0].unit !in open && NonReentrant(calls[0].inner, open + {calls[0].unit}) && NonReentrant(calls[1..], open))
  }

  /** Some unit runs inside itself while it has tensors put aside. */
  predicate Harmful(units: seq<seq<Slot>>, calls: seq<Call>, st: State)
    requires Known(calls, |units|) && AllWithin(units, |st.data|) && Sound(st)
  {
    if calls == [] then false
    else
      var u := calls[0].unit;
      var within := Pre(units, u, st);
      || Aside(st.saved, u) != []
      || Harmful(units, calls[0].inner, within)
      || Harmful(units, calls[1..], Post(u, Run(units, calls[0].inner, within)))
  }

  /** At every moment of a run, every slot an open unit covers holds the stored tensor widened. */
  predicate WideThroughout(units: seq<seq<Slot>>, calls: seq<Call>, st: State, open: set<nat>, stored: seq<Tensor>)
    requires Known(calls, |units|) && AllWithin(units, |st.data|) && Sound(st) && |stored| == |st.data|
    requires forall u :: u in open ==> u < |units|
  {
    && (forall u, i :: u in open && 0 <= i < |units[u]| ==> st.data[units[u][i]] == Float(stored[units[u][i]]))
    && (calls == [] ||
        var u := calls[0].unit;
        var within := Pre(units, u, st);
        && WideThroughout(units, calls[0].inner, within, open + {u}, stored)
        && WideThroughout(units, calls[1..], Post(u, Run(units, calls[0].inner, within)), open, stored))
  }

  // ----- which hooks fire

  /** The forward of any module, hooked or not, and the forwards of modules it runs inside. */
  datatype Pass = Pass(mod: nat, inner: seq<Pass>)

  function Times(regs: seq<nat>, m: nat): nat
  {
    if regs == [] then 0 else Times(regs[..|regs| - 1], m) + if regs[|regs| - 1] == m then 1 else 0
  }

  /** `k` pairs of hooks on one module: all of the hooks before its forward, then the forward, then
      all of those behind it, every pair sharing the module's entry in `saved`. */
  function Wrap(k: nat, m: nat, calls: seq<Call>): seq<Call>
  {
    if k == 0 then calls else [Call(m, Wrap(k - 1, m, calls))]
  }

  /** The hooks that fire in a run of forwards, with pairs of hooks registered on `regs` in order. */
  function Fired(regs: seq<nat>, passes: seq<Pass>): seq<Call>
  {
    if passes == [] then []
    else Wrap(Times(regs, passes[0].mod), passes[0].mod, Fired(regs, passes[0].inner)) + Fired(regs, passes[1..])
  }

  /** No hooked module's forward runs inside itself. */
  predicate PassesApart(regs: seq<nat>, passes: seq<Pass>, open: set<nat>)
  {
    passes == [] ||
    var m := passes[0].mod;
    && (m in regs ==> m !in open)
    && PassesApart(regs, passes[0].inner, if m in regs then open + {m} else open)
    && PassesApart(regs, passes[1..], open)
  }

  predicate PassesKnown(passes: seq<Pass>, n: nat)
  {
    passes == [] || (passes[0].mod < n && PassesKnown(passes[0].inner, n) && PassesKnown(passes[1..], n))
  }

  predicate NoRepeats(regs: seq<nat>) { forall i, j :: 0 <= i < j < |regs| ==> regs[i] != regs[j] }

  // ----- the hooks

  /** A module's own slots: its parameters, then its buffers. */
  type Module = seq<Slot>

  function Slots(modules: seq<Module>): seq<Slot>
  {
    if modules == [] then [] else Slots(modules[..|modules| - 1]) + modules[|modules| - 1]
  }

  function UnitSlots(units: seq<seq<Module>>): (r: seq<seq<Slot>>)
    ensures |r| == |units| && forall u :: 0 <= u < |r| ==> r[u] == Slots(units[u])
  {
    seq(|units|, u requires 0 <= u < |units| => Slots(units[u]))
  }

  /** The hooks of a model: the modules cast by the hooks on each module, the model's tensors, and what
      is put aside, by module. */
  class Hooks {
    const units: seq<seq<Module>>
    const data: array<Tensor>
    var saved: map<nat, seq<Held>>

    ghost predicate Valid()
      reads this, data
    {
      AllWithin(UnitSlots(units), data.Length) && Sound(Now())
    }

    ghost function Now(): State
      reads this, data
    {
      State(data[..], saved)
    }

    constructor (units: seq<seq<Module>>, data: array<Tensor>)
      requires AllWithin(UnitSlots(units), data.Length)
      ensures this.units == units && this.data == data && saved == map[] && Valid()
    {
      this.units, this.data, saved := units, data, map[];
    }

    /** `cast(unit, ...)`. */
    method Cast(unit: seq<Module>) returns (held: seq<Held>)
      requires Within(Slots(unit), data.Length)
      modifies data
      ensures data[..] == Widened(old(data[..]), Slots(unit)) && held == HeldOf(old(data[..]), Slots(unit))
    {
      hide HeldOf, Widened;
      ghost var before := data[..];
      held := [];
      CastNone(before);
      for i := 0 to |unit|
        invariant Within(Slots(unit[..i]), |before|)
        invariant data[..] == Widened(before, Slots(unit[..i])) && held == HeldOf(before, Slots(unit[..i]))
      {
        SlotsNext(unit, i);
        ghost var done := Slots(unit[..i]);
        assert done + unit[i][..0] == done;
        for j := 0 to |unit[i]|
          invariant Within(done + unit[i][..j], |before|)
          invariant data[..] == Widened(before, done + unit[i][..j]) && held == HeldOf(before, done + unit[i][..j])
        {
          var s := unit[i][j];
          ghost var slots := done + unit[i][..j];
          assert done + unit[i][..j + 1] == slots + [s];
          assert s in unit[i] && s in Slots(unit[..i + 1]);
          assert s in Slots(unit) && s < |before|;
          CastNext(before, slots, s);
          assert data[s] == data[..][s];
          if data[s].Narrow? {
            held := held + [Held(s, data[s])];
            data[s] := Float(data[s]);
          }
        }
        assert done + unit[i][..|unit[i]|] == Slots(unit[..i + 1]);
      }
      assert unit[..|unit|] == unit;
    }

    /** The hook registered before unit `u`. */
    method PreHook(u: nat)
      requires Valid() && u < |units|
      modifies this`saved, data
      ensures Valid() && Now() == Pre(UnitSlots(units), u, old(Now()))
    {
      assert Within(UnitSlots(units)[u], data.Length);
      var held := Cast(units[u]);
      saved := saved[u := held];
    }

    /** The hook registered after it. */
    method PostHook(u: nat)
      requires Valid()
      modifies this`saved, data
      ensures Valid() && Now() == Post(u, old(Now()))
    {
      ghost var before := Now();
      var held := if u in saved then saved[u] else [];
      saved := saved - {u};
      ghost var start := data[..];
      for i := 0 to |held|
        invariant saved == before.saved - {u} && HeldWithin(held[..i], |start|)
        invariant data[..] == Restored(start, held[..i])
      {
        var h := held[i];
        assert held[..i + 1][..i] == held[..i];
        data[h.slot] := h.tensor;
      }
      assert held[..|held|] == held;
    }

    /** The forwards of a well-nested run, each between its two hooks. */
    method Forward(calls: seq<Call>)
      requires Valid() && Known(calls, |units|)
      modifies this`saved, data
      ensures Valid() && Now() == Run(UnitSlots(units), calls, old(Now()))
    {
      if calls != [] {
        PreHook(calls[0].unit);
        Forward(calls[0].inner);
        PostHook(calls[0].unit);
        Forward(calls[1..]);
      }
    }
  }

  lemma SlotsNext(modules: seq<Module>, i: nat)
    requires i < |modules|
    ensures Slots(modules[..i + 1]) == Slots(modules[..i]) + modules[i]
    ensures forall s :: s in Slots(modules[..i + 1]) ==> s in Slots(modules)
    decreases |modules| - i
  {
    assert modules[..i + 1][..i] == modules[..i];
    if i + 1 == |modules| {
      assert modules[..i + 1] == modules;
    } else {
      SlotsNext(modules, i + 1);
    }
  }

  /** One more slot cast, in a module or in the next. */
  lemma CastNext(data: seq<Tensor>, slots: seq<Slot>, s: Slot)
    requires Within(slots + [s], |data|)
    ensures Within(slots, |data|) && s < |data|
    ensures var now := Widened(data, slots)[s];
            && Widened(data, slots + [s]) == Widened(data, slots)[s := Float(now)]
            && (!now.Narrow? ==> Float(now) == now)
            && HeldOf(data, slots + [s]) == HeldOf(data, slots) + if now.Narrow? then [Held(s, now)] else []
  {
    var all := slots + [s];
    assert all[..|slots|] == slots && all[|slots|] == s;
    assert forall i :: 0 <= i < |slots| ==> slots[i] == all[i];
  }

  lemma CastNone(data: seq<Tensor>)
    ensures Widened(data, Slots([])) == data && HeldOf(data, Slots([])) == []
  {
  }

  // ----- registration

  /** `has_narrow` of a module's own tensors. */
  predicate HasNarrow(m: Module, data: seq<Tensor>)
    requires Within(m, |data|)
  {
    exists i :: 0 <= i < |m| && data[m[i]].Narrow?
  }

  predicate InBlock(blocks: seq<seq<nat>>, m: nat) { exists b :: 0 <= b < |blocks| && m in blocks[b] }

  /** The modules outside the blocks, below `n`, that hold a narrow tensor, each a unit of its own. */
  function Singles(modules: seq<Module>, blocks: seq<seq<nat>>, data: seq<Tensor>, n: nat): seq<seq<nat>>
    requires n <= |modules| && AllWithin(modules, |data|)
  {
    if n == 0 then []
    else
      Singles(modules, blocks, data, n - 1)
      + if !InBlock(blocks, n - 1) && HasNarrow(modules[n - 1], data) then [[n - 1]] else []
  }

  /** The units hooked, as lists of modules; refused when the blocks found are not as many as the
      config declares. */
  method Register(modules: seq<Module>, blocks: seq<seq<nat>>, declared: Option<nat>, data: seq<Tensor>)
      returns (units: Option<seq<seq<nat>>>)
    requires AllWithin(modules, |data|)
    ensures units == if declared == Some(|blocks|) then Some(blocks + Singles(modules, blocks, data, |modules|))
        else None
  {
    if declared.None? || |blocks| != declared.value { return None; }
    var covered: set<nat> := {};
    var found: seq<seq<nat>> := [];
    for b := 0 to |blocks|
      invariant found == blocks[..b]
      invariant forall m :: m in covered <==> InBlock(blocks[..b], m)
    {
      BlockNext(blocks, b);
      covered := covered + set m | m in blocks[b];
      found := found + [blocks[b]];
    }
    assert blocks[..|blocks|] == blocks;
    for m := 0 to |modules|
      invariant found == blocks + Singles(modules, blocks, data, m)
    {
      if m !in covered && HasNarrow(modules[m], data) {
        found := found + [[m]];
      }
    }
    units := Some(found);
  }

  lemma BlockNext(blocks: seq<seq<nat>>, b: nat)
    requires b < |blocks|
    ensures forall m :: InBlock(blocks[..b + 1], m) <==> InBlock(blocks[..b], m) || m in blocks[b]
  {
    forall m ensures InBlock(blocks[..b + 1], m) <==> InBlock(blocks[..b], m) || m in blocks[b] {
      if k :| 0 <= k < b && m in blocks[k] { assert blocks[..b + 1][k] == blocks[k] && blocks[..b][k] == blocks[k]; }
      if m in blocks[b] { assert blocks[..b + 1][b] == blocks[b]; }
    }
  }

  lemma {:induction false} SingleIsThere(modules: seq<Module>, blocks: seq<seq<nat>>, data: seq<Tensor>, n: nat, m: nat)
    requires m < n <= |modules| && AllWithin(modules, |data|)
    requires !InBlock(blocks, m) && HasNarrow(modules[m], data)
    ensures [m] in Singles(modules, blocks, data, n)
  {
    hide InBlock, HasNarrow;
    if m < n - 1 { SingleIsThere(modules, blocks, data, n - 1, m); }
  }

  /** Outside the blocks exactly the modules with a narrow tensor of their own are hooked, each for
      itself. */
  lemma {:induction false} SinglesExactly(modules: seq<Module>, blocks: seq<seq<nat>>, data: seq<Tensor>, n: nat,
      unit: seq<nat>)
    requires n <= |modules| && AllWithin(modules, |data|)
    ensures unit in Singles(modules, blocks, data, n)
       <==> && |unit| == 1 && unit[0] < n && !(exists b :: 0 <= b < |blocks| && unit[0] in blocks[b])
            && exists i :: 0 <= i < |modules[unit[0]]| && data[modules[unit[0]][i]].Narrow?
  {
    if n > 0 {
      SinglesExactly(modules, blocks, data, n - 1, unit);
      hide InBlock, HasNarrow, AllWithin;
      var m := n - 1;
      assert unit in Singles(modules, blocks, data, n)
        <==> unit in Singles(modules, blocks, data, m)
             || (unit == [m] && !InBlock(blocks, m) && HasNarrow(modules[m], data));
    }
  }

  /** No narrow tensor of the model is left outside every unit. */
  lemma NarrowIsCovered(modules: seq<Module>, blocks: seq<seq<nat>>, data: seq<Tensor>, m: nat, i: nat)
    requires AllWithin(modules, |data|) && m < |modules| && i < |modules[m]| && data[modules[m][i]].Narrow?
    ensures exists unit :: unit in blocks + Singles(modules, blocks, data, |modules|) && m in unit
  {
    var units := blocks + Singles(modules, blocks, data, |modules|);
    if InBlock(blocks, m) {
      var b :| 0 <= b < |blocks| && m in blocks[b];
      assert units[b] == blocks[b];
      assert blocks[b] in units;
    } else {
      SingleIsThere(modules, blocks, data, |modules|, m);
      assert [m] in units && m in [m];
    }
  }

  /** The modules the registered units hook: a unit's first module, whose `modules()` the others are. */
  function Roots(units: seq<seq<nat>>): (r: seq<nat>)
    requires forall u :: 0 <= u < |units| ==> units[u] != []
    ensures |r| == |units| && forall u :: 0 <= u < |r| ==> r[u] == units[u][0]
  {
    seq(|units|, u requires 0 <= u < |units| => units[u][0])
  }

  /** A unit of one module, which no block holds. */
  predicate IsSingle(unit: seq<nat>, blocks: seq<seq<nat>>, n: nat)
  {
    |unit| == 1 && unit[0] < n && !InBlock(blocks, unit[0])
  }

  predicate Climbs(units: seq<seq<nat>>)
    requires forall u :: 0 <= u < |units| ==> units[u] != []
  {
    forall i, j :: 0 <= i < j < |units| ==> units[i][0] < units[j][0]
  }

  lemma {:induction false} SinglesAre(modules: seq<Module>, blocks: seq<seq<nat>>, data: seq<Tensor>, n: nat)
    requires n <= |modules| && AllWithin(modules, |data|)
    ensures var s := Singles(modules, blocks, data, n);
            (forall i :: 0 <= i < |s| ==> IsSingle(s[i], blocks, n)) && Climbs(s)
  {
    hide InBlock, HasNarrow;
    if n > 0 {
      SinglesAre(modules, blocks, data, n - 1);
      var front := Singles(modules, blocks, data, n - 1);
      forall i | 0 <= i < |front| ensures IsSingle(front[i], blocks, n) && front[i][0] < n - 1 {
        assert IsSingle(front[i], blocks, n - 1);
      }
      if !InBlock(blocks, n - 1) { assert IsSingle([n - 1], blocks, n); }
    }
  }

  /** No module is hooked twice exactly when the stack lists no block twice. */
  lemma HookedOnceEach(modules: seq<Module>, blocks: seq<seq<nat>>, data: seq<Tensor>)
    requires AllWithin(modules, |data|) && forall b :: 0 <= b < |blocks| ==> blocks[b] != []
    ensures var units := blocks + Singles(modules, blocks, data, |modules|);
            && (forall u :: 0 <= u < |units| ==> units[u] != [])
            && (NoRepeats(Roots(units)) <==> NoRepeats(Roots(blocks)))
  {
    var singles := Singles(modules, blocks, data, |modules|);
    SinglesAre(modules, blocks, data, |modules|);
    var units := blocks + singles;
    forall u | 0 <= u < |units| ensures units[u] != [] {
      if u < |blocks| { assert units[u] == blocks[u]; }
          else { assert IsSingle(singles[u - |blocks|], blocks, |modules|); }
    }
    hide Singles, HasNarrow;
    if NoRepeats(Roots(units)) {
      forall i, j | 0 <= i < j < |blocks| ensures blocks[i][0] != blocks[j][0] {
        assert Roots(units)[i] != Roots(units)[j];
      }
    }
    if NoRepeats(Roots(blocks)) {
      forall i, j | 0 <= i < j < |units| ensures units[i][0] != units[j][0] {
        if j < |blocks| {
          assert Roots(blocks)[i] != Roots(blocks)[j];
        } else if i < |blocks| {
          assert units[i][0] in blocks[i] && InBlock(blocks, units[i][0]);
          assert IsSingle(singles[j - |blocks|], blocks, |modules|);
        } else {
          assert singles[i - |blocks|][0] < singles[j - |blocks|][0];
        }
      }
    }
  }

  // ----- one unit

  lemma {:induction false} HeldAre(data: seq<Tensor>, slots: seq<Slot>, h: Held)
    requires Within(slots, |data|)
    ensures h in HeldOf(data, slots) <==> h.slot in slots && data[h.slot].Narrow? && h.tensor == data[h.slot]
  {
    if slots != [] {
      HeldAre(data, slots[..|slots| - 1], h);
      assert slots == slots[..|slots| - 1] + [slots[|slots| - 1]];
    }
  }

  /** Putting back distinct true values. */
  lemma {:induction false} RestoredAre(data: seq<Tensor>, held: seq<Held>, s: Slot)
    requires HeldWithin(held, |data|) && s < |data|
    ensures (forall i :: 0 <= i < |held| ==> held[i].slot != s) ==> Restored(data, held)[s] == data[s]
    ensures forall t :: Held(s, t) in held && (forall h :: h in held && h.slot == s ==> h.tensor == t)
                        ==> Restored(data, held)[s] == t
  {
    if held != [] {
      var init, h := held[..|held| - 1], held[|held| - 1];
      RestoredAre(data, init, s);
      assert held == init + [h];
    }
  }

  /** What a hook put aside is what widening changed. */
  lemma RestoreUndoes(data: seq<Tensor>, slots: seq<Slot>)
    requires Within(slots, |data|)
    ensures Restored(Widened(data, slots), HeldOf(data, slots)) == data
  {
    var held, wide := HeldOf(data, slots), Widened(data, slots);
    forall s | 0 <= s < |data| ensures Restored(wide, held)[s] == data[s] {
      RestoredAre(wide, held, s);
      HeldAre(data, slots, Held(s, data[s]));
      forall i | 0 <= i < |held|
          ensures held[i].slot == s ==> held[i].tensor == data[s] && s in slots && data[s].Narrow? {
        HeldAre(data, slots, held[i]);
      }
    }
  }
}
