/** Whole runs of hooked units: tensors are wide while they are used and restored when nobody is open. */
module CastAtUseProofs {
  import opened CastAtUse

  /** Two states no hook can tell apart. */
  ghost predicate Same(a: State, b: State)
  {
    a.data == b.data && forall u :: Aside(a.saved, u) == Aside(b.saved, u)
  }

  predicate NotAside(s: Slot, u: nat, st: State)
  {
    forall h :: h in Aside(st.saved, u) ==> h.slot != s
  }

  // ----- restoring

  /** A unit's two hooks around anything that leaves the state between them alone. */
  lemma HooksCancel(units: seq<seq<Slot>>, u: nat, st: State, after: State)
    requires u < |units| && AllWithin(units, |st.data|) && Sound(st) && Aside(st.saved, u) == []
    requires Same(after, Pre(units, u, st)) && Sound(after)
    ensures Same(Post(u, after), st)
  {
    RestoreUndoes(st.data, units[u]);
    assert Aside(after.saved, u) == Aside(Pre(units, u, st).saved, u);
    forall v ensures Aside(Post(u, after).saved, v) == Aside(st.saved, v) {
      assert Aside(after.saved, v) == Aside(Pre(units, u, st).saved, v);
    }
  }

  lemma {:induction false} HarmlessRestores(units: seq<seq<Slot>>, calls: seq<Call>, st: State)
    requires Known(calls, |units|) && AllWithin(units, |st.data|) && Sound(st)
    requires !Harmful(units, calls, st)
    ensures Same(Run(units, calls, st), st)
  {
    hide Same, Pre, Post, Sound;
    if calls == [] {
      SameSelf(st);
    } else {
      var u := calls[0].unit;
      var within := Pre(units, u, st);
      var after := Run(units, calls[0].inner, within);
      HarmlessRestores(units, calls[0].inner, within);
      HooksCancel(units, u, st, after);
      HarmlessRestores(units, calls[1..], Post(u, after));
      SameTrans(Run(units, calls, st), Post(u, after), st);
    }
  }

  lemma SameSelf(st: State)
    ensures Same(st, st)
  {
  }

  lemma SameTrans(a: State, b: State, c: State)
    requires Same(a, b) && Same(b, c)
    ensures Same(a, c)
  {
    forall u ensures Aside(a.saved, u) == Aside(c.saved, u) {
      assert Aside(a.saved, u) == Aside(b.saved, u) == Aside(c.saved, u);
    }
  }

  // ----- losing

  /** Nobody holds the stored tensor of this slot any more. */
  ghost predicate Lost(s: Slot, st: State)
    requires s < |st.data|
  {
    !st.data[s].Narrow? && forall u :: NotAside(s, u, st)
  }

  /** What is put aside belongs to one unit, and its slot is wide meanwhile. */
  ghost predicate Ledger(st: State)
    requires Sound(st)
  {
    && (forall u, h :: h in Aside(st.saved, u) ==> h.slot < |st.data| && !st.data[h.slot].Narrow?)
    && forall u, v, h, g :: h in Aside(st.saved, u) && g in Aside(st.saved, v) && h.slot == g.slot ==> u == v
  }

  lemma PreAside(units: seq<seq<Slot>>, u: nat, st: State, v: nat)
    requires u < |units| && AllWithin(units, |st.data|)
    ensures Aside(Pre(units, u, st).saved, v) == if v == u then HeldOf(st.data, units[u]) else Aside(st.saved, v)
  {
  }

  lemma PostAside(u: nat, st: State, v: nat)
    requires Sound(st)
    ensures Aside(Post(u, st).saved, v) == if v == u then [] else Aside(st.saved, v)
  {
  }

  /** A hook before a forward, seen from one slot. */
  lemma PreSlot(units: seq<seq<Slot>>, u: nat, st: State, s: Slot)
    requires u < |units| && AllWithin(units, |st.data|) && s < |st.data|
    ensures !st.data[s].Narrow? ==> Pre(units, u, st).data[s] == st.data[s] && NotAside(s, u, Pre(units, u, st))
    ensures forall v :: v != u ==> (NotAside(s, v, Pre(units, u, st)) <==> NotAside(s, v, st))
  {
    PreAside(units, u, st, u);
    forall v ensures v != u ==>
        (NotAside(s, v, Pre(units, u, st)) <==> NotAside(s, v, st)) { PreAside(units, u, st, v); }
    forall h | h in HeldOf(st.data, units[u])
        ensures st.data[s].Narrow? || h.slot != s { HeldAre(st.data, units[u], h); }
  }

  /** A hook after it, seen from one slot. */
  lemma PostSlot(u: nat, st: State, s: Slot)
    requires Sound(st) && s < |st.data|
    ensures NotAside(s, u, st) ==> Post(u, st).data[s] == st.data[s]
    ensures forall v :: NotAside(s, v, st) ==> NotAside(s, v, Post(u, st))
  {
    RestoredAre(st.data, Aside(st.saved, u), s);
    forall v ensures NotAside(s, v, st) ==> NotAside(s, v, Post(u, st)) { PostAside(u, st, v); }
  }

  lemma LostBefore(units: seq<seq<Slot>>, u: nat, st: State, s: Slot)
    requires u < |units| && AllWithin(units, |st.data|) && s < |st.data|
    ensures Lost(s, st) ==> Lost(s, Pre(units, u, st))
    ensures Lost(s, Pre(units, u, st)) && NotAside(s, u, st) && !st.data[s].Narrow? ==> Lost(s, st)
  {
    hide Pre, NotAside;
    PreSlot(units, u, st, s);
  }

  lemma LostAfter(u: nat, st: State, s: Slot)
    requires Sound(st) && s < |st.data|
    ensures Lost(s, st) ==> Lost(s, Post(u, st))
  {
    hide Post, NotAside;
    PostSlot(u, st, s);
  }

  lemma {:induction false} LostStays(units: seq<seq<Slot>>, calls: seq<Call>, st: State, s: Slot)
    requires Known(calls, |units|) && AllWithin(units, |st.data|) && Sound(st) && s < |st.data|
    requires Lost(s, st)
    ensures Lost(s, Run(units, calls, st))
  {
    hide Lost, Pre, Post, Sound;
    if calls != [] {
      var u := calls[0].unit;
      var within := Pre(units, u, st);
      LostBefore(units, u, st, s);
      LostStays(units, calls[0].inner, within, s);
      var after := Run(units, calls[0].inner, within);
      LostAfter(u, after, s);
      LostStays(units, calls[1..], Post(u, after), s);
    }
  }

  lemma LedgerBefore(units: seq<seq<Slot>>, u: nat, st: State)
    requires u < |units| && AllWithin(units, |st.data|) && Sound(st) && Ledger(st)
    ensures Ledger(Pre(units, u, st))
  {
    var r := Pre(units, u, st);
    forall v, h | h in Aside(r.saved, v) ensures h.slot < |r.data| && !r.data[h.slot].Narrow? {
      PreAside(units, u, st, v);
      if v == u { HeldAre(st.data, units[u], h); }
    }
    forall v, w, h, g | h in Aside(r.saved, v) && g in Aside(r.saved, w) && h.slot == g.slot ensures v == w {
      PreAside(units, u, st, v);
      PreAside(units, u, st, w);
      if v == u { HeldAre(st.data, units[u], h); }
      if w == u { HeldAre(st.data, units[u], g); }
    }
  }

  lemma LedgerAfter(u: nat, st: State)
    requires Sound(st) && Ledger(st)
    ensures Ledger(Post(u, st))
  {
    var r := Post(u, st);
    forall v, h | h in Aside(r.saved, v) ensures h.slot < |r.data| && !r.data[h.slot].Narrow? {
      PostAside(u, st, v);
      assert NotAside(h.slot, u, st);
      PostSlot(u, st, h.slot);
    }
    forall v, w, h, g | h in Aside(r.saved, v) && g in Aside(r.saved, w) && h.slot == g.slot ensures v == w {
      PostAside(u, st, v);
      PostAside(u, st, w);
    }
  }

  lemma {:induction false} LedgerStays(units: seq<seq<Slot>>, calls: seq<Call>, st: State)
    requires Known(calls, |units|) && AllWithin(units, |st.data|) && Sound(st) && Ledger(st)
    ensures Ledger(Run(units, calls, st))
  {
    hide Ledger, Pre, Post, Sound;
    if calls != [] {
      var u := calls[0].unit;
      LedgerBefore(units, u, st);
      LedgerStays(units, calls[0].inner, Pre(units, u, st));
      var after := Run(units, calls[0].inner, Pre(units, u, st));
      LedgerAfter(u, after);
      LedgerStays(units, calls[1..], Post(u, after));
    }
  }

  /** A unit opened again while it holds something forgets it. */
  lemma ReopenLoses(units: seq<seq<Slot>>, u: nat, st: State) returns (s: Slot)
    requires u < |units| && AllWithin(units, |st.data|) && Sound(st) && Ledger(st) && Aside(st.saved, u) != []
    ensures s < |st.data| && !Lost(s, st) && Lost(s, Pre(units, u, st))
  {
    var h := Aside(st.saved, u)[0];
    s := h.slot;
    assert h in Aside(st.saved, u);
    assert !NotAside(s, u, st);
    PreSlot(units, u, st, s);
    forall v | v != u ensures NotAside(s, v, st) {
    }
    hide NotAside, Pre;
  }

  lemma {:induction false} HarmfulLoses(units: seq<seq<Slot>>, calls: seq<Call>, st: State) returns (s: Slot)
    requires Known(calls, |units|) && AllWithin(units, |st.data|) && Sound(st) && Ledger(st)
    requires Harmful(units, calls, st)
    ensures s < |st.data| && !Lost(s, st) && Lost(s, Run(units, calls, st))
  {
    hide Lost, Ledger, Pre, Post, Sound;
    var u := calls[0].unit;
    var within := Pre(units, u, st);
    LedgerBefore(units, u, st);
    var after := Run(units, calls[0].inner, within);
    LedgerStays(units, calls[0].inner, within);
    LedgerAfter(u, after);
    var next := Post(u, after);
    if Aside(st.saved, u) != [] {
      s := ReopenLoses(units, u, st);
      LostStays(units, calls[0].inner, within, s);
      LostAfter(u, after, s);
      LostStays(units, calls[1..], next, s);
    } else if Harmful(units, calls[0].inner, within) {
      s := HarmfulLoses(units, calls[0].inner, within);
      LostBefore(units, u, st, s);
      LostAfter(u, after, s);
      LostStays(units, calls[1..], next, s);
    } else {
      s := HarmfulLoses(units, calls[1..], next);
      if Lost(s, st) {
        LostBefore(units, u, st, s);
        LostStays(units, calls[0].inner, within, s);
        LostAfter(u, after, s);
      }
    }
  }

  /** A well-nested run that starts with nothing open leaves every tensor as it was stored, tied ones
      included, exactly when no unit runs inside itself while it has tensors put aside. */
  lemma RestoredExactlyWhenHarmless(units: seq<seq<Slot>>, calls: seq<Call>, data: seq<Tensor>)
    requires Known(calls, |units|) && AllWithin(units, |data|)
    ensures Run(units, calls, State(data, map[])).data == data <==> !Harmful(units, calls, State(data, map[]))
  {
    var st := State(data, map[]);
    if Harmful(units, calls, st) {
      var s := HarmfulLoses(units, calls, st);
      assert forall u :: NotAside(s, u, st);
    } else {
      HarmlessRestores(units, calls, st);
    }
  }

  // ----- runs without re-entry

  lemma {:induction false} NonReentrantIsHarmless(units: seq<seq<Slot>>, calls: seq<Call>, st: State, open: set<nat>)
    requires Known(calls, |units|) && AllWithin(units, |st.data|) && Sound(st)
    requires NonReentrant(calls, open) && forall u :: Aside(st.saved, u) != [] ==> u in open
    ensures !Harmful(units, calls, st)
  {
    hide Same, Sound;
    if calls != [] {
      var u := calls[0].unit;
      var within := Pre(units, u, st);
      NonReentrantIsHarmless(units, calls[0].inner, within, open + {u});
      HarmlessRestores(units, calls[0].inner, within);
      var after := Run(units, calls[0].inner, within);
      HooksCancel(units, u, st, after);
      var next := Post(u, after);
      hide Pre, Post;
      forall v | Aside(next.saved, v) != [] ensures v in open {
        SameAside(next, st, v);
      }
      NonReentrantIsHarmless(units, calls[1..], next, open);
    }
  }

  lemma SameAside(a: State, b: State, u: nat)
    requires Same(a, b)
    ensures Aside(a.saved, u) == Aside(b.saved, u)
  {
  }

  /** A unit that runs inside itself keeps its tensors wide for good, if it covers a narrow one. */
  lemma ReentryKeepsWide(units: seq<seq<Slot>>, u: nat, data: seq<Tensor>)
    requires u < |units| && AllWithin(units, |data|)
    ensures var calls := [Call(u, [Call(u, [])])];
            && Known(calls, |units|)
            && (Run(units, calls, State(data, map[])).data == data
                <==> forall i :: 0 <= i < |units[u]| ==> !data[units[u][i]].Narrow?)
  {
    var inner := [Call(u, [])];
    var calls := [Call(u, inner)];
    var st := State(data, map[]);
    assert inner[1..] == [] && calls[1..] == [] && Known([], |units|) && Known(inner, |units|);
    RestoredExactlyWhenHarmless(units, calls, data);
    var within := Pre(units, u, st);
    assert !Harmful(units, [], Pre(units, u, within));
    assert Harmful(units, inner, within) <==> HeldOf(data, units[u]) != [];
    assert Harmful(units, calls, st) <==> HeldOf(data, units[u]) != [];
    HeldNone(data, units[u]);
  }

  lemma HeldNone(data: seq<Tensor>, slots: seq<Slot>)
    requires Within(slots, |data|)
    ensures HeldOf(data, slots) == [] <==> forall i :: 0 <= i < |slots| ==> !data[slots[i]].Narrow?
  {
    if i :| 0 <= i < |slots| && data[slots[i]].Narrow? { HeldAre(data, slots, Held(slots[i], data[slots[i]])); }
    if HeldOf(data, slots) != [] {
      var h := HeldOf(data, slots)[0];
      HeldAre(data, slots, h);
      var i :| 0 <= i < |slots| && slots[i] == h.slot;
    }
  }

  // ----- wide while in use

  /** A wide slot stays wide over whole calls, whatever they are. */
  lemma {:induction false} StaysWide(units: seq<seq<Slot>>, calls: seq<Call>, st: State, s: Slot, u: nat)
    requires Known(calls, |units|) && AllWithin(units, |st.data|) && Sound(st) && s < |st.data|
    requires !st.data[s].Narrow?
    ensures !Run(units, calls, st).data[s].Narrow?
    ensures NotAside(s, u, st) ==> NotAside(s, u, Run(units, calls, st))
  {
    hide Pre, Post, Sound, NotAside;
    if calls != [] {
      var v := calls[0].unit;
      var within := Pre(units, v, st);
      PreSlot(units, v, st, s);
      StaysWide(units, calls[0].inner, within, s, v);
      StaysWide(units, calls[0].inner, within, s, u);
      var after := Run(units, calls[0].inner, within);
      PostSlot(v, after, s);
      StaysWide(units, calls[1..], Post(v, after), s, u);
    }
  }

  /** Every slot holds its stored tensor or the same one widened, and so does what is put aside. */
  ghost predicate Faithful(st: State, stored: seq<Tensor>)
    requires Sound(st)
  {
    && |stored| == |st.data|
    && (forall s :: 0 <= s < |stored| ==> Float(st.data[s]) == Float(stored[s]))
    && forall u, h :: h in Aside(st.saved, u) ==> h.slot < |stored| && Float(h.tensor) == Float(stored[h.slot])
  }

  lemma FaithfulBefore(units: seq<seq<Slot>>, u: nat, st: State, stored: seq<Tensor>)
    requires u < |units| && AllWithin(units, |st.data|) && Sound(st) && Faithful(st, stored)
    ensures Faithful(Pre(units, u, st), stored)
  {
    var r := Pre(units, u, st);
    forall v, h | h in Aside(r.saved, v) ensures h.slot < |stored| && Float(h.tensor) == Float(stored[h.slot]) {
      PreAside(units, u, st, v);
      if v == u { HeldAre(st.data, units[u], h); }
    }
  }

  lemma {:induction false} RestoredFaithful(data: seq<Tensor>, held: seq<Held>, stored: seq<Tensor>)
    requires HeldWithin(held, |data|) && |stored| == |data|
    requires forall s :: 0 <= s < |stored| ==> Float(data[s]) == Float(stored[s])
    requires forall h :: h in held ==> h.slot < |stored| && Float(h.tensor) == Float(stored[h.slot])
    ensures forall s :: 0 <= s < |stored| ==> Float(Restored(data, held)[s]) == Float(stored[s])
  {
    if held != [] {
      var init, h := held[..|held| - 1], held[|held| - 1];
      assert held == init + [h];
      RestoredFaithful(data, init, stored);
    }
  }

  lemma FaithfulAfter(u: nat, st: State, stored: seq<Tensor>)
    requires Sound(st) && Faithful(st, stored)
    ensures Faithful(Post(u, st), stored)
  {
    RestoredFaithful(st.data, Aside(st.saved, u), stored);
    forall v { PostAside(u, st, v); }
  }

  lemma {:induction false} StaysFaithful(units: seq<seq<Slot>>, calls: seq<Call>, st: State, stored: seq<Tensor>)
    requires Known(calls, |units|) && AllWithin(units, |st.data|) && Sound(st) && Faithful(st, stored)
    ensures Faithful(Run(units, calls, st), stored)
  {
    hide Faithful, Pre, Post, Sound;
    if calls != [] {
      var u := calls[0].unit;
      FaithfulBefore(units, u, st, stored);
      StaysFaithful(units, calls[0].inner, Pre(units, u, st), stored);
      var after := Run(units, calls[0].inner, Pre(units, u, st));
      FaithfulAfter(u, after, stored);
      StaysFaithful(units, calls[1..], Post(u, after), stored);
    }
  }

  /** The slots of the open units are wide. */
  ghost predicate OpenWide(units: seq<seq<Slot>>, st: State, open: set<nat>)
    requires AllWithin(units, |st.data|)
  {
    forall u, i :: u in open && u < |units| && 0 <= i < |units[u]| ==> !st.data[units[u][i]].Narrow?
  }

  /** What a unit covers is its stored tensors widened at every moment of its forward, over every
      well-nested run, reentrant or not. */
  lemma {:induction false} CoveredIsWide(units: seq<seq<Slot>>, calls: seq<Call>, st: State, open: set<nat>,
      stored: seq<Tensor>)
    requires Known(calls, |units|) && AllWithin(units, |st.data|) && Sound(st) && Faithful(st, stored)
    requires (forall u :: u in open ==> u < |units|) && OpenWide(units, st, open)
    ensures WideThroughout(units, calls, st, open, stored)
  {
    assert |stored| == |st.data|;
    forall u, i | u in open && 0 <= i < |units[u]| ensures st.data[units[u][i]] == Float(stored[units[u][i]]) {
      assert Within(units[u], |st.data|);
    }
    hide Post, Sound, Faithful;
    if calls != [] {
      var v := calls[0].unit;
      var within := Pre(units, v, st);
      FaithfulBefore(units, v, st, stored);
      OpensWide(units, v, st, open);
      hide Pre;
      CoveredIsWide(units, calls[0].inner, within, open + {v}, stored);
      StaysFaithful(units, calls[0].inner, within, stored);
      var after := Run(units, calls[0].inner, within);
      FaithfulAfter(v, after, stored);
      forall u, i | u in open && 0 <= i < |units[u]| ensures !Post(v, after).data[units[u][i]].Narrow? {
        assert Within(units[u], |st.data|);
        OneCall(units, calls[0], st, units[u][i]);
      }
      CoveredIsWide(units, calls[1..], Post(v, after), open, stored);
    }
  }

  lemma OpensWide(units: seq<seq<Slot>>, v: nat, st: State, open: set<nat>)
    requires AllWithin(units, |st.data|) && v < |units| && OpenWide(units, st, open)
    ensures OpenWide(units, Pre(units, v, st), open + {v})
  {
    forall u, i | u in open + {v} && u < |units| && 0 <= i < |units[u]|
      ensures !Pre(units, v, st).data[units[u][i]].Narrow?
    {
      assert Within(units[u], |st.data|);
      assert units[u][i] in units[u];
    }
  }

  lemma OneCall(units: seq<seq<Slot>>, call: Call, st: State, s: Slot)
    requires call.unit < |units| && Known(call.inner, |units|) && AllWithin(units, |st.data|) && Sound(st)
        && s < |st.data|
    requires !st.data[s].Narrow?
    ensures !Post(call.unit, Run(units, call.inner, Pre(units, call.unit, st))).data[s].Narrow?
  {
    hide Pre, Post, Sound, NotAside;
    PreSlot(units, call.unit, st, s);
    StaysWide(units, call.inner, Pre(units, call.unit, st), s, call.unit);
    PostSlot(call.unit, Run(units, call.inner, Pre(units, call.unit, st)), s);
  }

  /** Over every well-nested, non-reentrant run, what an open unit covers is its stored tensors widened,
      and all tensors are as stored when nothing is open. */
  lemma RunIsTransparent(units: seq<seq<Slot>>, calls: seq<Call>, data: seq<Tensor>)
    requires Known(calls, |units|) && AllWithin(units, |data|) && NonReentrant(calls, {})
    ensures WideThroughout(units, calls, State(data, map[]), {}, data)
    ensures Run(units, calls, State(data, map[])).data == data
  {
    CoveredIsWide(units, calls, State(data, map[]), {}, data);
    NonReentrantIsHarmless(units, calls, State(data, map[]), {});
    RestoredExactlyWhenHarmless(units, calls, data);
  }

  // ----- modules hooked once, and more than once

  lemma {:induction false} KnownConcat(x: seq<Call>, y: seq<Call>, n: nat)
    ensures Known(x + y, n) <==> Known(x, n) && Known(y, n)
  {
    if x == [] {
      assert x + y == y;
    } else {
      assert (x + y)[1..] == x[1..] + y;
      KnownConcat(x[1..], y, n);
    }
  }

  lemma {:induction false} ApartConcat(x: seq<Call>, y: seq<Call>, open: set<nat>)
    ensures NonReentrant(x + y, open) <==> NonReentrant(x, open) && NonReentrant(y, open)
  {
    if x == [] {
      assert x + y == y;
    } else {
      assert (x + y)[1..] == x[1..] + y;
      ApartConcat(x[1..], y, open);
    }
  }

  lemma {:induction false} WrapKnown(k: nat, m: nat, calls: seq<Call>, n: nat)
    requires m < n && Known(calls, n)
    ensures Known(Wrap(k, m, calls), n)
  {
    if k > 0 {
      WrapKnown(k - 1, m, calls, n);
      assert Wrap(k, m, calls)[1..] == [];
    }
  }

  lemma {:induction false} FiredIsKnown(regs: seq<nat>, passes: seq<Pass>, n: nat)
    requires PassesKnown(passes, n)
    ensures Known(Fired(regs, passes), n)
  {
    if passes != [] {
      var p := passes[0];
      FiredIsKnown(regs, p.inner, n);
      FiredIsKnown(regs, passes[1..], n);
      WrapKnown(Times(regs, p.mod), p.mod, Fired(regs, p.inner), n);
      KnownConcat(Wrap(Times(regs, p.mod), p.mod, Fired(regs, p.inner)), Fired(regs, passes[1..]), n);
    }
  }

  lemma {:induction false} TimesOnce(regs: seq<nat>, m: nat)
    requires NoRepeats(regs)
    ensures Times(regs, m) == if m in regs then 1 else 0
  {
    if regs != [] {
      var front, last := regs[..|regs| - 1], regs[|regs| - 1];
      TimesOnce(front, m);
      assert regs == front + [last];
    }
  }

  lemma WrapOnce(m: nat, calls: seq<Call>, open: set<nat>)
    ensures NonReentrant(Wrap(1, m, calls), open) <==> m !in open && NonReentrant(calls, open + {m})
  {
    assert Wrap(0, m, calls) == calls;
    assert Wrap(1, m, calls)[1..] == [];
  }

  lemma {:induction false} FiredIsNonReentrant(regs: seq<nat>, passes: seq<Pass>, open: set<nat>)
    requires NoRepeats(regs)
    ensures NonReentrant(Fired(regs, passes), open) <==> PassesApart(regs, passes, open)
  {
    if passes != [] {
      hide NoRepeats;
      var p, rest := passes[0], Fired(regs, passes[1..]);
      var inner := Fired(regs, p.inner);
      TimesOnce(regs, p.mod);
      FiredIsNonReentrant(regs, p.inner, if p.mod in regs then open + {p.mod} else open);
      FiredIsNonReentrant(regs, passes[1..], open);
      WrapOnce(p.mod, inner, open);
      ApartConcat(Wrap(Times(regs, p.mod), p.mod, inner), rest, open);
    }
  }

  lemma {:induction false} WrapHarmless(units: seq<seq<Slot>>, k: nat, m: nat, st: State)
    requires m < |units| && AllWithin(units, |st.data|) && Sound(st) && Known(Wrap(k, m, []), |units|)
    requires Aside(st.saved, m) == [] && HeldOf(st.data, units[m]) == []
    ensures !Harmful(units, Wrap(k, m, []), st)
  {
    if k > 0 {
      var calls := Wrap(k, m, []);
      assert calls[1..] == [];
      var within := Pre(units, m, st);
      HeldNone(st.data, units[m]);
      HeldNone(within.data, units[m]);
      WrapHarmless(units, k - 1, m, within);
    }
  }

  lemma WrapHarmful(units: seq<seq<Slot>>, k: nat, m: nat, data: seq<Tensor>)
    requires m < |units| && AllWithin(units, |data|) && Known(Wrap(k, m, []), |units|)
    requires HeldOf(data, units[m]) != []
    ensures Harmful(units, Wrap(k, m, []), State(data, map[])) <==> k >= 2
  {
    var none: seq<Call> := [];
    var st := State(data, map[]);
    if k >= 1 {
      var calls := Wrap(k, m, none);
      assert calls[0].inner == Wrap(k - 1, m, none) && calls[1..] == none;
      var within := Pre(units, m, st);
      assert Aside(within.saved, m) != [];
      assert Harmful(units, Wrap(k - 1, m, none), within) <==> k >= 2;
    }
  }

  /** A forward of a module with `k` pairs of hooks restores every tensor exactly when the module is
      hooked at most once or covers no narrow tensor: the second hook finds nothing narrow and
      overwrites what the first put aside. */
  lemma HookedTwice(units: seq<seq<Slot>>, regs: seq<nat>, m: nat, data: seq<Tensor>)
    requires m < |units| && AllWithin(units, |data|)
    ensures var calls := Fired(regs, [Pass(m, [])]);
            && Known(calls, |units|)
            && (Run(units, calls, State(data, map[])).data == data
                <==> Times(regs, m) <= 1 || forall i :: 0 <= i < |units[m]| ==> !data[units[m][i]].Narrow?)
  {
    hide Run, Harmful, HeldOf, Fired, Wrap;
    var k := Times(regs, m);
    var none: seq<Call> := [];
    FiredOfOne(regs, m);
    WrapKnown(k, m, none, |units|);
    RestoredExactlyWhenHarmless(units, Wrap(k, m, none), data);
    HeldNone(data, units[m]);
    if HeldOf(data, units[m]) == [] {
      WrapHarmless(units, k, m, State(data, map[]));
    } else {
      WrapHarmful(units, k, m, data);
    }
  }

  lemma FiredOfOne(regs: seq<nat>, m: nat)
    ensures Fired(regs, [Pass(m, [])]) == Wrap(Times(regs, m), m, [])
  {
    var none: seq<Pass> := [];
    var ps := [Pass(m, none)];
    assert ps[1..] == none && Fired(regs, none) == [];
    assert Wrap(Times(regs, m), m, []) + [] == Wrap(Times(regs, m), m, []);
  }
}
