/** `Powertools::Form#save!` (lines 86-98): the `:form` slots other than the primary one are saved
    in store order, then the primary slot, with hooks at fixed points. Only the trace changes:
    what a record's `save!` persists is not part of the model. */
module Saving {
  import opened Values
  import opened Errors
  import opened Schema
  import opened Objects

  /** `form.save!` on form `o`. */
  function SaveForm(h: Heap, o: Oid, depth: nat): Step<Heap, ()>
    decreases depth, 2, 0
  {
    var mn := ModelNameOf(h, o);
    var h1 := Emit(h, Hook(o, "before_forms_save"));
    var st := StoreOf(h1, o);
    var r := SaveForms(h1, o, st, |st|, mn, depth);
    if r.out.Raised? then r else SavePrimary(r.state, o, mn, depth)
  }

  /** Lines 95-97: the `before_save` hook, `save!` on the primary slot `mn`, the `after_save` hook. */
  function SavePrimary(h: Heap, o: Oid, mn: Key, depth: nat): Step<Heap, ()>
    decreases depth, 1, 0
  {
    var h1 := Emit(h, Hook(o, "before_save"));
    match Send(h1, Ref(o), mn)
    case Raised(f) => Step(h1, Raised(f))
    case Ok(p) =>
      var r := SaveValue(h1, p, depth);
      if r.out.Raised? then r else Step(Emit(r.state, Hook(o, "after_save")), Ok(()))
  }

  /** Lines 90-94 over the first `n` entries of the store: `save!` on every `:form` slot whose key
      is not the primary model name `mn`. */
  function SaveForms(h: Heap, o: Oid, st: Store, n: nat, mn: Key, depth: nat): Step<Heap, ()>
    requires n <= |st|
    decreases depth, 0, n
  {
    if n == 0 then Step(h, Ok(()))
    else
      var r := SaveForms(h, o, st, n - 1, mn, depth);
      if r.out.Raised? || !SavedSlot(st[n - 1], mn) then r
      else match Send(r.state, Ref(o), st[n - 1].0)
        case Raised(f) => Step(r.state, Raised(f))
        case Ok(v) => SaveValue(r.state, v, depth)
  }

  /** The store entry is one whose slot line 91 saves. */
  predicate SavedSlot(p: (Key, Entry), mn: Key) {
    p.0 != mn && p.1.FormEntry?
  }

  /** `v.save!`: a record is saved, a form runs `SaveForm`, anything else raises NoMethodError. */
  function SaveValue(h: Heap, v: Value, depth: nat): Step<Heap, ()>
    decreases depth, 0, 0
  {
    if v.Ref? && IsRecord(h, v.oid) then Step(Emit(h, Saved(v.oid)), Ok(()))
    else if v.Ref? && IsForm(h, v.oid) then
      if depth == 0 then Step(h, Raised(StackTooDeep)) else SaveForm(h, v.oid, depth - 1)
    else Step(h, Raised(NoMethodError("save!")))
  }

  /** `h` with an empty trace: what an operation that only appends to the trace depends on. */
  function Base(h: Heap): Heap {
    h.(trace := [])
  }

  /** Every event is a hook or a record's `save!`. */
  predicate OnlySaves(es: seq<Event>) {
    forall e :: e in es ==> e.Hook? || e.Saved?
  }

  lemma OnlySavesAppend(a: seq<Event>, b: seq<Event>)
    requires OnlySaves(a) && OnlySaves(b)
    ensures OnlySaves(a + b)
  {
  }

  /** `h'` is `h` with another trace. */
  predicate TraceOnly(h: Heap, h': Heap) {
    h' == h.(trace := h'.trace)
  }

  /** Saving changes nothing but the trace, and the events it appends do not depend on the trace
      before it. */
  lemma {:induction false} SaveValueShift(h: Heap, v: Value, depth: nat)
    ensures var r := SaveValue(h, v, depth);
      var b := SaveValue(Base(h), v, depth);
      r.out == b.out && TraceOnly(h, r.state) && TraceOnly(Base(h), b.state) &&
      r.state.trace == h.trace + b.state.trace && OnlySaves(b.state.trace)
    decreases depth, 0, 0
  {
    if v.Ref? && IsForm(h, v.oid) && depth > 0 {
      SaveFormShift(h, v.oid, depth - 1);
    }
  }

  lemma {:induction false} SaveFormShift(h: Heap, o: Oid, depth: nat)
    ensures var r := SaveForm(h, o, depth);
      var b := SaveForm(Base(h), o, depth);
      r.out == b.out && TraceOnly(h, r.state) && TraceOnly(Base(h), b.state) &&
      r.state.trace == h.trace + b.state.trace && OnlySaves(b.state.trace)
    decreases depth, 2, 0
  {
    var mn := ModelNameOf(h, o);
    var h1 := Emit(h, Hook(o, "before_forms_save"));
    var b1 := Emit(Base(h), Hook(o, "before_forms_save"));
    assert Base(h1) == Base(b1);
    assert ModelNameOf(Base(h), o) == mn;
    var st := StoreOf(h1, o);
    assert StoreOf(b1, o) == st;
    SaveFormsShift(h1, o, st, |st|, mn, depth);
    SaveFormsShift(b1, o, st, |st|, mn, depth);
    var r := SaveForms(h1, o, st, |st|, mn, depth);
    var rb := SaveForms(b1, o, st, |st|, mn, depth);
    if r.out.Ok? {
      assert Base(r.state) == Base(rb.state);
      SavePrimaryShift(r.state, o, mn, depth);
      SavePrimaryShift(rb.state, o, mn, depth);
      assert SaveForm(h, o, depth) == SavePrimary(r.state, o, mn, depth);
      assert SaveForm(Base(h), o, depth) == SavePrimary(rb.state, o, mn, depth);
    } else {
      assert SaveForm(h, o, depth) == r;
      assert SaveForm(Base(h), o, depth) == rb;
    }
  }

  lemma {:induction false} SavePrimaryShift(h: Heap, o: Oid, mn: Key, depth: nat)
    ensures var r := SavePrimary(h, o, mn, depth);
      var b := SavePrimary(Base(h), o, mn, depth);
      r.out == b.out && TraceOnly(h, r.state) && TraceOnly(Base(h), b.state) &&
      r.state.trace == h.trace + b.state.trace && OnlySaves(b.state.trace)
    decreases depth, 1, 0
  {
    var h1 := Emit(h, Hook(o, "before_save"));
    var b1 := Emit(Base(h), Hook(o, "before_save"));
    assert Base(h1) == Base(b1);
    assert Send(h1, Ref(o), mn) == Send(b1, Ref(o), mn);
    if Send(h1, Ref(o), mn).Ok? {
      var p := Send(h1, Ref(o), mn).value;
      SaveValueShift(h1, p, depth);
      SaveValueShift(b1, p, depth);
    }
  }

  lemma {:induction false} SaveFormsShift(h: Heap, o: Oid, st: Store, n: nat, mn: Key, depth: nat)
    requires n <= |st|
    ensures var r := SaveForms(h, o, st, n, mn, depth);
      var b := SaveForms(Base(h), o, st, n, mn, depth);
      r.out == b.out && TraceOnly(h, r.state) && TraceOnly(Base(h), b.state) &&
      r.state.trace == h.trace + b.state.trace && OnlySaves(b.state.trace)
    decreases depth, 0, n
  {
    if n > 0 {
      SaveFormsShift(h, o, st, n - 1, mn, depth);
      var r := SaveForms(h, o, st, n - 1, mn, depth);
      var rb := SaveForms(Base(h), o, st, n - 1, mn, depth);
      if r.out.Ok? && SavedSlot(st[n - 1], mn) {
        assert Base(r.state) == Base(rb.state);
        assert Send(r.state, Ref(o), st[n - 1].0) == Send(rb.state, Ref(o), st[n - 1].0);
        if Send(r.state, Ref(o), st[n - 1].0).Ok? {
          var v := Send(r.state, Ref(o), st[n - 1].0).value;
          SaveValueShift(r.state, v, depth);
          SaveValueShift(rb.state, v, depth);
          var b := SaveValue(Base(rb.state), v, depth);
          assert SaveForms(Base(h), o, st, n, mn, depth).state.trace == rb.state.trace + b.state.trace;
          OnlySavesAppend(rb.state.trace, b.state.trace);
        }
      }
    }
  }

  /** The events `v.save!` appends, whatever the trace before it. */
  function SaveEvents(h: Heap, v: Value, depth: nat): seq<Event> {
    SaveValue(Base(h), v, depth).state.trace
  }

  /** The events of line 92 for the first `n` entries of `st`: the saves of the `:form` slots
      other than the primary one, in store order. */
  function FormSaves(h: Heap, o: Oid, st: Store, n: nat, mn: Key, depth: nat): seq<Event>
    requires n <= |st|
  {
    if n == 0 then []
    else FormSaves(h, o, st, n - 1, mn, depth) +
         (if SavedSlot(st[n - 1], mn) then SaveEvents(h, Read(h, Ref(o), st[n - 1].0), depth) else [])
  }

  lemma {:induction false} SaveFormsOrder(h: Heap, o: Oid, st: Store, n: nat, mn: Key, depth: nat)
    requires n <= |st| && SaveForms(h, o, st, n, mn, depth).out.Ok?
    ensures var r := SaveForms(h, o, st, n, mn, depth);
      TraceOnly(h, r.state) && r.state.trace == h.trace + FormSaves(h, o, st, n, mn, depth)
  {
    SaveFormsShift(h, o, st, n, mn, depth);
    if n > 0 {
      SaveFormsOrder(h, o, st, n - 1, mn, depth);
      var r := SaveForms(h, o, st, n - 1, mn, depth);
      if SavedSlot(st[n - 1], mn) {
        var v := Send(r.state, Ref(o), st[n - 1].0).value;
        assert v == Read(h, Ref(o), st[n - 1].0);
        SaveValueShift(r.state, v, depth);
        assert Base(r.state) == Base(h);
      }
    }
  }

  /** Lines 86-98: a `save!` that completes appends, in this order, the `before_forms_save` hook,
      the saves of every `:form` slot whose key is not the primary model name, in store order (no
      `:model` slot is saved here), the `before_save` hook, the save of the primary slot, and the
      `after_save` hook; nothing else changes. */
  lemma SaveOrder(h: Heap, o: Oid, depth: nat)
    requires SaveForm(h, o, depth).out.Ok?
    ensures var r := SaveForm(h, o, depth);
      var mn := ModelNameOf(h, o);
      var st := StoreOf(h, o);
      && TraceOnly(h, r.state)
      && r.state.trace == h.trace + [Hook(o, "before_forms_save")] + FormSaves(h, o, st, |st|, mn, depth) +
                          [Hook(o, "before_save")] + SaveEvents(h, Read(h, Ref(o), mn), depth) +
                          [Hook(o, "after_save")]
  {
    var mn := ModelNameOf(h, o);
    var h1 := Emit(h, Hook(o, "before_forms_save"));
    var st := StoreOf(h1, o);
    SaveFormsOrder(h1, o, st, |st|, mn, depth);
    var r := SaveForms(h1, o, st, |st|, mn, depth);
    assert FormSaves(h1, o, st, |st|, mn, depth) == FormSaves(h, o, st, |st|, mn, depth) by {
      FormSavesBase(h1, h, o, st, |st|, mn, depth);
    }
    var h2 := Emit(r.state, Hook(o, "before_save"));
    var p := Send(h2, Ref(o), mn).value;
    assert p == Read(h, Ref(o), mn);
    SaveValueShift(h2, p, depth);
    assert Base(h2) == Base(h);
  }

  lemma {:induction false} FormSavesBase(h: Heap, h': Heap, o: Oid, st: Store, n: nat, mn: Key, depth: nat)
    requires n <= |st| && Base(h) == Base(h')
    ensures FormSaves(h, o, st, n, mn, depth) == FormSaves(h', o, st, n, mn, depth)
  {
    if n > 0 {
      FormSavesBase(h, h', o, st, n - 1, mn, depth);
    }
  }
}
