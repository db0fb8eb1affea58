/** `Powertools::Form#initialize` (lines 13-51): the parent-store merge, the composition of
    one slot per store entry, and `new` on a model or form class. */
module Construction {
  import opened Values
  import opened Errors
  import opened Schema
  import opened Objects

  /** The name line 19 compares the superclass name with. */
  const SkipMergeName: ClassName := "PowertoolsForm"

  /** Lines 19-30: unless the superclass is named `PowertoolsForm`, merge the superclass's store
      into the store of form class `c`. A superclass without a store raises NoMethodError. */
  function MergeParent(h: Heap, c: ClassName): Step<Heap, ()>
    requires IsFormClass(h, c)
  {
    var fc := h.consts[c].form;
    if fc.superName == SkipMergeName then Step(h, Ok(()))
    else if !IsFormClass(h, fc.superName) then Step(h, Raised(NoMethodError("store")))
    else
      var m := MergeStore(fc.store, h.consts[fc.superName].form.store);
      Step(h.(consts := h.consts[c := FormConst(fc.(store := m.state))]), m.out)
  }

  /** `c.new(supplied)`: allocate the form (line 16 decides `persisted?`), merge the parent store,
      compose the slots over the store as it is after the merge, run the `initialize` hook.
      `depth` bounds the nesting of constructions. */
  function Construct(h: Heap, c: ClassName, supplied: Value, depth: nat): Step<Heap, Oid>
    decreases depth, 3, 0
  {
    if c !in h.consts then Step(h, Raised(NameError(c)))
    else if !h.consts[c].FormConst? then Step(h, Raised(NotAFormClass(c)))
    else
      var o := h.next;
      var h1 := h.(objects := h.objects[o := Form(c, Persisted(h, supplied), map[], {}, [])],
                   next := h.next + 1);
      var m := MergeParent(h1, c);
      if m.out.Raised? then Step(m.state, Raised(m.out.failure))
      else
        var st := StoreOf(m.state, o);
        var r := ComposeAll(m.state, o, st, |st|, supplied, depth);
        if r.out.Raised? then Step(r.state, Raised(r.out.failure))
        else Step(Emit(r.state, Hook(o, "initialize")), Ok(o))
  }

  /** Lines 33-48 over the first `n` entries of `st`, threading the local `model`. */
  function ComposeAll(h: Heap, o: Oid, st: Store, n: nat, model: Value, depth: nat): Step<Heap, Value>
    requires n <= |st|
    decreases depth, 2, n
  {
    if n == 0 then Step(h, Ok(model))
    else
      var r := ComposeAll(h, o, st, n - 1, model, depth);
      if r.out.Raised? then r
      else ComposeEntry(r.state, o, st[n - 1], r.out.value, depth)
  }

  /** One store entry of lines 34-47; the result is the new value of the local `model`. */
  function ComposeEntry(h: Heap, o: Oid, p: (Key, Entry), model: Value, depth: nat): Step<Heap, Value>
    decreases depth, 1, 0
  {
    var (k, e) := p;
    match e
    case ModelEntry(cls, _) =>
      if Truthy(model) && cls == ClassOf(h, model) then Step(Attach(h, o, k, model), Ok(model))
      else
        var r := New(h, cls, depth);
        if r.out.Raised? then Step(r.state, Raised(r.out.failure))
        else Step(Attach(r.state, o, k, Ref(r.out.value)), Ok(Ref(r.out.value)))
    case FormEntry(cls, _, _) =>
      if Truthy(model) && RespondTo(h, model, k) then
        if cls !in h.consts then Step(h, Raised(NameError(cls)))
        else if !h.consts[cls].FormConst? then Step(h, Raised(NotAFormClass(cls)))
        else if depth == 0 then Step(h, Raised(StackTooDeep))
        else
          var r := Construct(h, cls, Read(h, model, k), depth - 1);
          if r.out.Raised? then Step(r.state, Raised(r.out.failure))
          else Step(Attach(r.state, o, k, Ref(r.out.value)), Ok(model))
      else Step(h, Ok(model))
  }

  /** `Object::const_get(cls).new` with no argument: a fresh record of a model class, or a form
      constructed with `model = false`. */
  function New(h: Heap, cls: ClassName, depth: nat): Step<Heap, Oid>
    decreases depth, 0, 0
  {
    if cls !in h.consts then Step(h, Raised(NameError(cls)))
    else match h.consts[cls]
      case ModelConst(m) =>
        Step(h.(objects := h.objects[h.next := Record(cls, m.attrs, m.errors)], next := h.next + 1),
             Ok(h.next))
      case FormConst(_) =>
        if depth == 0 then Step(h, Raised(StackTooDeep)) else Construct(h, cls, Nil, depth - 1)
  }

  lemma MergeParentFrame(h: Heap, c: ClassName)
    requires IsFormClass(h, c) && Good(h)
    ensures Evolves(h, MergeParent(h, c).state, h.next)
    ensures MergeParent(h, c).state.objects == h.objects && MergeParent(h, c).state.trace == h.trace
  {
    assert h.trace[..|h.trace|] == h.trace;
  }

  /** Construction leaves every older object as it was, and a construction that returns yields
      the freshly allocated form of class `c`, `persisted?` exactly when the supplied value
      responds to `id` with a truthy id (line 16). */
  lemma {:induction false} ConstructFrame(h: Heap, c: ClassName, supplied: Value, depth: nat)
    requires Good(h)
    ensures var r := Construct(h, c, supplied, depth);
      && Evolves(h, r.state, h.next)
      && (r.out.Ok? ==>
            && r.out.value == h.next
            && IsForm(r.state, h.next)
            && r.state.objects[h.next].cls == c
            && r.state.objects[h.next].persisted == Persisted(h, supplied))
    decreases depth, 3, 0
  {
    var r := Construct(h, c, supplied, depth);
    if c !in h.consts || !h.consts[c].FormConst? {
      assert h.trace[..|h.trace|] == h.trace;
    } else {
      var o := h.next;
      var h1 := h.(objects := h.objects[o := Form(c, Persisted(h, supplied), map[], {}, [])],
                   next := h.next + 1);
      AllocEvolves(h, c, Persisted(h, supplied));
      var m := MergeParent(h1, c);
      MergeParentFrame(h1, c);
      EvolvesTrans(h, h1, m.state, o);
      if m.out.Ok? {
        var st := StoreOf(m.state, o);
        ComposeAllFrame(m.state, o, st, |st|, supplied, depth);
        var r1 := ComposeAll(m.state, o, st, |st|, supplied, depth);
        EvolvesTrans(h, m.state, r1.state, o);
        if r1.out.Ok? {
          HookEvolves(r1.state, Hook(o, "initialize"), o);
          EvolvesTrans(h, r1.state, Emit(r1.state, Hook(o, "initialize")), o);
        }
      }
    }
  }

  /** Allocating a new form (line 15's `new`) evolves the heap. */
  lemma AllocEvolves(h: Heap, c: ClassName, persisted: bool)
    requires Good(h) && IsFormClass(h, c)
    ensures Evolves(h, h.(objects := h.objects[h.next := Form(c, persisted, map[], {}, [])], next := h.next + 1), h.next)
  {
    assert h.trace[..|h.trace|] == h.trace;
  }

  /** Running a hook evolves the heap. */
  lemma HookEvolves(h: Heap, e: Event, o: Oid)
    requires Good(h) && (o in h.objects ==> h.objects[o].Form?)
    ensures Evolves(h, Emit(h, e), o)
  {
    assert Emit(h, e).trace[..|h.trace|] == h.trace;
  }

  /** Construction changes class stores only: every validation chain still extends its
      superclass's. */
  lemma ConstructInherits(h: Heap, c: ClassName, supplied: Value, depth: nat)
    requires Good(h) && InheritsValidators(h)
    ensures InheritsValidators(Construct(h, c, supplied, depth).state)
  {
    ConstructFrame(h, c, supplied, depth);
    SameClassesInherits(h, Construct(h, c, supplied, depth).state);
  }

  lemma {:induction false} ComposeAllFrame(h: Heap, o: Oid, st: Store, n: nat, model: Value, depth: nat)
    requires n <= |st| && Good(h) && IsForm(h, o)
    ensures Evolves(h, ComposeAll(h, o, st, n, model, depth).state, o)
    decreases depth, 2, n
  {
    if n == 0 {
      assert h.trace[..|h.trace|] == h.trace;
    } else {
      ComposeAllFrame(h, o, st, n - 1, model, depth);
      var r := ComposeAll(h, o, st, n - 1, model, depth);
      if r.out.Ok? {
        ComposeEntryFrame(r.state, o, st[n - 1], r.out.value, depth);
        EvolvesTrans(h, r.state, ComposeAll(h, o, st, n, model, depth).state, o);
      }
    }
  }

  lemma {:induction false} ComposeEntryFrame(h: Heap, o: Oid, p: (Key, Entry), model: Value, depth: nat)
    requires Good(h) && IsForm(h, o)
    ensures Evolves(h, ComposeEntry(h, o, p, model, depth).state, o)
    decreases depth, 1, 0
  {
    var (k, e) := p;
    assert h.trace[..|h.trace|] == h.trace;
    match e
    case ModelEntry(cls, _) =>
      if Truthy(model) && cls == ClassOf(h, model) {
        AttachEvolves(h, o, k, model);
      } else {
        NewFrame(h, cls, depth);
        var r := New(h, cls, depth);
        EvolvesFresh(h, r.state, o);
        if r.out.Ok? {
          var h2 := Attach(r.state, o, k, Ref(r.out.value));
          AttachEvolves(r.state, o, k, Ref(r.out.value));
          EvolvesTrans(h, r.state, h2, o);
        }
      }
    case FormEntry(cls, _, _) =>
      if Truthy(model) && RespondTo(h, model, k) && cls in h.consts && h.consts[cls].FormConst? && depth > 0 {
        ConstructFrame(h, cls, Read(h, model, k), depth - 1);
        var r := Construct(h, cls, Read(h, model, k), depth - 1);
        EvolvesFresh(h, r.state, o);
        if r.out.Ok? {
          var h2 := Attach(r.state, o, k, Ref(r.out.value));
          AttachEvolves(r.state, o, k, Ref(r.out.value));
          EvolvesTrans(h, r.state, h2, o);
        }
      }
  }

  lemma {:induction false} NewFrame(h: Heap, cls: ClassName, depth: nat)
    requires Good(h)
    ensures var r := New(h, cls, depth);
      && Evolves(h, r.state, h.next)
      && (r.out.Ok? ==> r.out.value == h.next && r.out.value in r.state.objects)
    decreases depth, 0, 0
  {
    assert h.trace[..|h.trace|] == h.trace;
    if cls in h.consts && h.consts[cls].FormConst? && depth > 0 {
      ConstructFrame(h, cls, Nil, depth - 1);
    }
  }

  /** A model entry `(k, cls)` (lines 36-41): slot `k` holds an object of class `cls`, which is the
      supplied `model` itself when that is truthy and of class `cls` (which cannot raise), and
      otherwise a freshly allocated one that also becomes the new `model`. */
  lemma ComposeModelSlot(h: Heap, o: Oid, p: (Key, Entry), model: Value, depth: nat)
    requires Good(h) && IsForm(h, o) && Live(h, model) && p.1.ModelEntry?
    ensures var r := ComposeEntry(h, o, p, model, depth);
      && KeepsSlots(h, r.state, o, p.0)
      && (r.out.Ok? ==>
            var m := r.out.value;
            && p.0 in r.state.objects[o].accessors
            && Read(r.state, Ref(o), p.0) == m
            && Live(r.state, m)
            && ClassOf(r.state, m) == p.1.cls
            && (if Truthy(model) && p.1.cls == ClassOf(h, model)
                then m == model && r.state.next == h.next
                else m == Ref(h.next)))
    ensures Truthy(model) && p.1.cls == ClassOf(h, model) ==> ComposeEntry(h, o, p, model, depth).out == Ok(model)
  {
    var (k, e) := p;
    ComposeEntryFrame(h, o, p, model, depth);
    if !(Truthy(model) && e.cls == ClassOf(h, model)) {
      NewFrame(h, e.cls, depth);
      var r := New(h, e.cls, depth);
      if r.out.Ok? && e.cls in h.consts && h.consts[e.cls].FormConst? {
        ConstructFrame(h, e.cls, Nil, depth - 1);
      }
    }
  }

  /** A form entry `(k, cls)` (lines 43-46): when the current `model` is truthy and responds to `k`,
      slot `k` holds a freshly constructed form of class `cls` built from `model.k`, `persisted?`
      as that value dictates; otherwise nothing at all happens and nothing is raised. `model` is
      passed on unchanged. */
  lemma ComposeFormSlot(h: Heap, o: Oid, p: (Key, Entry), model: Value, depth: nat)
    requires Good(h) && IsForm(h, o) && p.1.FormEntry?
    ensures var r := ComposeEntry(h, o, p, model, depth);
      && KeepsSlots(h, r.state, o, p.0)
      && (r.out.Ok? ==>
            && r.out.value == model
            && if Truthy(model) && RespondTo(h, model, p.0) then
                 && p.0 in r.state.objects[o].accessors
                 && Read(r.state, Ref(o), p.0) == Ref(h.next)
                 && IsForm(r.state, h.next)
                 && r.state.objects[h.next].cls == p.1.cls
                 && r.state.objects[h.next].persisted == Persisted(h, Read(h, model, p.0))
               else r.state == h)
    ensures !(Truthy(model) && RespondTo(h, model, p.0)) ==> ComposeEntry(h, o, p, model, depth) == Step(h, Ok(model))
  {
    var (k, e) := p;
    ComposeEntryFrame(h, o, p, model, depth);
    if Truthy(model) && RespondTo(h, model, k) && e.cls in h.consts && h.consts[e.cls].FormConst? && depth > 0 {
      ConstructFrame(h, e.cls, Read(h, model, k), depth - 1);
    }
  }

  /** The index of the last model entry among the first `n` entries of `st`. */
  function LastModel(st: Store, n: nat): (r: Option<nat>)
    requires n <= |st|
    ensures r.Some? ==> r.value < n && st[r.value].1.ModelEntry?
    ensures r.Some? ==> forall i :: r.value < i < n ==> st[i].1.FormEntry?
    ensures r.None? ==> forall i :: 0 <= i < n ==> st[i].1.FormEntry?
  {
    if n == 0 then None else if st[n - 1].1.ModelEntry? then Some(n - 1) else LastModel(st, n - 1)
  }

  /** Every model entry among the first `n` entries of `st` has its slot on form `o`, holding a
      live object of the entry's class. */
  predicate ModelSlotsReady(h: Heap, o: Oid, st: Store, n: nat)
    requires n <= |st| && IsForm(h, o)
  {
    forall i :: 0 <= i < n && st[i].1.ModelEntry? ==>
      && st[i].0 in h.objects[o].accessors
      && Live(h, Read(h, Ref(o), st[i].0))
      && ClassOf(h, Read(h, Ref(o), st[i].0)) == st[i].1.cls
  }

  /** The value of the local `model` after the first `n` entries. */
  function Threaded(h: Heap, o: Oid, st: Store, n: nat, model: Value): Value
    requires n <= |st|
  {
    match LastModel(st, n)
    case Some(i) => Read(h, Ref(o), st[i].0)
    case None => model
  }

  /** After the loop of lines 33-48, every model entry has its slot, holding an object of the
      entry's class, and the local `model` is the object in the slot of the last model entry
      (line 39 reassigns it), or the supplied value when there is no model entry. */
  lemma {:induction false} ComposeSlots(h: Heap, o: Oid, st: Store, n: nat, model: Value, depth: nat)
    requires n <= |st| && Good(h) && IsForm(h, o) && Live(h, model) && UniqueKeys(st)
    ensures var r := ComposeAll(h, o, st, n, model, depth);
      r.out.Ok? ==>
        && IsForm(r.state, o)
        && Live(r.state, r.out.value)
        && ModelSlotsReady(r.state, o, st, n)
        && r.out.value == Threaded(r.state, o, st, n, model)
    decreases n
  {
    ComposeAllFrame(h, o, st, n, model, depth);
    if n > 0 {
      ComposeSlots(h, o, st, n - 1, model, depth);
      ComposeAllFrame(h, o, st, n - 1, model, depth);
      var r := ComposeAll(h, o, st, n - 1, model, depth);
      if r.out.Ok? {
        ComposeSlotsStep(r.state, o, st, n, model, r.out.value, depth);
      }
    }
  }

  lemma ComposeSlotsStep(h: Heap, o: Oid, st: Store, n: nat, model: Value, m: Value, depth: nat)
    requires 0 < n <= |st| && Good(h) && IsForm(h, o) && Live(h, m) && UniqueKeys(st)
    requires ModelSlotsReady(h, o, st, n - 1) && m == Threaded(h, o, st, n - 1, model)
    ensures var r := ComposeEntry(h, o, st[n - 1], m, depth);
      r.out.Ok? ==>
        && IsForm(r.state, o)
        && Live(r.state, r.out.value)
        && ModelSlotsReady(r.state, o, st, n)
        && r.out.value == Threaded(r.state, o, st, n, model)
  {
    var p := st[n - 1];
    var r := ComposeEntry(h, o, p, m, depth);
    ComposeEntryFrame(h, o, p, m, depth);
    if p.1.ModelEntry? {
      ComposeModelSlot(h, o, p, m, depth);
    } else {
      ComposeFormSlot(h, o, p, m, depth);
    }
    if r.out.Ok? {
      forall i | 0 <= i < n - 1 && st[i].1.ModelEntry?
        ensures && st[i].0 in r.state.objects[o].accessors
                && Live(r.state, Read(r.state, Ref(o), st[i].0))
                && ClassOf(r.state, Read(r.state, Ref(o), st[i].0)) == st[i].1.cls
      {
        assert st[i].0 != p.0;
        EvolvesClassOf(h, r.state, o, Read(h, Ref(o), st[i].0));
      }
      match LastModel(st, n - 1)
      case Some(i) =>
        if p.1.FormEntry? {
          assert st[i].0 != p.0;
          EvolvesClassOf(h, r.state, o, m);
        }
      case None =>
        if p.1.FormEntry? {
          EvolvesClassOf(h, r.state, o, m);
        }
    }
  }

  /** Lines 19-30, stated on the stores: a class whose superclass is named `PowertoolsForm` keeps
      its store; otherwise the merge raises exactly when the superclass has no store or one of its
      form entries lands on a model entry of the child (`concat(nil)`), and when it succeeds the
      child's store holds its own keys and its parent's, each parent key carrying what `Merged`
      prescribes (field lists concatenated without duplicates, everything else overwritten), and
      nothing but that store changes. */
  lemma MergeParentEffect(h: Heap, c: ClassName)
    requires IsFormClass(h, c) && GoodStores(h)
    ensures var fc := h.consts[c].form;
      var r := MergeParent(h, c);
      && r.state.objects == h.objects && r.state.next == h.next && r.state.trace == h.trace
      && (fc.superName == SkipMergeName ==> r == Step(h, Ok(())))
      && (fc.superName != SkipMergeName ==>
            && (r.out.Raised? <==>
                  !IsFormClass(h, fc.superName) ||
                  exists i :: 0 <= i < |h.consts[fc.superName].form.store| &&
                              Clash(fc.store, h.consts[fc.superName].form.store[i]))
            && (r.out.Ok? ==>
                  var parent := h.consts[fc.superName].form.store;
                  var merged := r.state.consts[c].form.store;
                  && r.state.consts == h.consts[c := FormConst(fc.(store := merged))]
                  && GoodStores(r.state)
                  && Keys(merged) == Keys(fc.store) + Keys(parent)
                  && (forall i :: 0 <= i < |parent| ==>
                        Find(merged, parent[i].0) == Some(Merged(fc.store, parent[i].0, parent[i].1)))
                  && (forall k :: k !in Keys(parent) ==> Find(merged, k) == Find(fc.store, k))))
  {
    var fc := h.consts[c].form;
    if fc.superName != SkipMergeName && IsFormClass(h, fc.superName) {
      MergeEffect(fc.store, h.consts[fc.superName].form.store);
    }
  }

  /** The store form class `c` has once line 30 is passed. */
  function MergedStore(h: Heap, c: ClassName): Store
    requires IsFormClass(h, c)
  {
    MergeParent(h, c).state.consts[c].form.store
  }

  /** A construction that returns gives the new form one slot per model entry of its merged store
      (inherited entries included), each holding a live object of the entry's class. */
  lemma ConstructSlots(h: Heap, c: ClassName, supplied: Value, depth: nat)
    requires Good(h) && GoodStores(h) && IsFormClass(h, c) && Live(h, supplied)
    ensures var r := Construct(h, c, supplied, depth);
      r.out.Ok? ==>
        && IsForm(r.state, r.out.value)
        && ModelSlotsReady(r.state, r.out.value, MergedStore(h, c), |MergedStore(h, c)|)
  {
    var o := h.next;
    var h1 := h.(objects := h.objects[o := Form(c, Persisted(h, supplied), map[], {}, [])],
                 next := h.next + 1);
    MergeParentConsts(h, h1, c);
    var m := MergeParent(h1, c);
    if m.out.Ok? {
      var st := StoreOf(m.state, o);
      assert st == MergedStore(h, c);
      MergedStoreGood(h, c);
      ComposeSlots(m.state, o, st, |st|, supplied, depth);
      var r := ComposeAll(m.state, o, st, |st|, supplied, depth);
      if r.out.Ok? {
        HookKeepsReady(r.state, Hook(o, "initialize"), o, st);
      }
    }
  }

  /** Running a hook leaves every slot as it was. */
  lemma HookKeepsReady(h: Heap, e: Event, o: Oid, st: Store)
    requires IsForm(h, o) && ModelSlotsReady(h, o, st, |st|)
    ensures IsForm(Emit(h, e), o) && ModelSlotsReady(Emit(h, e), o, st, |st|)
  {
    assert Emit(h, e).objects == h.objects;
  }

  lemma MergeParentConsts(h: Heap, h': Heap, c: ClassName)
    requires IsFormClass(h, c) && h'.consts == h.consts
    ensures MergeParent(h', c).state.consts == MergeParent(h, c).state.consts
    ensures MergeParent(h', c).out == MergeParent(h, c).out
    ensures MergeParent(h', c).state.objects == h'.objects && MergeParent(h', c).state.next == h'.next
  {
  }

  lemma MergedStoreGood(h: Heap, c: ClassName)
    requires IsFormClass(h, c) && GoodStores(h) && MergeParent(h, c).out.Ok?
    ensures WellFormed(MergedStore(h, c))
  {
    var fc := h.consts[c].form;
    if fc.superName != SkipMergeName {
      MergeEffect(fc.store, h.consts[fc.superName].form.store);
    }
  }
}
