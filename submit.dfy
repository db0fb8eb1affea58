/** `Powertools::Form#submit` (lines 64-84): store the params, run the `before_submit` hook, route
    the params, ask every store slot and then the form itself whether it is valid, and save only
    when all of them said yes. */
module Submission {
  import opened Values
  import opened Errors
  import opened Schema
  import opened Objects
  import opened Router
  import opened Validation
  import opened Saving

  /** Lines 65-69: `@params` is set, the `before_submit` hook runs, and `set_params` routes the
      params from the root scope. */
  function Prepared(h: Heap, o: Oid, params: seq<(PKey, Param)>, depth: nat): Step<Heap, ()> {
    var h1 := Emit(WriteIvar(h, o, "params", Data(Map(params))), Hook(o, "before_submit"));
    SetParams(h1, o, params, None, depth)
  }

  /** Lines 72-75 over the first `n` entries of the store: `is_valid &= send(key).valid?`, which
      calls `valid?` on every slot whatever the earlier slots answered. */
  function CheckSlots(h: Heap, o: Oid, st: Store, n: nat, depth: nat): Step<Heap, bool>
    requires n <= |st|
  {
    if n == 0 then Step(h, Ok(true))
    else
      var r := CheckSlots(h, o, st, n - 1, depth);
      if r.out.Raised? then r
      else match Send(r.state, Ref(o), st[n - 1].0)
        case Raised(f) => Step(r.state, Raised(f))
        case Ok(v) =>
          var q := ValidQ(r.state, v, depth);
          if q.out.Raised? then Step(q.state, Raised(q.out.failure))
          else Step(q.state, Ok(r.out.value && q.out.value))
  }

  /** `submit params` on form `o`. The outcome is whether `save!` ran: `Ok(false)` stands for the
      `nil` returned when something was invalid. */
  function Submit(h: Heap, o: Oid, params: seq<(PKey, Param)>, depth: nat): Step<Heap, bool> {
    var p := Prepared(h, o, params, depth);
    if p.out.Raised? then Step(p.state, Raised(p.out.failure)) else Finish(p.state, o, depth)
  }

  /** Lines 71-83, once the params are routed: `valid?` on every slot, then on the form, and
      `save!` when all of them answered `true`. */
  function Finish(h: Heap, o: Oid, depth: nat): Step<Heap, bool> {
    var st := StoreOf(h, o);
    var c := CheckSlots(h, o, st, |st|, depth);
    if c.out.Raised? then Step(c.state, Raised(c.out.failure))
    else
      var v := ValidateForm(c.state, o, depth);
      if v.out.Raised? then Step(v.state, Raised(v.out.failure))
      else if c.out.value && v.out.value then
        var s := SaveForm(v.state, o, depth);
        if s.out.Raised? then Step(s.state, Raised(s.out.failure)) else Step(s.state, Ok(true))
      else Step(v.state, Ok(false))
  }

  /** Slot `i` answered `true` to the `valid?` call made on it in turn. */
  ghost predicate SlotVerdict(h: Heap, o: Oid, st: Store, i: nat, depth: nat)
    requires i < |st|
  {
    var r := CheckSlots(h, o, st, i, depth);
    ValidQ(r.state, Read(h, Ref(o), st[i].0), depth).out == Ok(true)
  }

  /** A `valid?` call that answers was made on a record or a form, and its first event is the
      call itself. */
  lemma ValidQEmits(h: Heap, v: Value, depth: nat)
    requires ValidQ(h, v, depth).out.Ok?
    ensures var r := ValidQ(h, v, depth);
      v.Ref? && (IsRecord(h, v.oid) || IsForm(h, v.oid)) && Later(h, r.state) &&
      Validated(v.oid) in NewEvents(h, r.state)
  {
    var r := ValidQ(h, v, depth);
    ValidQFrame(h, v, depth);
    if IsForm(h, v.oid) && !IsRecord(h, v.oid) {
      var h1 := SetErrors(Emit(h, Validated(v.oid)), v.oid, []);
      var vs := ValidatorsOf(h, v.oid);
      RunValidatorsFrame(h1, v.oid, vs, |vs|, depth);
      assert r.state.trace[..|h1.trace|] == h1.trace;
      assert r.state.trace[|h.trace|] == h1.trace[|h.trace|];
    }
    assert NewEvents(h, r.state)[0] == r.state.trace[|h.trace|];
  }

  /** `is_valid &= send(key).valid?` changes nothing but error collections. */
  lemma {:induction false} CheckSlotsFrame(h: Heap, o: Oid, st: Store, n: nat, depth: nat)
    requires n <= |st|
    ensures Revalidated(h, CheckSlots(h, o, st, n, depth).state, {})
  {
    if n == 0 {
      RevalidatedRefl(h, {});
    } else {
      CheckSlotsFrame(h, o, st, n - 1, depth);
      var r1 := CheckSlots(h, o, st, n - 1, depth);
      if r1.out.Ok? && Send(r1.state, Ref(o), st[n - 1].0).Ok? {
        var v := Send(r1.state, Ref(o), st[n - 1].0).value;
        ValidQFrame(r1.state, v, depth);
        RevalidatedTrans(h, r1.state, ValidQ(r1.state, v, depth).state, {});
      }
    }
  }

  /** One more slot: it is asked `valid?` and its answer is and-ed into the earlier ones. */
  lemma CheckSlotsStep(h: Heap, o: Oid, st: Store, n: nat, depth: nat)
    requires 0 < n <= |st|
    ensures var r1 := CheckSlots(h, o, st, n - 1, depth);
      var r := CheckSlots(h, o, st, n, depth);
      r.out.Ok? ==>
        && r1.out.Ok? && Later(r1.state, r.state)
        && r.out.value == (r1.out.value && SlotVerdict(h, o, st, n - 1, depth))
        && Read(h, Ref(o), st[n - 1].0).Ref?
        && Validated(Read(h, Ref(o), st[n - 1].0).oid) in NewEvents(r1.state, r.state)
  {
    var r1 := CheckSlots(h, o, st, n - 1, depth);
    var r := CheckSlots(h, o, st, n, depth);
    CheckSlotsFrame(h, o, st, n - 1, depth);
    if r.out.Ok? {
      var k := st[n - 1].0;
      assert r1.out.Ok?;
      OnlyErrorsRead(h, r1.state, Ref(o), k);
      var v := Read(h, Ref(o), k);
      assert Send(r1.state, Ref(o), k) == Ok(v);
      var q := ValidQ(r1.state, v, depth);
      assert r == Step(q.state, Ok(r1.out.value && q.out.value));
      ValidQEmits(r1.state, v, depth);
    }
  }

  /** Lines 72-75: every slot is asked `valid?` (no short-circuit) and the outcome is the
      conjunction of all the answers. */
  lemma CheckSlotsAll(h: Heap, o: Oid, st: Store, n: nat, depth: nat)
    requires n <= |st|
    ensures var r := CheckSlots(h, o, st, n, depth);
      r.out.Ok? ==>
        && Later(h, r.state)
        && (r.out.value <==> forall i :: 0 <= i < n ==> SlotVerdict(h, o, st, i, depth))
        && forall i :: 0 <= i < n ==>
             Read(h, Ref(o), st[i].0).Ref? && Validated(Read(h, Ref(o), st[i].0).oid) in NewEvents(h, r.state)
  {
    CheckSlotsVerdict(h, o, st, n, depth);
    CheckSlotsAsked(h, o, st, n, depth);
  }

  /** The outcome of the slot loop is the conjunction of the slots' answers. */
  lemma {:induction false} CheckSlotsVerdict(h: Heap, o: Oid, st: Store, n: nat, depth: nat)
    requires n <= |st|
    ensures var r := CheckSlots(h, o, st, n, depth);
      r.out.Ok? ==> (r.out.value <==> forall i :: 0 <= i < n ==> SlotVerdict(h, o, st, i, depth))
  {
    if n > 0 && CheckSlots(h, o, st, n, depth).out.Ok? {
      CheckSlotsStep(h, o, st, n, depth);
      CheckSlotsVerdict(h, o, st, n - 1, depth);
    }
  }

  /** Every slot the loop passed was asked `valid?`. */
  lemma {:induction false} CheckSlotsAsked(h: Heap, o: Oid, st: Store, n: nat, depth: nat)
    requires n <= |st|
    ensures var r := CheckSlots(h, o, st, n, depth);
      r.out.Ok? ==>
        && Later(h, r.state)
        && forall i :: 0 <= i < n ==>
             Read(h, Ref(o), st[i].0).Ref? && Validated(Read(h, Ref(o), st[i].0).oid) in NewEvents(h, r.state)
  {
    var r := CheckSlots(h, o, st, n, depth);
    if n == 0 {
      assert h.trace[..|h.trace|] == h.trace;
    } else if r.out.Ok? {
      var r1 := CheckSlots(h, o, st, n - 1, depth);
      CheckSlotsStep(h, o, st, n, depth);
      CheckSlotsAsked(h, o, st, n - 1, depth);
      NewEventsSplit(h, r1.state, r.state);
    }
  }

  /** Lines 72-83: `Finish` that completes ran `save!` exactly when every store slot and then the
      form answered `valid?` with `true`, after every slot was asked; when it did not save, it only
      made `valid?` calls. Whatever the outcome, even a `save!` that raises, `save!` began exactly
      when every slot and then the form answered `true`. */
  lemma FinishGate(h: Heap, o: Oid, depth: nat)
    ensures var r := Finish(h, o, depth);
      var st := StoreOf(h, o);
      var c := CheckSlots(h, o, st, |st|, depth).state;
      && Later(h, r.state)
      && (r.out.Ok? ==>
            && (r.out.value <==>
                  (forall i :: 0 <= i < |st| ==> SlotVerdict(h, o, st, i, depth)) &&
                  ValidateForm(c, o, depth).out == Ok(true))
            && forall i :: 0 <= i < |st| ==>
                 Read(h, Ref(o), st[i].0).Ref? && Validated(Read(h, Ref(o), st[i].0).oid) in NewEvents(h, r.state))
      && (r.out == Ok(true) ==> Hook(o, "before_forms_save") in NewEvents(h, r.state))
      && (r.out == Ok(false) ==> OnlyValidations(h, r.state))
      && (Hook(o, "before_forms_save") in NewEvents(h, r.state) <==>
            CheckSlots(h, o, st, |st|, depth).out == Ok(true) && ValidateForm(c, o, depth).out == Ok(true))
  {
    FinishSaveGate(h, o, depth);
    var r := Finish(h, o, depth);
    var st := StoreOf(h, o);
    var cr := CheckSlots(h, o, st, |st|, depth);
    var c := cr.state;
    CheckSlotsAll(h, o, st, |st|, depth);
    CheckSlotsFrame(h, o, st, |st|, depth);
    if cr.out.Ok? {
      var v := ValidateForm(c, o, depth);
      ValidateFormFrame(c, o, depth);
      NewEventsSplit(h, c, v.state);
      if v.out.Ok? && cr.out.value && v.out.value {
        assert r.state == SaveForm(v.state, o, depth).state;
        SaveFormEvents(h, v.state, o, depth);
      } else if v.out.Ok? {
        assert r.state == v.state;
      }
    }
  }

  /** Whatever the outcome, even when `save!` itself raises: the save stage began (its first
      hook ran) exactly when every slot and then the form answered `valid?` with `true`. */
  lemma FinishSaveGate(h: Heap, o: Oid, depth: nat)
    ensures var r := Finish(h, o, depth);
      var st := StoreOf(h, o);
      var cr := CheckSlots(h, o, st, |st|, depth);
      && Later(h, r.state)
      && (Hook(o, "before_forms_save") in NewEvents(h, r.state) <==>
            cr.out == Ok(true) && ValidateForm(cr.state, o, depth).out == Ok(true))
  {
    var r := Finish(h, o, depth);
    var st := StoreOf(h, o);
    var cr := CheckSlots(h, o, st, |st|, depth);
    CheckSlotsFrame(h, o, st, |st|, depth);
    assert h.trace[..|h.trace|] == h.trace;
    if cr.out.Ok? {
      var v := ValidateForm(cr.state, o, depth);
      ValidateFormFrame(cr.state, o, depth);
      NewEventsSplit(h, cr.state, v.state);
      if v.out.Ok? && cr.out.value && v.out.value {
        SaveFormStarts(v.state, o, depth);
        NewEventsSplit(h, v.state, r.state);
      }
    }
  }

  /** `save!` on a form runs `before_forms_save` first, whatever happens after it. */
  lemma SaveFormStarts(h: Heap, o: Oid, depth: nat)
    ensures var s := SaveForm(h, o, depth);
      Later(h, s.state) && |NewEvents(h, s.state)| > 0 && NewEvents(h, s.state)[0] == Hook(o, "before_forms_save")
  {
    var s := SaveForm(h, o, depth);
    SaveFormShift(h, o, depth);
    var mn := ModelNameOf(Base(h), o);
    var b1 := Emit(Base(h), Hook(o, "before_forms_save"));
    var st := StoreOf(b1, o);
    SaveFormsShift(b1, o, st, |st|, mn, depth);
    var rf := SaveForms(b1, o, st, |st|, mn, depth);
    if rf.out.Ok? {
      SavePrimaryShift(rf.state, o, mn, depth);
    }
    assert SaveForm(Base(h), o, depth).state.trace[0] == Hook(o, "before_forms_save");
    assert s.state.trace[..|h.trace|] == h.trace;
  }

  /** `save!` after the events since `h0` only appends to them, and one that completes has run
      the `before_forms_save` hook. */
  lemma SaveFormEvents(h0: Heap, h: Heap, o: Oid, depth: nat)
    requires Later(h0, h)
    ensures var s := SaveForm(h, o, depth);
      && Later(h, s.state) && Later(h0, s.state)
      && (forall e :: e in NewEvents(h0, h) ==> e in NewEvents(h0, s.state))
      && (s.out.Ok? ==> Hook(o, "before_forms_save") in NewEvents(h0, s.state))
  {
    var s := SaveForm(h, o, depth);
    SaveFormShift(h, o, depth);
    assert s.state.trace[..|h.trace|] == h.trace;
    NewEventsSplit(h0, h, s.state);
    if s.out.Ok? {
      SaveOrder(h, o, depth);
      assert NewEvents(h, s.state)[0] == Hook(o, "before_forms_save");
    }
  }

  /** Lines 64-83: a submit that completes ran `save!` exactly when every store slot and then the
      form answered `valid?` with `true`, once the params were routed, after every slot was asked;
      when it did not save, the only hook that ran is `before_submit` and no record was saved.
      Whatever the outcome, `save!` began exactly when the params were routed and then every slot
      and the form answered `true`. */
  lemma SubmitGate(h: Heap, o: Oid, params: seq<(PKey, Param)>, depth: nat)
    requires IsForm(h, o)
    ensures var r := Submit(h, o, params, depth);
      var p := Prepared(h, o, params, depth).state;
      var st := StoreOf(p, o);
      var c := CheckSlots(p, o, st, |st|, depth).state;
      && Later(h, r.state)
      && (r.out.Ok? ==>
            && (r.out.value <==>
                  (forall i :: 0 <= i < |st| ==> SlotVerdict(p, o, st, i, depth)) &&
                  ValidateForm(c, o, depth).out == Ok(true))
            && forall i :: 0 <= i < |st| ==>
                 Read(p, Ref(o), st[i].0).Ref? && Validated(Read(p, Ref(o), st[i].0).oid) in NewEvents(h, r.state))
      && (r.out == Ok(true) ==> Hook(o, "before_forms_save") in NewEvents(h, r.state))
      && (r.out == Ok(false) ==>
            forall e :: e in NewEvents(h, r.state) ==> !e.Saved? && (e.Hook? ==> e == Hook(o, "before_submit")))
      && (Prepared(h, o, params, depth).out.Ok? ==>
            (Hook(o, "before_forms_save") in NewEvents(h, r.state) <==>
               CheckSlots(p, o, st, |st|, depth).out == Ok(true) && ValidateForm(c, o, depth).out == Ok(true)))
      && (Prepared(h, o, params, depth).out.Raised? ==> Hook(o, "before_forms_save") !in NewEvents(h, r.state))
  {
    var h1 := Emit(WriteIvar(h, o, "params", Data(Map(params))), Hook(o, "before_submit"));
    assert h1.trace[..|h.trace|] == h.trace;
    assert NewEvents(h, h1) == [Hook(o, "before_submit")];
    var pr := Prepared(h, o, params, depth);
    var p := pr.state;
    SetParamsRouted(h1, o, params, None, depth);
    NewEventsSplit(h, h1, p);
    assert Hook(o, "before_forms_save") !in NewEvents(h, p) by {
      assert Hook(o, "before_forms_save") !in NewEvents(h, h1);
      assert Hook(o, "before_forms_save") !in NewEvents(h1, p);
    }
    if pr.out.Ok? {
      var r := Finish(p, o, depth);
      FinishGate(p, o, depth);
      NewEventsSplit(h, p, r.state);
      if r.out == Ok(false) {
        forall e | e in NewEvents(h, r.state)
          ensures !e.Saved? && (e.Hook? ==> e == Hook(o, "before_submit"))
        {
          assert e in NewEvents(h, h1) || e in NewEvents(h1, p) || e in NewEvents(p, r.state);
        }
      }
    }
  }

  /** Every record attribute changed between `h` and `h'` was written through a model slot, every
      such write was of a field the slot's entry declares and went to the object that slot held
      in `h`, no reader was pointed at another object, and no object's identity, kind, class,
      `persisted?` flag or accessors changed. */
  ghost predicate Guarded(h: Heap, h': Heap) {
    && SameShape(h, h') && Later(h, h')
    && (forall e :: e in NewEvents(h, h') && e.SetOnSlot? ==> Declared(h, e.form, e.slot, e.key))
    && SlotTargets(h, h')
    && RefsKept(h, h')
    && (forall x, a :: x in h.objects && h.objects[x].Record? && a in h.objects[x].attrs &&
                       h'.objects[x].attrs[a] != h.objects[x].attrs[a] ==>
                         (x, a) in SlotWrites(NewEvents(h, h')))
  }

  /** A stage that writes no record attribute, makes no slot write and points no reader at
      another object keeps `Guarded`. */
  lemma GuardedExtend(h: Heap, h2: Heap, h3: Heap)
    requires Guarded(h, h2) && SameShape(h2, h3) && Later(h2, h3) && RefsKept(h2, h3)
    requires forall e :: e in NewEvents(h2, h3) ==> !e.SetOnSlot?
    requires forall x :: x in h2.objects && h2.objects[x].Record? ==> h3.objects[x].attrs == h2.objects[x].attrs
    ensures Guarded(h, h3)
  {
    NewEventsSplit(h, h2, h3);
    SlotWritesAppend(NewEvents(h, h2), NewEvents(h2, h3));
    RefsKeptTrans(h, h2, h3);
  }

  /** A `set_params` stage keeps `Guarded`: the slot entries it consults are those of `h`. */
  lemma GuardedRouted(h: Heap, h2: Heap, h3: Heap)
    requires Guarded(h, h2) && Routed(h2, h3)
    ensures Guarded(h, h3)
  {
    NewEventsSplit(h, h2, h3);
    SlotWritesAppend(NewEvents(h, h2), NewEvents(h2, h3));
    RefsKeptTrans(h, h2, h3);
    SlotTargetsTrans(h, h2, h3);
    forall e | e in NewEvents(h2, h3) && e.SetOnSlot?
      ensures Declared(h, e.form, e.slot, e.key)
    {
      SameShapeStore(h, h2, e.form);
    }
  }

  /** A stage that changes only error collections keeps `Guarded`. */
  lemma GuardedRevalidated(h: Heap, h2: Heap, h3: Heap, except: set<Oid>)
    requires Guarded(h, h2) && Revalidated(h2, h3, except)
    ensures Guarded(h, h3)
  {
    OnlyErrorsShape(h2, h3);
    forall x | x in h2.objects && h2.objects[x].Record?
      ensures h3.objects[x].attrs == h2.objects[x].attrs
    {
      OnlyErrorsRead(h2, h3, Ref(x), "");
    }
    forall x: Oid, k ensures Read(h3, Ref(x), k) == Read(h2, Ref(x), k) {
      OnlyErrorsRead(h2, h3, Ref(x), k);
    }
    GuardedExtend(h, h2, h3);
  }

  /** `Finish` writes no attribute and keeps `Guarded`. */
  lemma FinishGuarded(h0: Heap, h: Heap, o: Oid, depth: nat)
    requires Guarded(h0, h)
    ensures Guarded(h0, Finish(h, o, depth).state)
  {
    var st := StoreOf(h, o);
    var c := CheckSlots(h, o, st, |st|, depth);
    CheckSlotsFrame(h, o, st, |st|, depth);
    GuardedRevalidated(h0, h, c.state, {});
    if c.out.Ok? {
      var v := ValidateForm(c.state, o, depth);
      ValidateFormFrame(c.state, o, depth);
      GuardedRevalidated(h0, c.state, v.state, {});
      if v.out.Ok? && c.out.value && v.out.value {
        SaveGuarded(h0, v.state, o, depth);
      }
    }
  }

  /** `save!` changes only the trace, with no slot write, and keeps `Guarded`. */
  lemma SaveGuarded(h0: Heap, h: Heap, o: Oid, depth: nat)
    requires Guarded(h0, h)
    ensures Guarded(h0, SaveForm(h, o, depth).state)
  {
    var s := SaveForm(h, o, depth);
    SaveFormShift(h, o, depth);
    assert s.state.trace[..|h.trace|] == h.trace;
    assert NewEvents(h, s.state) == SaveForm(Base(h), o, depth).state.trace;
    SameShapeRefl(h);
    GuardedExtend(h0, h, s.state);
  }

  /** Lines 64-84 with line 16: whatever `submit` does, and even when it raises, every record
      attribute it changes was written through a model slot, as a declared field of that slot's
      entry, to the record the slot held when `submit` was called; `persisted?` stays as
      `initialize` left it, and no slot is pointed at another object — though a root-level
      param named like a slot overwrites it with plain data (`RootParamOverwritesSlot`). */
  lemma SubmitGuarded(h: Heap, o: Oid, params: seq<(PKey, Param)>, depth: nat)
    requires IsForm(h, o)
    ensures Guarded(h, Submit(h, o, params, depth).state)
  {
    var h1 := Emit(WriteIvar(h, o, "params", Data(Map(params))), Hook(o, "before_submit"));
    SameShapeRefl(h);
    assert Guarded(h, h) by {
      assert NewEvents(h, h) == [];
    }
    assert h1.trace[..|h.trace|] == h.trace;
    assert NewEvents(h, h1) == [Hook(o, "before_submit")];
    forall x: Oid, k ensures Read(h1, Ref(x), k) == if x == o && k == "params" then Data(Map(params)) else Read(h, Ref(x), k) {
      SetAttrRead(h, o, "params", Data(Map(params)), x, k);
    }
    GuardedExtend(h, h, h1);
    var p := Prepared(h, o, params, depth);
    SetParamsRouted(h1, o, params, None, depth);
    GuardedRouted(h, h1, p.state);
    if p.out.Ok? {
      FinishGuarded(h, p.state, o, depth);
    }
  }
}
