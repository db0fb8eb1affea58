/** `valid?` on the objects the form layer meets: a record reports its own errors; a form clears
    its errors and runs its validation chain — the blocks `inherit_validation` installs
    (lines 197-223) and the presence validators of `inherit_presence_validators`. */
module Validation {
  import opened Values
  import opened Errors
  import opened Schema
  import opened Objects

  const BlankMessage: string := "can't be blank"

  /** `v.valid?`. Anything that is neither a record nor a form raises NoMethodError. */
  function ValidQ(h: Heap, v: Value, depth: nat): Step<Heap, bool>
    decreases depth, 4, 0
  {
    if v.Ref? && IsRecord(h, v.oid) then
      Step(Emit(h, Validated(v.oid)), Ok(Empty(h.objects[v.oid].errors)))
    else if v.Ref? && IsForm(h, v.oid) then ValidateForm(h, v.oid, depth)
    else Step(h, Raised(NoMethodError("valid?")))
  }

  /** `valid?` on form `o`: clear its errors, run its validators in order, report whether its
      errors are empty. */
  function ValidateForm(h: Heap, o: Oid, depth: nat): Step<Heap, bool>
    decreases depth, 3, 0
  {
    var h1 := SetErrors(Emit(h, Validated(o)), o, []);
    var vs := ValidatorsOf(h, o);
    var r := RunValidators(h1, o, vs, |vs|, depth);
    if r.out.Raised? then Step(r.state, Raised(r.out.failure))
    else Step(r.state, Ok(Empty(ErrorsOf(r.state, Ref(o)))))
  }

  /** The first `n` validators of `vs`, in order, on form `o`. */
  function RunValidators(h: Heap, o: Oid, vs: seq<Validator>, n: nat, depth: nat): Step<Heap, ()>
    requires n <= |vs|
    decreases depth, 2, n
  {
    if n == 0 then Step(h, Ok(()))
    else
      var r := RunValidators(h, o, vs, n - 1, depth);
      if r.out.Raised? then r else RunValidator(r.state, o, vs[n - 1], depth)
  }

  function RunValidator(h: Heap, o: Oid, v: Validator, depth: nat): Step<Heap, ()>
    decreases depth, 1, 0
  {
    match v
    case FoldSlot(s) =>
      // lines 200-207, then lines 210-221 over the store
      (match Send(h, Ref(o), s)
       case Raised(f) => Step(h, Raised(f))
       case Ok(m) =>
         var r := CheckAndFold(h, o, m, depth);
         if r.out.Raised? then r
         else
           var st := StoreOf(r.state, o);
           FoldForms(r.state, o, st, |st|, depth))
    case Presence(f, s) =>
      // `validates_presence_of f`, read through the delegated reader `s.f`
      (match Send(h, Ref(o), s)
       case Raised(e) => Step(h, Raised(e))
       case Ok(m) =>
         match Send(h, m, f)
         case Raised(e) => Step(h, Raised(e))
         case Ok(x) =>
           if Blank(x) then Step(SetErrors(h, o, Add(ErrorsOf(h, Ref(o)), f, BlankMessage)), Ok(()))
           else Step(h, Ok(())))
  }

  /** Lines 212-219 (and 200-207) for one object `m`: if `m.valid?` is false, every message of
      `m`, field by field, is added to the errors of form `o`. */
  function CheckAndFold(h: Heap, o: Oid, m: Value, depth: nat): Step<Heap, ()>
    decreases depth, 0, 0
  {
    if depth == 0 then Step(h, Raised(StackTooDeep))
    else
      var r := ValidQ(h, m, depth - 1);
      if r.out.Raised? then Step(r.state, Raised(r.out.failure))
      else if r.out.value then Step(r.state, Ok(()))
      else Step(SetErrors(r.state, o, Fold(ErrorsOf(r.state, Ref(o)), ErrorsOf(r.state, m))), Ok(()))
  }

  /** Lines 210-221 over the first `n` entries of the store: each `:form` slot is checked. */
  function FoldForms(h: Heap, o: Oid, st: Store, n: nat, depth: nat): Step<Heap, ()>
    requires n <= |st|
    decreases depth, 0, n
  {
    if n == 0 then Step(h, Ok(()))
    else
      var r := FoldForms(h, o, st, n - 1, depth);
      if r.out.Raised? || st[n - 1].1.ModelEntry? then r
      else match Send(r.state, Ref(o), st[n - 1].0)
        case Raised(f) => Step(r.state, Raised(f))
        case Ok(m) => CheckAndFold(r.state, o, m, depth)
  }

  /** `valid?` changes only error collections and the trace, and the errors of an object change
      only if `valid?` is called on that object. */
  lemma {:induction false} ValidQFrame(h: Heap, v: Value, depth: nat)
    ensures Revalidated(h, ValidQ(h, v, depth).state, {})
    decreases depth, 4, 0
  {
    if v.Ref? && IsRecord(h, v.oid) {
      var h' := Emit(h, Validated(v.oid));
      assert h'.trace[..|h.trace|] == h.trace;
    } else if v.Ref? && IsForm(h, v.oid) {
      ValidateFormFrame(h, v.oid, depth);
    } else {
      RevalidatedRefl(h, {});
    }
  }

  lemma {:induction false} ValidateFormFrame(h: Heap, o: Oid, depth: nat)
    ensures Revalidated(h, ValidateForm(h, o, depth).state, {})
    decreases depth, 3, 0
  {
    var h0 := Emit(h, Validated(o));
    var h1 := SetErrors(h0, o, []);
    SetErrorsRevalidated(h0, o, []);
    var vs := ValidatorsOf(h, o);
    RunValidatorsFrame(h1, o, vs, |vs|, depth);
    RevalidatedTrans(h0, h1, RunValidators(h1, o, vs, |vs|, depth).state, {o});
    ValidatedCovers(h, RunValidators(h1, o, vs, |vs|, depth).state, o);
  }

  /** Once `o` has been marked validated, changes to `o`'s errors need no further event. */
  lemma ValidatedCovers(h: Heap, h2: Heap, o: Oid)
    requires Revalidated(Emit(h, Validated(o)), h2, {o})
    ensures Revalidated(h, h2, {})
  {
    var h0 := Emit(h, Validated(o));
    assert h0.trace[..|h.trace|] == h.trace;
    assert NewEvents(h, h0) == [Validated(o)];
    NewEventsSplit(h, h0, h2);
    assert Validated(o) in NewEvents(h, h2);
  }

  lemma {:induction false} RunValidatorsFrame(h: Heap, o: Oid, vs: seq<Validator>, n: nat, depth: nat)
    requires n <= |vs|
    ensures Revalidated(h, RunValidators(h, o, vs, n, depth).state, {o})
    decreases depth, 2, n
  {
    if n == 0 {
      RevalidatedRefl(h, {o});
    } else {
      RunValidatorsFrame(h, o, vs, n - 1, depth);
      var r := RunValidators(h, o, vs, n - 1, depth);
      if r.out.Ok? {
        RunValidatorFrame(r.state, o, vs[n - 1], depth);
        RevalidatedTrans(h, r.state, RunValidators(h, o, vs, n, depth).state, {o});
      }
    }
  }

  lemma {:induction false} RunValidatorFrame(h: Heap, o: Oid, v: Validator, depth: nat)
    ensures Revalidated(h, RunValidator(h, o, v, depth).state, {o})
    decreases depth, 1, 0
  {
    RevalidatedRefl(h, {o});
    match v
    case FoldSlot(s) =>
      if Send(h, Ref(o), s).Ok? {
        var m := Send(h, Ref(o), s).value;
        CheckAndFoldFrame(h, o, m, depth);
        var r := CheckAndFold(h, o, m, depth);
        if r.out.Ok? {
          var st := StoreOf(r.state, o);
          FoldFormsFrame(r.state, o, st, |st|, depth);
          RevalidatedTrans(h, r.state, FoldForms(r.state, o, st, |st|, depth).state, {o});
        }
      }
    case Presence(f, s) =>
      SetErrorsRevalidated(h, o, Add(ErrorsOf(h, Ref(o)), f, BlankMessage));
  }

  lemma {:induction false} CheckAndFoldFrame(h: Heap, o: Oid, m: Value, depth: nat)
    ensures Revalidated(h, CheckAndFold(h, o, m, depth).state, {o})
    decreases depth, 0, 0
  {
    if depth == 0 {
      RevalidatedRefl(h, {o});
    } else {
      ValidQFrame(h, m, depth - 1);
      var r := ValidQ(h, m, depth - 1);
      RevalidatedWiden(h, r.state, {}, {o});
      if r.out.Ok? && !r.out.value {
        var e := Fold(ErrorsOf(r.state, Ref(o)), ErrorsOf(r.state, m));
        SetErrorsRevalidated(r.state, o, e);
        RevalidatedTrans(h, r.state, SetErrors(r.state, o, e), {o});
      }
    }
  }

  lemma {:induction false} FoldFormsFrame(h: Heap, o: Oid, st: Store, n: nat, depth: nat)
    requires n <= |st|
    ensures Revalidated(h, FoldForms(h, o, st, n, depth).state, {o})
    decreases depth, 0, n
  {
    if n == 0 {
      RevalidatedRefl(h, {o});
    } else {
      FoldFormsFrame(h, o, st, n - 1, depth);
      var r := FoldForms(h, o, st, n - 1, depth);
      if r.out.Ok? && st[n - 1].1.FormEntry? && Send(r.state, Ref(o), st[n - 1].0).Ok? {
        var m := Send(r.state, Ref(o), st[n - 1].0).value;
        CheckAndFoldFrame(r.state, o, m, depth);
        RevalidatedTrans(h, r.state, CheckAndFold(r.state, o, m, depth).state, {o});
      }
    }
  }

  /** A run that did not validate `o` again left `o`'s errors as they were. */
  lemma UntouchedErrors(h: Heap, h': Heap, h'': Heap, o: Oid)
    requires Revalidated(h, h', {}) && Later(h', h'') && NotValidatedSince(h, h'', o) && IsForm(h, o)
    ensures IsForm(h', o) && ErrorsOf(h', Ref(o)) == ErrorsOf(h, Ref(o))
    ensures NotValidatedSince(h', h'', o)
  {
    forall i | 0 <= i < |NewEvents(h, h')| ensures NewEvents(h, h')[i] != Validated(o) {
      assert h''.trace[|h.trace| + i] == h'.trace[|h.trace| + i];
    }
    forall i | |h'.trace| <= i < |h''.trace| ensures h''.trace[i] != Validated(o) {
    }
  }

  /** Lines 201-207 (and 213-219) for one object `m` whose `valid?` does not validate `o` again:
      if `m` is invalid, every message of `m` is appended to `o`'s errors under the same field,
      in order and without deduplication; if it is valid, `o`'s errors stay as they were. */
  lemma CheckFolds(h: Heap, o: Oid, m: Value, depth: nat)
    requires IsForm(h, o) && Keyed(ErrorsOf(h, Ref(o))) && depth > 0
    requires ValidQ(h, m, depth - 1).out.Ok? && NotValidatedSince(h, ValidQ(h, m, depth - 1).state, o)
    ensures var v := ValidQ(h, m, depth - 1);
      var r := CheckAndFold(h, o, m, depth);
      && r.out.Ok? && IsForm(r.state, o) && Keyed(ErrorsOf(r.state, Ref(o)))
      && forall g :: MessagesFor(ErrorsOf(r.state, Ref(o)), g) ==
           MessagesFor(ErrorsOf(h, Ref(o)), g) + (if v.out.value then [] else MessagesFor(ErrorsOf(v.state, m), g))
  {
    var v := ValidQ(h, m, depth - 1);
    ValidQFrame(h, m, depth - 1);
    UntouchedErrors(h, v.state, v.state, o);
    if !v.out.value {
      forall g ensures MessagesFor(Fold(ErrorsOf(v.state, Ref(o)), ErrorsOf(v.state, m)), g) ==
                       MessagesFor(ErrorsOf(h, Ref(o)), g) + MessagesFor(ErrorsOf(v.state, m), g) {
        FoldMessages(ErrorsOf(v.state, Ref(o)), ErrorsOf(v.state, m), g);
      }
      FoldMessages(ErrorsOf(v.state, Ref(o)), ErrorsOf(v.state, m), "");
    }
  }

  /** While `o`'s validators run without validating `o` again, `o`'s errors only grow. */
  lemma {:induction false} CheckAndFoldGrows(h: Heap, o: Oid, m: Value, depth: nat)
    requires IsForm(h, o) && Keyed(ErrorsOf(h, Ref(o)))
    ensures var r := CheckAndFold(h, o, m, depth);
      NotValidatedSince(h, r.state, o) ==>
        IsForm(r.state, o) && Keyed(ErrorsOf(r.state, Ref(o))) && Grows(ErrorsOf(h, Ref(o)), ErrorsOf(r.state, Ref(o)))
  {
    var r := CheckAndFold(h, o, m, depth);
    CheckAndFoldFrame(h, o, m, depth);
    if NotValidatedSince(h, r.state, o) {
      if depth == 0 {
        GrowsRefl(ErrorsOf(h, Ref(o)));
      } else {
        var v := ValidQ(h, m, depth - 1);
        ValidQFrame(h, m, depth - 1);
        assert r.state.trace == v.state.trace;
        UntouchedErrors(h, v.state, r.state, o);
        if v.out.Ok? && !v.out.value {
          FoldGrows(ErrorsOf(v.state, Ref(o)), ErrorsOf(v.state, m));
        } else {
          GrowsRefl(ErrorsOf(h, Ref(o)));
        }
      }
    }
  }

  lemma {:induction false} FoldFormsGrows(h: Heap, o: Oid, st: Store, n: nat, depth: nat)
    requires n <= |st| && IsForm(h, o) && Keyed(ErrorsOf(h, Ref(o)))
    ensures var r := FoldForms(h, o, st, n, depth);
      NotValidatedSince(h, r.state, o) ==>
        IsForm(r.state, o) && Keyed(ErrorsOf(r.state, Ref(o))) && Grows(ErrorsOf(h, Ref(o)), ErrorsOf(r.state, Ref(o)))
  {
    var r := FoldForms(h, o, st, n, depth);
    FoldFormsFrame(h, o, st, n, depth);
    if NotValidatedSince(h, r.state, o) {
      if n == 0 {
        GrowsRefl(ErrorsOf(h, Ref(o)));
      } else {
        var r1 := FoldForms(h, o, st, n - 1, depth);
        FoldFormsFrame(h, o, st, n - 1, depth);
        var tail := r.state;
        if r1.out.Ok? && st[n - 1].1.FormEntry? && Send(r1.state, Ref(o), st[n - 1].0).Ok? {
          var m := Send(r1.state, Ref(o), st[n - 1].0).value;
          CheckAndFoldFrame(r1.state, o, m, depth);
        } else {
          assert r.state == r1.state;
          RevalidatedRefl(r1.state, {o});
        }
        NewEventsSplit(h, r1.state, r.state);
        assert NotValidatedSince(h, r1.state, o);
        FoldFormsGrows(h, o, st, n - 1, depth);
        if r1.out.Ok? && st[n - 1].1.FormEntry? && Send(r1.state, Ref(o), st[n - 1].0).Ok? {
          var m := Send(r1.state, Ref(o), st[n - 1].0).value;
          assert NotValidatedSince(r1.state, r.state, o);
          CheckAndFoldGrows(r1.state, o, m, depth);
          GrowsTrans(ErrorsOf(h, Ref(o)), ErrorsOf(r1.state, Ref(o)), ErrorsOf(r.state, Ref(o)));
        }
      }
    }
  }

  /** What the check of store entry `p` (lines 212-219) appends to `o`'s errors under field `g`,
      from state `h`: every message for `g` of the slot's object when `p` is a `:form` slot whose
      `valid?` answers false, nothing otherwise. */
  function SlotMessages(h: Heap, o: Oid, p: (Key, Entry), depth: nat, g: Key): seq<string> {
    if p.1.ModelEntry? || depth == 0 || Send(h, Ref(o), p.0).Raised? then []
    else
      var m := Send(h, Ref(o), p.0).value;
      var v := ValidQ(h, m, depth - 1);
      if v.out.Ok? && !v.out.value then MessagesFor(ErrorsOf(v.state, m), g) else []
  }

  /** What the checks of the first `n` store entries append under field `g`, in store order: each
      entry's messages are judged in the state the checks before it left. */
  function FormSlotsMessages(h: Heap, o: Oid, st: Store, n: nat, depth: nat, g: Key): seq<string>
    requires n <= |st|
  {
    if n == 0 then []
    else FormSlotsMessages(h, o, st, n - 1, depth, g) +
         SlotMessages(FoldForms(h, o, st, n - 1, depth).state, o, st[n - 1], depth, g)
  }

  /** Lines 210-221, when the loop over the store completes without validating `o` again: after
      `n` entries `o`'s errors hold what they held before, then the messages of every invalid
      `:form` slot in store order (each entry appends what `FoldFormsAppendsStep` says). */
  lemma {:induction false} FoldFormsAppends(h: Heap, o: Oid, st: Store, n: nat, depth: nat, g: Key)
    requires n <= |st| && IsForm(h, o) && Keyed(ErrorsOf(h, Ref(o)))
    requires var r := FoldForms(h, o, st, n, depth); r.out.Ok? && NotValidatedSince(h, r.state, o)
    ensures MessagesFor(ErrorsOf(FoldForms(h, o, st, n, depth).state, Ref(o)), g) ==
            MessagesFor(ErrorsOf(h, Ref(o)), g) + FormSlotsMessages(h, o, st, n, depth, g)
    decreases n
  {
    if n == 0 {
      AppendNil(MessagesFor(ErrorsOf(h, Ref(o)), g));
    } else {
      FoldFormsAppendsFrom(h, o, st, n, depth, g);
      FoldFormsAppends(h, o, st, n - 1, depth, g);
      FormSlotsMessagesSplit(h, o, st, n, depth, g);
      var r1 := FoldForms(h, o, st, n - 1, depth);
      AppendAssoc(MessagesFor(ErrorsOf(h, Ref(o)), g), FormSlotsMessages(h, o, st, n - 1, depth, g),
                  SlotMessages(r1.state, o, st[n - 1], depth, g));
    }
  }

  /** Entry `n` of a loop that completed from `h` without validating `o` again. */
  lemma FoldFormsAppendsFrom(h: Heap, o: Oid, st: Store, n: nat, depth: nat, g: Key)
    requires 0 < n <= |st| && IsForm(h, o) && Keyed(ErrorsOf(h, Ref(o)))
    requires var r := FoldForms(h, o, st, n, depth); r.out.Ok? && NotValidatedSince(h, r.state, o)
    ensures var r1 := FoldForms(h, o, st, n - 1, depth);
      var r := FoldForms(h, o, st, n, depth);
      && r1.out.Ok? && NotValidatedSince(h, r1.state, o)
      && MessagesFor(ErrorsOf(r.state, Ref(o)), g) ==
         MessagesFor(ErrorsOf(r1.state, Ref(o)), g) + SlotMessages(r1.state, o, st[n - 1], depth, g)
  {
    var r1 := FoldForms(h, o, st, n - 1, depth);
    var r := FoldForms(h, o, st, n, depth);
    FoldFormsLater(h, o, st, n - 1, depth);
    FoldFormsAppendsStep(h, o, st, n, depth);
    NotValidatedSplit(h, r1.state, r.state, o);
    FoldFormsGrows(h, o, st, n - 1, depth);
  }

  lemma FoldFormsLater(h: Heap, o: Oid, st: Store, n: nat, depth: nat)
    requires n <= |st|
    ensures Later(h, FoldForms(h, o, st, n, depth).state)
  {
    FoldFormsFrame(h, o, st, n, depth);
  }

  lemma FormSlotsMessagesSplit(h: Heap, o: Oid, st: Store, n: nat, depth: nat, g: Key)
    requires 0 < n <= |st|
    ensures FormSlotsMessages(h, o, st, n, depth, g) ==
            FormSlotsMessages(h, o, st, n - 1, depth, g) +
            SlotMessages(FoldForms(h, o, st, n - 1, depth).state, o, st[n - 1], depth, g)
  {
  }

  /** One entry of the loop over the store (lines 211-219), after entries that completed: when it
      does not validate `o` again, it appends to `o`'s errors exactly the messages of its slot if
      that is a `:form` slot whose `valid?` answered false, and nothing otherwise. */
  lemma FoldFormsAppendsStep(h: Heap, o: Oid, st: Store, n: nat, depth: nat)
    requires 0 < n <= |st|
    ensures var r1 := FoldForms(h, o, st, n - 1, depth);
      var r := FoldForms(h, o, st, n, depth);
      Later(r1.state, r.state) && (r.out.Ok? ==> r1.out.Ok?) &&
      (IsForm(r1.state, o) && Keyed(ErrorsOf(r1.state, Ref(o))) &&
       r.out.Ok? && NotValidatedSince(r1.state, r.state, o) ==>
        && IsForm(r.state, o) && Keyed(ErrorsOf(r.state, Ref(o)))
        && forall g :: MessagesFor(ErrorsOf(r.state, Ref(o)), g) ==
             MessagesFor(ErrorsOf(r1.state, Ref(o)), g) + SlotMessages(r1.state, o, st[n - 1], depth, g))
  {
    var r1 := FoldForms(h, o, st, n - 1, depth);
    var r := FoldForms(h, o, st, n, depth);
    if r1.out.Ok? && st[n - 1].1.FormEntry? && Send(r1.state, Ref(o), st[n - 1].0).Ok? {
      var m := Send(r1.state, Ref(o), st[n - 1].0).value;
      CheckAndFoldFrame(r1.state, o, m, depth);
      if IsForm(r1.state, o) && Keyed(ErrorsOf(r1.state, Ref(o))) && r.out.Ok? && NotValidatedSince(r1.state, r.state, o) {
        var v := ValidQ(r1.state, m, depth - 1);
        assert v.state.trace == r.state.trace;
        CheckFolds(r1.state, o, m, depth);
      }
    } else {
      assert r.state.trace[..|r1.state.trace|] == r1.state.trace;
    }
  }

  /** The `inherit_validation` block for slot `s` (lines 198-222), when it does not validate `o`
      again: `o`'s errors keep what they had, then hold every message of the slot's object if that
      object is invalid, in order; the checks of the `:form` slots after it only append more, and
      when the block completes they have appended exactly the messages of every invalid `:form`
      slot, in store order. */
  lemma FoldSlotAppends(h: Heap, o: Oid, s: Key, depth: nat)
    requires IsForm(h, o) && Keyed(ErrorsOf(h, Ref(o))) && depth > 0 && Send(h, Ref(o), s).Ok?
    requires ValidQ(h, Send(h, Ref(o), s).value, depth - 1).out.Ok?
    ensures var m := Send(h, Ref(o), s).value;
      var v := ValidQ(h, m, depth - 1);
      var r := RunValidator(h, o, FoldSlot(s), depth);
      NotValidatedSince(h, r.state, o) ==>
        && IsForm(r.state, o) && Keyed(ErrorsOf(r.state, Ref(o)))
        && forall g ::
             var pre := MessagesFor(ErrorsOf(h, Ref(o)), g) +
                        (if v.out.value then [] else MessagesFor(ErrorsOf(v.state, m), g));
             |pre| <= |MessagesFor(ErrorsOf(r.state, Ref(o)), g)| &&
             MessagesFor(ErrorsOf(r.state, Ref(o)), g)[..|pre|] == pre
    ensures var m := Send(h, Ref(o), s).value;
      var v := ValidQ(h, m, depth - 1);
      var c := CheckAndFold(h, o, m, depth);
      var r := RunValidator(h, o, FoldSlot(s), depth);
      var st := StoreOf(h, o);
      r.out.Ok? && NotValidatedSince(h, r.state, o) ==>
        forall g :: MessagesFor(ErrorsOf(r.state, Ref(o)), g) ==
          MessagesFor(ErrorsOf(h, Ref(o)), g) +
          (if v.out.value then [] else MessagesFor(ErrorsOf(v.state, m), g)) +
          FormSlotsMessages(c.state, o, st, |st|, depth, g)
  {
    var m := Send(h, Ref(o), s).value;
    var v := ValidQ(h, m, depth - 1);
    var r := RunValidator(h, o, FoldSlot(s), depth);
    var c := CheckAndFold(h, o, m, depth);
    if NotValidatedSince(h, r.state, o) {
      CheckAndFoldFrame(h, o, m, depth);
      ValidQFrame(h, m, depth - 1);
      var st := StoreOf(c.state, o);
      FoldFormsFrame(c.state, o, st, |st|, depth);
      assert Later(v.state, c.state);
      NotValidatedSplit(h, c.state, r.state, o);
      NotValidatedSplit(h, v.state, c.state, o);
      CheckFolds(h, o, m, depth);
      FoldFormsGrows(c.state, o, st, |st|, depth);
      if r.out.Ok? {
        FoldSlotExact(h, o, s, depth);
      }
    }
  }

  /** The loop part of `FoldSlotAppends`, once the check of the slot's object has completed. */
  lemma FoldSlotExact(h: Heap, o: Oid, s: Key, depth: nat)
    requires IsForm(h, o) && depth > 0 && Send(h, Ref(o), s).Ok?
    requires var c := CheckAndFold(h, o, Send(h, Ref(o), s).value, depth);
      c.out.Ok? && IsForm(c.state, o) && Keyed(ErrorsOf(c.state, Ref(o)))
    ensures var c := CheckAndFold(h, o, Send(h, Ref(o), s).value, depth);
      var r := RunValidator(h, o, FoldSlot(s), depth);
      var st := StoreOf(h, o);
      r.out.Ok? && NotValidatedSince(c.state, r.state, o) ==>
        forall g :: MessagesFor(ErrorsOf(r.state, Ref(o)), g) ==
          MessagesFor(ErrorsOf(c.state, Ref(o)), g) + FormSlotsMessages(c.state, o, st, |st|, depth, g)
  {
    var m := Send(h, Ref(o), s).value;
    var c := CheckAndFold(h, o, m, depth);
    CheckAndFoldFrame(h, o, m, depth);
    assert c.state.objects[o].cls == h.objects[o].cls;
    assert StoreOf(c.state, o) == StoreOf(h, o);
    var st := StoreOf(h, o);
    forall g ensures var r := RunValidator(h, o, FoldSlot(s), depth);
      r.out.Ok? && NotValidatedSince(c.state, r.state, o) ==>
        MessagesFor(ErrorsOf(r.state, Ref(o)), g) ==
        MessagesFor(ErrorsOf(c.state, Ref(o)), g) + FormSlotsMessages(c.state, o, st, |st|, depth, g)
    {
      var r := RunValidator(h, o, FoldSlot(s), depth);
      if r.out.Ok? && NotValidatedSince(c.state, r.state, o) {
        FoldFormsAppends(c.state, o, st, |st|, depth, g);
      }
    }
  }

  lemma RunValidatorGrows(h: Heap, o: Oid, v: Validator, depth: nat)
    requires IsForm(h, o) && Keyed(ErrorsOf(h, Ref(o)))
    ensures var r := RunValidator(h, o, v, depth);
      NotValidatedSince(h, r.state, o) ==>
        IsForm(r.state, o) && Keyed(ErrorsOf(r.state, Ref(o))) && Grows(ErrorsOf(h, Ref(o)), ErrorsOf(r.state, Ref(o)))
  {
    var r := RunValidator(h, o, v, depth);
    GrowsRefl(ErrorsOf(h, Ref(o)));
    if NotValidatedSince(h, r.state, o) {
      match v
      case FoldSlot(s) =>
        if Send(h, Ref(o), s).Ok? {
          var m := Send(h, Ref(o), s).value;
          var c := CheckAndFold(h, o, m, depth);
          CheckAndFoldFrame(h, o, m, depth);
          if c.out.Ok? {
            var st := StoreOf(c.state, o);
            FoldFormsFrame(c.state, o, st, |st|, depth);
            NewEventsSplit(h, c.state, r.state);
            assert NotValidatedSince(h, c.state, o);
            CheckAndFoldGrows(h, o, m, depth);
            assert NotValidatedSince(c.state, r.state, o);
            FoldFormsGrows(c.state, o, st, |st|, depth);
            GrowsTrans(ErrorsOf(h, Ref(o)), ErrorsOf(c.state, Ref(o)), ErrorsOf(r.state, Ref(o)));
          } else {
            CheckAndFoldGrows(h, o, m, depth);
          }
        }
      case Presence(f, s) =>
        AddGrows(ErrorsOf(h, Ref(o)), f, BlankMessage);
    }
  }

  /** Validators `i` to `n` of the chain, run without validating `o` again, only add to `o`'s
      errors. */
  lemma {:induction false} RunValidatorsGrows(h: Heap, o: Oid, vs: seq<Validator>, i: nat, n: nat, depth: nat)
    requires i <= n <= |vs| && IsForm(h, o) && Keyed(ErrorsOf(h, Ref(o)))
    requires RunValidators(h, o, vs, i, depth).out.Ok?
    ensures var a := RunValidators(h, o, vs, i, depth).state;
      var b := RunValidators(h, o, vs, n, depth).state;
      Later(a, b) && (NotValidatedSince(h, b, o) ==>
        IsForm(a, o) && Keyed(ErrorsOf(a, Ref(o))) && IsForm(b, o) && Keyed(ErrorsOf(b, Ref(o))) &&
        Grows(ErrorsOf(a, Ref(o)), ErrorsOf(b, Ref(o))))
    decreases n
  {
    if i == n {
      var a := RunValidators(h, o, vs, i, depth).state;
      RunValidatorsFrame(h, o, vs, i, depth);
      assert a.trace[..|a.trace|] == a.trace;
      if NotValidatedSince(h, a, o) {
        RunValidatorsPrefixGrows(h, o, vs, i, depth);
        GrowsRefl(ErrorsOf(a, Ref(o)));
      }
    } else {
      RunValidatorsGrows(h, o, vs, i, n - 1, depth);
      RunValidatorsLastGrows(h, o, vs, n, depth);
      var a := RunValidators(h, o, vs, i, depth).state;
      var a1 := RunValidators(h, o, vs, n - 1, depth).state;
      var b := RunValidators(h, o, vs, n, depth).state;
      NewEventsSplit(a, a1, b);
      if NotValidatedSince(h, b, o) {
        GrowsTrans(ErrorsOf(a, Ref(o)), ErrorsOf(a1, Ref(o)), ErrorsOf(b, Ref(o)));
      }
    }
  }

  /** The last validator of the first `n`, whether or not the chain raised before it. */
  lemma RunValidatorsLastGrows(h: Heap, o: Oid, vs: seq<Validator>, n: nat, depth: nat)
    requires 0 < n <= |vs| && IsForm(h, o) && Keyed(ErrorsOf(h, Ref(o)))
    ensures var a := RunValidators(h, o, vs, n - 1, depth).state;
      var b := RunValidators(h, o, vs, n, depth).state;
      Later(h, a) && Later(a, b) && (NotValidatedSince(h, b, o) ==>
        NotValidatedSince(h, a, o) &&
        (IsForm(a, o) && Keyed(ErrorsOf(a, Ref(o))) ==>
          IsForm(b, o) && Keyed(ErrorsOf(b, Ref(o))) && Grows(ErrorsOf(a, Ref(o)), ErrorsOf(b, Ref(o)))))
  {
    var r1 := RunValidators(h, o, vs, n - 1, depth);
    if r1.out.Ok? {
      RunValidatorsStepGrows(h, o, vs, n, depth);
    } else {
      var b := RunValidators(h, o, vs, n, depth).state;
      RunValidatorsFrame(h, o, vs, n - 1, depth);
      assert b == r1.state;
      assert b.trace[..|b.trace|] == b.trace;
      GrowsRefl(ErrorsOf(b, Ref(o)));
    }
  }

  /** One more validator of the chain only adds to `o`'s errors, when it does not validate `o`. */
  lemma RunValidatorsStepGrows(h: Heap, o: Oid, vs: seq<Validator>, n: nat, depth: nat)
    requires 0 < n <= |vs| && IsForm(h, o) && Keyed(ErrorsOf(h, Ref(o)))
    requires RunValidators(h, o, vs, n - 1, depth).out.Ok?
    ensures var a := RunValidators(h, o, vs, n - 1, depth).state;
      var b := RunValidators(h, o, vs, n, depth).state;
      Later(h, a) && Later(a, b) && (NotValidatedSince(h, b, o) ==>
        NotValidatedSince(h, a, o) &&
        (IsForm(a, o) && Keyed(ErrorsOf(a, Ref(o))) ==>
          IsForm(b, o) && Keyed(ErrorsOf(b, Ref(o))) && Grows(ErrorsOf(a, Ref(o)), ErrorsOf(b, Ref(o)))))
  {
    var a := RunValidators(h, o, vs, n - 1, depth).state;
    var b := RunValidators(h, o, vs, n, depth).state;
    RunValidatorsFrame(h, o, vs, n - 1, depth);
    RunValidatorFrame(a, o, vs[n - 1], depth);
    NewEventsSplit(h, a, b);
    if NotValidatedSince(h, b, o) {
      assert NotValidatedSince(h, a, o);
      assert NotValidatedSince(a, b, o);
      if IsForm(a, o) && Keyed(ErrorsOf(a, Ref(o))) {
        RunValidatorGrows(a, o, vs[n - 1], depth);
      }
    }
  }

  /** The chain up to `i` leaves `o` a form with keyed errors, when it does not validate `o`. */
  lemma {:induction false} RunValidatorsPrefixGrows(h: Heap, o: Oid, vs: seq<Validator>, i: nat, depth: nat)
    requires i <= |vs| && IsForm(h, o) && Keyed(ErrorsOf(h, Ref(o)))
    ensures var a := RunValidators(h, o, vs, i, depth).state;
      IsForm(a, o) && (NotValidatedSince(h, a, o) ==> Keyed(ErrorsOf(a, Ref(o))))
    decreases i
  {
    RunValidatorsFrame(h, o, vs, i, depth);
    OnlyErrorsShape(h, RunValidators(h, o, vs, i, depth).state);
    if i > 0 {
      RunValidatorsPrefixGrows(h, o, vs, i - 1, depth);
      RunValidatorsLastGrows(h, o, vs, i, depth);
    }
  }

  /** `valid?` on a form whose validators do not validate it again is false as soon as any
      prefix of its validation chain has recorded an error: errors are cleared once, at the
      start, and validators only add to them. */
  lemma ValidatorErrorInvalidates(h: Heap, o: Oid, i: nat, depth: nat)
    requires IsForm(h, o) && i <= |ValidatorsOf(h, o)|
    requires var h1 := SetErrors(Emit(h, Validated(o)), o, []);
      var p := RunValidators(h1, o, ValidatorsOf(h, o), i, depth);
      p.out.Ok? && !Empty(ErrorsOf(p.state, Ref(o)))
    ensures var h1 := SetErrors(Emit(h, Validated(o)), o, []);
      var r := ValidateForm(h, o, depth);
      r.out.Ok? && NotValidatedSince(h1, r.state, o) ==> !r.out.value
  {
    var h1 := SetErrors(Emit(h, Validated(o)), o, []);
    var vs := ValidatorsOf(h, o);
    var r := ValidateForm(h, o, depth);
    if r.out.Ok? && NotValidatedSince(h1, r.state, o) {
      var p := RunValidators(h1, o, vs, i, depth);
      RunValidatorsFrame(h1, o, vs, i, depth);
      RunValidatorsGrows(h1, o, vs, i, |vs|, depth);
      GrowsNonEmpty(ErrorsOf(p.state, Ref(o)), ErrorsOf(r.state, Ref(o)));
    }
  }

  /** A chain that raised stays raised: the validators after it do not run. */
  lemma {:induction false} RunValidatorsRaisedStays(h: Heap, o: Oid, vs: seq<Validator>, i: nat, n: nat, depth: nat)
    requires i <= n <= |vs| && RunValidators(h, o, vs, i, depth).out.Raised?
    ensures RunValidators(h, o, vs, n, depth) == RunValidators(h, o, vs, i, depth)
    decreases n
  {
    if i < n {
      RunValidatorsRaisedStays(h, o, vs, i, n - 1, depth);
    }
  }

  /** Validator `i` of the chain of form `o`, run inside a `valid?` that completes without
      validating `o` again: the chain before it and the validator itself complete, and an error
      on the form once that validator has run makes `valid?` false. */
  lemma SlotErrorInvalidates(h: Heap, o: Oid, i: nat, depth: nat)
    requires IsForm(h, o) && 0 < i <= |ValidatorsOf(h, o)|
    requires var h1 := SetErrors(Emit(h, Validated(o)), o, []);
      RunValidators(h1, o, ValidatorsOf(h, o), i - 1, depth).out.Ok?
    ensures var h1 := SetErrors(Emit(h, Validated(o)), o, []);
      var vs := ValidatorsOf(h, o);
      var p := RunValidators(h1, o, vs, i - 1, depth);
      var q := RunValidators(h1, o, vs, i, depth);
      var r := ValidateForm(h, o, depth);
      r.out.Ok? && NotValidatedSince(h1, r.state, o) ==>
        && q.out.Ok? && IsForm(p.state, o) && Keyed(ErrorsOf(p.state, Ref(o)))
        && NotValidatedSince(p.state, q.state, o)
        && (!Empty(ErrorsOf(q.state, Ref(o))) ==> !r.out.value)
  {
    var h1 := SetErrors(Emit(h, Validated(o)), o, []);
    var vs := ValidatorsOf(h, o);
    var p := RunValidators(h1, o, vs, i - 1, depth);
    var q := RunValidators(h1, o, vs, i, depth);
    var r := ValidateForm(h, o, depth);
    if r.out.Ok? && NotValidatedSince(h1, r.state, o) {
      if q.out.Raised? {
        RunValidatorsRaisedStays(h1, o, vs, i, |vs|, depth);
      }
      RunValidatorsGrows(h1, o, vs, i, |vs|, depth);
      RunValidatorsLastGrows(h1, o, vs, i, depth);
      NotValidatedSplit(h1, q.state, r.state, o);
      RunValidatorsPrefixGrows(h1, o, vs, i - 1, depth);
      if !Empty(ErrorsOf(q.state, Ref(o))) {
        ValidatorErrorInvalidates(h, o, i, depth);
      }
    }
  }

  /** An object whose `valid?` answers false holds a message under some field. */
  lemma InvalidHasMessages(h: Heap, v: Value, depth: nat)
    requires ValidQ(h, v, depth).out == Ok(false)
    ensures exists g :: MessagesFor(ErrorsOf(ValidQ(h, v, depth).state, v), g) != []
  {
    var e := ErrorsOf(ValidQ(h, v, depth).state, v);
    var k :| 0 <= k < |e| && e[k].1 != [];
    MessagesForAt(e, k);
  }

  lemma {:induction false} MessagesForAt(e: ErrorList, k: nat)
    requires k < |e| && e[k].1 != []
    ensures MessagesFor(e, e[k].0) != []
  {
    if k > 0 {
      assert e[1..][k - 1] == e[k];
      MessagesForAt(e[1..], k - 1);
    }
  }

  /** The block for slot `s` leaves an error on the form when the slot's object is invalid. */
  lemma ModelSlotLeavesError(h: Heap, o: Oid, s: Key, depth: nat)
    requires IsForm(h, o) && Keyed(ErrorsOf(h, Ref(o))) && depth > 0 && Send(h, Ref(o), s).Ok?
    requires ValidQ(h, Send(h, Ref(o), s).value, depth - 1).out == Ok(false)
    ensures var r := RunValidator(h, o, FoldSlot(s), depth);
      NotValidatedSince(h, r.state, o) ==> !Empty(ErrorsOf(r.state, Ref(o)))
  {
    var r := RunValidator(h, o, FoldSlot(s), depth);
    var m := Send(h, Ref(o), s).value;
    if NotValidatedSince(h, r.state, o) {
      FoldSlotAppends(h, o, s, depth);
      InvalidHasMessages(h, m, depth - 1);
      var g :| MessagesFor(ErrorsOf(ValidQ(h, m, depth - 1).state, m), g) != [];
      if Empty(ErrorsOf(r.state, Ref(o))) {
        MessagesForEmpty(ErrorsOf(r.state, Ref(o)), g);
      }
    }
  }

  /** Lines 201-207 feeding line 223: when the model slot of an `inherit_validation` block
      answers `valid?` false, the form's own `valid?` is false, unless the chain raises or
      validates the form again. */
  lemma ModelSlotInvalidates(h: Heap, o: Oid, i: nat, depth: nat)
    requires IsForm(h, o) && 0 < i <= |ValidatorsOf(h, o)| && ValidatorsOf(h, o)[i - 1].FoldSlot? && depth > 0
    requires var h1 := SetErrors(Emit(h, Validated(o)), o, []);
      var p := RunValidators(h1, o, ValidatorsOf(h, o), i - 1, depth);
      var s := ValidatorsOf(h, o)[i - 1].slot;
      p.out.Ok? && Send(p.state, Ref(o), s).Ok? &&
      ValidQ(p.state, Send(p.state, Ref(o), s).value, depth - 1).out == Ok(false)
    ensures var h1 := SetErrors(Emit(h, Validated(o)), o, []);
      var r := ValidateForm(h, o, depth);
      r.out.Ok? && NotValidatedSince(h1, r.state, o) ==> !r.out.value
  {
    var h1 := SetErrors(Emit(h, Validated(o)), o, []);
    var vs := ValidatorsOf(h, o);
    var p := RunValidators(h1, o, vs, i - 1, depth);
    var r := ValidateForm(h, o, depth);
    if r.out.Ok? && NotValidatedSince(h1, r.state, o) {
      SlotErrorInvalidates(h, o, i, depth);
      ModelSlotLeavesError(p.state, o, vs[i - 1].slot, depth);
    }
  }

  /** The loop over the store only appends: there are at least as many messages after `n`
      entries as after `j`. */
  lemma FormSlotsMessagesHas(h: Heap, o: Oid, st: Store, j: nat, n: nat, depth: nat, g: Key)
    requires j <= n <= |st|
    ensures |FormSlotsMessages(h, o, st, j, depth, g)| <= |FormSlotsMessages(h, o, st, n, depth, g)|
  {
    var k := j;
    while k < n
      invariant j <= k <= n
      invariant |FormSlotsMessages(h, o, st, j, depth, g)| <= |FormSlotsMessages(h, o, st, k, depth, g)|
    {
      FormSlotsMessagesStep(h, o, st, k + 1, depth, g);
      k := k + 1;
    }
  }

  lemma FormSlotsMessagesStep(h: Heap, o: Oid, st: Store, n: nat, depth: nat, g: Key)
    requires 0 < n <= |st|
    ensures |FormSlotsMessages(h, o, st, n - 1, depth, g)| <= |FormSlotsMessages(h, o, st, n, depth, g)|
  {
  }

  lemma FormSlotsMessagesLast(h: Heap, o: Oid, st: Store, n: nat, depth: nat, g: Key)
    requires 0 < n <= |st|
    ensures |SlotMessages(FoldForms(h, o, st, n - 1, depth).state, o, st[n - 1], depth, g)| <=
            |FormSlotsMessages(h, o, st, n, depth, g)|
  {
  }

  /** A `:form` slot whose `valid?` answers false has a message to append under some field. */
  lemma InvalidSlotMessages(h: Heap, o: Oid, p: (Key, Entry), depth: nat)
    requires p.1.FormEntry? && depth > 0 && Send(h, Ref(o), p.0).Ok?
    requires ValidQ(h, Send(h, Ref(o), p.0).value, depth - 1).out == Ok(false)
    ensures exists g :: |SlotMessages(h, o, p, depth, g)| > 0
  {
    var m := Send(h, Ref(o), p.0).value;
    InvalidHasMessages(h, m, depth - 1);
    var g :| MessagesFor(ErrorsOf(ValidQ(h, m, depth - 1).state, m), g) != [];
    assert |SlotMessages(h, o, p, depth, g)| > 0;
  }

  /** A `:form` slot whose `valid?` answers false when the loop over the store reaches it leaves
      the loop with a message to append under some field. */
  lemma InvalidSlotLoopMessages(h: Heap, o: Oid, st: Store, j: nat, depth: nat)
    requires j < |st| && st[j].1.FormEntry? && depth > 0
    requires var f := FoldForms(h, o, st, j, depth);
      f.out.Ok? && Send(f.state, Ref(o), st[j].0).Ok? &&
      ValidQ(f.state, Send(f.state, Ref(o), st[j].0).value, depth - 1).out == Ok(false)
    ensures exists g :: |FormSlotsMessages(h, o, st, |st|, depth, g)| > 0
  {
    var f := FoldForms(h, o, st, j, depth);
    InvalidSlotMessages(f.state, o, st[j], depth);
    var g :| |SlotMessages(f.state, o, st[j], depth, g)| > 0;
    FormSlotsMessagesLast(h, o, st, j + 1, depth, g);
    FormSlotsMessagesHas(h, o, st, j + 1, |st|, depth, g);
  }

  /** The block for slot `s` leaves an error on the form when `:form` slot `j` of its store is
      invalid at the point the loop checks it. */
  lemma FormSlotLeavesError(h: Heap, o: Oid, s: Key, j: nat, depth: nat)
    requires IsForm(h, o) && Keyed(ErrorsOf(h, Ref(o))) && depth > 0 && Send(h, Ref(o), s).Ok?
    requires j < |StoreOf(h, o)| && StoreOf(h, o)[j].1.FormEntry?
    requires var c := CheckAndFold(h, o, Send(h, Ref(o), s).value, depth);
      var f := FoldForms(c.state, o, StoreOf(h, o), j, depth);
      f.out.Ok? && Send(f.state, Ref(o), StoreOf(h, o)[j].0).Ok? &&
      ValidQ(f.state, Send(f.state, Ref(o), StoreOf(h, o)[j].0).value, depth - 1).out == Ok(false)
    ensures var r := RunValidator(h, o, FoldSlot(s), depth);
      r.out.Ok? && NotValidatedSince(h, r.state, o) ==> !Empty(ErrorsOf(r.state, Ref(o)))
  {
    var r := RunValidator(h, o, FoldSlot(s), depth);
    var st := StoreOf(h, o);
    if r.out.Ok? && NotValidatedSince(h, r.state, o) {
      var m := Send(h, Ref(o), s).value;
      var c := CheckAndFold(h, o, m, depth);
      InvalidSlotLoopMessages(c.state, o, st, j, depth);
      var g :| |FormSlotsMessages(c.state, o, st, |st|, depth, g)| > 0;
      var loop := FormSlotsMessages(c.state, o, st, |st|, depth, g);
      assert c.out.Ok? && ValidQ(h, m, depth - 1).out.Ok?;
      FoldSlotAppends(h, o, s, depth);
      var v := ValidQ(h, m, depth - 1);
      assert MessagesFor(ErrorsOf(r.state, Ref(o)), g) ==
        MessagesFor(ErrorsOf(h, Ref(o)), g) + (if v.out.value then [] else MessagesFor(ErrorsOf(v.state, m), g)) + loop;
      if Empty(ErrorsOf(r.state, Ref(o))) {
        MessagesForEmpty(ErrorsOf(r.state, Ref(o)), g);
      }
    }
  }

  /** Lines 210-221 feeding line 223: when a `:form` slot of an `inherit_validation` block
      answers `valid?` false, the form's own `valid?` is false, unless the chain raises or
      validates the form again. */
  lemma FormSlotInvalidates(h: Heap, o: Oid, i: nat, j: nat, depth: nat)
    requires IsForm(h, o) && 0 < i <= |ValidatorsOf(h, o)| && ValidatorsOf(h, o)[i - 1].FoldSlot? && depth > 0
    requires var h1 := SetErrors(Emit(h, Validated(o)), o, []);
      var p := RunValidators(h1, o, ValidatorsOf(h, o), i - 1, depth);
      var s := ValidatorsOf(h, o)[i - 1].slot;
      && p.out.Ok? && Send(p.state, Ref(o), s).Ok?
      && j < |StoreOf(p.state, o)| && StoreOf(p.state, o)[j].1.FormEntry?
      && var c := CheckAndFold(p.state, o, Send(p.state, Ref(o), s).value, depth);
         var f := FoldForms(c.state, o, StoreOf(p.state, o), j, depth);
         f.out.Ok? && Send(f.state, Ref(o), StoreOf(p.state, o)[j].0).Ok? &&
         ValidQ(f.state, Send(f.state, Ref(o), StoreOf(p.state, o)[j].0).value, depth - 1).out == Ok(false)
    ensures var h1 := SetErrors(Emit(h, Validated(o)), o, []);
      var r := ValidateForm(h, o, depth);
      r.out.Ok? && NotValidatedSince(h1, r.state, o) ==> !r.out.value
  {
    var h1 := SetErrors(Emit(h, Validated(o)), o, []);
    var vs := ValidatorsOf(h, o);
    var p := RunValidators(h1, o, vs, i - 1, depth);
    var r := ValidateForm(h, o, depth);
    if r.out.Ok? && NotValidatedSince(h1, r.state, o) {
      SlotErrorInvalidates(h, o, i, depth);
      FormSlotLeavesError(p.state, o, vs[i - 1].slot, j, depth);
    }
  }
}
