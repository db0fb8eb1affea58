/** The form layer as the program runs it: one mutable Ruby process (its constants, its objects,
    the allocation counter and the calls observed so far), and a method per operation that
    updates that state in place, loop by loop, as `lib/powertools/form.rb` does. Each method is
    proved to end in exactly the state, and with exactly the outcome, of the function that
    specifies the operation; the properties proved about those functions therefore hold of the
    methods. */
module Runtime {
  import opened Values
  import opened Errors
  import opened Schema
  import opened Objects
  import Construction
  import Declaration
  import Router
  import Validation
  import Saving
  import Submission

  // A raise ends each prefix fold: the later entries leave the outcome as it was.

  lemma {:induction false} MergeIntoSticks(child: Store, parent: Store, i: nat, n: nat)
    requires i <= n <= |parent| && MergeInto(child, parent, i).out.Raised?
    ensures MergeInto(child, parent, n) == MergeInto(child, parent, i)
    decreases n
  {
    if n > i {
      MergeIntoSticks(child, parent, i, n - 1);
    }
  }

  lemma {:induction false} ComposeAllSticks(h: Heap, o: Oid, st: Store, i: nat, n: nat, model: Value, depth: nat)
    requires i <= n <= |st| && Construction.ComposeAll(h, o, st, i, model, depth).out.Raised?
    ensures Construction.ComposeAll(h, o, st, n, model, depth) == Construction.ComposeAll(h, o, st, i, model, depth)
    decreases n
  {
    if n > i {
      ComposeAllSticks(h, o, st, i, n - 1, model, depth);
    }
  }

  lemma {:induction false} AssignPairsSticks(h: Heap, o: Oid, params: seq<(PKey, Param)>, i: nat, n: nat, slot: Option<(Key, seq<Key>)>, depth: nat)
    requires i <= n <= |params| && Router.AssignPairs(h, o, params, i, slot, depth).out.Raised?
    ensures Router.AssignPairs(h, o, params, n, slot, depth) == Router.AssignPairs(h, o, params, i, slot, depth)
    decreases n
  {
    if n > i {
      AssignPairsSticks(h, o, params, i, n - 1, slot, depth);
    }
  }

  lemma {:induction false} RunValidatorsSticks(h: Heap, o: Oid, vs: seq<Validator>, i: nat, n: nat, depth: nat)
    requires i <= n <= |vs| && Validation.RunValidators(h, o, vs, i, depth).out.Raised?
    ensures Validation.RunValidators(h, o, vs, n, depth) == Validation.RunValidators(h, o, vs, i, depth)
    decreases n
  {
    if n > i {
      RunValidatorsSticks(h, o, vs, i, n - 1, depth);
    }
  }

  lemma {:induction false} FoldFormsSticks(h: Heap, o: Oid, st: Store, i: nat, n: nat, depth: nat)
    requires i <= n <= |st| && Validation.FoldForms(h, o, st, i, depth).out.Raised?
    ensures Validation.FoldForms(h, o, st, n, depth) == Validation.FoldForms(h, o, st, i, depth)
    decreases n
  {
    if n > i {
      FoldFormsSticks(h, o, st, i, n - 1, depth);
    }
  }

  lemma {:induction false} SaveFormsSticks(h: Heap, o: Oid, st: Store, i: nat, n: nat, mn: Key, depth: nat)
    requires i <= n <= |st| && Saving.SaveForms(h, o, st, i, mn, depth).out.Raised?
    ensures Saving.SaveForms(h, o, st, n, mn, depth) == Saving.SaveForms(h, o, st, i, mn, depth)
    decreases n
  {
    if n > i {
      SaveFormsSticks(h, o, st, i, n - 1, mn, depth);
    }
  }

  lemma {:induction false} CheckSlotsSticks(h: Heap, o: Oid, st: Store, i: nat, n: nat, depth: nat)
    requires i <= n <= |st| && Submission.CheckSlots(h, o, st, i, depth).out.Raised?
    ensures Submission.CheckSlots(h, o, st, n, depth) == Submission.CheckSlots(h, o, st, i, depth)
    decreases n
  {
    if n > i {
      CheckSlotsSticks(h, o, st, i, n - 1, depth);
    }
  }

  /** The state of a Ruby process running the form layer. */
  class Process {
    var consts: map<ClassName, Constant>
    var objects: map<Oid, Obj>
    var next: Oid
    var trace: seq<Event>

    /** The state as a value. */
    function State(): Heap
      reads this
    {
      Heap(consts, objects, next, trace)
    }

    constructor (h: Heap)
      ensures State() == h
    {
      consts, objects, next, trace := h.consts, h.objects, h.next, h.trace;
    }

    // ---- primitive updates --------------------------------------------------------------

    /** `t.send("k=", v)`. */
    method Assign(t: Oid, k: Key, v: Value)
      modifies this
      ensures State() == SetAttr(old(State()), t, k, v)
    {
      if t in objects {
        match objects[t]
        case Record(c, attrs, errs) =>
          objects := objects[t := Record(c, attrs[k := v], errs)];
        case Form(c, p, ivars, acc, errs) =>
          objects := objects[t := Form(c, p, ivars[k := v], acc, errs)];
      }
    }

    /** `@k = v` inside form `o`. */
    method SetIvar(o: Oid, k: Key, v: Value)
      modifies this
      ensures State() == WriteIvar(old(State()), o, k, v)
    {
      if o in objects && objects[o].Form? {
        var f := objects[o];
        objects := objects[o := f.(ivars := f.ivars[k := v])];
      }
    }

    /** `add_method v, k` (lines 57-62). */
    method AddMethod(o: Oid, k: Key, v: Value)
      modifies this
      ensures State() == Attach(old(State()), o, k, v)
    {
      if o in objects && objects[o].Form? {
        var f := objects[o];
        objects := objects[o := f.(ivars := f.ivars[k := v], accessors := f.accessors + {k})];
      }
    }

    method SetErrorList(o: Oid, e: ErrorList)
      modifies this
      ensures State() == SetErrors(old(State()), o, e)
    {
      if o in objects {
        objects := objects[o := objects[o].(errors := e)];
      }
    }

    method Log(e: Event)
      modifies this
      ensures State() == Emit(old(State()), e)
    {
      trace := trace + [e];
    }

    // ---- declaration ----------------------------------------------------------------------

    /** `delegate *fields, to_model: sym` on form class `c` (lines 158-175). */
    method DelegateToModel(c: ClassName, fields: seq<Key>, sym: Key, cls: ClassName) returns (out: Result<()>)
      requires IsFormClass(State(), c)
      modifies this
      ensures Step(State(), out) == Declaration.DelegateToModel(old(State()), c, fields, sym, cls)
    {
      var fc := consts[c].form;
      if cls !in consts {
        return Raised(NameError(cls));
      }
      var d := DeclareModel(fc.store, fields, sym, cls);
      if d.Raised? {
        return Raised(d.failure);
      }
      var vs := fc.validators + [FoldSlot(sym)] +
                Declaration.PresenceValidators(Declaration.PresenceList(consts[cls]), fields, sym);
      consts := consts[c := FormConst(fc.(store := d.value, validators := vs))];
      return Ok(());
    }

    /** `delegate key, to_form: sym` on form class `c` (lines 178-193). */
    method DelegateToForm(c: ClassName, key: Key, sym: Key, fcls: ClassName, depth: nat) returns (out: Result<()>)
      requires IsFormClass(State(), c)
      modifies this
      ensures Step(State(), out) == Declaration.DelegateToForm(old(State()), c, key, sym, fcls, depth)
    {
      if fcls !in consts {
        return Raised(NameError(fcls));
      }
      if Find(consts[c].form.store, key).Some? {
        return Ok(());
      }
      var r := New(fcls, depth);
      if r.Raised? {
        return Raised(r.failure);
      }
      if !IsFormClass(State(), c) || fcls !in consts {
        return Ok(());
      }
      var fc := consts[c].form;
      var e := FormEntry(fcls, sym, Declaration.ModelNameOfClass(consts[fcls]));
      consts := consts[c := FormConst(fc.(store := Put(fc.store, key, e)))];
      return Ok(());
    }

    // ---- construction ---------------------------------------------------------------------

    /** Lines 19-30: the parent's entries are merged into the store of `c` one by one, in place. */
    method MergeParent(c: ClassName) returns (out: Result<()>)
      requires IsFormClass(State(), c)
      modifies this
      ensures Step(State(), out) == Construction.MergeParent(old(State()), c)
    {
      var fc := consts[c].form;
      if fc.superName == Construction.SkipMergeName {
        return Ok(());
      }
      if !IsFormClass(State(), fc.superName) {
        return Raised(NoMethodError("store"));
      }
      ghost var h0 := State();
      var parent := consts[fc.superName].form.store;
      var s := fc.store;
      var i := 0;
      while i < |parent|
        invariant 0 <= i <= |parent|
        invariant MergeInto(fc.store, parent, i) == Step(s, Ok(()))
        invariant State() == h0.(consts := h0.consts[c := FormConst(fc.(store := s))])
      {
        var m := MergeStep(s, parent[i]);
        if m.Raised? {
          MergeIntoSticks(fc.store, parent, i + 1, |parent|);
          return Raised(m.failure);
        }
        s := m.value;
        consts := consts[c := FormConst(fc.(store := s))];
        i := i + 1;
      }
      return Ok(());
    }

    /** `c.new(supplied)` (lines 13-51). */
    method Construct(c: ClassName, supplied: Value, depth: nat) returns (out: Result<Oid>)
      modifies this
      ensures Step(State(), out) == Construction.Construct(old(State()), c, supplied, depth)
      decreases depth, 3, 0
    {
      if c !in consts {
        return Raised(NameError(c));
      }
      if !consts[c].FormConst? {
        return Raised(NotAFormClass(c));
      }
      var o := next;
      var persisted := Persisted(State(), supplied);
      objects := objects[o := Form(c, persisted, map[], {}, [])];
      next := next + 1;
      var m := MergeParent(c);
      if m.Raised? {
        return Raised(m.failure);
      }
      ghost var hm := State();
      var st := StoreOf(State(), o);
      var model := supplied;
      var i := 0;
      while i < |st|
        invariant 0 <= i <= |st|
        invariant Construction.ComposeAll(hm, o, st, i, supplied, depth) == Step(State(), Ok(model))
      {
        var r := ComposeEntry(o, st[i], model, depth);
        if r.Raised? {
          ComposeAllSticks(hm, o, st, i + 1, |st|, supplied, depth);
          return Raised(r.failure);
        }
        model := r.value;
        i := i + 1;
      }
      Log(Hook(o, "initialize"));
      return Ok(o);
    }

    /** One store entry of lines 34-47; the result is the new value of the local `model`. */
    method ComposeEntry(o: Oid, p: (Key, Entry), model: Value, depth: nat) returns (out: Result<Value>)
      modifies this
      ensures Step(State(), out) == Construction.ComposeEntry(old(State()), o, p, model, depth)
      decreases depth, 1, 0
    {
      var k := p.0;
      match p.1
      case ModelEntry(cls, _) =>
        if Truthy(model) && cls == ClassOf(State(), model) {
          AddMethod(o, k, model);
          return Ok(model);
        }
        var r := New(cls, depth);
        if r.Raised? {
          return Raised(r.failure);
        }
        AddMethod(o, k, Ref(r.value));
        return Ok(Ref(r.value));
      case FormEntry(cls, _, _) =>
        if Truthy(model) && RespondTo(State(), model, k) {
          if cls !in consts {
            return Raised(NameError(cls));
          }
          if !consts[cls].FormConst? {
            return Raised(NotAFormClass(cls));
          }
          if depth == 0 {
            return Raised(StackTooDeep);
          }
          var r := Construct(cls, Read(State(), model, k), depth - 1);
          if r.Raised? {
            return Raised(r.failure);
          }
          AddMethod(o, k, Ref(r.value));
        }
        return Ok(model);
    }

    /** `Object::const_get(cls).new`. */
    method New(cls: ClassName, depth: nat) returns (out: Result<Oid>)
      modifies this
      ensures Step(State(), out) == Construction.New(old(State()), cls, depth)
      decreases depth, 0, 0
    {
      if cls !in consts {
        return Raised(NameError(cls));
      }
      match consts[cls]
      case ModelConst(m) =>
        objects := objects[next := Record(cls, m.attrs, m.errors)];
        out := Ok(next);
        next := next + 1;
      case FormConst(_) =>
        if depth == 0 {
          return Raised(StackTooDeep);
        }
        out := Construct(cls, Nil, depth - 1);
    }

    // ---- set_params -----------------------------------------------------------------------

    /** `set_params(params, scope)` on form `o` (lines 100-142). */
    method SetParams(o: Oid, params: seq<(PKey, Param)>, scope: Option<Key>, depth: nat) returns (out: Result<()>)
      modifies this
      ensures Step(State(), out) == Router.SetParams(old(State()), o, params, scope, depth)
      decreases depth, 1, 0
    {
      if scope.None? {
        out := AssignPairs(o, params, None, depth);
        return;
      }
      var k := scope.value;
      var e := Find(StoreOf(State(), o), k);
      if e.None? {
        var v := Data(Map(params));
        if HasSetter(State(), o, k) {
          Assign(o, k, v);
          Log(SetOnForm(o, k, v));
        }
        return Ok(());
      }
      match e.value
      case ModelEntry(_, fs) =>
        out := AssignPairs(o, params, Some((k, fs)), depth);
      case FormEntry(_, _, mn) =>
        var s := Send(State(), Ref(o), k);
        if s.Raised? {
          return Raised(s.failure);
        }
        var v := s.value;
        if !(v.Ref? && IsForm(State(), v.oid)) {
          return Raised(NoMethodError("set_params"));
        }
        if depth == 0 {
          return Raised(StackTooDeep);
        }
        out := SetParams(v.oid, params, Some(mn), depth - 1);
    }

    /** The `params.each` loop of lines 104-131. */
    method AssignPairs(o: Oid, params: seq<(PKey, Param)>, slot: Option<(Key, seq<Key>)>, depth: nat) returns (out: Result<()>)
      modifies this
      ensures Step(State(), out) == Router.AssignPairs(old(State()), o, params, |params|, slot, depth)
      decreases depth, 0, |params|
    {
      ghost var h0 := State();
      var i := 0;
      while i < |params|
        invariant 0 <= i <= |params|
        invariant Router.AssignPairs(h0, o, params, i, slot, depth) == Step(State(), Ok(()))
      {
        var r := AssignPair(o, params, params[i], slot, depth);
        if r.Raised? {
          AssignPairsSticks(h0, o, params, i + 1, |params|, slot, depth);
          return r;
        }
        assert r.value == ();
        i := i + 1;
      }
      return Ok(());
    }

    /** One pair of lines 105-130. */
    method AssignPair(o: Oid, params: seq<(PKey, Param)>, pair: (PKey, Param), slot: Option<(Key, seq<Key>)>, depth: nat) returns (out: Result<()>)
      modifies this
      ensures Step(State(), out) == Router.AssignPair(old(State()), o, params, pair, slot, depth)
      decreases depth, 0, 0
    {
      var k := pair.0.name;
      if pair.1.Map? {
        if depth == 0 {
          return Raised(StackTooDeep);
        }
        out := SetParams(o, pair.1.pairs, Some(k), depth - 1);
        return;
      }
      if slot.None? {
        var v := Data(pair.1);
        if HasSetter(State(), o, k) {
          Assign(o, k, v);
          Log(SetOnForm(o, k, v));
        }
        return Ok(());
      }
      var (s, fs) := slot.value;
      if k !in fs {
        return Ok(());
      }
      var m := Send(State(), Ref(o), s);
      if m.Raised? {
        return Raised(m.failure);
      }
      var v := Fetch(params, Sym(k));
      if HasSetter(State(), o, k) {
        Assign(o, k, v);
        Log(SetOnForm(o, k, v));
      } else if m.value.Ref? && HasSetter(State(), m.value.oid, k) {
        Assign(m.value.oid, k, v);
        Log(SetOnSlot(o, s, m.value.oid, k, v));
      } else {
        return Raised(NoMethodError(k + "="));
      }
      return Ok(());
    }

    // ---- validation -----------------------------------------------------------------------

    /** `v.valid?`. */
    method ValidQ(v: Value, depth: nat) returns (out: Result<bool>)
      modifies this
      ensures Step(State(), out) == Validation.ValidQ(old(State()), v, depth)
      decreases depth, 4, 0
    {
      if v.Ref? && IsRecord(State(), v.oid) {
        var answer := Empty(objects[v.oid].errors);
        Log(Validated(v.oid));
        return Ok(answer);
      }
      if v.Ref? && IsForm(State(), v.oid) {
        out := ValidateForm(v.oid, depth);
        return;
      }
      return Raised(NoMethodError("valid?"));
    }

    /** `valid?` on form `o`: clear the errors, run the validators in order. */
    method ValidateForm(o: Oid, depth: nat) returns (out: Result<bool>)
      modifies this
      ensures Step(State(), out) == Validation.ValidateForm(old(State()), o, depth)
      decreases depth, 3, 0
    {
      var vs := ValidatorsOf(State(), o);
      Log(Validated(o));
      SetErrorList(o, []);
      ghost var h1 := State();
      var i := 0;
      while i < |vs|
        invariant 0 <= i <= |vs|
        invariant Validation.RunValidators(h1, o, vs, i, depth) == Step(State(), Ok(()))
      {
        var r := RunValidator(o, vs[i], depth);
        if r.Raised? {
          RunValidatorsSticks(h1, o, vs, i + 1, |vs|, depth);
          return Raised(r.failure);
        }
        assert r.value == ();
        i := i + 1;
      }
      return Ok(Empty(ErrorsOf(State(), Ref(o))));
    }

    /** One validator of form `o`. */
    method RunValidator(o: Oid, v: Validator, depth: nat) returns (out: Result<()>)
      modifies this
      ensures Step(State(), out) == Validation.RunValidator(old(State()), o, v, depth)
      decreases depth, 1, 0
    {
      var m := Send(State(), Ref(o), v.slot);
      if m.Raised? {
        return Raised(m.failure);
      }
      match v
      case FoldSlot(_) =>
        var r := CheckAndFold(o, m.value, depth);
        if r.Raised? {
          return r;
        }
        var st := StoreOf(State(), o);
        out := FoldForms(o, st, depth);
      case Presence(f, _) =>
        var x := Send(State(), m.value, f);
        if x.Raised? {
          return Raised(x.failure);
        }
        if Blank(x.value) {
          SetErrorList(o, Add(ErrorsOf(State(), Ref(o)), f, Validation.BlankMessage));
        }
        return Ok(());
    }

    /** Lines 212-219 for one object `m`. */
    method CheckAndFold(o: Oid, m: Value, depth: nat) returns (out: Result<()>)
      modifies this
      ensures Step(State(), out) == Validation.CheckAndFold(old(State()), o, m, depth)
      decreases depth, 0, 0
    {
      if depth == 0 {
        return Raised(StackTooDeep);
      }
      var r := ValidQ(m, depth - 1);
      if r.Raised? {
        return Raised(r.failure);
      }
      if !r.value {
        FoldErrors(o, ErrorsOf(State(), m));
      }
      return Ok(());
    }

    /** The nested loop of lines 202-206 (and 213-217): every message of `src`, field by field,
        is added to the errors of `o` with `errors.add`. */
    method FoldErrors(o: Oid, src: ErrorList)
      modifies this
      ensures State() == SetErrors(old(State()), o, Fold(ErrorsOf(old(State()), Ref(o)), src))
    {
      ghost var h0 := State();
      var dst := ErrorsOf(State(), Ref(o));
      var e := dst;
      SetErrorList(o, e);
      var i := 0;
      while i < |src|
        invariant 0 <= i <= |src|
        invariant e == FoldInto(dst, src, i)
        invariant State() == SetErrors(h0, o, e)
      {
        var (f, ms) := src[i];
        var j := 0;
        while j < |ms|
          invariant 0 <= j <= |ms|
          invariant e == AddAll(FoldInto(dst, src, i), f, ms, j)
          invariant State() == SetErrors(h0, o, e)
        {
          e := Add(e, f, ms[j]);
          SetErrorList(o, e);
          j := j + 1;
        }
        i := i + 1;
      }
    }

    /** Lines 210-221: every `:form` slot of the store is checked and folded. */
    method FoldForms(o: Oid, st: Store, depth: nat) returns (out: Result<()>)
      modifies this
      ensures Step(State(), out) == Validation.FoldForms(old(State()), o, st, |st|, depth)
      decreases depth, 0, |st|
    {
      ghost var h0 := State();
      var i := 0;
      while i < |st|
        invariant 0 <= i <= |st|
        invariant Validation.FoldForms(h0, o, st, i, depth) == Step(State(), Ok(()))
      {
        if st[i].1.FormEntry? {
          var m := Send(State(), Ref(o), st[i].0);
          if m.Raised? {
            FoldFormsSticks(h0, o, st, i + 1, |st|, depth);
            return Raised(m.failure);
          }
          var r := CheckAndFold(o, m.value, depth);
          if r.Raised? {
            FoldFormsSticks(h0, o, st, i + 1, |st|, depth);
            return r;
          }
        }
        i := i + 1;
      }
      return Ok(());
    }

    // ---- save! ----------------------------------------------------------------------------

    /** `form.save!` (lines 86-98). */
    method SaveForm(o: Oid, depth: nat) returns (out: Result<()>)
      modifies this
      ensures Step(State(), out) == Saving.SaveForm(old(State()), o, depth)
      decreases depth, 2, 0
    {
      var mn := ModelNameOf(State(), o);
      Log(Hook(o, "before_forms_save"));
      ghost var h1 := State();
      var st := StoreOf(State(), o);
      var i := 0;
      while i < |st|
        invariant 0 <= i <= |st|
        invariant Saving.SaveForms(h1, o, st, i, mn, depth) == Step(State(), Ok(()))
      {
        if Saving.SavedSlot(st[i], mn) {
          var s := Send(State(), Ref(o), st[i].0);
          if s.Raised? {
            SaveFormsSticks(h1, o, st, i + 1, |st|, mn, depth);
            return Raised(s.failure);
          }
          var r := SaveValue(s.value, depth);
          if r.Raised? {
            SaveFormsSticks(h1, o, st, i + 1, |st|, mn, depth);
            return r;
          }
          assert r.value == ();
        }
        i := i + 1;
      }
      out := SavePrimary(o, mn, depth);
    }

    /** Lines 95-97. */
    method SavePrimary(o: Oid, mn: Key, depth: nat) returns (out: Result<()>)
      modifies this
      ensures Step(State(), out) == Saving.SavePrimary(old(State()), o, mn, depth)
      decreases depth, 1, 0
    {
      Log(Hook(o, "before_save"));
      var p := Send(State(), Ref(o), mn);
      if p.Raised? {
        return Raised(p.failure);
      }
      var r := SaveValue(p.value, depth);
      if r.Raised? {
        return r;
      }
      Log(Hook(o, "after_save"));
      return Ok(());
    }

    /** `v.save!`. */
    method SaveValue(v: Value, depth: nat) returns (out: Result<()>)
      modifies this
      ensures Step(State(), out) == Saving.SaveValue(old(State()), v, depth)
      decreases depth, 0, 0
    {
      if v.Ref? && IsRecord(State(), v.oid) {
        Log(Saved(v.oid));
        return Ok(());
      }
      if v.Ref? && IsForm(State(), v.oid) {
        if depth == 0 {
          return Raised(StackTooDeep);
        }
        out := SaveForm(v.oid, depth - 1);
        return;
      }
      return Raised(NoMethodError("save!"));
    }

    // ---- submit ---------------------------------------------------------------------------

    /** `submit params` on form `o` (lines 64-84); `Ok(false)` stands for the `nil` returned when
        something was invalid. */
    method Submit(o: Oid, params: seq<(PKey, Param)>, depth: nat) returns (out: Result<bool>)
      modifies this
      ensures Step(State(), out) == Submission.Submit(old(State()), o, params, depth)
    {
      SetIvar(o, "params", Data(Map(params)));
      Log(Hook(o, "before_submit"));
      var p := SetParams(o, params, None, depth);
      if p.Raised? {
        return Raised(p.failure);
      }
      ghost var hp := State();
      var st := StoreOf(State(), o);
      var isValid := true;
      var i := 0;
      while i < |st|
        invariant 0 <= i <= |st|
        invariant Submission.CheckSlots(hp, o, st, i, depth) == Step(State(), Ok(isValid))
      {
        var s := Send(State(), Ref(o), st[i].0);
        if s.Raised? {
          CheckSlotsSticks(hp, o, st, i + 1, |st|, depth);
          return Raised(s.failure);
        }
        var q := ValidQ(s.value, depth);
        if q.Raised? {
          CheckSlotsSticks(hp, o, st, i + 1, |st|, depth);
          return Raised(q.failure);
        }
        isValid := isValid && q.value;
        i := i + 1;
      }
      var v := ValidateForm(o, depth);
      if v.Raised? {
        return Raised(v.failure);
      }
      isValid := isValid && v.value;
      if isValid {
        var s := SaveForm(o, depth);
        if s.Raised? {
          return Raised(s.failure);
        }
        return Ok(true);
      }
      return Ok(false);
    }
  }
}
