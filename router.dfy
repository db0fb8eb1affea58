/** `Powertools::Form#set_params` (lines 100-142): routes a params hash to the form's own setters,
    to the records in its model slots (only for declared fields), and to nested forms. */
module Router {
  import opened Values
  import opened Errors
  import opened Schema
  import opened Objects

  /** `set_params(params, scope)` on form `o`; `scope` is `params_key` (None for `false`). */
  function SetParams(h: Heap, o: Oid, params: seq<(PKey, Param)>, scope: Option<Key>, depth: nat): Step<Heap, ()>
    decreases depth, 1, 0
  {
    match scope
    case None => AssignPairs(h, o, params, |params|, None, depth)
    case Some(k) =>
      match Find(StoreOf(h, o), k)
      case Some(ModelEntry(_, fs)) => AssignPairs(h, o, params, |params|, Some((k, fs)), depth)
      case Some(FormEntry(_, _, mn)) =>
        // lines 135-136: forward to the nested form under its own model name
        (match Send(h, Ref(o), k)
         case Raised(f) => Step(h, Raised(f))
         case Ok(v) =>
           if !(v.Ref? && IsForm(h, v.oid)) then Step(h, Raised(NoMethodError("set_params")))
           else if depth == 0 then Step(h, Raised(StackTooDeep))
           else SetParams(h, v.oid, params, Some(mn), depth - 1))
      case None =>
        // lines 138-140: the whole hash goes to the form's own `k=` if there is one
        var v := Data(Map(params));
        if HasSetter(h, o, k) then Step(Emit(SetAttr(h, o, k, v), SetOnForm(o, k, v)), Ok(()))
        else Step(h, Ok(()))
  }

  /** Lines 104-131 over the first `n` pairs of `params`; `slot` is the model entry in scope
      (its key and declared fields), None at the root. */
  function AssignPairs(h: Heap, o: Oid, params: seq<(PKey, Param)>, n: nat, slot: Option<(Key, seq<Key>)>, depth: nat): Step<Heap, ()>
    requires n <= |params|
    decreases depth, 0, n
  {
    if n == 0 then Step(h, Ok(()))
    else
      var r := AssignPairs(h, o, params, n - 1, slot, depth);
      if r.out.Raised? then r
      else AssignPair(r.state, o, params, params[n - 1], slot, depth)
  }

  /** One pair of lines 105-130. A nested hash recurses with its key as scope. A scalar at the root
      goes to the form's `k=` if it has one. A scalar under a model entry is taken only for a
      declared field, and it is `params[k]` with `k` a symbol that is written (lines 119, 122):
      to the form's own `k=` if it has one, otherwise to the record in the slot. */
  function AssignPair(h: Heap, o: Oid, params: seq<(PKey, Param)>, pair: (PKey, Param), slot: Option<(Key, seq<Key>)>, depth: nat): Step<Heap, ()>
    decreases depth, 0, 0
  {
    var k := pair.0.name;
    match pair.1
    case Map(sub) =>
      if depth == 0 then Step(h, Raised(StackTooDeep)) else SetParams(h, o, sub, Some(k), depth - 1)
    case Scalar(_) =>
      match slot
      case None =>
        var v := Data(pair.1);
        if HasSetter(h, o, k) then Step(Emit(SetAttr(h, o, k, v), SetOnForm(o, k, v)), Ok(()))
        else Step(h, Ok(()))
      case Some((s, fs)) =>
        if k !in fs then Step(h, Ok(()))
        else match Send(h, Ref(o), s)
          case Raised(f) => Step(h, Raised(f))
          case Ok(m) =>
            var v := Fetch(params, Sym(k));
            if HasSetter(h, o, k) then Step(Emit(SetAttr(h, o, k, v), SetOnForm(o, k, v)), Ok(()))
            else if m.Ref? && HasSetter(h, m.oid, k) then
              Step(Emit(SetAttr(h, m.oid, k, v), SetOnSlot(o, s, m.oid, k, v)), Ok(()))
            else Step(h, Raised(NoMethodError(k + "=")))
  }

  /** `slot`, when present, is the model entry of the form's store under its key. */
  predicate SlotOk(h: Heap, o: Oid, slot: Option<(Key, seq<Key>)>) {
    slot.Some? ==>
      var e := Find(StoreOf(h, o), slot.value.0);
      e.Some? && e.value.ModelEntry? && e.value.fields == slot.value.1
  }

  /** `set_params` changes no class, no object's identity, kind or `persisted?`, writes to a
      record only through a model slot and only for a field declared for that slot
      (line 112), and every record attribute it changes is such a write. */
  lemma {:induction false} SetParamsRouted(h: Heap, o: Oid, params: seq<(PKey, Param)>, scope: Option<Key>, depth: nat)
    requires IsForm(h, o)
    ensures Routed(h, SetParams(h, o, params, scope, depth).state)
    decreases depth, 1, 0
  {
    match scope
    case None => AssignPairsRouted(h, o, params, |params|, None, depth);
    case Some(k) =>
      match Find(StoreOf(h, o), k)
      case Some(ModelEntry(_, fs)) => AssignPairsRouted(h, o, params, |params|, Some((k, fs)), depth);
      case Some(FormEntry(_, _, mn)) =>
        RoutedRefl(h);
        var v := Send(h, Ref(o), k);
        if v.Ok? && v.value.Ref? && IsForm(h, v.value.oid) && depth > 0 {
          SetParamsRouted(h, v.value.oid, params, Some(mn), depth - 1);
        }
      case None =>
        RoutedRefl(h);
        if HasSetter(h, o, k) {
          FormWriteRouted(h, o, k, Data(Map(params)));
        }
  }

  /** A call of form `o`'s own setter is routed. */
  lemma FormWriteRouted(h: Heap, o: Oid, k: Key, v: Value)
    requires IsForm(h, o) && HasSetter(h, o, k) && !v.Ref?
    ensures Routed(h, Emit(SetAttr(h, o, k, v), SetOnForm(o, k, v)))
  {
    SetAttrShape(h, o, k, v);
    SetterStep(h, o, k, v, SetOnForm(o, k, v));
  }

  /** Line 119's call of the setter of record `m`, the object in slot `s` of form `o`, is
      routed. */
  lemma SlotWriteRouted(h: Heap, o: Oid, s: Key, fs: seq<Key>, m: Oid, k: Key, v: Value)
    requires IsForm(h, o) && SlotOk(h, o, Some((s, fs))) && k in fs
    requires Read(h, Ref(o), s) == Ref(m) && HasSetter(h, m, k) && !v.Ref?
    ensures Routed(h, Emit(SetAttr(h, m, k, v), SetOnSlot(o, s, m, k, v)))
  {
    SetAttrShape(h, m, k, v);
    SetterStep(h, m, k, v, SetOnSlot(o, s, m, k, v));
    assert Declared(h, o, s, k);
  }

  lemma {:induction false} AssignPairsRouted(h: Heap, o: Oid, params: seq<(PKey, Param)>, n: nat, slot: Option<(Key, seq<Key>)>, depth: nat)
    requires n <= |params| && IsForm(h, o) && SlotOk(h, o, slot)
    ensures Routed(h, AssignPairs(h, o, params, n, slot, depth).state)
    decreases depth, 0, n
  {
    if n == 0 {
      RoutedRefl(h);
    } else {
      AssignPairsRouted(h, o, params, n - 1, slot, depth);
      var r := AssignPairs(h, o, params, n - 1, slot, depth);
      if r.out.Ok? {
        SameShapeStore(h, r.state, o);
        AssignPairRouted(r.state, o, params, params[n - 1], slot, depth);
        RoutedTrans(h, r.state, AssignPairs(h, o, params, n, slot, depth).state);
      }
    }
  }

  lemma {:induction false} AssignPairRouted(h: Heap, o: Oid, params: seq<(PKey, Param)>, pair: (PKey, Param), slot: Option<(Key, seq<Key>)>, depth: nat)
    requires IsForm(h, o) && SlotOk(h, o, slot)
    ensures Routed(h, AssignPair(h, o, params, pair, slot, depth).state)
    decreases depth, 0, 0
  {
    RoutedRefl(h);
    var k := pair.0.name;
    match pair.1
    case Map(sub) =>
      if depth > 0 {
        SetParamsRouted(h, o, sub, Some(k), depth - 1);
      }
    case Scalar(_) =>
      match slot
      case None =>
        if HasSetter(h, o, k) {
          FormWriteRouted(h, o, k, Data(pair.1));
        }
      case Some((s, fs)) =>
        if k in fs && Send(h, Ref(o), s).Ok? {
          var m := Send(h, Ref(o), s).value;
          var v := Fetch(params, Sym(k));
          if HasSetter(h, o, k) {
            FormWriteRouted(h, o, k, v);
          } else if m.Ref? && HasSetter(h, m.oid, k) {
            SlotWriteRouted(h, o, s, fs, m.oid, k, v);
          }
        }
  }

  /** No value of `params` is a nested hash. */
  predicate Flat(params: seq<(PKey, Param)>) {
    forall i :: 0 <= i < |params| ==> params[i].1.Scalar?
  }

  /** The names of the keys of `params` (line 105 symbolises string keys). */
  function Names(params: seq<(PKey, Param)>): set<Key> {
    set i | 0 <= i < |params| :: params[i].0.name
  }

  /** What a record's attributes become when `params` is set under a model entry declaring `fs`:
      each declared field that `params` names gets `params[field]` (with a symbol key); every other
      attribute keeps its value. */
  function Assigned(attrs: map<Key, Value>, fs: seq<Key>, params: seq<(PKey, Param)>, names: set<Key>): map<Key, Value> {
    map a | a in attrs :: if a in fs && a in names then Fetch(params, Sym(a)) else attrs[a]
  }

  /** The value of the last pair of `params` whose key is named `k`, as the root branch sees it. */
  function Latest(params: seq<(PKey, Param)>, k: Key): Value {
    if params == [] then Nil
    else if params[|params| - 1].0.name == k then Data(params[|params| - 1].1)
    else Latest(params[..|params| - 1], k)
  }

  lemma NamesPrefix(params: seq<(PKey, Param)>, n: nat)
    requires 0 < n <= |params|
    ensures Names(params[..n]) == Names(params[..n - 1]) + {params[n - 1].0.name}
  {
    var a, b := params[..n], params[..n - 1];
    forall k | k in Names(a) ensures k in Names(b) + {params[n - 1].0.name} {
      var i :| 0 <= i < |a| && a[i].0.name == k;
      if i < n - 1 { assert b[i].0.name == k; }
    }
    forall k | k in Names(b) ensures k in Names(a) {
      var i :| 0 <= i < |b| && b[i].0.name == k;
      assert a[i].0.name == k;
    }
    assert a[n - 1].0.name == params[n - 1].0.name;
  }

  /** Flat params under a model entry `sym` declaring `fs`, whose slot holds record `x` that has
      every declared field, on a form with no setter of its own for them: the call succeeds, and
      its only effect on objects is that `x`'s attributes become `Assigned` — only declared
      fields, each to the value the params hold under its symbol. */
  lemma ModelScopeAssigns(h: Heap, o: Oid, params: seq<(PKey, Param)>, sym: Key, x: Oid, depth: nat)
    requires IsForm(h, o) && Flat(params) && IsRecord(h, x)
    requires Find(StoreOf(h, o), sym).Some? && Find(StoreOf(h, o), sym).value.ModelEntry?
    requires RespondTo(h, Ref(o), sym) && Read(h, Ref(o), sym) == Ref(x)
    requires var fs := Find(StoreOf(h, o), sym).value.fields;
      forall f :: f in fs ==> !HasSetter(h, o, f) && f in h.objects[x].attrs
    ensures var r := SetParams(h, o, params, Some(sym), depth);
      var fs := Find(StoreOf(h, o), sym).value.fields;
      && r.out.Ok?
      && r.state.consts == h.consts
      && r.state.objects.Keys == h.objects.Keys
      && (forall y :: y in h.objects && y != x ==> r.state.objects[y] == h.objects[y])
      && r.state.objects[x] == h.objects[x].(attrs := Assigned(h.objects[x].attrs, fs, params, Names(params)))
  {
    var fs := Find(StoreOf(h, o), sym).value.fields;
    ModelScopeLoop(h, o, params, |params|, sym, fs, x, depth);
    assert params[..|params|] == params;
  }

  lemma {:induction false} ModelScopeLoop(h: Heap, o: Oid, params: seq<(PKey, Param)>, n: nat, sym: Key, fs: seq<Key>, x: Oid, depth: nat)
    requires n <= |params| && IsForm(h, o) && Flat(params) && IsRecord(h, x)
    requires SlotOk(h, o, Some((sym, fs)))
    requires RespondTo(h, Ref(o), sym) && Read(h, Ref(o), sym) == Ref(x)
    requires forall f :: f in fs ==> !HasSetter(h, o, f) && f in h.objects[x].attrs
    ensures var r := AssignPairs(h, o, params, n, Some((sym, fs)), depth);
      && r.out.Ok?
      && r.state.consts == h.consts
      && r.state.objects.Keys == h.objects.Keys
      && (forall y :: y in h.objects && y != x ==> r.state.objects[y] == h.objects[y])
      && r.state.objects[x] == h.objects[x].(attrs := Assigned(h.objects[x].attrs, fs, params, Names(params[..n])))
  {
    var rec := h.objects[x];
    if n == 0 {
      assert Names(params[..0]) == {};
      assert Assigned(rec.attrs, fs, params, {}) == rec.attrs;
    } else {
      ModelScopeLoop(h, o, params, n - 1, sym, fs, x, depth);
      var h1 := AssignPairs(h, o, params, n - 1, Some((sym, fs)), depth).state;
      NamesPrefix(params, n);
      var k := params[n - 1].0.name;
      var before := Assigned(rec.attrs, fs, params, Names(params[..n - 1]));
      assert h1.objects[o] == h.objects[o];
      ModelScopePair(h1, o, params, params[n - 1], sym, fs, x, depth);
      if k in fs {
        assert before[k := Fetch(params, Sym(k))] == Assigned(rec.attrs, fs, params, Names(params[..n]));
      } else {
        assert before == Assigned(rec.attrs, fs, params, Names(params[..n]));
      }
    }
  }

  /** One scalar pair under the model entry: a declared field is written to record `x`, anything
      else is dropped. */
  lemma ModelScopePair(h: Heap, o: Oid, params: seq<(PKey, Param)>, pair: (PKey, Param), sym: Key, fs: seq<Key>, x: Oid, depth: nat)
    requires IsForm(h, o) && IsRecord(h, x) && pair.1.Scalar?
    requires RespondTo(h, Ref(o), sym) && Read(h, Ref(o), sym) == Ref(x)
    requires forall f :: f in fs ==> !HasSetter(h, o, f) && f in h.objects[x].attrs
    ensures var r := AssignPair(h, o, params, pair, Some((sym, fs)), depth);
      var k := pair.0.name;
      && r.out.Ok? && r.state.consts == h.consts
      && r.state.objects == if k in fs then h.objects[x := h.objects[x].(attrs := h.objects[x].attrs[k := Fetch(params, Sym(k))])]
                            else h.objects
  {
    if pair.0.name in fs {
      assert Send(h, Ref(o), sym) == Ok(Ref(x));
    }
  }

  /** Flat params at the root: the call succeeds, no object but the form itself changes, and each
      reader `k` of the form returns the last value the params give under `k` when the form has a
      setter `k=`, and what it returned before otherwise. */
  lemma RootAssigns(h: Heap, o: Oid, params: seq<(PKey, Param)>, depth: nat)
    requires IsForm(h, o) && Flat(params)
    ensures var r := SetParams(h, o, params, None, depth);
      && r.out.Ok?
      && r.state.consts == h.consts
      && r.state.objects.Keys == h.objects.Keys
      && (forall y :: y in h.objects && y != o ==> r.state.objects[y] == h.objects[y])
      && IsForm(r.state, o)
      && (forall k :: Read(r.state, Ref(o), k) ==
            if HasSetter(h, o, k) && k in Names(params) then Latest(params, k) else Read(h, Ref(o), k))
  {
    RootLoop(h, o, params, |params|, depth);
    assert params[..|params|] == params;
  }

  /** A root-level scalar param named like one of the form's slots goes to the slot's own
      `attr_accessor` (line 122): the slot no longer holds its object but the plain value. */
  lemma RootParamOverwritesSlot(h: Heap, o: Oid, k: Key, t: string, depth: nat)
    requires IsForm(h, o) && k in h.objects[o].accessors && Read(h, Ref(o), k).Ref?
    ensures var r := SetParams(h, o, [(Sym(k), Scalar(t))], None, depth);
      && r.out.Ok?
      && Read(r.state, Ref(o), k) == Data(Scalar(t))
      && Read(r.state, Ref(o), k) != Read(h, Ref(o), k)
  {
    var params := [(Sym(k), Scalar(t))];
    assert params[0].0.name == k;
    assert Latest(params[..0], k) == Nil;
    RootAssigns(h, o, params, depth);
  }

  lemma {:induction false} RootLoop(h: Heap, o: Oid, params: seq<(PKey, Param)>, n: nat, depth: nat)
    requires n <= |params| && IsForm(h, o) && Flat(params)
    ensures var r := AssignPairs(h, o, params, n, None, depth);
      && r.out.Ok?
      && r.state.consts == h.consts
      && r.state.objects.Keys == h.objects.Keys
      && (forall y :: y in h.objects && y != o ==> r.state.objects[y] == h.objects[y])
      && IsForm(r.state, o)
      && r.state.objects[o].(ivars := map[]) == h.objects[o].(ivars := map[])
      && (forall k :: Read(r.state, Ref(o), k) ==
            if HasSetter(h, o, k) && k in Names(params[..n]) then Latest(params[..n], k) else Read(h, Ref(o), k))
  {
    if n == 0 {
      assert Names(params[..0]) == {};
    } else {
      RootLoop(h, o, params, n - 1, depth);
      var h1 := AssignPairs(h, o, params, n - 1, None, depth).state;
      NamesPrefix(params, n);
      var k := params[n - 1].0.name;
      assert params[n - 1].1.Scalar?;
      assert params[..n][..n - 1] == params[..n - 1];
      assert forall j :: HasSetter(h1, o, j) == HasSetter(h, o, j);
      var r2 := AssignPair(h1, o, params, params[n - 1], None, depth);
      if HasSetter(h, o, k) {
        SetAttrShape(h1, o, k, Data(params[n - 1].1));
      } else {
        assert r2.state == h1;
      }
    }
  }

  /** Lines 138-140: under a scope with no store entry, the whole nested hash goes to the form's
      own `k=` when it has one (and nothing else changes), and is dropped otherwise. */
  lemma UnknownScopeAssigns(h: Heap, o: Oid, params: seq<(PKey, Param)>, k: Key, depth: nat)
    requires IsForm(h, o) && Find(StoreOf(h, o), k).None?
    ensures var r := SetParams(h, o, params, Some(k), depth);
      && r.out.Ok?
      && (HasSetter(h, o, k) ==>
            && Later(h, r.state) && NewEvents(h, r.state) == [SetOnForm(o, k, Data(Map(params)))]
            && Read(r.state, Ref(o), k) == Data(Map(params))
            && forall y :: y in h.objects && y != o ==> r.state.objects[y] == h.objects[y])
      && (!HasSetter(h, o, k) ==> r.state == h)
  {
    var r := SetParams(h, o, params, Some(k), depth);
    if HasSetter(h, o, k) {
      assert r.state.trace == h.trace + [SetOnForm(o, k, Data(Map(params)))];
      assert r.state.trace[..|h.trace|] == h.trace;
    }
  }

  /** Lines 133-136: under a scope naming a `:form` entry whose slot holds a form `f`, the whole
      nested hash is handed to `f.set_params` with the entry's model name as scope; the form
      itself assigns nothing. */
  lemma FormScopeForwards(h: Heap, o: Oid, params: seq<(PKey, Param)>, k: Key, f: Oid, depth: nat)
    requires IsForm(h, o) && IsForm(h, f) && depth > 0
    requires Find(StoreOf(h, o), k).Some? && Find(StoreOf(h, o), k).value.FormEntry?
    requires RespondTo(h, Ref(o), k) && Read(h, Ref(o), k) == Ref(f)
    ensures SetParams(h, o, params, Some(k), depth) ==
            SetParams(h, f, params, Some(Find(StoreOf(h, o), k).value.modelName), depth - 1)
  {
  }

  /** Lines 105-108: a nested hash under any key is routed by a recursive `set_params` scoped by
      that key, whatever scope it appears in and whether or not the key is a declared field. */
  lemma NestedHashRecurses(h: Heap, o: Oid, params: seq<(PKey, Param)>, pair: (PKey, Param), slot: Option<(Key, seq<Key>)>, depth: nat)
    requires pair.1.Map? && depth > 0
    ensures AssignPair(h, o, params, pair, slot, depth) == SetParams(h, o, pair.1.pairs, Some(pair.0.name), depth - 1)
  {
  }

  /** Lines 113-123: a declared field under a model scope goes to the form's own `k=` when it has
      one, and the record in the slot is then left alone; an undeclared field is dropped. */
  lemma FormSetterFirst(h: Heap, o: Oid, params: seq<(PKey, Param)>, pair: (PKey, Param), s: Key, fs: seq<Key>, depth: nat)
    requires IsForm(h, o) && pair.1.Scalar? && RespondTo(h, Ref(o), s)
    ensures var r := AssignPair(h, o, params, pair, Some((s, fs)), depth);
      var k := pair.0.name;
      && (k !in fs ==> r == Step(h, Ok(())))
      && (k in fs && HasSetter(h, o, k) ==>
            && r.out.Ok? && Later(h, r.state)
            && NewEvents(h, r.state) == [SetOnForm(o, k, Fetch(params, Sym(k)))]
            && Read(r.state, Ref(o), k) == Fetch(params, Sym(k))
            && forall y :: y in h.objects && y != o ==> r.state.objects[y] == h.objects[y])
  {
    var r := AssignPair(h, o, params, pair, Some((s, fs)), depth);
    var k := pair.0.name;
    if k in fs && HasSetter(h, o, k) {
      assert r.state.trace == h.trace + [SetOnForm(o, k, Fetch(params, Sym(k)))];
      assert r.state.trace[..|h.trace|] == h.trace;
    }
  }
}
