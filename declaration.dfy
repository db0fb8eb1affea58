/** The class-level `delegate` of a form (lines 151-195) with `to_model:` or `to_form:`, and the
    validations it installs (`inherit_validation`, lines 197-223, and
    `inherit_presence_validators`, lines 225-234). */
module Declaration {
  import opened Values
  import opened Errors
  import opened Schema
  import opened Objects
  import Construction

  /** `model._validators[f]` filtered by line 229 to ActiveRecord's presence validators: one `f`
      per such validator of a model class, in declaration order. A form class is an ActiveModel
      class, whose `validates_presence_of` builds ActiveModel's validator, which line 229 does not
      match: it contributes none. */
  function PresenceList(k: Constant): seq<Key> {
    match k
    case ModelConst(m) => m.presence
    case FormConst(_) => []
  }

  /** Lines 226-233: for each field in order, one `validates_presence_of field` per presence
      validator the model class has on it. */
  function PresenceValidators(presence: seq<Key>, fields: seq<Key>, slot: Key): (r: seq<Validator>)
    ensures forall v :: v in r <==> v.Presence? && v.slot == slot && v.field in fields && v.field in presence
  {
    if fields == [] then []
    else
      var f := fields[|fields| - 1];
      var rest := PresenceValidators(presence, fields[..|fields| - 1], slot);
      assert forall g :: g in fields <==> g in fields[..|fields| - 1] || g == f;
      rest + Repeat(Presence(f, slot), Count(presence, f))
  }

  /** A class without presence validators contributes none, whatever fields are declared. */
  lemma {:induction false} PresenceValidatorsNone(fields: seq<Key>, slot: Key)
    ensures PresenceValidators([], fields, slot) == []
  {
    if fields != [] {
      PresenceValidatorsNone(fields[..|fields| - 1], slot);
    }
  }

  function Count(s: seq<Key>, x: Key): (n: nat)
    ensures n > 0 <==> x in s
  {
    if s == [] then 0 else Count(s[..|s| - 1], x) + (if s[|s| - 1] == x then 1 else 0)
  }

  function Repeat(v: Validator, n: nat): (r: seq<Validator>)
    ensures |r| == n && forall w :: w in r ==> w == v
  {
    if n == 0 then [] else Repeat(v, n - 1) + [v]
  }

  /** `delegate *fields, to_model: sym` on form class `c`, where `cls` is `sym.to_s.classify`:
      look the model class up, add the fields to the store entry under `sym`, then append the
      folding validator of `inherit_validation` and the presence validators. */
  function DelegateToModel(h: Heap, c: ClassName, fields: seq<Key>, sym: Key, cls: ClassName): Step<Heap, ()>
    requires IsFormClass(h, c)
  {
    var fc := h.consts[c].form;
    if cls !in h.consts then Step(h, Raised(NameError(cls)))
    else match DeclareModel(fc.store, fields, sym, cls)
      case Raised(f) => Step(h, Raised(f))
      case Ok(s) =>
        var vs := fc.validators + [FoldSlot(sym)] + PresenceValidators(PresenceList(h.consts[cls]), fields, sym);
        Step(h.(consts := h.consts[c := FormConst(fc.(store := s, validators := vs))]), Ok(()))
  }

  /** `model_name` of an instance of class `cls`. */
  function ModelNameOfClass(k: Constant): Key {
    match k
    case ModelConst(m) => m.modelName
    case FormConst(f) => f.modelName
  }

  /** `delegate key, to_form: sym` on form class `c`, where `fcls` is `sym.to_s.classify`: look the
      class up; if the store has no entry under `key`, instantiate `fcls` once (for its model name)
      and record a form entry. An existing entry is kept. */
  function DelegateToForm(h: Heap, c: ClassName, key: Key, sym: Key, fcls: ClassName, depth: nat): Step<Heap, ()>
    requires IsFormClass(h, c)
  {
    if fcls !in h.consts then Step(h, Raised(NameError(fcls)))
    else if Find(h.consts[c].form.store, key).Some? then Step(h, Ok(()))
    else
      var r := Construction.New(h, fcls, depth);
      if r.out.Raised? then Step(r.state, Raised(r.out.failure))
      else if !IsFormClass(r.state, c) || fcls !in r.state.consts then Step(r.state, Ok(()))
      else
        var fc := r.state.consts[c].form;
        var e := FormEntry(fcls, sym, ModelNameOfClass(r.state.consts[fcls]));
        Step(r.state.(consts := r.state.consts[c := FormConst(fc.(store := Put(fc.store, key, e)))]), Ok(()))
  }

  /** A `to_model` declaration raises NameError when the model class is missing and NoMethodError
      when `sym` is already a `to_form` key, and then changes nothing. Otherwise it changes only
      class `c`: the entry under `sym` is a model entry whose fields are the ones it had, in front,
      and the declared ones, and no others; other keys keep their entries; and the chain of
      validators gains, after all it had (so a second declaration folds the slot's errors a second
      time), one folding validator for `sym` followed by presence validators on `sym` for exactly
      the declared fields the model validates for presence (none when `cls` is a form class). */
  lemma DelegateToModelEffect(h: Heap, c: ClassName, fields: seq<Key>, sym: Key, cls: ClassName)
    requires IsFormClass(h, c) && GoodStores(h)
    ensures var r := DelegateToModel(h, c, fields, sym, cls);
      var fc := h.consts[c].form;
      && r.state.objects == h.objects && r.state.next == h.next && r.state.trace == h.trace
      && (cls !in h.consts ==> r == Step(h, Raised(NameError(cls))))
      && (cls in h.consts ==>
            (r.out.Raised? <==> Find(fc.store, sym).Some? && Find(fc.store, sym).value.FormEntry?))
      && (r.out.Raised? ==> r.state == h)
      && (r.out.Ok? ==>
            var fc' := r.state.consts[c].form;
            var added := fc'.validators[|fc.validators| + 1..];
            && r.state.consts == h.consts[c := FormConst(fc')]
            && GoodStores(r.state)
            && fc'.(store := [], validators := []) == fc.(store := [], validators := [])
            && Find(fc'.store, sym).Some? && Find(fc'.store, sym).value.ModelEntry?
            && (forall f :: f in Find(fc'.store, sym).value.fields <==>
                  f in fields || (Find(fc.store, sym).Some? && f in Find(fc.store, sym).value.fields))
            && (Find(fc.store, sym).Some? ==>
                  var fs := Find(fc.store, sym).value.fields;
                  |fs| <= |Find(fc'.store, sym).value.fields| && Find(fc'.store, sym).value.fields[..|fs|] == fs)
            && (forall k :: k != sym ==> Find(fc'.store, k) == Find(fc.store, k))
            && |fc'.validators| > |fc.validators|
            && fc'.validators[..|fc.validators|] == fc.validators
            && fc'.validators[|fc.validators|] == FoldSlot(sym)
            && (forall v :: v in added <==>
                  v.Presence? && v.slot == sym && v.field in fields && v.field in PresenceList(h.consts[cls]))
            && (h.consts[cls].FormConst? ==> added == []))
  {
    var fc := h.consts[c].form;
    if cls in h.consts {
      DeclareModelEffect(fc.store, fields, sym, cls);
      var r := DelegateToModel(h, c, fields, sym, cls);
      if r.out.Ok? {
        var pv := PresenceValidators(PresenceList(h.consts[cls]), fields, sym);
        var vs := fc.validators + [FoldSlot(sym)] + pv;
        assert r.state.consts[c].form.validators == vs;
        assert vs[|fc.validators| + 1..] == pv;
        if h.consts[cls].FormConst? {
          PresenceValidatorsNone(fields, sym);
        }
      }
    }
  }

  /** A `to_model` declaration on a class that has no subclass yet keeps every validation chain
      an extension of its superclass's: the chain of `c` only grows at its end. */
  lemma DelegateToModelInherits(h: Heap, c: ClassName, fields: seq<Key>, sym: Key, cls: ClassName)
    requires IsFormClass(h, c) && GoodStores(h) && InheritsValidators(h)
    requires forall d :: IsFormClass(h, d) ==> h.consts[d].form.superName != c
    ensures InheritsValidators(DelegateToModel(h, c, fields, sym, cls).state)
  {
    var r := DelegateToModel(h, c, fields, sym, cls);
    DelegateToModelEffect(h, c, fields, sym, cls);
    if r.out.Ok? {
      var fc := h.consts[c].form;
      var fc' := r.state.consts[c].form;
      assert fc'.superName == fc.superName by {
        assert fc'.(store := [], validators := []).superName == fc.(store := [], validators := []).superName;
      }
      forall d | IsFormClass(r.state, d) && IsFormClass(r.state, r.state.consts[d].form.superName)
        ensures var p := r.state.consts[r.state.consts[d].form.superName].form.validators;
          |p| <= |r.state.consts[d].form.validators| && r.state.consts[d].form.validators[..|p|] == p
      {
        var sup := h.consts[d].form.superName;
        assert sup != c;
        if d == c {
          var p := h.consts[sup].form.validators;
          assert fc'.validators[..|fc.validators|] == fc.validators;
          assert fc'.validators[..|p|] == fc.validators[..|p|];
        }
      }
    }
  }

  /** A `to_form` declaration raises NameError when the form class is missing. A key that is
      already declared keeps its entry and nothing happens. Otherwise, once the throw-away
      instance is built, the store of `c` maps `key` to a form entry naming the class, the
      declared form name and that class's model name, and keeps every other key. */
  lemma DelegateToFormEffect(h: Heap, c: ClassName, key: Key, sym: Key, fcls: ClassName, depth: nat)
    requires IsFormClass(h, c) && Good(h) && GoodStores(h)
    ensures var r := DelegateToForm(h, c, key, sym, fcls, depth);
      && (fcls !in h.consts ==> r == Step(h, Raised(NameError(fcls))))
      && (fcls in h.consts && Find(h.consts[c].form.store, key).Some? ==> r == Step(h, Ok(())))
      && (fcls in h.consts && Find(h.consts[c].form.store, key).None? && r.out.Ok? ==>
            var n := Construction.New(h, fcls, depth).state;
            && IsFormClass(r.state, c)
            && Find(r.state.consts[c].form.store, key) == Some(FormEntry(fcls, sym, ModelNameOfClass(h.consts[fcls])))
            && (forall k :: k != key ==> Find(r.state.consts[c].form.store, k) == Find(n.consts[c].form.store, k)))
  {
    if fcls in h.consts && Find(h.consts[c].form.store, key).None? {
      Construction.NewFrame(h, fcls, depth);
      var n := Construction.New(h, fcls, depth);
      if n.out.Ok? {
        var e := FormEntry(fcls, sym, ModelNameOfClass(n.state.consts[fcls]));
        assert ModelNameOfClass(n.state.consts[fcls]) == ModelNameOfClass(h.consts[fcls]);
        forall k ensures Find(Put(n.state.consts[c].form.store, key, e), k) ==
                         if k == key then Some(e) else Find(n.state.consts[c].form.store, k) {
          PutFind(n.state.consts[c].form.store, key, e, k);
        }
      }
    }
  }
}
