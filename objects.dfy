/** The Ruby process state the form layer works on: the constants (form classes with their
    stores and validators, model classes), the objects allocated so far, and the trace of
    observable calls (hooks, setters, `valid?`, `save!`). */
module Objects {
  import opened Values
  import opened Errors
  import opened Schema

  /** A callback in a form class's validation chain. */
  datatype Validator =
    | FoldSlot(slot: Key)              // the `validate` block of `inherit_validation` (line 198)
    | Presence(field: Key, slot: Key)  // `validates_presence_of field` (line 230), read through `slot`

  /** A subclass of `Powertools::Form`: the name of its superclass, its `model_name` (underscored),
      its class-level `store` and validation chain, and the readers and `key=` setters its
      instances define. */
  datatype FormClass = FormClass(
    superName: ClassName,
    modelName: Key,
    store: Store,
    validators: seq<Validator>,
    readers: set<Key>,
    setters: set<Key>)

  /** A model class: its `model_name`, the attributes (with their values) of a fresh instance,
      the attribute of each of its presence validators in declaration order (an attribute
      appears once per validator), and the errors `valid?` reports on its instances (the
      validation rules themselves are not modelled). */
  datatype ModelClass = ModelClass(
    modelName: Key,
    attrs: map<Key, Value>,
    presence: seq<Key>,
    errors: ErrorList)

  datatype Constant = FormConst(form: FormClass) | ModelConst(model: ModelClass)

  /** An object: a model record (its attribute readers and writers are `attrs.Keys`) or a form
      instance (`persisted?`, its instance variables, the accessors `add_method` defined on its
      singleton class, its error collection). */
  datatype Obj =
    | Record(cls: ClassName, attrs: map<Key, Value>, errors: ErrorList)
    | Form(cls: ClassName, persisted: bool, ivars: map<Key, Value>, accessors: set<Key>, errors: ErrorList)

  /** Observable calls, in the order they happen. */
  datatype Event =
    | Hook(form: Oid, name: string)                                      // run_hook
    | SetOnForm(form: Oid, key: Key, value: Value)                       // form.send("key=", value)
    | SetOnSlot(form: Oid, slot: Key, target: Oid, key: Key, value: Value) // line 119
    | Validated(target: Oid)                                             // valid?
    | Saved(target: Oid)                                                 // save! on a record

  datatype Heap = Heap(
    consts: map<ClassName, Constant>,
    objects: map<Oid, Obj>,
    next: Oid,
    trace: seq<Event>)

  predicate IsFormClass(h: Heap, c: ClassName) {
    c in h.consts && h.consts[c].FormConst?
  }

  predicate IsForm(h: Heap, o: Oid) {
    o in h.objects && h.objects[o].Form?
  }

  predicate IsRecord(h: Heap, o: Oid) {
    o in h.objects && h.objects[o].Record?
  }

  /** The class of form `o`, when it is a form of a known form class. */
  function ClassOfForm(h: Heap, o: Oid): Option<FormClass> {
    if IsForm(h, o) && IsFormClass(h, h.objects[o].cls) then Some(h.consts[h.objects[o].cls].form)
    else None
  }

  /** `store` as an instance method: the store of the object's class. */
  function StoreOf(h: Heap, o: Oid): Store {
    if ClassOfForm(h, o).Some? then ClassOfForm(h, o).value.store else []
  }

  function ValidatorsOf(h: Heap, o: Oid): seq<Validator> {
    if ClassOfForm(h, o).Some? then ClassOfForm(h, o).value.validators else []
  }

  /** `self.class.model_name.to_s.underscore.to_sym` (line 87). */
  function ModelNameOf(h: Heap, o: Oid): Key {
    if ClassOfForm(h, o).Some? then ClassOfForm(h, o).value.modelName else ""
  }

  /** `v.class.name`. */
  function ClassOf(h: Heap, v: Value): ClassName {
    match v
    case Nil => "NilClass"
    case Data(Scalar(_)) => "String"
    case Data(Map(_)) => "Hash"
    case Ref(o) => if o in h.objects then h.objects[o].cls else ""
  }

  /** `v.respond_to?(k)` for a reader `k`. */
  predicate RespondTo(h: Heap, v: Value, k: Key) {
    v.Ref? && v.oid in h.objects &&
    match h.objects[v.oid]
    case Record(_, attrs, _) => k in attrs
    case Form(_, _, _, accessors, _) =>
      k in accessors || (ClassOfForm(h, v.oid).Some? && k in ClassOfForm(h, v.oid).value.readers)
  }

  /** The value reader `k` returns, for a receiver that responds to it. */
  function Read(h: Heap, v: Value, k: Key): Value {
    if v.Ref? && v.oid in h.objects then
      match h.objects[v.oid]
      case Record(_, attrs, _) => if k in attrs then attrs[k] else Nil
      case Form(_, _, ivars, _, _) => if k in ivars then ivars[k] else Nil
    else Nil
  }

  /** `v.send(k)` for a reader `k`; a receiver without it raises NoMethodError. */
  function Send(h: Heap, v: Value, k: Key): Result<Value> {
    if RespondTo(h, v, k) then Ok(Read(h, v, k)) else Raised(NoMethodError(k))
  }

  /** `respond_to?("k=")` on object `t`: a record's attribute, a form's accessor or class setter. */
  predicate HasSetter(h: Heap, t: Oid, k: Key) {
    t in h.objects &&
    match h.objects[t]
    case Record(_, attrs, _) => k in attrs
    case Form(_, _, _, accessors, _) =>
      k in accessors || (ClassOfForm(h, t).Some? && k in ClassOfForm(h, t).value.setters)
  }

  /** `t.send("k=", v)` on an object that has the setter: the attribute or instance variable. */
  function SetAttr(h: Heap, t: Oid, k: Key, v: Value): Heap {
    if t in h.objects then
      match h.objects[t]
      case Record(c, attrs, errs) =>
        h.(objects := h.objects[t := Record(c, attrs[k := v], errs)])
      case Form(c, p, ivars, acc, errs) =>
        h.(objects := h.objects[t := Form(c, p, ivars[k := v], acc, errs)])
    else h
  }

  /** `@k = v` inside form `o`. */
  function WriteIvar(h: Heap, o: Oid, k: Key, v: Value): Heap {
    if IsForm(h, o) then
      var f := h.objects[o];
      h.(objects := h.objects[o := f.(ivars := f.ivars[k := v])])
    else h
  }

  /** `add_method v, k` (lines 57-62): an accessor `k` on the singleton class of `o`, set to `v`. */
  function Attach(h: Heap, o: Oid, k: Key, v: Value): Heap {
    if IsForm(h, o) then
      var f := h.objects[o];
      h.(objects := h.objects[o := f.(ivars := f.ivars[k := v], accessors := f.accessors + {k})])
    else h
  }

  /** The errors of the object `v` refers to (`v.errors.messages`). */
  function ErrorsOf(h: Heap, v: Value): ErrorList {
    if v.Ref? && v.oid in h.objects then h.objects[v.oid].errors else []
  }

  /** Replaces the error collection of object `o`. */
  function SetErrors(h: Heap, o: Oid, e: ErrorList): Heap {
    if o in h.objects then h.(objects := h.objects[o := h.objects[o].(errors := e)]) else h
  }

  function Emit(h: Heap, e: Event): Heap {
    h.(trace := h.trace + [e])
  }

  /** Line 16: `:edit` (true) when the supplied value responds to `id` and its id is truthy. */
  predicate Persisted(h: Heap, v: Value) {
    RespondTo(h, v, "id") && Truthy(Read(h, v, "id"))
  }

  /** Neither the constants nor the allocated objects' identity, kind, class, `persisted?` flag
      or singleton accessors differ between `h` and `h'`; attributes, instance variables, errors
      and the trace may. */
  predicate SameShape(h: Heap, h': Heap) {
    && h'.consts == h.consts
    && h'.next == h.next
    && h'.objects.Keys == h.objects.Keys
    && forall o :: o in h.objects ==>
         && h'.objects[o].Record? == h.objects[o].Record?
         && h'.objects[o].cls == h.objects[o].cls
         && (h.objects[o].Record? ==> h'.objects[o].attrs.Keys == h.objects[o].attrs.Keys)
         && (h.objects[o].Form? ==>
               h'.objects[o].persisted == h.objects[o].persisted &&
               h'.objects[o].accessors == h.objects[o].accessors)
  }

  lemma SameShapeTrans(h1: Heap, h2: Heap, h3: Heap)
    requires SameShape(h1, h2) && SameShape(h2, h3)
    ensures SameShape(h1, h3)
  {
  }

  /** The trace of `h'` extends the trace of `h`. */
  predicate Later(h: Heap, h': Heap) {
    |h.trace| <= |h'.trace| && h'.trace[..|h.trace|] == h.trace
  }

  /** The events appended between `h` and `h'`. */
  function NewEvents(h: Heap, h': Heap): seq<Event>
    requires Later(h, h')
  {
    h'.trace[|h.trace|..]
  }

  /** Every allocated object has an identity below `next`. */
  predicate Good(h: Heap) {
    forall x :: x in h.objects ==> x < h.next
  }

  /** The same constants, with the same kind; form classes differ at most in their store. */
  predicate SameClasses(h: Heap, h': Heap) {
    && h'.consts.Keys == h.consts.Keys
    && forall c :: c in h.consts ==>
         && h'.consts[c].FormConst? == h.consts[c].FormConst?
         && (h.consts[c].ModelConst? ==> h'.consts[c] == h.consts[c])
         && (h.consts[c].FormConst? ==> h'.consts[c].form.(store := []) == h.consts[c].form.(store := []))
  }

  /** Form `b` is form `a` with more slots: same class, `persisted?` and errors. */
  predicate SlotsOnly(a: Obj, b: Obj) {
    && a.Form? && b.Form?
    && b.cls == a.cls && b.persisted == a.persisted && b.errors == a.errors
    && a.accessors <= b.accessors
  }

  /** `h'` follows `h`: objects of `h` other than `o` are untouched, `o` (a form) gains slots
      only, the trace and the allocation counter only grow, and only stores of classes change. */
  predicate Evolves(h: Heap, h': Heap, o: Oid) {
    && Good(h') && h.next <= h'.next && Later(h, h') && SameClasses(h, h')
    && (forall x :: x in h.objects ==> x in h'.objects)
    && (forall x :: x in h.objects && x != o ==> h'.objects[x] == h.objects[x])
    && (o in h.objects ==> SlotsOnly(h.objects[o], h'.objects[o]))
  }

  lemma EvolvesTrans(h1: Heap, h2: Heap, h3: Heap, o: Oid)
    requires Evolves(h1, h2, o) && Evolves(h2, h3, o)
    ensures Evolves(h1, h3, o)
  {
    assert h3.trace[..|h1.trace|] == h3.trace[..|h2.trace|][..|h1.trace|];
  }

  /** A step that changes no object that existed before it changes no form older than it. */
  lemma EvolvesFresh(h: Heap, h': Heap, o: Oid)
    requires Good(h) && Evolves(h, h', h.next) && IsForm(h, o)
    ensures Evolves(h, h', o)
  {
  }

  /** `v` is not a reference to an object that was never allocated. */
  predicate Live(h: Heap, v: Value) {
    v.Ref? ==> v.oid in h.objects
  }

  /** Form `o` has the same slot values in `h'` as in `h` except, perhaps, slot `k`. */
  ghost predicate KeepsSlots(h: Heap, h': Heap, o: Oid, k: Key) {
    && IsForm(h, o) && IsForm(h', o)
    && forall j :: j != k ==> Read(h', Ref(o), j) == Read(h, Ref(o), j)
  }

  /** `add_method` changes form `o` by slot `k` alone. */
  lemma AttachEvolves(h: Heap, o: Oid, k: Key, v: Value)
    requires Good(h) && IsForm(h, o)
    ensures Evolves(h, Attach(h, o, k, v), o) && KeepsSlots(h, Attach(h, o, k, v), o, k)
    ensures k in Attach(h, o, k, v).objects[o].accessors && Read(Attach(h, o, k, v), Ref(o), k) == v
  {
    assert h.trace[..|h.trace|] == h.trace;
  }

  lemma EvolvesClassOf(h: Heap, h': Heap, o: Oid, v: Value)
    requires Evolves(h, h', o) && Live(h, v)
    ensures Live(h', v) && ClassOf(h', v) == ClassOf(h, v)
  {
  }

  /** Each form class's validation chain starts with its superclass's: a subclass runs the
      validations its parent declared before it, then its own. */
  ghost predicate InheritsValidators(h: Heap) {
    forall c :: IsFormClass(h, c) && IsFormClass(h, h.consts[c].form.superName) ==>
      var p := h.consts[h.consts[c].form.superName].form.validators;
      |p| <= |h.consts[c].form.validators| && h.consts[c].form.validators[..|p|] == p
  }

  /** Steps that change only class stores keep every chain as it was. */
  lemma SameClassesInherits(h: Heap, h': Heap)
    requires SameClasses(h, h') && InheritsValidators(h)
    ensures InheritsValidators(h')
  {
    forall c | IsFormClass(h', c) && IsFormClass(h', h'.consts[c].form.superName)
      ensures var p := h'.consts[h'.consts[c].form.superName].form.validators;
        |p| <= |h'.consts[c].form.validators| && h'.consts[c].form.validators[..|p|] == p
    {
      var sup := h.consts[c].form.superName;
      assert h'.consts[c].form.(store := []) == h.consts[c].form.(store := []);
      assert h'.consts[sup].form.(store := []) == h.consts[sup].form.(store := []);
    }
  }

  /** Every form class's store has one entry per key and duplicate-free field lists. */
  predicate GoodStores(h: Heap) {
    forall c :: c in h.consts && h.consts[c].FormConst? ==> WellFormed(h.consts[c].form.store)
  }

  lemma SameShapeRefl(h: Heap)
    ensures SameShape(h, h) && Later(h, h)
  {
    assert h.trace[..|h.trace|] == h.trace;
  }

  /** The shape of the heap fixes every form's class, hence its store and validators. */
  lemma SameShapeStore(h: Heap, h': Heap, o: Oid)
    requires SameShape(h, h')
    ensures IsForm(h', o) == IsForm(h, o)
    ensures StoreOf(h', o) == StoreOf(h, o) && ValidatorsOf(h', o) == ValidatorsOf(h, o)
    ensures ModelNameOf(h', o) == ModelNameOf(h, o)
    ensures ClassOfForm(h', o) == ClassOfForm(h, o)
  {
  }

  /** A setter call changes the one attribute or instance variable it sets. */
  lemma SetAttrShape(h: Heap, t: Oid, k: Key, v: Value)
    requires HasSetter(h, t, k)
    ensures SameShape(h, SetAttr(h, t, k, v)) && SetAttr(h, t, k, v).trace == h.trace
    ensures forall x :: x in h.objects && x != t ==> SetAttr(h, t, k, v).objects[x] == h.objects[x]
    ensures h.objects[t].Record? ==> SetAttr(h, t, k, v).objects[t].attrs == h.objects[t].attrs[k := v]
    ensures h.objects[t].Form? ==> SetAttr(h, t, k, v).objects[t].ivars == h.objects[t].ivars[k := v]
  {
  }

  /** Record `x`'s attribute `a` is written through the slot `s` of form `f`: the event of
      line 119. */
  function SlotWrites(evts: seq<Event>): set<(Oid, Key)> {
    set e | e in evts && e.SetOnSlot? :: (e.target, e.key)
  }

  lemma SlotWritesAppend(a: seq<Event>, b: seq<Event>)
    ensures SlotWrites(a + b) == SlotWrites(a) + SlotWrites(b)
  {
    assert forall e :: e in a + b <==> e in a || e in b;
  }

  /** `k` is a declared field of the model entry under `s` in the store of form `f`. */
  predicate Declared(h: Heap, f: Oid, s: Key, k: Key) {
    Find(StoreOf(h, f), s).Some? && Find(StoreOf(h, f), s).value.ModelEntry? &&
    k in Find(StoreOf(h, f), s).value.fields
  }

  /** Every event appended since `h` is a setter call. */
  ghost predicate OnlySetters(h: Heap, h': Heap)
    requires Later(h, h')
  {
    forall e :: e in NewEvents(h, h') ==> e.SetOnForm? || e.SetOnSlot?
  }

  /** The readers the setter calls among `evts` write: `k` of the form itself for its own `k=`,
      `k` of the object in the slot for line 119. */
  function Writes(evts: seq<Event>): set<(Oid, Key)> {
    (set e | e in evts && e.SetOnForm? :: (e.form, e.key)) + SlotWrites(evts)
  }

  lemma WritesAppend(a: seq<Event>, b: seq<Event>)
    ensures Writes(a + b) == Writes(a) + Writes(b)
  {
    assert forall e :: e in a + b <==> e in a || e in b;
  }

  /** Every reader that refers to an object in `h'` referred to that object in `h`: a slot may be
      overwritten with plain data, but never pointed at another object. */
  ghost predicate RefsKept(h: Heap, h': Heap) {
    forall x: Oid, k :: Read(h', Ref(x), k).Ref? ==> Read(h', Ref(x), k) == Read(h, Ref(x), k)
  }

  /** Every write through a model slot since `h` went to the object that slot held in `h`. */
  ghost predicate SlotTargets(h: Heap, h': Heap)
    requires Later(h, h')
  {
    forall e :: e in NewEvents(h, h') && e.SetOnSlot? ==> Read(h, Ref(e.form), e.slot) == Ref(e.target)
  }

  /** Every reader of a form of `h` that reads differently in `h'` was set by a setter call. */
  ghost predicate FormWritesLogged(h: Heap, h': Heap)
    requires Later(h, h')
  {
    forall x: Oid, k :: IsForm(h, x) && Read(h', Ref(x), k) != Read(h, Ref(x), k) ==> (x, k) in Writes(NewEvents(h, h'))
  }

  /** Between `h` and `h'` only attributes, instance variables and the trace changed; every write
      through a model slot was of a declared field, to the object the slot held at the start; no
      reader was pointed at another object; every changed reader of a form was set by a setter
      call; and every record attribute that changed was written through a model slot. */
  ghost predicate Routed(h: Heap, h': Heap) {
    && SameShape(h, h') && Later(h, h')
    && OnlySetters(h, h')
    && (forall e :: e in NewEvents(h, h') && e.SetOnSlot? ==> Declared(h, e.form, e.slot, e.key))
    && SlotTargets(h, h')
    && RefsKept(h, h')
    && FormWritesLogged(h, h')
    && (forall x, a :: x in h.objects && h.objects[x].Record? && a in h.objects[x].attrs &&
                       h'.objects[x].attrs[a] != h.objects[x].attrs[a] ==>
                         (x, a) in SlotWrites(NewEvents(h, h')))
  }

  /** After a setter call on `t`, its reader `k` returns the value set; no other reader of any
      object changes. */
  lemma SetAttrRead(h: Heap, t: Oid, k: Key, v: Value, x: Oid, j: Key)
    requires t in h.objects
    ensures Read(SetAttr(h, t, k, v), Ref(x), j) == if x == t && j == k then v else Read(h, Ref(x), j)
  {
  }

  /** A setter call with plain data, recorded by the event `e` naming it, keeps every reference
      and is logged. */
  lemma SetterStep(h: Heap, t: Oid, k: Key, v: Value, e: Event)
    requires HasSetter(h, t, k) && !v.Ref?
    requires e == SetOnForm(t, k, v) || (e.SetOnSlot? && e.target == t && e.key == k)
    ensures var h' := Emit(SetAttr(h, t, k, v), e);
      && Later(h, h') && NewEvents(h, h') == [e]
      && RefsKept(h, h') && FormWritesLogged(h, h')
  {
    var h' := Emit(SetAttr(h, t, k, v), e);
    assert h'.trace[..|h.trace|] == h.trace;
    assert NewEvents(h, h') == [e];
    assert (t, k) in Writes([e]);
    forall x, j ensures Read(h', Ref(x), j) == if x == t && j == k then v else Read(h, Ref(x), j) {
      SetAttrRead(h, t, k, v, x, j);
    }
  }

  lemma RefsKeptTrans(h1: Heap, h2: Heap, h3: Heap)
    requires RefsKept(h1, h2) && RefsKept(h2, h3)
    ensures RefsKept(h1, h3)
  {
  }

  lemma SlotTargetsTrans(h1: Heap, h2: Heap, h3: Heap)
    requires Later(h1, h2) && Later(h2, h3) && SlotTargets(h1, h2) && SlotTargets(h2, h3)
    requires RefsKept(h1, h2)
    ensures Later(h1, h3) && SlotTargets(h1, h3)
  {
    NewEventsSplit(h1, h2, h3);
  }

  lemma FormWritesLoggedTrans(h1: Heap, h2: Heap, h3: Heap)
    requires Later(h1, h2) && Later(h2, h3) && SameShape(h1, h2)
    requires FormWritesLogged(h1, h2) && FormWritesLogged(h2, h3)
    ensures Later(h1, h3) && FormWritesLogged(h1, h3)
  {
    NewEventsSplit(h1, h2, h3);
    WritesAppend(NewEvents(h1, h2), NewEvents(h2, h3));
  }

  lemma RoutedRefl(h: Heap)
    ensures Routed(h, h)
  {
    SameShapeRefl(h);
    assert NewEvents(h, h) == [];
  }

  lemma RoutedTrans(h1: Heap, h2: Heap, h3: Heap)
    requires Routed(h1, h2) && Routed(h2, h3)
    ensures Routed(h1, h3)
  {
    NewEventsSplit(h1, h2, h3);
    SlotWritesAppend(NewEvents(h1, h2), NewEvents(h2, h3));
    RefsKeptTrans(h1, h2, h3);
    SlotTargetsTrans(h1, h2, h3);
    FormWritesLoggedTrans(h1, h2, h3);
    forall e | e in NewEvents(h2, h3) && e.SetOnSlot?
      ensures Declared(h1, e.form, e.slot, e.key)
    {
      SameShapeStore(h1, h2, e.form);
    }
  }

  /** Between `h` and `h'` nothing but error collections and the trace changed. */
  predicate OnlyErrors(h: Heap, h': Heap) {
    && h'.consts == h.consts && h'.next == h.next && h'.objects.Keys == h.objects.Keys
    && forall x :: x in h.objects ==> h'.objects[x].(errors := []) == h.objects[x].(errors := [])
  }

  /** Every event appended since `h` is a `valid?` call. */
  ghost predicate OnlyValidations(h: Heap, h': Heap)
    requires Later(h, h')
  {
    forall e :: e in NewEvents(h, h') ==> e.Validated?
  }

  /** Only error collections and the trace changed, and the errors of an object outside `except`
      changed only if `valid?` was called on it in between. */
  ghost predicate Revalidated(h: Heap, h': Heap, except: set<Oid>) {
    && OnlyErrors(h, h') && Later(h, h')
    && OnlyValidations(h, h')
    && forall x :: x in h.objects && x !in except && h'.objects[x].errors != h.objects[x].errors ==>
         Validated(x) in NewEvents(h, h')
  }

  lemma OnlyErrorsShape(h: Heap, h': Heap)
    requires OnlyErrors(h, h')
    ensures SameShape(h, h')
  {
    forall x | x in h.objects
      ensures h'.objects[x].Record? == h.objects[x].Record? && h'.objects[x].cls == h.objects[x].cls
    {
      assert h'.objects[x].(errors := []) == h.objects[x].(errors := []);
    }
  }

  /** Changing only error collections changes no reader and no object's kind. */
  lemma OnlyErrorsRead(h: Heap, h': Heap, v: Value, k: Key)
    requires OnlyErrors(h, h')
    ensures RespondTo(h', v, k) == RespondTo(h, v, k) && Read(h', v, k) == Read(h, v, k)
    ensures v.Ref? ==> IsForm(h', v.oid) == IsForm(h, v.oid) && IsRecord(h', v.oid) == IsRecord(h, v.oid)
    ensures v.Ref? && IsRecord(h, v.oid) ==> h'.objects[v.oid].attrs == h.objects[v.oid].attrs
  {
    if v.Ref? && v.oid in h.objects {
      assert h'.objects[v.oid].(errors := []) == h.objects[v.oid].(errors := []);
    }
  }

  lemma RevalidatedRefl(h: Heap, except: set<Oid>)
    ensures Revalidated(h, h, except)
  {
    assert h.trace[..|h.trace|] == h.trace;
  }

  lemma RevalidatedTrans(h1: Heap, h2: Heap, h3: Heap, except: set<Oid>)
    requires Revalidated(h1, h2, except) && Revalidated(h2, h3, except)
    ensures Revalidated(h1, h3, except)
  {
    assert h3.trace[..|h1.trace|] == h3.trace[..|h2.trace|][..|h1.trace|];
    assert NewEvents(h1, h3) == NewEvents(h1, h2) + NewEvents(h2, h3);
  }

  lemma RevalidatedWiden(h: Heap, h': Heap, a: set<Oid>, b: set<Oid>)
    requires Revalidated(h, h', a) && a <= b
    ensures Revalidated(h, h', b)
  {
  }

  /** Events appended in two stages. */
  lemma NewEventsSplit(h1: Heap, h2: Heap, h3: Heap)
    requires Later(h1, h2) && Later(h2, h3)
    ensures Later(h1, h3) && NewEvents(h1, h3) == NewEvents(h1, h2) + NewEvents(h2, h3)
  {
    assert h3.trace[..|h1.trace|] == h3.trace[..|h2.trace|][..|h1.trace|];
  }

  lemma SetErrorsRevalidated(h: Heap, o: Oid, e: ErrorList)
    ensures Revalidated(h, SetErrors(h, o, e), {o})
  {
    assert h.trace[..|h.trace|] == h.trace;
  }

  /** No `valid?` call on `o` among the events appended since `h`. */
  predicate NotValidatedSince(h: Heap, h': Heap, o: Oid) {
    forall i :: |h.trace| <= i < |h'.trace| ==> h'.trace[i] != Validated(o)
  }

  /** A stretch that did not validate `o` splits into two such stretches. */
  lemma NotValidatedSplit(h: Heap, h2: Heap, h3: Heap, o: Oid)
    requires Later(h, h2) && Later(h2, h3) && NotValidatedSince(h, h3, o)
    ensures NotValidatedSince(h, h2, o) && NotValidatedSince(h2, h3, o)
  {
    forall i | |h.trace| <= i < |h2.trace| ensures h2.trace[i] != Validated(o) {
      assert h3.trace[..|h2.trace|][i] == h3.trace[i];
    }
  }
}
