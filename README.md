# Powertools form layer in Dafny

This project models `Powertools::Form`, a form object that sits in front of one or more records.
A form class declares which records it wraps, and which fields go to each of them, with `delegate`:

- A `to_model` declaration adds a *model entry* to the class's store. The entry names the record class and the fields it takes.
- A `to_form` declaration adds a *form entry*. The entry names a nested form class and that form's model name.

The model covers:

- **Construction.** A new form inherits its parent class's store (unless the parent is `PowertoolsForm`). It builds or adopts a record for every model entry and a nested form for every form entry. It is `persisted?` when the supplied model has a truthy `id`.
- **`set_params`.** Routes a params hash to the form's own setters, the records in its model slots and its nested forms.
- **`submit`.** Routes the params, asks every slot and then the form itself `valid?`, and calls `save!` only when all of them answered true.
- **`save!`.** Saves the nested forms, then the primary record, with hooks in between.
- **`inherit_validation`.** Copies the errors of an invalid slot into the form's errors.

The Ruby program's state lives in a value `Objects.Heap`:

- the constants (form classes with their stores and validator chains, and record classes);
- the objects (records and forms, with their slots, attributes and error lists);
- the allocation counter;
- a trace of the observable calls: hooks, setter calls, `valid?` calls and record saves.

Each operation is specified by a function from a `Heap` to a `Step`. A `Step` holds the new heap and either a result or the Ruby exception raised. As in Ruby, effects made before an exception are kept.

The lemmas about those functions state what the code promises. `Runtime.Process` is a class holding the same state in fields. Its methods perform the operations in place, loop by loop, and each method is proved to end in exactly the state and outcome of the function that specifies it.

Ruby's unbounded recursion (a form nested in itself) is cut off by a `depth` budget. `StackTooDeep` stands for `SystemStackError`.

## Model

| member | source | states |
|---|---|---|
| Schema.DeclareModelEffect | lib/powertools/form.rb:166-172 | The `to_model` store update raises NoMethodError exactly when the key already holds a form entry. Otherwise the key holds a model entry. That entry keeps its class when it already existed and otherwise takes the declared one. Its field list starts with the old fields, holds exactly the old and the declared fields, and has no duplicates. Every other key is unchanged. |
| Schema.DeclareModelIdempotent | lib/powertools/form.rb:166-172 | Declaring the same fields for the same model twice leaves the store as one declaration does (`uniq!`). |
| Schema.MergeEffect | lib/powertools/form.rb:23-29 | Merging a parent store raises exactly when one of the parent's form entries lands on a model entry of the child (`concat(nil)`). On success the keys, in order, are the child's followed by the parent's keys the child lacked, in the parent's order. Each parent key holds `Merged`: field lists are concatenated without duplicates, and anything else is overwritten by the parent's entry. Every other key is unchanged, and the store stays well formed. |
| Schema.PutKeySeq | lib/powertools/form.rb:27 | `store[key] = data` keeps the position of a key the hash already has and appends a new key at the end. |
| Schema.MergeIntoOrder | lib/powertools/form.rb:23-29 | After the merge loop has run over a prefix of the parent's pairs, the keys are the child's in their order, followed by that prefix's keys the child lacked, in the parent's order. |
| Schema.MergedModelFields | lib/powertools/form.rb:24-25 | Two model entries merge into a field list without duplicates. The child's fields come first, and its elements are exactly the union. |
| Schema.MergeIdempotent | lib/powertools/form.rb:19-29 | Merging the same parent store a second time changes nothing. |
| Schema.UniqTwice | lib/powertools/form.rb:25 | `uniq!` is idempotent. |
| Construction.MergeParentEffect | lib/powertools/form.rb:19-30 | A class whose superclass is named `PowertoolsForm` keeps its store. Otherwise the merge raises exactly when the superclass has no store or the merge clashes. On success it gives `MergeEffect`'s store, and no other constant, object or trace entry changes. |
| Construction.MergedStoreGood | lib/powertools/form.rb:19-30 | After a successful merge the store is well formed: unique keys, and field lists without duplicates. |
| Construction.ConstructFrame | lib/powertools/form.rb:13-16 | Construction leaves every existing object as it was. A construction that returns yields the freshly allocated form of the requested class. That form is `persisted?` exactly when the supplied value responds to `id` with a truthy id. |
| Construction.ComposeModelSlot | lib/powertools/form.rb:35-41 | For a model entry, the slot holds a live object of the entry's class. When the supplied model is truthy and of that class, the step cannot raise and the slot holds the model itself. Otherwise it holds a freshly allocated record, which also becomes the new `model`. |
| Construction.ComposeFormSlot | lib/powertools/form.rb:42-46 | For a form entry: when `model` is truthy and responds to the key, the slot holds a fresh form of the entry's class built from `model.key`, with `persisted?` as that value dictates. Otherwise nothing changes and nothing is raised. `model` is passed on unchanged. |
| Construction.ComposeSlots | lib/powertools/form.rb:33-48 | After the loop, every model entry's slot holds an object of the entry's class. The local `model` is the object in the last model entry's slot (line 39 reassigns it), or the supplied value when there is no model entry. |
| Construction.ConstructInherits | lib/powertools/form.rb:13-51 | Construction changes class stores only, so every validator chain still extends its superclass's. |
| Objects.SameClassesInherits | lib/powertools/form.rb:197-198 | A change that keeps every class's validator chain keeps each chain an extension of its superclass's. |
| Construction.ConstructSlots | lib/powertools/form.rb:13-51 | A construction that returns gives the new form one slot per model entry of its merged store, inherited entries included. Each slot holds a live object of the entry's class. |
| Construction.LastModel | lib/powertools/form.rb:35-41 | The index of the last model entry among the first `n` store entries. When it exists, it is in range, that entry is a model entry, and no later entry is one. When there is none, every one of those entries is a form entry. |
| Declaration.PresenceValidators | lib/powertools/form.rb:225-234 | The validators added are exactly the presence validators on the slot for those declared fields on which the model class has a presence validator. |
| Declaration.DelegateToModelEffect | lib/powertools/form.rb:151-175 | A `to_model` declaration raises NameError when the model class is missing. It raises NoMethodError when the symbol is already a `to_form` key, and then changes nothing. Otherwise it changes only the declaring class. Its store entry keeps its old fields first and holds exactly the old and the declared fields, and other keys keep their entries. The validator chain keeps all it had, then gains one slot-folding validator. The presence validators that follow cover exactly the declared fields on which the record class has an ActiveRecord presence validator; a form class given as the model contributes none. |
| Declaration.DelegateToModelInherits | lib/powertools/form.rb:174-175 | On a class that has no subclass yet, a `to_model` declaration keeps every class's validator chain an extension of its superclass's. |
| Declaration.DelegateToFormEffect | lib/powertools/form.rb:176-191 | A `to_form` declaration raises NameError when the form class is missing. An already-declared key keeps its entry and nothing happens. Otherwise the key maps to a form entry naming the class, the form name and the nested form's model name. Every other key keeps the entry it has once the throw-away instance of line 189 is built; building it may merge the parent store into the declaring class. |
| Router.SetParamsRouted | lib/powertools/form.rb:100-142 | `set_params` changes no class, no object's identity or kind, and no `persisted?` flag. It only calls setters. A write through a model slot (line 119) is of a field declared for that slot and goes to the record the slot held when the call began. No reader of any object is pointed at another object: a slot keeps its object or is overwritten with plain data. Every reader of a form that changes was set by a recorded setter call on that form, and every record attribute that changes was written through a model slot. |
| Router.RootParamOverwritesSlot | lib/powertools/form.rb:126-128 | A root-level scalar param named like one of the form's slots goes to the slot's own accessor: afterwards the slot holds the plain value instead of its object. |
| Router.ModelScopeAssigns | lib/powertools/form.rb:103-124 | Take flat params under a model entry, on a form without setters of its own for the declared fields. The call succeeds. Its only effect on objects is that the slot's record gets `params[field]` for each declared field the params name, under the field's symbol. Every other attribute is unchanged. |
| Router.FormSetterFirst | lib/powertools/form.rb:110-124 | Under a model scope, an undeclared field is dropped. A declared field for which the form has its own setter goes to that setter, and the record is left alone. |
| Router.RootAssigns | lib/powertools/form.rb:103-131 | Flat params at the root succeed and change no object but the form. Each reader `k` of the form returns the last value given under `k` when the form has a setter `k=`, and otherwise returns what it returned before. |
| Router.FormScopeForwards | lib/powertools/form.rb:132-136 | Under a scope naming a form entry whose slot holds a form, `set_params` is exactly the nested form's `set_params` on the same hash, scoped by the entry's model name; the outer form assigns nothing. |
| Router.NestedHashRecurses | lib/powertools/form.rb:105-108 | A nested hash under any key, in any scope, is routed by a recursive `set_params` scoped by that key, whether or not the key is a declared field. |
| Router.UnknownScopeAssigns | lib/powertools/form.rb:137-141 | Under a scope with no store entry, the whole hash goes to the form's own setter of that name when there is one. Otherwise it is dropped and nothing changes. |
| Validation.CheckFolds | lib/powertools/form.rb:200-207 | Take a slot object whose `valid?` does not validate the form again. If it is invalid, every one of its messages is appended to the form's errors under the same field, in order and without deduplication. If it is valid, the form's errors stay as they were. |
| Validation.FoldSlotAppends | lib/powertools/form.rb:197-222 | The `inherit_validation` block for a slot keeps the form's errors as a prefix. Next come the slot object's messages when it is invalid. The checks of the `:form` slots only append after them. When the block completes, the form's errors for each field are exactly its old messages, then the slot object's messages if it is invalid, then the messages of every invalid `:form` slot in store order. |
| Validation.FoldFormsAppends | lib/powertools/form.rb:209-221 | When the loop over the store completes without validating the form again, the form's messages for every field after `n` entries are its old messages followed by those of the invalid `:form` slots among the first `n`, in store order. A slot contributes its object's messages only when it is a `:form` slot whose `valid?` answered false. |
| Validation.FoldFormsAppendsStep | lib/powertools/form.rb:211-219 | One entry of the loop keeps the trace and cannot turn a raise into a completion. When it completes without validating the form again, the form's messages for every field are the earlier ones followed by exactly the entry's slot messages if it is a `:form` slot whose `valid?` answered false, and nothing otherwise. |
| Validation.ModelSlotInvalidates | lib/powertools/form.rb:197-223 | When the slot checked first by an `inherit_validation` block answers `valid?` false, the form's own `valid?` is false, unless the chain raises or validates the form again. |
| Validation.FormSlotInvalidates | lib/powertools/form.rb:209-223 | When a `:form` slot checked by the loop over the store answers `valid?` false, the form's own `valid?` is false, unless the chain raises or validates the form again. |
| Validation.RunValidatorsGrows | lib/powertools/form.rb:197-222 | Validators of the chain that do not validate the form again only add to its errors. |
| Validation.ValidatorErrorInvalidates | lib/powertools/form.rb:197-222 | `valid?` on a form is false as soon as any prefix of its validator chain has recorded an error. |
| Errors.FoldMessages | lib/powertools/form.rb:202-206 | Copying one error list into another appends, for every field, the source's messages after the destination's. |
| Errors.FoldTwice | lib/powertools/form.rb:202-206 | Copying the same errors twice records every message twice: there is no deduplication. |
| Errors.FoldEmpty | lib/powertools/form.rb:201-207 | The result of copying is empty exactly when both lists are. |
| Saving.SaveOrder | lib/powertools/form.rb:86-98 | A `save!` that completes appends, in this order: the `before_forms_save` hook; the saves of every `:form` slot other than the primary model name, in store order; the `before_save` hook; the save of the primary slot; the `after_save` hook. Nothing but the trace changes. |
| Saving.SaveFormsOrder | lib/powertools/form.rb:90-94 | The form-slot loop saves exactly the `:form` slots other than the primary one, in store order, and changes nothing but the trace. |
| Submission.CheckSlotsAll | lib/powertools/form.rb:72-75 | Every store slot is asked `valid?`, with no short-circuit. The outcome is true exactly when every slot answered true. Every slot is an object that was validated. |
| Submission.FinishGate | lib/powertools/form.rb:71-83 | Once the params are routed: for every outcome, including a `save!` that raises, `save!` starts exactly when every slot and then the form answered `valid?` with true. A run that completes returns true exactly then. When `save!` does not run, only `valid?` calls are made. |
| Submission.FinishSaveGate | lib/powertools/form.rb:71-83 | For every outcome of the validation and save stage, including a `save!` that raises, the `before_forms_save` hook ran exactly when every slot and then the form answered `valid?` with true. |
| Submission.SubmitGate | lib/powertools/form.rb:64-84 | A `submit` that completes has run `save!` exactly when, after the params were routed, every store slot and then the form answered `valid?` with true. When it did not save, the only hook run is `before_submit` and no record was saved. For every outcome, including a raise inside `save!`, `save!` started exactly when the params were routed without a raise and every slot and then the form answered true. |
| Submission.SubmitGuarded | lib/powertools/form.rb:64-84 | Whatever `submit` does, even when it raises: every record attribute it changes was written through a model slot, as a field declared for that slot, to the record the slot held when `submit` was called. `persisted?` and the classes stay as they were, and no slot is pointed at another object, though a param may overwrite a slot with plain data. |
| Submission.ValidQEmits | lib/powertools/form.rb:74 | A `valid?` call that answers was made on a record or a form, and the call is recorded. |
| Runtime.Process.AddMethod | lib/powertools/form.rb:57-62 | `add_method` defines the accessor on the form and stores the object in it. |
| Runtime.Process.DelegateToModel | lib/powertools/form.rb:154-175 | Ends in exactly the state and outcome of `Declaration.DelegateToModel`. |
| Runtime.Process.DelegateToForm | lib/powertools/form.rb:176-191 | Ends in exactly the state and outcome of `Declaration.DelegateToForm`. |
| Runtime.Process.MergeParent | lib/powertools/form.rb:19-30 | The merge loop ends in exactly the state and outcome of `Construction.MergeParent`. |
| Runtime.Process.Construct | lib/powertools/form.rb:13-51 | Construction, including the compose loop, ends in exactly the state and outcome of `Construction.Construct`. |
| Runtime.Process.ComposeEntry | lib/powertools/form.rb:34-47 | One compose step ends in exactly the state and outcome of `Construction.ComposeEntry`. |
| Runtime.Process.New | lib/powertools/form.rb:39 | `const_get(cls).new` ends in exactly the state and outcome of `Construction.New`. |
| Runtime.Process.SetParams | lib/powertools/form.rb:100-142 | Ends in exactly the state and outcome of `Router.SetParams`. |
| Runtime.Process.AssignPairs | lib/powertools/form.rb:104-131 | The params loop ends in exactly the state and outcome of `Router.AssignPairs`. |
| Runtime.Process.AssignPair | lib/powertools/form.rb:105-130 | One pair ends in exactly the state and outcome of `Router.AssignPair`. |
| Runtime.Process.ValidQ | lib/powertools/form.rb:74-78 | `valid?` ends in exactly the state and outcome of `Validation.ValidQ`. |
| Runtime.Process.ValidateForm | lib/powertools/form.rb:198-222 | The validator loop ends in exactly the state and outcome of `Validation.ValidateForm`. |
| Runtime.Process.RunValidator | lib/powertools/form.rb:198-222 | One validator ends in exactly the state and outcome of `Validation.RunValidator`. |
| Runtime.Process.CheckAndFold | lib/powertools/form.rb:200-207 | Ends in exactly the state and outcome of `Validation.CheckAndFold`. |
| Runtime.Process.FoldErrors | lib/powertools/form.rb:202-206 | The nested loops leave the form's errors equal to `Errors.Fold` of the old errors and the slot's errors. |
| Runtime.Process.FoldForms | lib/powertools/form.rb:210-221 | The store loop ends in exactly the state and outcome of `Validation.FoldForms`. |
| Runtime.Process.SaveForm | lib/powertools/form.rb:86-98 | Ends in exactly the state and outcome of `Saving.SaveForm`. |
| Runtime.Process.SavePrimary | lib/powertools/form.rb:95-97 | Ends in exactly the state and outcome of `Saving.SavePrimary`. |
| Runtime.Process.SaveValue | lib/powertools/form.rb:92 | Ends in exactly the state and outcome of `Saving.SaveValue`. |
| Runtime.Process.Submit | lib/powertools/form.rb:64-84 | The `is_valid &=` loop and the rest of `submit` end in exactly the state and outcome of `Submission.Submit`. |

## Left out

- `delegate` with neither `to_model` nor `to_form`, and the call to Rails' own `delegate` (lines 164 and 193), are not modelled. They define reader methods through ActiveSupport, which is not part of this model. The delegated readers are not modelled either.
- Rails' `classify`, `underscore` and `model_name` inflections are not modelled. The class name of a declaration is a parameter, and every class constant carries its model name as a key.
- `Object::const_get` is a lookup in the constants of the heap. An unknown name raises NameError.
- A form entry whose class names a record class makes the model raise NotAFormClass. In Ruby, `new` with one argument would call whatever that class does.
- `add_method` without a name (lines 37 and 40) uses `model.class.name.underscore`, and the class name is `to_model`'s symbol passed through `classify`, which singularizes. The model attaches a model slot under its store key instead. The two names coincide only when `sym.classify.underscore == sym`. Otherwise the model diverges: after `to_model: :settings` Ruby names the slot `setting`, so `send(:settings)` at lines 114 and 200 raises NoMethodError, while the model finds the slot.
- Params are plain Ruby hashes. Line 105 symbolises each key, and `params[key]` at lines 119 and 122 then looks the symbol up, so a value given under a string key reads as nil there; the model's `Fetch(params, Sym(k))` does the same. Rails' indifferent access (`ActionController::Parameters`), which would find the string key, is not modelled.
- The compose loop (lines 33-48) iterates over the store as it is after the merge. Nested constructions that change the store of the same class during the loop are not modelled.
- Line 27 puts the parent's entry object itself into the child's store, so later in-place `concat` on one is seen by the other. The model copies entries by value.
- Record classes are opaque. Their `valid?` validates the record, records the call and leaves its errors as they are. Their `save!` records the call and persists nothing. Their setters write an attribute.
- Validations a form class declares for itself, other than those `delegate` adds, are not modelled.
- Each form class's `validators` stands for its whole validation callback chain, inherited callbacks included. `Objects.InheritsValidators` states that a subclass's chain extends its superclass's. A `delegate` on a class that already has subclasses adds to that class's chain only, whereas Rails' `validate` also updates the chains of its descendants; `Declaration.DelegateToModelInherits` therefore covers a class without subclasses.
- The presence validators that `inherit_presence_validators` adds are modelled as reading the field through the slot's record. Rails would call the delegated reader, which does the same.
- `respond_to?` on strings, hashes and other plain data answers false, and sending them a message raises NoMethodError.
- A custom setter `k=` on a form is modelled as writing the instance variable its reader returns. Setters with other behaviour are not modelled.
- Hooks (`run_hook`) are recorded in the trace. The callbacks users register on them are not run.
- `form_name` (lines 236-252) only serves a view library and is not modelled.
- `store` and `persisted?` (lines 7-11, 53-55 and 144-149) are fields of the class and form values. The lazy `||= {}` default is an empty store.
- Submission.Submit: the outcome is `Ok(true)` when `save!` ran and `Ok(false)` when `submit` returned `nil`. In Ruby a completed `save!` returns the value of its last hook call.
- Recursion depth is bounded by the `depth` parameter. `StackTooDeep` stands for Ruby's `SystemStackError` and for the limit of the budget.
- Concurrency, the database and I/O are not part of this model.
