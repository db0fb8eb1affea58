/** The class-level `store` of a form class: an insertion-ordered hash from a slot key to the
    entry declared for it by `delegate`, and the two operations that change it — declaration
    (lines 151-195) and the merge of the parent class's store at construction (lines 19-29). */
module Schema {
  import opened Values

  /** `{type: :model, class:, fields:}` or `{type: :form, class:, form_name:, model_name:}`. */
  datatype Entry =
    | ModelEntry(cls: ClassName, fields: seq<Key>)
    | FormEntry(cls: ClassName, formName: Key, modelName: Key)

  type Store = seq<(Key, Entry)>

  predicate NoDups(s: seq<Key>) {
    forall i, j :: 0 <= i < j < |s| ==> s[i] != s[j]
  }

  function Keys(s: Store): set<Key> {
    set i | 0 <= i < |s| :: s[i].0
  }

  predicate UniqueKeys(s: Store) {
    forall i, j :: 0 <= i < j < |s| ==> s[i].0 != s[j].0
  }

  /** What every store built by `delegate` and the merge satisfies: one entry per key (a Ruby
      hash) and duplicate-free field lists (every write to them goes through `uniq!`). */
  predicate WellFormed(s: Store) {
    UniqueKeys(s) && forall i :: 0 <= i < |s| && s[i].1.ModelEntry? ==> NoDups(s[i].1.fields)
  }

  predicate GoodEntry(e: Entry) {
    e.ModelEntry? ==> NoDups(e.fields)
  }

  /** `store[k]`. */
  function Find(s: Store, k: Key): Option<Entry> {
    if s == [] then None else if s[0].0 == k then Some(s[0].1) else Find(s[1..], k)
  }

  /** `store[k] = e`: an existing key keeps its position, a new key goes last. */
  function Put(s: Store, k: Key, e: Entry): (r: Store)
    ensures |r| > 0
  {
    if s == [] then [(k, e)]
    else if s[0].0 == k then [(k, e)] + s[1..]
    else [s[0]] + Put(s[1..], k, e)
  }

  lemma {:induction false} KeysCons(p: (Key, Entry), s: Store)
    ensures Keys([p] + s) == {p.0} + Keys(s)
  {
    var r := [p] + s;
    forall k | k in Keys(r) ensures k in {p.0} + Keys(s) {
      var i :| 0 <= i < |r| && r[i].0 == k;
      if i > 0 { assert s[i - 1].0 == k; }
    }
    forall k | k in {p.0} + Keys(s) ensures k in Keys(r) {
      if k == p.0 {
        assert r[0].0 == k;
      } else {
        var i :| 0 <= i < |s| && s[i].0 == k;
        assert r[i + 1].0 == k;
      }
    }
  }

  lemma {:induction false} FindSome(s: Store, k: Key)
    ensures Find(s, k).Some? <==> k in Keys(s)
  {
    if s != [] {
      FindSome(s[1..], k);
      KeysCons(s[0], s[1..]);
      assert [s[0]] + s[1..] == s;
    }
  }

  lemma {:induction false} FindAt(s: Store, i: nat)
    requires UniqueKeys(s) && i < |s|
    ensures Find(s, s[i].0) == Some(s[i].1)
  {
    if i > 0 {
      assert s[1..][i - 1] == s[i];
      FindAt(s[1..], i - 1);
    }
  }

  /** A key found in a well-formed store is found at some position. */
  lemma {:induction false} FindIndex(s: Store, k: Key) returns (i: nat)
    requires Find(s, k).Some?
    ensures i < |s| && s[i] == (k, Find(s, k).value)
  {
    if s[0].0 == k {
      i := 0;
    } else {
      var j := FindIndex(s[1..], k);
      i := j + 1;
    }
  }

  lemma {:induction false} FindWellFormed(s: Store, k: Key)
    requires WellFormed(s) && Find(s, k).Some?
    ensures GoodEntry(Find(s, k).value)
  {
    var i := FindIndex(s, k);
  }

  lemma {:induction false} PutFind(s: Store, k: Key, e: Entry, k': Key)
    ensures Find(Put(s, k, e), k') == if k' == k then Some(e) else Find(s, k')
  {
    if s != [] && s[0].0 != k {
      PutFind(s[1..], k, e, k');
    }
  }

  lemma {:induction false} PutKeys(s: Store, k: Key, e: Entry)
    ensures Keys(Put(s, k, e)) == Keys(s) + {k}
  {
    if s == [] {
      KeysCons((k, e), []);
    } else if s[0].0 == k {
      KeysCons((k, e), s[1..]);
      KeysCons(s[0], s[1..]);
      assert [s[0]] + s[1..] == s;
    } else {
      PutKeys(s[1..], k, e);
      KeysCons(s[0], Put(s[1..], k, e));
      KeysCons(s[0], s[1..]);
      assert [s[0]] + s[1..] == s;
    }
  }

  lemma {:induction false} PutWellFormed(s: Store, k: Key, e: Entry)
    requires WellFormed(s) && GoodEntry(e)
    ensures WellFormed(Put(s, k, e))
  {
    var r := Put(s, k, e);
    if s == [] {
    } else if s[0].0 == k {
      assert forall i :: 0 < i < |r| ==> r[i] == s[i];
    } else {
      var t := Put(s[1..], k, e);
      PutWellFormed(s[1..], k, e);
      PutKeys(s[1..], k, e);
      KeysCons(s[0], s[1..]);
      assert [s[0]] + s[1..] == s;
      assert s[0].0 !in Keys(s[1..]) by {
        forall j | 0 <= j < |s[1..]| ensures s[1..][j].0 != s[0].0 {
          assert s[1..][j] == s[j + 1];
        }
      }
      assert r == [s[0]] + t;
      forall i, j | 0 <= i < j < |r| ensures r[i].0 != r[j].0 {
        assert r[j] == t[j - 1];
        if i == 0 {
          assert t[j - 1].0 in Keys(t);
        } else {
          assert r[i] == t[i - 1];
        }
      }
      forall i | 0 <= i < |r| && r[i].1.ModelEntry? ensures NoDups(r[i].1.fields) {
        if i > 0 { assert r[i] == t[i - 1]; }
      }
    }
  }

  /** Re-storing the entry already there changes nothing. */
  lemma {:induction false} PutSame(s: Store, k: Key, e: Entry)
    requires Find(s, k) == Some(e)
    ensures Put(s, k, e) == s
  {
    if s[0].0 != k {
      PutSame(s[1..], k, e);
    }
  }

  /** `Array#uniq!`: keeps the first occurrence of every element, in order. */
  function Uniq(s: seq<Key>): (r: seq<Key>)
    ensures NoDups(r)
    ensures forall x :: x in r <==> x in s
    ensures |r| <= |s|
  {
    if s == [] then []
    else
      var u := Uniq(s[..|s| - 1]);
      assert s == s[..|s| - 1] + [s[|s| - 1]];
      if s[|s| - 1] in u then u else u + [s[|s| - 1]]
  }

  /** A list without duplicates is left as it is. */
  lemma {:induction false} UniqDistinct(s: seq<Key>)
    requires NoDups(s)
    ensures Uniq(s) == s
  {
    if s != [] {
      UniqDistinct(s[..|s| - 1]);
      assert s[|s| - 1] !in s[..|s| - 1];
      assert s == s[..|s| - 1] + [s[|s| - 1]];
    }
  }

  /** `a.concat(b).uniq!` keeps `Uniq(a)` in front: existing fields are extended, never
      reordered or dropped. */
  lemma {:induction false} UniqPrefix(a: seq<Key>, b: seq<Key>)
    ensures |Uniq(a)| <= |Uniq(a + b)| && Uniq(a + b)[..|Uniq(a)|] == Uniq(a)
  {
    if b == [] {
      assert a + b == a;
    } else {
      var n := |b|;
      UniqPrefix(a, b[..n - 1]);
      assert (a + b)[..|a + b| - 1] == a + b[..n - 1];
    }
  }

  /** Concatenating fields that are all already present changes nothing. */
  lemma {:induction false} UniqAbsorbs(a: seq<Key>, b: seq<Key>)
    requires NoDups(a) && forall x :: x in b ==> x in a
    ensures Uniq(a + b) == a
  {
    if b == [] {
      assert a + b == a;
      UniqDistinct(a);
    } else {
      var n := |b|;
      UniqAbsorbs(a, b[..n - 1]);
      assert (a + b)[..|a + b| - 1] == a + b[..n - 1];
      assert b[n - 1] in b;
    }
  }

  /** Repeating a concatenation with the same fields is a no-op. */
  lemma UniqTwice(a: seq<Key>, b: seq<Key>)
    ensures Uniq(Uniq(a + b) + b) == Uniq(a + b)
  {
    UniqAbsorbs(Uniq(a + b), b);
  }

  // ---------------------------------------------------------------------------------------------
  // Declaration: `delegate *fields, to_model: sym` (lines 166-172) and `to_form:` (lines 186-191)

  /** Lines 166-172: the entry for `sym` is created with `cls` and no fields if missing, then
      `fields` are concatenated and duplicates removed. An existing `:form` entry has no field
      list, and `nil.concat` raises. */
  function DeclareModel(s: Store, fields: seq<Key>, sym: Key, cls: ClassName): Result<Store> {
    match Find(s, sym)
    case None => Ok(Put(s, sym, ModelEntry(cls, Uniq([] + fields))))
    case Some(ModelEntry(c, fs)) => Ok(Put(s, sym, ModelEntry(c, Uniq(fs + fields))))
    case Some(FormEntry(_, _, _)) => Raised(NoMethodError("concat"))
  }

  /** A `to_model` declaration fails exactly on a key already declared `to_form`; otherwise
      the entry holds the fields it already had followed by the declared ones it lacked, and no
      other field, without duplicates
      (an existing entry, and its class, are kept), and no other key changes. */
  lemma DeclareModelEffect(s: Store, fields: seq<Key>, sym: Key, cls: ClassName)
    requires WellFormed(s)
    ensures DeclareModel(s, fields, sym, cls).Raised? <==>
            Find(s, sym).Some? && Find(s, sym).value.FormEntry?
    ensures DeclareModel(s, fields, sym, cls).Ok? ==>
      var r := DeclareModel(s, fields, sym, cls).value;
      && WellFormed(r)
      && Find(r, sym).Some? && Find(r, sym).value.ModelEntry?
      && (forall f :: f in Find(r, sym).value.fields <==>
            f in fields || (Find(s, sym).Some? && f in Find(s, sym).value.fields))
      && NoDups(Find(r, sym).value.fields)
      && (Find(s, sym).None? ==> Find(r, sym).value.cls == cls)
      && (Find(s, sym).Some? ==>
            var old_ := Find(s, sym).value;
            Find(r, sym).value.cls == old_.cls &&
            |old_.fields| <= |Find(r, sym).value.fields| &&
            Find(r, sym).value.fields[..|old_.fields|] == old_.fields)
      && forall k :: k != sym ==> Find(r, k) == Find(s, k)
  {
    match Find(s, sym)
    case None =>
      var e := ModelEntry(cls, Uniq([] + fields));
      PutWellFormed(s, sym, e);
      forall k ensures Find(Put(s, sym, e), k) == if k == sym then Some(e) else Find(s, k) {
        PutFind(s, sym, e, k);
      }
    case Some(ModelEntry(c, fs)) =>
      var e := ModelEntry(c, Uniq(fs + fields));
      PutWellFormed(s, sym, e);
      forall k ensures Find(Put(s, sym, e), k) == if k == sym then Some(e) else Find(s, k) {
        PutFind(s, sym, e, k);
      }
      FindWellFormed(s, sym);
      UniqPrefix(fs, fields);
      UniqDistinct(fs);
    case Some(FormEntry(_, _, _)) =>
  }

  /** Re-declaring the same fields to the same model changes nothing. */
  lemma DeclareModelIdempotent(s: Store, fields: seq<Key>, sym: Key, cls: ClassName)
    requires WellFormed(s) && DeclareModel(s, fields, sym, cls).Ok?
    ensures DeclareModel(DeclareModel(s, fields, sym, cls).value, fields, sym, cls) ==
            DeclareModel(s, fields, sym, cls)
  {
    var r := DeclareModel(s, fields, sym, cls).value;
    match Find(s, sym)
    case None =>
      var e := ModelEntry(cls, Uniq([] + fields));
      PutFind(s, sym, e, sym);
      assert [] + fields == fields;
      UniqAbsorbs(Uniq(fields), fields);
      PutSame(r, sym, e);
    case Some(ModelEntry(c, fs)) =>
      var e := ModelEntry(c, Uniq(fs + fields));
      PutFind(s, sym, e, sym);
      UniqTwice(fs, fields);
      PutSame(r, sym, e);
  }

  // ---------------------------------------------------------------------------------------------
  // The parent merge of lines 23-29

  /** One iteration of lines 23-29 for the parent pair `(k, d)`: a child `:model` entry gets the
      parent's fields concatenated and deduplicated (its class is kept; a parent `:form` entry
      has no field list and `concat(nil)` raises); any other child entry, or none, is replaced by
      the parent's entry. */
  function MergeStep(s: Store, p: (Key, Entry)): Result<Store> {
    var (k, d) := p;
    match Find(s, k)
    case Some(ModelEntry(c, fs)) =>
      if d.ModelEntry? then Ok(Put(s, k, ModelEntry(c, Uniq(fs + d.fields))))
      else Raised(TypeError("no implicit conversion of nil into Array"))
    case _ => Ok(Put(s, k, d))
  }

  /** Lines 23-29 over the first `n` parent pairs, in the parent's order; a raise leaves the pairs
      merged so far in place. */
  function MergeInto(child: Store, parent: Store, n: nat): Step<Store, ()>
    requires n <= |parent|
  {
    if n == 0 then Step(child, Ok(()))
    else
      var r := MergeInto(child, parent, n - 1);
      if r.out.Raised? then r
      else match MergeStep(r.state, parent[n - 1])
        case Ok(s) => Step(s, Ok(()))
        case Raised(f) => Step(r.state, Raised(f))
  }

  function MergeStore(child: Store, parent: Store): Step<Store, ()> {
    MergeInto(child, parent, |parent|)
  }

  /** What the merge does to the pair `(k, d)` of the parent. */
  function Merged(child: Store, k: Key, d: Entry): Entry {
    match Find(child, k)
    case Some(ModelEntry(c, fs)) => if d.ModelEntry? then ModelEntry(c, Uniq(fs + d.fields)) else d
    case _ => d
  }

  /** The parent pair `p` would make the merge raise. */
  predicate Clash(child: Store, p: (Key, Entry)) {
    Find(child, p.0).Some? && Find(child, p.0).value.ModelEntry? && p.1.FormEntry?
  }

  lemma {:induction false} MergeIntoEffect(child: Store, parent: Store, n: nat)
    requires n <= |parent| && WellFormed(child) && WellFormed(parent)
    ensures MergeInto(child, parent, n).out.Raised? <==>
            exists i :: 0 <= i < n && Clash(child, parent[i])
    ensures MergeInto(child, parent, n).out.Ok? ==>
      var r := MergeInto(child, parent, n).state;
      && WellFormed(r)
      && (forall i :: 0 <= i < n ==> Find(r, parent[i].0) == Some(Merged(child, parent[i].0, parent[i].1)))
      && (forall k :: k !in Keys(parent[..n]) ==> Find(r, k) == Find(child, k))
  {
    if n > 0 {
      MergeIntoEffect(child, parent, n - 1);
      var r := MergeInto(child, parent, n - 1);
      var (k, d) := parent[n - 1];
      assert k !in Keys(parent[..n - 1]) by {
        var pre := parent[..n - 1];
        forall j | 0 <= j < |pre| ensures pre[j].0 != k {
          assert pre[j] == parent[j];
        }
      }
      assert Keys(parent[..n]) == Keys(parent[..n - 1]) + {k} by {
        assert parent[..n] == parent[..n - 1] + [parent[n - 1]];
        forall x | x in Keys(parent[..n]) ensures x in Keys(parent[..n - 1]) + {k} {
          var j :| 0 <= j < n && parent[..n][j].0 == x;
          if j < n - 1 { assert parent[..n - 1][j].0 == x; }
        }
        forall x | x in Keys(parent[..n - 1]) ensures x in Keys(parent[..n]) {
          var j :| 0 <= j < n - 1 && parent[..n - 1][j].0 == x;
          assert parent[..n][j].0 == x;
        }
        assert parent[..n][n - 1].0 == k;
      }
      if r.out.Ok? {
        var s := r.state;
        assert Find(s, k) == Find(child, k);
        var e := Merged(child, k, d);
        assert GoodEntry(d) by {
          assert parent[n - 1].1 == d;
        }
        if Find(child, k).Some? {
          FindWellFormed(child, k);
        }
        if !Clash(child, parent[n - 1]) {
          assert MergeStep(s, parent[n - 1]) == Ok(Put(s, k, e));
          PutWellFormed(s, k, e);
          forall k' ensures Find(Put(s, k, e), k') == if k' == k then Some(e) else Find(s, k') {
            PutFind(s, k, e, k');
          }
          forall i | 0 <= i < n ensures Find(Put(s, k, e), parent[i].0) ==
                                        Some(Merged(child, parent[i].0, parent[i].1)) {
            if i < n - 1 {
              assert parent[i].0 != k by {
                assert parent[..n - 1][i].0 == parent[i].0;
              }
            }
          }
        }
      }
    }
  }

  /** Lines 19-29 for a well-formed child and parent: the merge raises exactly when the child has
      a `:model` entry under a key the parent declares `:form`. Otherwise the keys, in order, are
      the child's followed by the parent's keys the child lacked, in the parent's order; under a
      parent key the child's `:model` entry keeps its class and its fields followed by the
      parent's new ones, and any other child entry is replaced by the parent's; keys the parent
      lacks are untouched; the result is well formed. */
  lemma MergeEffect(child: Store, parent: Store)
    requires WellFormed(child) && WellFormed(parent)
    ensures MergeStore(child, parent).out.Raised? <==>
            exists i :: 0 <= i < |parent| && Clash(child, parent[i])
    ensures MergeStore(child, parent).out.Ok? ==>
      var r := MergeStore(child, parent).state;
      && WellFormed(r)
      && Keys(r) == Keys(child) + Keys(parent)
      && KeySeq(r) == KeySeq(child) + NewKeys(child, parent)
      && (forall i :: 0 <= i < |parent| ==>
            Find(r, parent[i].0) == Some(Merged(child, parent[i].0, parent[i].1)))
      && (forall k :: k !in Keys(parent) ==> Find(r, k) == Find(child, k))
  {
    MergeIntoEffect(child, parent, |parent|);
    assert parent[..|parent|] == parent;
    if MergeStore(child, parent).out.Ok? {
      MergeIntoOrder(child, parent, |parent|);
      var r := MergeStore(child, parent).state;
      forall k ensures k in Keys(r) <==> k in Keys(child) + Keys(parent) {
        FindSome(r, k);
        FindSome(child, k);
        if k in Keys(parent) {
          var i :| 0 <= i < |parent| && parent[i].0 == k;
        }
      }
    }
  }

  /** The keys of `s`, in order. */
  function KeySeq(s: Store): (r: seq<Key>)
    ensures |r| == |s| && forall i :: 0 <= i < |s| ==> r[i] == s[i].0
  {
    if s == [] then [] else [s[0].0] + KeySeq(s[1..])
  }

  /** The keys of `parent` that `child` lacks, in the parent's order. */
  function NewKeys(child: Store, parent: Store): seq<Key> {
    if parent == [] then []
    else
      var k := parent[|parent| - 1].0;
      NewKeys(child, parent[..|parent| - 1]) + (if k in Keys(child) then [] else [k])
  }

  /** `store[k] = e` keeps the position of an existing key and appends a new one. */
  lemma {:induction false} PutKeySeq(s: Store, k: Key, e: Entry)
    ensures KeySeq(Put(s, k, e)) == if k in Keys(s) then KeySeq(s) else KeySeq(s) + [k]
  {
    if s != [] {
      KeysCons(s[0], s[1..]);
      assert [s[0]] + s[1..] == s;
      if s[0].0 != k {
        PutKeySeq(s[1..], k, e);
        assert Put(s, k, e) == [s[0]] + Put(s[1..], k, e);
      }
    }
  }

  /** One merge step keeps the position of a key the store has and appends a new one. */
  lemma MergeStepKeySeq(s: Store, p: (Key, Entry))
    requires MergeStep(s, p).Ok?
    ensures KeySeq(MergeStep(s, p).value) == if p.0 in Keys(s) then KeySeq(s) else KeySeq(s) + [p.0]
  {
    match Find(s, p.0)
    case Some(ModelEntry(c, fs)) => PutKeySeq(s, p.0, ModelEntry(c, Uniq(fs + p.1.fields)));
    case _ => PutKeySeq(s, p.0, p.1);
  }

  /** The merge over the first `n` parent pairs leaves the child's keys in place and appends the
      parent's new keys in the parent's order. */
  lemma {:induction false} MergeIntoOrder(child: Store, parent: Store, n: nat)
    requires n <= |parent| && WellFormed(child) && WellFormed(parent)
    requires MergeInto(child, parent, n).out.Ok?
    ensures KeySeq(MergeInto(child, parent, n).state) == KeySeq(child) + NewKeys(child, parent[..n])
  {
    if n == 0 {
      assert parent[..0] == [];
    } else {
      MergeIntoOrder(child, parent, n - 1);
      MergeIntoFresh(child, parent, n - 1);
      MergeIntoOrderStep(child, parent, n);
    }
  }

  /** One more parent pair: its key stays in place when the child had it, and is appended
      otherwise. */
  lemma MergeIntoOrderStep(child: Store, parent: Store, n: nat)
    requires 0 < n <= |parent| && MergeInto(child, parent, n).out.Ok?
    requires KeySeq(MergeInto(child, parent, n - 1).state) == KeySeq(child) + NewKeys(child, parent[..n - 1])
    requires parent[n - 1].0 in Keys(MergeInto(child, parent, n - 1).state) <==> parent[n - 1].0 in Keys(child)
    ensures KeySeq(MergeInto(child, parent, n).state) == KeySeq(child) + NewKeys(child, parent[..n])
  {
    var r := MergeInto(child, parent, n - 1);
    var k := parent[n - 1].0;
    MergeIntoLast(child, parent, n);
    MergeStepKeySeq(r.state, parent[n - 1]);
    NewKeysLast(child, parent, n);
    if k !in Keys(child) {
      var a, b := KeySeq(child), NewKeys(child, parent[..n - 1]);
      assert (a + b) + [k] == a + (b + [k]);
    }
  }

  /** A merge over `n` pairs that completes is the one over `n - 1` pairs followed by a step. */
  lemma MergeIntoLast(child: Store, parent: Store, n: nat)
    requires 0 < n <= |parent| && MergeInto(child, parent, n).out.Ok?
    ensures MergeInto(child, parent, n - 1).out.Ok?
    ensures MergeStep(MergeInto(child, parent, n - 1).state, parent[n - 1]).Ok?
    ensures MergeInto(child, parent, n).state == MergeStep(MergeInto(child, parent, n - 1).state, parent[n - 1]).value
  {
  }

  lemma NewKeysLast(child: Store, parent: Store, n: nat)
    requires 0 < n <= |parent|
    ensures NewKeys(child, parent[..n]) ==
            NewKeys(child, parent[..n - 1]) + (if parent[n - 1].0 in Keys(child) then [] else [parent[n - 1].0])
  {
    assert parent[..n][..n - 1] == parent[..n - 1];
  }

  /** Before the merge reaches parent pair `n`, its key is in the merged store exactly when it is
      in the child's (parent keys are distinct). */
  lemma MergeIntoFresh(child: Store, parent: Store, n: nat)
    requires n < |parent| && WellFormed(child) && WellFormed(parent)
    requires MergeInto(child, parent, n).out.Ok?
    ensures var k := parent[n].0;
      k in Keys(MergeInto(child, parent, n).state) <==> k in Keys(child)
  {
    var r := MergeInto(child, parent, n);
    MergeIntoEffect(child, parent, n);
    var k := parent[n].0;
    assert k !in Keys(parent[..n]) by {
      var pre := parent[..n];
      forall j | 0 <= j < |pre| ensures pre[j].0 != k {
        assert pre[j] == parent[j];
      }
    }
    FindSome(r.state, k);
    FindSome(child, k);
  }

  /** Merge semantics for one parent key: a child `:model` entry's fields become the child's
      fields followed by the parent's fields it lacked, still duplicate-free. */
  lemma MergedModelFields(child: Store, k: Key, d: Entry)
    requires WellFormed(child) && d.ModelEntry?
    requires Find(child, k).Some? && Find(child, k).value.ModelEntry?
    ensures var fs := Find(child, k).value.fields;
            var m := Merged(child, k, d).fields;
            NoDups(m) && |fs| <= |m| && m[..|fs|] == fs &&
            forall x :: x in m <==> x in fs || x in d.fields
  {
    var fs := Find(child, k).value.fields;
    FindWellFormed(child, k);
    UniqPrefix(fs, d.fields);
    UniqDistinct(fs);
  }

  /** The merge runs on every construction: merging the same parent store a second time leaves
      the child store as the first merge left it. */
  lemma MergeIdempotent(child: Store, parent: Store)
    requires WellFormed(child) && WellFormed(parent) && MergeStore(child, parent).out.Ok?
    ensures MergeStore(MergeStore(child, parent).state, parent) ==
            Step(MergeStore(child, parent).state, Ok(()))
  {
    var r := MergeStore(child, parent).state;
    MergeEffect(child, parent);
    MergeAgain(child, parent, r, |parent|);
  }

  lemma {:induction false} MergeAgain(child: Store, parent: Store, r: Store, n: nat)
    requires n <= |parent| && WellFormed(child) && WellFormed(parent)
    requires !exists i :: 0 <= i < |parent| && Clash(child, parent[i])
    requires forall i :: 0 <= i < |parent| ==>
               Find(r, parent[i].0) == Some(Merged(child, parent[i].0, parent[i].1))
    ensures MergeInto(r, parent, n) == Step(r, Ok(()))
  {
    if n > 0 {
      MergeAgain(child, parent, r, n - 1);
      var (k, d) := parent[n - 1];
      var e := Merged(child, k, d);
      assert Find(r, k) == Some(e);
      assert GoodEntry(d) by {
        assert parent[n - 1].1 == d;
      }
      assert !Clash(child, parent[n - 1]);
      match Find(child, k)
      case Some(ModelEntry(c, fs)) =>
        UniqTwice(fs, d.fields);
        PutSame(r, k, e);
      case _ =>
        if d.ModelEntry? {
          UniqDistinct(d.fields);
          UniqAbsorbs(d.fields, d.fields);
        }
        PutSame(r, k, e);
    }
  }
}
