/** The error collection of a model or form: ActiveModel's `errors.messages`, a hash from field
    to the messages recorded for it, fields in the order they were first added. */
module Errors {
  import opened Values

  type ErrorList = seq<(Key, seq<string>)>

  /** Each field appears at most once, as in a Ruby hash. */
  predicate Keyed(e: ErrorList) {
    forall i, j :: 0 <= i < j < |e| ==> e[i].0 != e[j].0
  }

  /** Every message recorded under field `f`, in order. */
  function MessagesFor(e: ErrorList, f: Key): seq<string> {
    if e == [] then [] else (if e[0].0 == f then e[0].1 else []) + MessagesFor(e[1..], f)
  }

  /** `errors.empty?`: no message at all. */
  predicate Empty(e: ErrorList) {
    forall i :: 0 <= i < |e| ==> e[i].1 == []
  }

  lemma {:induction false} MessagesForAbsent(e: ErrorList, f: Key)
    requires forall i :: 0 <= i < |e| ==> e[i].0 != f
    ensures MessagesFor(e, f) == []
  {
    if e != [] {
      MessagesForAbsent(e[1..], f);
    }
  }

  lemma {:induction false} MessagesForAppend(a: ErrorList, b: ErrorList, f: Key)
    ensures MessagesFor(a + b, f) == MessagesFor(a, f) + MessagesFor(b, f)
  {
    if a == [] {
      assert a + b == b;
    } else {
      assert (a + b)[1..] == a[1..] + b;
      MessagesForAppend(a[1..], b, f);
    }
  }

  /** The fields that have an entry. */
  function Fields(e: ErrorList): set<Key> {
    set i | 0 <= i < |e| :: e[i].0
  }

  /** `errors.add(f, m)`: appends `m` to the messages of `f`, adding `f` last if it is new. */
  function Add(e: ErrorList, f: Key, m: string): (r: ErrorList)
    ensures |r| > 0
  {
    if e == [] then [(f, [m])]
    else if e[0].0 == f then [(f, e[0].1 + [m])] + e[1..]
    else [e[0]] + Add(e[1..], f, m)
  }

  lemma {:induction false} FieldsCons(p: (Key, seq<string>), e: ErrorList)
    ensures Fields([p] + e) == {p.0} + Fields(e)
  {
    var r := [p] + e;
    forall k | k in Fields(r) ensures k in {p.0} + Fields(e) {
      var i :| 0 <= i < |r| && r[i].0 == k;
      if i > 0 { assert e[i - 1].0 == k; }
    }
    forall k | k in {p.0} + Fields(e) ensures k in Fields(r) {
      if k == p.0 {
        assert r[0].0 == k;
      } else {
        var i :| 0 <= i < |e| && e[i].0 == k;
        assert r[i + 1].0 == k;
      }
    }
  }

  lemma {:induction false} AddFields(e: ErrorList, f: Key, m: string)
    ensures Fields(Add(e, f, m)) == Fields(e) + {f}
  {
    var r := Add(e, f, m);
    if e == [] {
      FieldsCons((f, [m]), []);
    } else if e[0].0 == f {
      FieldsCons((f, e[0].1 + [m]), e[1..]);
      FieldsCons(e[0], e[1..]);
      assert [e[0]] + e[1..] == e;
    } else {
      AddFields(e[1..], f, m);
      FieldsCons(e[0], Add(e[1..], f, m));
      FieldsCons(e[0], e[1..]);
      assert [e[0]] + e[1..] == e;
    }
  }

  lemma {:induction false} AddKeyed(e: ErrorList, f: Key, m: string)
    requires Keyed(e)
    ensures Keyed(Add(e, f, m))
  {
    var r := Add(e, f, m);
    if e == [] {
    } else if e[0].0 == f {
      assert forall i :: 0 <= i < |r| ==> r[i].0 == e[i].0;
    } else {
      var t := Add(e[1..], f, m);
      AddKeyed(e[1..], f, m);
      AddFields(e[1..], f, m);
      assert r == [e[0]] + t;
      assert e[0].0 !in Fields(e[1..]);
      assert e[0].0 !in Fields(t);
      forall i, j | 0 <= i < j < |r| ensures r[i].0 != r[j].0 {
        if i == 0 {
          assert r[j].0 == t[j - 1].0;
        } else {
          assert r[i] == t[i - 1] && r[j] == t[j - 1];
        }
      }
    }
  }

  lemma {:induction false} AddNonEmpty(e: ErrorList, f: Key, m: string)
    ensures !Empty(Add(e, f, m))
  {
    if e == [] || e[0].0 == f {
      assert Add(e, f, m)[0].1 != [];
    } else {
      AddNonEmpty(e[1..], f, m);
      var t := Add(e[1..], f, m);
      var j :| 0 <= j < |t| && t[j].1 != [];
      assert Add(e, f, m)[j + 1] == t[j];
    }
  }

  lemma {:induction false} AddMessages(e: ErrorList, f: Key, m: string, g: Key)
    requires Keyed(e)
    ensures MessagesFor(Add(e, f, m), g) == MessagesFor(e, g) + (if g == f then [m] else [])
  {
    var r := Add(e, f, m);
    if e == [] {
      assert r[1..] == [];
    } else if e[0].0 == f {
      assert r[1..] == e[1..];
      KeyedTail(e);
      MessagesForAbsent(e[1..], f);
    } else {
      var t := Add(e[1..], f, m);
      assert r[0] == e[0] && r[1..] == t;
      KeyedTail(e);
      AddMessages(e[1..], f, m, g);
      var head := if e[0].0 == g then e[0].1 else [];
      assert MessagesFor(r, g) == head + MessagesFor(t, g);
      assert MessagesFor(e, g) == head + MessagesFor(e[1..], g);
    }
  }

  /** The entries after the first of a keyed list are keyed and do not repeat the first field. */
  lemma KeyedTail(e: ErrorList)
    requires Keyed(e) && e != []
    ensures Keyed(e[1..]) && forall i :: 0 <= i < |e[1..]| ==> e[1..][i].0 != e[0].0
  {
    forall i | 0 <= i < |e[1..]| ensures e[1..][i].0 != e[0].0 {
      assert e[1..][i] == e[i + 1];
    }
    forall i, j | 0 <= i < j < |e[1..]| ensures e[1..][i].0 != e[1..][j].0 {
      assert e[1..][i] == e[i + 1] && e[1..][j] == e[j + 1];
    }
  }

  /** `ms.each { |m| errors.add(f, m) }`: adds the first `n` messages of `ms` in order. */
  function AddAll(e: ErrorList, f: Key, ms: seq<string>, n: nat): ErrorList
    requires n <= |ms|
  {
    if n == 0 then e else Add(AddAll(e, f, ms, n - 1), f, ms[n - 1])
  }

  /** The nested loop of lines 202-206: every message of the first `n` fields of `src` is
      added to `dst`, field by field, message by message. */
  function FoldInto(dst: ErrorList, src: ErrorList, n: nat): ErrorList
    requires n <= |src|
  {
    if n == 0 then dst else AddAll(FoldInto(dst, src, n - 1), src[n - 1].0, src[n - 1].1, |src[n - 1].1|)
  }

  /** All of `src` folded into `dst`. */
  function Fold(dst: ErrorList, src: ErrorList): ErrorList {
    FoldInto(dst, src, |src|)
  }

  lemma {:induction false} AddAllMessages(e: ErrorList, f: Key, ms: seq<string>, n: nat, g: Key)
    requires n <= |ms| && Keyed(e)
    ensures Keyed(AddAll(e, f, ms, n))
    ensures MessagesFor(AddAll(e, f, ms, n), g) == MessagesFor(e, g) + (if g == f then ms[..n] else [])
  {
    if n > 0 {
      AddAllMessages(e, f, ms, n - 1, g);
      AddKeyed(AddAll(e, f, ms, n - 1), f, ms[n - 1]);
      AddMessages(AddAll(e, f, ms, n - 1), f, ms[n - 1], g);
      assert ms[..n] == ms[..n - 1] + [ms[n - 1]];
    }
  }

  lemma {:induction false} AddAllEmpty(e: ErrorList, f: Key, ms: seq<string>, n: nat)
    requires n <= |ms|
    ensures Empty(AddAll(e, f, ms, n)) <==> Empty(e) && n == 0
  {
    if n > 0 {
      AddNonEmpty(AddAll(e, f, ms, n - 1), f, ms[n - 1]);
    }
  }

  /** Folding keeps, per field, the destination's messages followed by the source's, in order
      and without removing duplicates. */
  lemma {:induction false} FoldIntoMessages(dst: ErrorList, src: ErrorList, n: nat, g: Key)
    requires n <= |src| && Keyed(dst)
    ensures Keyed(FoldInto(dst, src, n))
    ensures MessagesFor(FoldInto(dst, src, n), g) == MessagesFor(dst, g) + MessagesFor(src[..n], g)
  {
    if n > 0 {
      FoldIntoMessages(dst, src, n - 1, g);
      var p := src[n - 1];
      AddAllMessages(FoldInto(dst, src, n - 1), p.0, p.1, |p.1|, g);
      assert p.1[..|p.1|] == p.1;
      assert src[..n] == src[..n - 1] + [p];
      MessagesForAppend(src[..n - 1], [p], g);
      assert MessagesFor([p], g) == (if p.0 == g then p.1 else []) by {
        assert [p][1..] == [];
      }
    }
  }

  /** Lines 202-206 and 214-218: folding a slot's errors into the root's appends every one of
      the slot's messages under the same field, after those already there. */
  lemma FoldMessages(dst: ErrorList, src: ErrorList, g: Key)
    requires Keyed(dst)
    ensures Keyed(Fold(dst, src))
    ensures MessagesFor(Fold(dst, src), g) == MessagesFor(dst, g) + MessagesFor(src, g)
  {
    FoldIntoMessages(dst, src, |src|, g);
    assert src[..|src|] == src;
  }

  /** No deduplication: folding the same errors twice records every message twice. */
  lemma FoldTwice(dst: ErrorList, src: ErrorList, g: Key)
    requires Keyed(dst)
    ensures MessagesFor(Fold(Fold(dst, src), src), g) ==
            MessagesFor(dst, g) + MessagesFor(src, g) + MessagesFor(src, g)
  {
    FoldMessages(dst, src, g);
    FoldMessages(Fold(dst, src), src, g);
  }

  lemma {:induction false} FoldIntoEmpty(dst: ErrorList, src: ErrorList, n: nat)
    requires n <= |src|
    ensures Empty(FoldInto(dst, src, n)) <==> Empty(dst) && Empty(src[..n])
  {
    if n > 0 {
      FoldIntoEmpty(dst, src, n - 1);
      var p := src[n - 1];
      AddAllEmpty(FoldInto(dst, src, n - 1), p.0, p.1, |p.1|);
      assert src[..n] == src[..n - 1] + [p];
      assert Empty(src[..n]) <==> Empty(src[..n - 1]) && p.1 == [] by {
        assert forall i :: 0 <= i < n - 1 ==> src[..n][i] == src[..n - 1][i];
        assert src[..n][n - 1] == p;
      }
    }
  }

  /** A folded slot with any message leaves the destination non-empty, so the root is invalid. */
  lemma FoldEmpty(dst: ErrorList, src: ErrorList)
    ensures Empty(Fold(dst, src)) <==> Empty(dst) && Empty(src)
  {
    FoldIntoEmpty(dst, src, |src|);
    assert src[..|src|] == src;
  }

  /** The messages of every field in `e` are a prefix of its messages in `e'`: `e'` only added. */
  ghost predicate Grows(e: ErrorList, e': ErrorList) {
    forall g :: |MessagesFor(e, g)| <= |MessagesFor(e', g)| &&
                MessagesFor(e', g)[..|MessagesFor(e, g)|] == MessagesFor(e, g)
  }

  lemma GrowsTrans(a: ErrorList, b: ErrorList, c: ErrorList)
    requires Grows(a, b) && Grows(b, c)
    ensures Grows(a, c)
  {
    forall g ensures |MessagesFor(a, g)| <= |MessagesFor(c, g)| &&
                     MessagesFor(c, g)[..|MessagesFor(a, g)|] == MessagesFor(a, g) {
      var ma, mb, mc := MessagesFor(a, g), MessagesFor(b, g), MessagesFor(c, g);
      assert mc[..|ma|] == mc[..|mb|][..|ma|];
    }
  }

  lemma FoldGrows(dst: ErrorList, src: ErrorList)
    requires Keyed(dst)
    ensures Keyed(Fold(dst, src)) && Grows(dst, Fold(dst, src))
  {
    forall g ensures |MessagesFor(dst, g)| <= |MessagesFor(Fold(dst, src), g)| &&
                     MessagesFor(Fold(dst, src), g)[..|MessagesFor(dst, g)|] == MessagesFor(dst, g) {
      FoldMessages(dst, src, g);
    }
    FoldMessages(dst, src, "");
  }

  lemma AddGrows(e: ErrorList, f: Key, m: string)
    requires Keyed(e)
    ensures Keyed(Add(e, f, m)) && Grows(e, Add(e, f, m))
  {
    forall g ensures |MessagesFor(e, g)| <= |MessagesFor(Add(e, f, m), g)| &&
                     MessagesFor(Add(e, f, m), g)[..|MessagesFor(e, g)|] == MessagesFor(e, g) {
      AddMessages(e, f, m, g);
    }
    AddKeyed(e, f, m);
  }

  /** Errors that only grew stay non-empty. */
  lemma GrowsNonEmpty(e: ErrorList, e': ErrorList)
    requires Grows(e, e') && !Empty(e) && Keyed(e)
    ensures !Empty(e')
  {
    var i :| 0 <= i < |e| && e[i].1 != [];
    MessagesForHas(e, i);
    if Empty(e') {
      MessagesForEmpty(e', e[i].0);
      assert false;
    }
  }

  lemma AppendAssoc(a: seq<string>, b: seq<string>, c: seq<string>)
    ensures (a + b) + c == a + (b + c)
  {
  }

  lemma AppendNil(a: seq<string>)
    ensures a + [] == a
  {
  }

  lemma GrowsRefl(e: ErrorList)
    ensures Grows(e, e)
  {
  }

  lemma {:induction false} MessagesForHas(e: ErrorList, i: nat)
    requires i < |e| && Keyed(e)
    ensures MessagesFor(e, e[i].0) == e[i].1
  {
    if i == 0 {
      MessagesForAbsent(e[1..], e[0].0);
    } else {
      assert e[1..][i - 1] == e[i];
      MessagesForHas(e[1..], i - 1);
    }
  }

  lemma {:induction false} MessagesForEmpty(e: ErrorList, f: Key)
    requires Empty(e)
    ensures MessagesFor(e, f) == []
  {
    if e != [] {
      MessagesForEmpty(e[1..], f);
    }
  }
}
