/** Values the form layer passes around: symbols, decoded request parameters,
    Ruby values as far as the layer inspects them, and Ruby exceptions. */
module Values {

  /** A Ruby symbol or method name. */
  type Key = string

  /** The name of a Ruby constant (a class). */
  type ClassName = string

  /** An object identity: the allocation number of a Ruby object. */
  type Oid = nat

  datatype Option<+T> = None | Some(value: T)

  /** A key of a decoded params hash: Ruby hashes may be keyed by symbols or by strings. */
  datatype PKey = Sym(name: Key) | Str(name: Key)

  /** A decoded request parameter: a scalar, or a nested hash whose pairs keep insertion order. */
  datatype Param = Scalar(text: string) | Map(pairs: seq<(PKey, Param)>)

  /** A Ruby value as the form layer sees it: nil (or false), request data, or an object. */
  datatype Value = Nil | Data(param: Param) | Ref(oid: Oid)

  /** Ruby truthiness: everything except nil and false. */
  predicate Truthy(v: Value) {
    !v.Nil?
  }

  /** The Ruby exceptions the form layer can raise or let through. */
  datatype Failure =
    | NameError(constant: ClassName)     // Object::const_get of an undefined constant
    | NoMethodError(name: Key)           // a message the receiver does not understand
    | TypeError(detail: string)          // Array#concat given nil
    | NotAFormClass(constant: ClassName) // a :form entry whose class is a model class
    | StackTooDeep                       // nesting beyond the recursion budget

  datatype Result<+T> = Ok(value: T) | Raised(failure: Failure)

  /** The state after an operation and how it ended; effects made before a raise are kept. */
  datatype Step<+S, +T> = Step(state: S, out: Result<T>)

  /** `params[key]` for a hash: the value of the first pair stored under exactly `k`, else nil. */
  function Fetch(pairs: seq<(PKey, Param)>, k: PKey): (v: Value)
    ensures !v.Ref?
    ensures v.Data? <==> exists i :: 0 <= i < |pairs| && pairs[i].0 == k
    ensures v.Data? ==> exists i :: 0 <= i < |pairs| && pairs[i] == (k, v.param) &&
                                   forall j :: 0 <= j < i ==> pairs[j].0 != k
  {
    if pairs == [] then Nil
    else if pairs[0].0 == k then Data(pairs[0].1)
    else
      var v := Fetch(pairs[1..], k);
      assert forall i :: 1 <= i < |pairs| ==> pairs[i] == pairs[1..][i - 1];
      v
  }

  /** A character of the POSIX class `[[:space:]]` as Ruby's regular expressions read it on a
      Unicode string: the ASCII separators and the Unicode space separators. */
  predicate IsSpace(c: char) {
    || ('\t' <= c <= '\r') || c == ' ' || c == '\U{85}' || c == '\U{A0}' || c == '\U{1680}'
    || ('\U{2000}' <= c <= '\U{200A}') || c == '\U{2028}' || c == '\U{2029}' || c == '\U{202F}'
    || c == '\U{205F}' || c == '\U{3000}'
  }

  /** ActiveSupport's `blank?`: nil, a string matching `[[:space:]]*` throughout, an empty hash. */
  predicate Blank(v: Value) {
    match v
    case Nil => true
    case Data(Scalar(s)) => forall i :: 0 <= i < |s| ==> IsSpace(s[i])
    case Data(Map(ps)) => ps == []
    case Ref(_) => false
  }
}
