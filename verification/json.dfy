/**
 The values the document store keeps: a JSON tree, with JavaScript's notions of
 truthiness and of strict (in)equality as the store's code applies them.
 */
module Json {

  datatype Option<T> = None | Some(value: T)

  /** A JSON value. Numbers are integers in this model. */
  datatype Value =
    | Null
    | Bool(b: bool)
    | Int(n: int)
    | Str(s: string)
    | Arr(elems: seq<Value>)
    | Obj(fields: map<string, Value>)

  /** JavaScript truthiness: `null`, `false`, `0` and `""` are falsy; every array
      and every object, empty ones included, is truthy. */
  predicate Truthy(v: Value) {
    match v
    case Null => false
    case Bool(b) => b
    case Int(n) => n != 0
    case Str(s) => s != ""
    case Arr(_) => true
    case Obj(_) => true
  }

  /** A property read `obj[k]` as tested by `!`: `undefined` (None) is falsy. */
  predicate TruthySlot(o: Option<Value>) {
    o.Some? && Truthy(o.value)
  }

  predicate IsPrimitive(v: Value) {
    !v.Arr? && !v.Obj?
  }

  /** `a === b` for a stored value `a` and a caller's value `b`: primitives compare
      by value; arrays and objects compare by reference, and the caller's value is
      taken to be a fresh object, never the one already stored. */
  predicate StrictEq(a: Value, b: Value) {
    IsPrimitive(a) && a == b
  }
}
