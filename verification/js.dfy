/**
 * JavaScript values as the handlers see them: fields of a parsed JSON
 * request body, session attributes, and column values handed to SQLite.
 * Only the scalar kinds are modelled (objects and arrays are not), and
 * numbers are integers.
 */
module Js {

  datatype Option<+T> = None | Some(value: T)

  datatype Value = Undefined | Null | Bool(b: bool) | Num(n: int) | Str(s: string)

  /** JavaScript truthiness, the test behind `if (v)` and `!v`. */
  predicate Truthy(v: Value)
  {
    match v
    case Undefined => false
    case Null => false
    case Bool(b) => b
    case Num(n) => n != 0
    case Str(s) => |s| > 0
  }

  /** The test `v !== undefined` used by the undefined-based patch builders. */
  predicate Defined(v: Value)
  {
    !v.Undefined?
  }

  /** `a || b`: the left operand when it is truthy, otherwise the right one. */
  function Or(a: Value, b: Value): (r: Value)
    ensures Truthy(r) <==> Truthy(a) || Truthy(b)
    ensures Truthy(a) ==> r == a
    ensures !Truthy(a) ==> r == b
  {
    if Truthy(a) then a else b
  }

  /** `v || null`: a falsy field is stored as NULL. */
  function OrNull(v: Value): (r: Value)
    ensures Truthy(v) ==> r == v
    ensures !Truthy(v) ==> r == Null
  {
    Or(v, Null)
  }

  /**
   * How a value is stored when bound as a statement parameter: `undefined`
   * is bound as SQL NULL, every other value as itself.
   */
  function Bound(v: Value): (r: Value)
    ensures !r.Undefined?
    ensures Defined(v) ==> r == v
  {
    if v.Undefined? then Null else v
  }
}
