/** The few JavaScript value semantics the handlers depend on: truthiness (`!x`, `a || b`)
    and `typeof`. Arrays and objects are represented only by what these two observe. */
module Js {

  datatype Value =
    | Undefined
    | Null
    | Bool(b: bool)
    | Num(x: real)
    | Str(s: string)
    | Arr(length: nat)
    | Obj

  /** JavaScript truthiness. Every array and every object is truthy, even an empty one. */
  predicate Truthy(v: Value)
  {
    match v
    case Undefined => false
    case Null => false
    case Bool(b) => b
    case Num(x) => x != 0.0
    case Str(s) => s != ""
    case Arr(_) => true
    case Obj => true
  }

  /** The `typeof` operator; note that `typeof null` is "object". */
  function TypeOf(v: Value): string
  {
    match v
    case Undefined => "undefined"
    case Null => "object"
    case Bool(_) => "boolean"
    case Num(_) => "number"
    case Str(_) => "string"
    case Arr(_) => "object"
    case Obj => "object"
  }

  /** `a || b`: the left operand when it is truthy, otherwise the right one. */
  function Or(a: Value, b: Value): (r: Value)
    ensures Truthy(a) ==> r == a
    ensures !Truthy(a) ==> r == b
    ensures Truthy(r) <==> Truthy(a) || Truthy(b)
  {
    if Truthy(a) then a else b
  }

  /** `!x || typeof x !== 'string'` is false exactly for the non-empty strings. */
  lemma NonEmptyStringTest(v: Value)
    ensures (Truthy(v) && TypeOf(v) == "string") <==> (v.Str? && v.s != "")
  {
  }
}
