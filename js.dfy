/**
 * The slice of JavaScript value semantics that the blog pipeline depends on:
 * the values a YAML front-matter block parses into, their truthiness, and
 * the `||` operator the pipeline uses to apply defaults.
 */
module Js {

  /** A value produced by the front-matter parser, as JavaScript sees it. */
  datatype Value =
    | Undefined
    | Null
    | Bool(b: bool)
    | Num(x: real)
    | NaN
    | Str(s: string)
    | DateObject(ms: int)               // YAML timestamps become Date objects
    | List(items: seq<Value>)
    | Object(fields: map<string, Value>)

  /** ToBoolean: `undefined`, `null`, `false`, `0`, `NaN` and `""` are falsy, every object is truthy. */
  predicate Truthy(v: Value) {
    match v
    case Undefined => false
    case Null => false
    case Bool(b) => b
    case Num(x) => x != 0.0
    case NaN => false
    case Str(s) => s != ""
    case DateObject(_) => true
    case List(_) => true
    case Object(_) => true
  }

  /**
   * `a || b`: yields one of its operands, is truthy exactly when either
   * operand is, and keeps the left operand whenever that one is truthy.
   */
  function Or(a: Value, b: Value): (r: Value)
    ensures r == a || r == b
    ensures Truthy(r) <==> Truthy(a) || Truthy(b)
    ensures Truthy(a) ==> r == a
    ensures !Truthy(a) ==> r == b
  {
    if Truthy(a) then a else b
  }

  /** Property access on a parsed front-matter object: a missing key reads as `undefined`. */
  function Get(data: map<string, Value>, key: string): (v: Value)
    ensures key in data ==> v == data[key]
    ensures key !in data ==> v == Undefined
  {
    if key in data then data[key] else Undefined
  }

}
