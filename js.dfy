/**
 * The slice of JavaScript's value model the tracker's code relies on:
 * plain objects as property maps, truthiness, and the TypeError raised
 * when a property of `null` is read or written.
 */
module Js {

  /** A JavaScript value as far as the modelled code inspects it. Numbers are
      kept as reals (NaN is not represented); objects are opaque references. */
  datatype JsValue =
    | Undefined
    | Null
    | Bool(b: bool)
    | Number(n: real)
    | Str(s: string)
    | ObjectRef(id: nat)

  /** A plain object: its own enumerable properties. */
  type JsObject = map<string, JsValue>

  /** `obj[key]`: a missing property reads as `undefined`. */
  function Get(obj: JsObject, key: string): JsValue
  {
    if key in obj then obj[key] else Undefined
  }

  /** `!!v`: undefined, null, false, 0 and the empty string are falsy. */
  predicate Truthy(v: JsValue)
  {
    match v
    case Undefined => false
    case Null => false
    case Bool(b) => b
    case Number(n) => n != 0.0
    case Str(s) => s != ""
    case ObjectRef(_) => true
  }

  /** The TypeError thrown when code dereferences `null`. */
  datatype TypeError =
    | CannotSetPropertyOfNull(property: string)
    | CannotReadPropertyOfNull(property: string)

  /** `Math.PI`, as the decimal JavaScript prints for it. */
  const Pi: real := 3.141592653589793

  /** How a statement list ends: normally, or by a thrown TypeError. */
  datatype Completion = Normal | Throw(error: TypeError)
}
