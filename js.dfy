/**
 * The few JavaScript values the core stores or tests: the cache keeps `any`,
 * the service container keeps `any` and tests it for truthiness, and the
 * country lookup hands back `response.data[0]`, which is `undefined` for an
 * empty array.  `Obj` is any object, carrying the model's own payload type.
 */
module Js {

  datatype JsValue<+T> =
    | Undefined
    | Null
    | Bool(b: bool)
    | Num(n: int)
    | Str(s: string)
    | Obj(o: T)

  /** JavaScript truthiness (`!!v`); NaN and -0 are not modelled. */
  predicate Truthy<T>(v: JsValue<T>)
  {
    match v
    case Undefined => false
    case Null => false
    case Bool(b) => b
    case Num(n) => n != 0
    case Str(s) => s != ""
    case Obj(_) => true
  }
}
