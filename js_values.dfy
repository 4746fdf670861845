/** The slice of JavaScript's value semantics that the modelled helpers rely on:
    the values a JSON payload or an options object can hold, truthiness (`!x`),
    property reads that yield `undefined` for a missing key, and the numeric
    coercion used by `<` and `-`. */
module JsValues {

  /** A value that may be absent (`null` in the source's return types). */
  datatype Option<T> = None | Some(value: T)

  /** The outcome of a synchronous call that either returns or throws `new Error(message)`. */
  datatype Result<T> = Ok(value: T) | Thrown(message: string)

  /** JavaScript values as they occur in payloads, secrets and option bags.
      Arrays, Buffers and key objects are all `Obj`: the source only asks whether
      such a value is an object and reads named properties of it. */
  datatype JsValue =
    | Undefined
    | Null
    | Bool(b: bool)
    | Num(n: real)
    | Str(s: string)
    | Obj(fields: map<string, JsValue>)

  /** JavaScript truthiness: `!v` is `!Truthy(v)`. NaN is not a value of this model. */
  predicate Truthy(v: JsValue): (t: bool)
    ensures !t <==> v == Undefined || v == Null || v == Bool(false) || v == Num(0.0) || v == Str("")
  {
    match v
    case Undefined => false
    case Null => false
    case Bool(b) => b
    case Num(n) => n != 0.0
    case Str(s) => s != ""
    case Obj(_) => true
  }

  /** Reading `bag[key]` from an option bag: `undefined` when the key is absent. */
  function Get(bag: map<string, JsValue>, key: string): (v: JsValue)
    ensures key !in bag ==> v == Undefined
    ensures key in bag ==> v == bag[key]
  {
    if key in bag then bag[key] else Undefined
  }

  /** Reading `v.key`: an own field of an object, `undefined` on every other value. */
  function Member(v: JsValue, key: string): (m: JsValue)
    ensures !v.Obj? ==> m == Undefined
    ensures v.Obj? && key in v.fields ==> m == v.fields[key]
    ensures v.Obj? && key !in v.fields ==> m == Undefined
  {
    if v.Obj? then Get(v.fields, key) else Undefined
  }

  /** The numeric coercion applied by `<` and `-` against a number;
      `None` stands for NaN. */
  function ToNumber(v: JsValue): (n: Option<real>)
    ensures n.Some? <==> v.Null? || v.Bool? || v.Num?
    ensures v.Null? ==> n == Some(0.0)
    ensures v.Num? ==> n == Some(v.n)
    ensures v.Bool? ==> n == Some(if v.b then 1.0 else 0.0)
  {
    match v
    case Undefined => None
    case Null => Some(0.0)
    case Bool(b) => Some(if b then 1.0 else 0.0)
    case Num(n) => Some(n)
    case Str(_) => None
    case Obj(_) => None
  }
}
