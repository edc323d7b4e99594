/** The part of JavaScript's value model that the plugin touches once the
    upstream response has been parsed: JSON values, property lookup that may
    yield `undefined`, truthiness, and the TypeError a bad property access throws. */
module Json {

  datatype Option<+T> = None | Some(value: T)

  datatype Result<+T, +E> = Success(value: T) | Failure(error: E)

  /** A parsed JSON value. Numbers are integers in this model. */
  datatype Value =
    | Str(s: string)
    | Num(n: int)
    | Bool(b: bool)
    | Null
    | Arr(elems: seq<Value>)
    | Obj(fields: map<string, Value>)

  /** A parsed JSON object: one station record, or the status element. */
  type Record = map<string, Value>

  /** The TypeError JavaScript throws when a method is looked up on a value
      that does not have it; `name` is the property that was looked up. */
  datatype TypeError =
    | ReadOfUndefined(name: string)
    | ReadOfNull(name: string)
    | NotAFunction(name: string)

  /** `obj[key]`: None stands for JavaScript's `undefined`. */
  function Get(obj: Record, key: string): Option<Value>
  {
    if key in obj then Some(obj[key]) else None
  }

  /** JavaScript truthiness of a defined JSON value: the empty string, 0,
      false and null are falsy; every object and array is truthy. */
  predicate Truthy(v: Value)
  {
    match v
    case Str(s) => s != ""
    case Num(n) => n != 0
    case Bool(b) => b
    case Null => false
    case Arr(_) => true
    case Obj(_) => true
  }
}
