/** The dynamically typed values that travel through the gate: the part of
    Python's object model the gate inspects (truthiness and `len`) and the
    part `json.dumps` accepts. */
module PyValue {
  import opened Wrappers

  /** A Python value as it can appear inside a request or payload. Floats are
      not modelled. `Opaque` stands for any object `json.dumps` refuses to
      serialise (a set, bytes, an instance of a user class), described only by
      what the gate can observe of it: its truthiness and its `len`, if any. */
  datatype Value =
    | Null
    | Bool(b: bool)
    | Int(i: int)
    | Str(s: string)
    | List(items: seq<Value>)
    | Dict(entries: map<string, Value>)
    | Opaque(truthy: bool, size: Option<nat>)

  /** Python's `bool(v)`: `None`, `False`, `0` and empty containers are falsy. */
  predicate Truthy(v: Value)
  {
    match v
    case Null => false
    case Bool(b) => b
    case Int(i) => i != 0
    case Str(s) => |s| > 0
    case List(items) => |items| > 0
    case Dict(entries) => |entries| > 0
    case Opaque(t, _) => t
  }

  /** Python's `len(v)`; `None` when `len` raises `TypeError`. */
  function Len(v: Value): Option<nat>
  {
    match v
    case Str(s) => Some(|s|)
    case List(items) => Some(|items|)
    case Dict(entries) => Some(|entries|)
    case Opaque(_, size) => size
    case _ => None
  }

  /** `json.dumps(v, sort_keys=True)` returns instead of raising: no
      unserialisable object occurs anywhere inside `v`. */
  predicate Serialisable(v: Value)
  {
    match v
    case Opaque(_, _) => false
    case List(items) => forall i :: 0 <= i < |items| ==> Serialisable(items[i])
    case Dict(entries) => forall k :: k in entries ==> Serialisable(entries[k])
    case _ => true
  }

  /** The outcome of evaluating a Python expression that may raise `TypeError`. */
  datatype Eval<+T> = Returns(value: T) | RaisesTypeError
}
