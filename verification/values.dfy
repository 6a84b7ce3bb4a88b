/**
 * Python's dynamically typed values, as far as the chat and lobby state
 * needs them: JSON-shaped payloads and the string-keyed dicts that hold
 * message records and character sheets.
 */
module PyValues {
  import opened Wrappers

  /** A JSON-shaped Python value. Floating point is not modelled. */
  datatype Value =
    | Null
    | Bool(b: bool)
    | Int(i: int)
    | Str(s: string)
    | Arr(items: seq<Value>)
    | Obj(fields: map<string, Value>)

  /** A Python `dict` with string keys (key order is not modelled). */
  type Record = map<string, Value>

  /** Python truthiness: `None`, `False`, `0`, `""`, `[]` and `{}` are falsy. */
  predicate Truthy(v: Value) {
    match v
    case Null => false
    case Bool(b) => b
    case Int(i) => i != 0
    case Str(s) => s != ""
    case Arr(items) => |items| != 0
    case Obj(fields) => |fields| != 0
  }

  /** Python's `a or b`: the first operand when it is truthy, else the second. */
  function Or(a: Value, b: Value): Value {
    if Truthy(a) then a else b
  }

  /** An optional string argument is truthy: given and not the empty string. */
  predicate Given(q: Option<string>) {
    q.Some? && q.value != ""
  }

  /** Python's `d.get(k)`: the value under `k`, or `None` when it is absent. */
  function Get(d: Record, k: string): Value {
    if k in d then d[k] else Null
  }
}
