/**
 * A JSON document as `json.loads` hands it to the script, and the few
 * Python type tests and comparisons the script applies to such values.
 */
module Json {

  /**
   * The decoded value. `json.loads` yields `bool`, `int` (unbounded),
   * `float`, `str`, `list`, `dict` or `None`; a repeated object key keeps
   * its last value, so an object is a map.
   */
  datatype Json =
    | JNull
    | JBool(b: bool)
    | JInt(i: int)
    | JFloat(r: real)
    | JString(s: string)
    | JArray(items: seq<Json>)
    | JObject(fields: map<string, Json>)

  /** `isinstance(v, int)`: in Python `bool` is a subclass of `int`. */
  predicate IsPyInt(v: Json) {
    v.JInt? || v.JBool?
  }

  /** The integer a value passing `isinstance(v, int)` stands for (`True` is 1). */
  function PyIntValue(v: Json): int
    requires IsPyInt(v)
  {
    match v
    case JInt(i) => i
    case JBool(b) => if b then 1 else 0
  }

  /** Python's `v == n` for an `int` n: ints, bools and floats compare by value, nothing else is equal. */
  predicate PyEqualsInt(v: Json, n: int) {
    match v
    case JInt(i) => i == n
    case JBool(b) => (if b then 1 else 0) == n
    case JFloat(r) => r == n as real
    case _ => false
  }

}
