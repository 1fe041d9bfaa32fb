/**
 * JSON-like values as Python holds them after decoding (`dict`, `list`,
 * `str`, `int`, `bool`, `None`), with the two Python behaviours the
 * modelled code depends on: truthiness and the `int(...)` conversion.
 * Floating-point numbers are not modelled.
 */
module Json {
  import opened PySeq
  import opened PyStr

  datatype Json =
    | JNull
    | JBool(b: bool)
    | JInt(i: int)
    | JStr(s: string)
    | JArray(items: seq<Json>)
    | JObject(fields: map<string, Json>)

  /** A JSON object as Python's `dict` with string keys. */
  type JsonObject = map<string, Json>

  /** `bool(v)`: empty containers, "", 0, False and None are falsy. */
  predicate Truthy(v: Json)
  {
    match v
    case JNull => false
    case JBool(b) => b
    case JInt(i) => i != 0
    case JStr(s) => s != ""
    case JArray(items) => |items| > 0
    case JObject(fields) => |fields| > 0
  }

  /** `d.get(key)`: a missing key reads as `None`. */
  function Get(d: JsonObject, key: string): (v: Json)
    ensures key !in d ==> v == JNull
  {
    if key in d then d[key] else JNull
  }

  /** `isinstance(v, int)`: `bool` is a subclass of `int` in Python. */
  predicate IsInt(v: Json)
  {
    v.JInt? || v.JBool?
  }

  /** The integer an `isinstance(v, int)` value stands for (`True == 1`). */
  function IntValue(v: Json): int
    requires IsInt(v)
  {
    match v
    case JInt(i) => i
    case JBool(b) => if b then 1 else 0
  }

  /** What `int(v)` does: a value, or one of the two exceptions it raises. */
  datatype IntConversion = Converted(value: int) | ValueError | TypeError

  /**
   * `int(v)`: integers and booleans convert, text converts when it spells
   * an integer (ValueError otherwise), and `None`, lists and dicts raise
   * TypeError.
   */
  function ToInt(v: Json): (r: IntConversion)
    ensures IsInt(v) ==> r == Converted(IntValue(v))
    ensures r.TypeError? <==> (v.JNull? || v.JArray? || v.JObject?)
    ensures v.JStr? ==> (r.Converted? <==> ParseInt(v.s).Some?)
  {
    match v
    case JInt(i) => Converted(i)
    case JBool(b) => Converted(if b then 1 else 0)
    case JStr(s) => (match ParseInt(s) case Some(n) => Converted(n) case None => ValueError)
    case _ => TypeError
  }
}
