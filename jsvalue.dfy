/** JavaScript values as they cross the application's boundaries: request and
    response bodies, IndexedDB records, and the NaN that `parseInt` can give.
    Numbers are integers; `undefined` is the `None` of an `Option<Value>`. */
module Js {
  import opened Wrappers
  import opened Text

  datatype Value =
    | Null
    | Bool(b: bool)
    | Num(n: int)
    | NaN
    | Str(s: string)
    | Arr(items: seq<Value>)
    | Obj(fields: map<string, Value>)

  /** JavaScript truthiness. */
  predicate Truthy(v: Value) {
    match v
    case Null => false
    case Bool(b) => b
    case Num(n) => n != 0
    case NaN => false
    case Str(s) => s != ""
    case Arr(_) => true
    case Obj(_) => true
  }

  /** Truthiness of a value that may be `undefined`. */
  predicate Present(p: Option<Value>) {
    p.Some? && Truthy(p.value)
  }

  /** The TypeError `v.k` throws when `v` is null. */
  const ReadOfNull := "TypeError: Cannot read properties of null"

  /** `v.k`: `undefined` when `v` has no own property `k` (arrays, strings and
      numbers have none of the properties this application reads); a
      TypeError when `v` is null. */
  function Prop(v: Value, k: string): (r: Result<Option<Value>, string>)
    ensures r.Err? <==> v == Null
    ensures r.Ok? && r.value.Some? ==> v.Obj? && k in v.fields && r.value.value == v.fields[k]
  {
    match v
    case Null => Err(ReadOfNull)
    case Obj(m) => Ok(if k in m then Some(m[k]) else None)
    case _ => Ok(None)
  }

  /** The property `k` of an object, `undefined` for anything else. */
  function Field(v: Value, k: string): Option<Value> {
    if v.Obj? && k in v.fields then Some(v.fields[k]) else None
  }

  /** `String(v)`. */
  function ToStr(v: Value): string
    decreases v
  {
    match v
    case Null => "null"
    case Bool(b) => if b then "true" else "false"
    case Num(n) => IntToString(n)
    case NaN => "NaN"
    case Str(s) => s
    case Arr(items) =>
      // `Array.prototype.join(',')`: null elements print as the empty string
      Join(seq(|items|, i requires 0 <= i < |items| => if items[i] == Null then "" else ToStr(items[i])), ',')
    case Obj(_) => "[object Object]"
  }

  /** The own properties `{...v}` contributes to an object literal: those of
      an object, none for null or a number. */
  function Spread(v: Value): map<string, Value> {
    if v.Obj? then v.fields else map[]
  }
}
