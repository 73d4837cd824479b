/** JSON values as the dashboard reads and writes them, with JavaScript's
    truthiness, property access and object spread. */
module Json {
  import opened JsNumber

  datatype Json =
    | JUndef                          // `undefined`: a missing property
    | JNull
    | JBool(b: bool)
    | JNum(n: Decimal)
    | JStr(s: string)
    | JObj(fields: map<string, Json>)

  type Object = map<string, Json>

  /** `o.k`, `undefined` when the property is missing. */
  function Get(o: Object, k: string): (v: Json)
    ensures k !in o ==> v == JUndef
  {
    if k in o then o[k] else JUndef
  }

  /** `v?.k` on any value: only objects have properties here. */
  function Member(v: Json, k: string): Json {
    if v.JObj? then Get(v.fields, k) else JUndef
  }

  /** The value counts as true in a condition or a `||`. */
  predicate Truthy(v: Json) {
    match v
    case JUndef => false
    case JNull => false
    case JBool(b) => b
    case JNum(n) => !n.IsZero()
    case JStr(s) => s != ""
    case JObj(_) => true
  }

  /** `a || b` */
  function Or(a: Json, b: Json): (r: Json)
    ensures Truthy(a) ==> r == a
    ensures !Truthy(a) ==> r == b
  {
    if Truthy(a) then a else b
  }

  /** `{...a, ...b}` and `Object.assign(a, b)`: keys of `b` win. */
  function Spread(a: Object, b: Object): (r: Object)
    ensures r.Keys == a.Keys + b.Keys
    ensures forall k :: k in b ==> r[k] == b[k]
    ensures forall k :: k in a && k !in b ==> r[k] == a[k]
  {
    a + b
  }

  /** `String(v)` */
  function Stringify(v: Json): string {
    match v
    case JUndef => "undefined"
    case JNull => "null"
    case JBool(b) => if b then "true" else "false"
    case JNum(n) => ShowDecimal(n)
    case JStr(s) => s
    case JObj(_) => "[object Object]"
  }

  /** A string property read through `||` into a text field: only a JSON
      string supplies the text. */
  function AsText(v: Json): (r: string)
    ensures v.JStr? ==> r == v.s
  {
    if v.JStr? then v.s else ""
  }
}
