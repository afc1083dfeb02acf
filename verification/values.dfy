/**
 * JavaScript values as the Porta client engine sees them: the application
 * state tree, response payloads, and the handful of coercions the engine
 * relies on (truthiness, strict equality, property reads and writes).
 */
module Values {

  datatype Option<T> = None | Some(value: T)

  /** A JavaScript value. Numbers are integers; arrays and functions are not state values here. */
  datatype Value =
    | Undefined
    | Null
    | Bool(b: bool)
    | Num(n: int)
    | Str(s: string)
    | Obj(fields: map<string, Value>)

  /** JavaScript truthiness: `undefined`, `null`, `false`, `0` and `''` are falsy. */
  predicate Truthy(v: Value) {
    match v
    case Undefined => false
    case Null => false
    case Bool(b) => b
    case Num(n) => n != 0
    case Str(s) => s != ""
    case Obj(_) => true
  }

  /**
   * Strict equality `===`. Objects compare by identity; no object is shared
   * in this model, so two objects are never identical.
   */
  predicate StrictEq(a: Value, b: Value) {
    !a.Obj? && !b.Obj? && a == b
  }

  /** Property read `v[k]`: a missing key, or any non-object, yields `undefined`. */
  function Prop(v: Value, k: string): (r: Value)
    ensures r != Undefined ==> v.Obj? && k in v.fields && r == v.fields[k]
  {
    if v.Obj? && k in v.fields then v.fields[k] else Undefined
  }

  /** Property write `v[k] = c`: silently ignored on a primitive. */
  function Put(v: Value, k: string, c: Value): (r: Value)
    ensures v.Obj? ==> Prop(r, k) == c && r.Obj? && r.fields.Keys == v.fields.Keys + {k}
    ensures v.Obj? ==> forall k' :: k' != k ==> Prop(r, k') == Prop(v, k')
    ensures !v.Obj? ==> r == v
  {
    if v.Obj? then Obj(v.fields[k := c]) else v
  }

  /** `delete v[k]`: silently ignored on a primitive. */
  function Delete(v: Value, k: string): (r: Value)
    ensures v.Obj? ==> r.Obj? && k !in r.fields && r.fields.Keys == v.fields.Keys - {k}
    ensures v.Obj? ==> forall k' :: k' != k ==> Prop(r, k') == Prop(v, k')
    ensures !v.Obj? ==> r == v
  {
    if v.Obj? then Obj(v.fields - {k}) else v
  }

  /** `x || {}`: a falsy value is replaced by a fresh empty object. */
  function Vivify(v: Value): (r: Value)
    ensures Truthy(r)
    ensures Truthy(v) ==> r == v
    ensures !Truthy(v) ==> r == Obj(map[])
  {
    if Truthy(v) then v else Obj(map[])
  }

  /** A numeric field of an object, when present as a number. */
  function NumField(v: Value, k: string): (r: Option<int>)
    ensures r.Some? <==> Prop(v, k).Num?
    ensures r.Some? ==> Prop(v, k) == Num(r.value)
  {
    match Prop(v, k)
    case Num(n) => Some(n)
    case _ => None
  }

  /** A string field of an object, `""` when absent or not a string. */
  function StrField(v: Value, k: string): (r: string)
    ensures Prop(v, k).Str? ==> r == Prop(v, k).s
    ensures !Prop(v, k).Str? ==> r == ""
  {
    match Prop(v, k)
    case Str(s) => s
    case _ => ""
  }

  /** A response body as delivered by the network layer or by local storage. */
  datatype Payload = Json(fields: map<string, Value>) | Text(text: string) {
    function AsValue(): Value {
      match this
      case Json(m) => Obj(m)
      case Text(t) => Str(t)
    }
  }
}
