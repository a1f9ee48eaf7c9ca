/**
 * A JavaScript value as the request validator and the chat reply handler see
 * it: the JSON kinds plus `undefined`, with JavaScript truthiness and
 * property access.
 */
module Json {
  import opened Wrappers

  datatype Json =
    | Undefined
    | Null
    | Bool(b: bool)
    | Num(n: real)
    | Str(s: string)
    | Arr(items: seq<Json>)
    | Obj(fields: map<string, Json>)

  /** `null` and `undefined`, the two values whose properties cannot be read. */
  predicate IsNullish(v: Json) {
    v.Undefined? || v.Null?
  }

  /** JavaScript truthiness: `undefined`, `null`, `false`, `0` and `""` are falsy. */
  predicate Truthy(v: Json) {
    match v
    case Undefined => false
    case Null => false
    case Bool(b) => b
    case Num(n) => n != 0.0
    case Str(s) => s != ""
    case Arr(_) => true
    case Obj(_) => true
  }

  /**
   * `v[key]` on a value that is not `null` or `undefined`: the field of an
   * object, and `undefined` for an absent field or a non-object.
   */
  function Prop(v: Json, key: string): (r: Json)
    requires !IsNullish(v)
    ensures v.Obj? && key in v.fields ==> r == v.fields[key]
    ensures !(v.Obj? && key in v.fields) ==> r.Undefined?
  {
    match v
    case Obj(f) => if key in f then f[key] else Undefined
    case _ => Undefined
  }

  /** `a || b` on values. */
  function Or(a: Json, b: Json): (r: Json)
    ensures Truthy(a) ==> r == a
    ensures !Truthy(a) ==> r == b
  {
    if Truthy(a) then a else b
  }

  /** `a ?? b` on values. */
  function Coalesce(a: Json, b: Json): (r: Json)
    ensures IsNullish(a) ==> r == b
    ensures !IsNullish(a) ==> r == a
  {
    if IsNullish(a) then b else a
  }

  /** Object spread `{...base, key: value}` for one overriding field; a non-object spreads to nothing. */
  function WithField(base: Json, key: string, value: Json): (r: Json)
    ensures r.Obj? && key in r.fields && r.fields[key] == value
    ensures base.Obj? ==> forall k :: k in base.fields && k != key ==> k in r.fields && r.fields[k] == base.fields[k]
    ensures base.Obj? ==> r.fields.Keys == base.fields.Keys + {key}
  {
    match base
    case Obj(f) => Obj(f[key := value])
    case _ => Obj(map[key := value])
  }
}
