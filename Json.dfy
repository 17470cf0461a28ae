/** Request values as the JSON body parser and the query-string parser deliver them. */
module Json {
  import opened Maybe

  datatype Json =
    | Null
    | Bool(b: bool)
    | Num(x: real)
    | Str(s: string)
    | Arr(items: seq<Json>)
    | Obj(props: map<string, Json>)

  /** JavaScript truthiness of a field that may be absent (`undefined`). JSON has no NaN, and
      arrays and objects are truthy even when empty. */
  predicate Truthy(v: Option<Json>) {
    match v
    case None => false
    case Some(Null) => false
    case Some(Bool(b)) => b
    case Some(Num(x)) => x != 0.0
    case Some(Str(s)) => s != []
    case Some(_) => true
  }

  /** One step of a property access: `obj[key]` on an object or `arr[i]` on an array. */
  datatype Step = Key(key: string) | Index(i: nat)

  /** The value reached from `v` by following `path`, if every step exists. */
  function At(v: Json, path: seq<Step>): Option<Json>
    decreases |path|
  {
    if path == [] then Some(v)
    else match (v, path[0])
      case (Obj(m), Key(k)) => if k in m then At(m[k], path[1..]) else None
      case (Arr(a), Index(i)) => if i < |a| then At(a[i], path[1..]) else None
      case _ => None
  }
}
