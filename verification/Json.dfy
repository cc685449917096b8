/** JSON documents as the handlers see them after decoding. */
module Json {
  datatype Value =
    | Null
    | Bool(b: bool)
    | Num(n: int)
    | Str(s: string)
    | Arr(items: seq<Value>)
    | Obj(fields: map<string, Value>)

  /** dict.get: a missing key, like a receiver that is no dict, reads as None. */
  function Get(v: Value, key: string): Value {
    if v.Obj? && key in v.fields then v.fields[key] else Null
  }

  predicate Has(v: Value, key: string) {
    v.Obj? && key in v.fields
  }

  predicate IsTrue(v: Value) { v == Bool(true) }

  predicate IsFalse(v: Value) { v == Bool(false) }

  /** Python truth. */
  predicate Truthy(v: Value) {
    match v
    case Null => false
    case Bool(b) => b
    case Num(n) => n != 0
    case Str(s) => s != ""
    case Arr(items) => items != []
    case Obj(fields) => fields != map[]
  }

  /** The dicts of a list, in order; anything but a list has none. */
  function Dicts(v: Value): (dicts: seq<Value>)
    ensures forall d :: d in dicts ==> d.Obj?
  {
    if v.Arr? then OnlyDicts(v.items) else []
  }

  function OnlyDicts(items: seq<Value>): (dicts: seq<Value>)
    ensures forall d :: d in dicts ==> d.Obj?
  {
    if items == [] then []
    else (if items[0].Obj? then [items[0]] else []) + OnlyDicts(items[1..])
  }
}
