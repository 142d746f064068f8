/** JSON values as Python sees them. */
module Json {
  datatype Json =
    | Null
    | Bool(b: bool)
    | Num(n: int)
    | Text(s: string)
    | Arr(items: seq<Json>)
    | Obj(fields: map<string, Json>)

  predicate Truthy(j: Json)
  {
    match j
    case Null => false
    case Bool(b) => b
    case Num(n) => n != 0
    case Text(s) => s != ""
    case Arr(items) => items != []
    case Obj(fields) => |fields| != 0
  }

  /** What Python takes for false. */
  lemma FalsyIff(j: Json)
    ensures !Truthy(j) <==>
              j == Null || j == Bool(false) || j == Num(0) || j == Text("") || j == Arr([]) || j == Obj(map[])
  {
    if j.Obj? && |j.fields| == 0 { assert j.fields == map[]; }
  }

  /** `d.get(key)`. */
  function Field(fields: map<string, Json>, key: string): Json
  {
    if key in fields then fields[key] else Null
  }
}
