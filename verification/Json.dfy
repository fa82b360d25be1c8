/** JSON documents as Python sees them once parsed. Objects are unordered, as dict equality is; numbers and
    booleans share one constructor because Python compares True and 1 as equal. */
module Json {
  import opened Optional

  datatype Json = Null | Num(number: real) | Str(text: string) | Arr(items: seq<Json>) | Obj(fields: map<string, Json>)

  /** A parser of file contents; None is a document that does not parse. */
  type Parser = string -> Option<Json>

  predicate Truthy(j: Json) {
    match j
    case Null => false
    case Num(n) => n != 0.0
    case Str(s) => s != ""
    case Arr(items) => items != []
    case Obj(fields) => fields != map[]
  }

  /** dict.get with the default None. */
  function Get(fields: map<string, Json>, key: string): Json {
    if key in fields then fields[key] else Null
  }

  /** `value or {}` where a dict is wanted. */
  function OrEmpty(j: Json): Json {
    if Truthy(j) then j else Obj(map[])
  }
}
