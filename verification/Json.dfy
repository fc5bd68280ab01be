/** JSON values. An object is a map, so the order of its keys does not matter. */
module Json {

  /** `Float` keeps the number as written, so that equal values are equal texts. */
  datatype Json =
    | Null
    | Bool(b: bool)
    | Int(n: int)
    | Float(text: string)
    | Str(s: string)
    | Arr(items: seq<Json>)
    | Obj(fields: map<string, Json>)

  type Fields = map<string, Json>
}
