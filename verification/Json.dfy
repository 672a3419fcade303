/** JSON values as the Python code holds them after decoding: dicts, lists and scalars. */
module Json {

  datatype Json =
    | Null
    | Bool(b: bool)
    | Num(n: real)
    | Str(s: string)
    | Arr(items: seq<Json>)
    | Obj(fields: map<string, Json>)

  /** A JSON object, i.e. a Python `dict` with string keys. */
  type Object = map<string, Json>
}
