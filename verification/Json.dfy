/** Values as encoding/json decodes them. */
module Json {
  datatype Json =
    | Null
    | Bool(b: bool)
    | Num(n: real)
    | Str(s: string)
    | Arr(items: seq<Json>)
    | Obj(fields: map<string, Json>)

  // fmt.Sprint; the text of booleans, numbers, lists and objects is left to show.
  function Sprint(v: Json, show: Json -> string): string {
    match v
    case Null => "<nil>"
    case Str(s) => s
    case _ => show(v)
  }
}
