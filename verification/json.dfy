/** JSON values as the mock policy server sees them once parsed. The order of keys is not kept. */
module JsonValues {

  datatype Json =
    | Null
    | Bool(truth: bool)
    | Num(number: real)
    | Str(text: string)
    | Arr(items: seq<Json>)
    | Obj(fields: map<string, Json>)
}
