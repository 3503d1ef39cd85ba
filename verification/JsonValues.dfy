/** Decoded JSON. */
module JsonValues {
  datatype Json =
    | Null
    | Flag(on: bool)
    | Number(digits: string)
    | Text(text: string)
    | Arr(items: seq<Json>)
    | Obj(members: map<string, Json>)
}
