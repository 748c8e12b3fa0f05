/** Parsed JSON values, as `json.load` hands them to the extractor. */
module JsonValues {

  /** A JSON value. Objects are finite maps from key to value; numbers are
      carried as integers, since the extractor only passes them through. */
  datatype Json =
    | Null
    | Bool(b: bool)
    | Number(n: int)
    | Str(s: string)
    | Array(elems: seq<Json>)
    | Object(fields: map<string, Json>)

  /** Python's `dict.get(key)`: the value stored under `key`, or null when the key is absent. */
  function Get(fields: map<string, Json>, key: string): Json
  {
    if key in fields then fields[key] else Null
  }
}
