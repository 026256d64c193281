/** The JSON-like values that transformers produce and responses carry. */
module Json {
  import opened Wrappers

  datatype Json =
    | Null
    | Bool(b: bool)
    | Int(i: int)
    | Str(s: string)
    | Array(items: seq<Json>)
    | Object(fields: map<string, Json>)

  /** An associative PHP array with string keys, as a transformer step sees it. */
  type Data = map<string, Json>

  /** A nullable string as it is encoded: the string, or null. */
  function OfOptionalString(s: Option<string>): (j: Json)
    ensures j.Null? <==> s.None?
    ensures s.Some? ==> j == Str(s.value)
  {
    match s
    case None => Null
    case Some(v) => Str(v)
  }
}
