/** JSON-like values: the records a search provider returns and the bodies of HTTP requests. */
module Json {
  /** Numbers are kept as integers; no operation here inspects them. */
  datatype Json =
    | JNull
    | JBool(b: bool)
    | JNumber(n: int)
    | JString(s: string)
    | JArray(items: seq<Json>)
    | JObject(fields: map<string, Json>)
}
