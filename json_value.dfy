/**
 * JSON values as `JSON.parse` produces them and `json.load` reads them, with
 * the JavaScript truthiness the client applies to them. An object's members
 * are a list in the order the parser gives them (`json.load` keeps the
 * textual order; `JSON.parse` moves integer-like keys first, which no
 * contract here depends on); a parsed object holds each key once.
 */
module JsonValue {
  datatype Json =
    | JNull
    | JBool(b: bool)
    | JNumber(n: real)
    | JString(s: string)
    | JArray(items: seq<Json>)
    | JObject(fields: seq<(string, Json)>)

  /** JavaScript truthiness: `null`, `false`, `0` and `""` are falsy, everything else is truthy. */
  predicate Truthy(j: Json) {
    match j
    case JNull => false
    case JBool(b) => b
    case JNumber(n) => n != 0.0
    case JString(s) => s != ""
    case _ => true
  }
}
