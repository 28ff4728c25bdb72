/**
 * The decoded form of a `pass.json` document, as `json.loads` hands it to the
 * extraction code: a tree of JSON values. Numbers are integers here; JSON
 * fractions and exponents are not part of this model.
 */
module JsonValue {

  datatype Json =
    | JNull
    | JBool(b: bool)
    | JNumber(n: int)
    | JString(s: string)
    | JArray(items: seq<Json>)
    | JObject(members: map<string, Json>)
}
