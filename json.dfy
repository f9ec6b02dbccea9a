/** The value space of a decoded JSON document, standing for Go's `interface{}`
    in the request and response attribute maps. */
module Json {

  datatype JsonValue =
    | JNull
    | JBool(b: bool)
    | JNumber(n: real)  // `encoding/json` decodes every number as `float64`
    | JString(s: string)
    | JArray(items: seq<JsonValue>)
    | JObject(fields: map<string, JsonValue>)
}
