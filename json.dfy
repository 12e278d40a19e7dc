/** Decoded JSON values: the opaque payloads that the tools keep in the
    tool-context store and that a reservation record carries. */
module JsonValues {

  datatype Json =
    | JNull
    | JBool(b: bool)
    | JNumber(n: int)
    | JString(s: string)
    | JArray(items: seq<Json>)
    | JObject(members: seq<(string, Json)>)
}
