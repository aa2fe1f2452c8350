/** A decoded JSON/YAML value as the configuration code sees it (numbers other than integers are not modelled). */
module Json {
  import opened Dicts

  datatype Json =
    | JNull
    | JBool(b: bool)
    | JInt(i: int)
    | JStr(s: string)
    | JArray(items: seq<Json>)
    | JObject(members: Dict<string, Json>)

  /** Python truthiness of the value: `None`, `False`, `0` and empty containers are false. */
  predicate Truthy(j: Json) {
    match j
    case JNull => false
    case JBool(b) => b
    case JInt(i) => i != 0
    case JStr(s) => s != []
    case JArray(items) => items != []
    case JObject(members) => members != []
  }
}
