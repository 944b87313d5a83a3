/**
 * Values shared by the modules of the model: the JSON values that travel
 * through a volume's parameter maps and through the HTTP request body,
 * and the usual Option wrapper.
 */
module JsonValues {

  datatype Option<+T> = None | Some(value: T)

  /** A decoded JSON value, as Python's `json` module hands it over. */
  datatype Json =
    | JNull
    | JBool(b: bool)
    | JInt(i: int)
    | JReal(r: real)
    | JStr(s: string)
    | JArray(items: seq<Json>)
    | JObject(fields: map<string, Json>)
}
