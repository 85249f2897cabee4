/** Values that cross the boundary between the service and the libraries it
    calls: optional values, the outcome of a call that may raise, and the
    JSON values that `json.loads` produces and FastAPI sends back. */
module PyValues {

  /** A Python value that may be `None`. */
  datatype Option<+T> = None | Some(value: T)

  /** The outcome of a library call that either returns a value or raises an
      exception; `message` is the exception's `str(e)`. */
  datatype Attempt<+T> = Done(value: T) | Raised(message: string)

  /** A JSON value as Python holds it after `json.loads`: objects are dicts.
      Numbers are kept as their literal text, since nothing here computes
      with them. */
  datatype Json =
    | JNull
    | JBool(b: bool)
    | JNumber(literal: string)
    | JString(s: string)
    | JArray(items: seq<Json>)
    | JObject(fields: map<string, Json>)

  /** `j` is a dict whose key set is exactly `keys`. */
  predicate HasKeys(j: Json, keys: set<string>) {
    j.JObject? && j.fields.Keys == keys
  }
}
