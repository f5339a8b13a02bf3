/** Shared value types: optional values, results with an error side, HTTP errors
    and the JSON payloads stored in the audit tables. */
module Common {

  datatype Option<T> = None | Some(value: T)

  /** An operation that either produces a value or raises. */
  datatype Result<T, E> = Ok(value: T) | Err(error: E)

  /** An `HTTPException` raised by a request handler: status code and detail text. */
  datatype HttpError = HttpError(status: nat, detail: string)

  /** An arbitrary JSON value, as stored in the `inputs`/`outputs` columns and as
      sent in a request's `features` mapping. */
  datatype Json =
    | JNull
    | JNum(num: real)
    | JStr(str: string)
    | JBool(flag: bool)
    | JList(items: seq<Json>)
    | JObject(fields: seq<(string, Json)>)

  function Abs(x: real): real {
    if x < 0.0 then -x else x
  }

  function Min(a: int, b: int): int {
    if a <= b then a else b
  }
}
