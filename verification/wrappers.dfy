/** Failure-compatible wrappers shared by every module, and the stand-in for
    `serde_json::Value` used wherever the program stores or forwards JSON. */
module Wrappers {

  datatype Option<+T> = None | Some(value: T) {
    function GetOr(default: T): T {
      match this
      case Some(v) => v
      case None => default
    }
  }

  datatype Result<+R, +E> = Ok(value: R) | Err(error: E)

  /** A JSON value as far as this model needs it: either a JSON string, or any
      other value, represented by its compact serialisation (`Value::to_string`). */
  datatype Json = JString(s: string) | JOther(text: string)

  /** An HTTP status code as `reqwest::StatusCode` holds it: always three digits. */
  type StatusCode = c: int | 100 <= c <= 999 witness 200

  /** `StatusCode::is_success`: the 2xx range. */
  predicate IsSuccess(code: StatusCode) {
    200 <= code <= 299
  }
}
