/** The optional values, results and check outcomes shared by the backend and frontend
    models, the byte type of uploads, and the truthiness rule both Python (`x if x else d`)
    and TypeScript (`x || d`) apply to an optional string. */
module Common {

  /** One byte of an uploaded file; only the length of a payload matters to the model. */
  newtype byte = x: int | 0 <= x < 256

  datatype Option<+T> = None | Some(value: T) {
    function GetOr(default: T): T {
      match this
      case Some(v) => v
      case None => default
    }
  }

  datatype Result<+R, +E> = Success(value: R) | Failure(error: E)

  /** Pass, or the reason a check failed. */
  datatype Outcome<+E> = Pass | Fail(error: E)

  /** The value of an optional string when it is truthy (present and non-empty), otherwise
      the fallback: `s if s else fallback` in Python, `s || fallback` in TypeScript. */
  function OrElse(s: Option<string>, fallback: string): (r: string)
    ensures s.Some? && s.value != "" ==> r == s.value
    ensures s.None? || s.value == "" ==> r == fallback
  {
    if s.Some? && s.value != "" then s.value else fallback
  }
}
