/** Optional values and error-carrying results, used in place of Python's
    `None` and of exceptions that the modelled functions raise. */
module Wrappers {

  /** `None` is Python's `None`; `Some(v)` is a present value. */
  datatype Option<+T> = None | Some(value: T) {

    /** The value, or `default` when absent (Python's `x if x is not None else default`). */
    function GetOr(default: T): T {
      match this
      case Some(v) => v
      case None => default
    }
  }

  /** A computation that either returns a value or raises an exception whose
      message is `error`. */
  datatype Result<+T> = Ok(value: T) | Err(error: string) {

    predicate IsFailure() {
      Err?
    }

    function PropagateFailure<U>(): Result<U>
      requires Err?
    {
      Err(error)
    }

    function Extract(): T
      requires Ok?
    {
      value
    }
  }

  /** Names of the Python exceptions the modelled functions let escape. An
      `Err` from the standard library carries the exception's class name
      only (its message text is not modelled); one the program raises
      itself carries the class name and its message, see `Raised`. */
  const ValueError := "ValueError"
  const OverflowError := "OverflowError"

  /** `raise cls(message)` in the program's own code. */
  function Raised(cls: string, message: string): (e: string)
    ensures |e| == |cls| + 2 + |message| && e[..|cls|] == cls && e[|cls| + 2..] == message
  {
    cls + ": " + message
  }

  /** Python truthiness of an optional string: present and non-empty. */
  predicate Truthy(s: Option<string>) {
    s.Some? && s.value != ""
  }

  /** `s or ''` for an optional string. */
  function OrEmpty(s: Option<string>): (r: string)
    ensures Truthy(s) ==> r == s.value
    ensures !Truthy(s) ==> r == ""
  {
    match s
    case Some(x) => x
    case None => ""
  }
}
