/** The optional-value type shared by the whole model: JavaScript's
    `null`/`undefined` results and absent headers or parameters become `None`. */
module Wrappers {

  datatype Option<+T> = None | Some(value: T) {

    /** Returns the value held in `Some`, or `default` for `None`. */
    function GetOr(default: T): T
    {
      match this
      case Some(v) => v
      case None => default
    }
  }

  /** A string that is present and non-empty: what JavaScript's truthiness
      test accepts of a string that may be `null` or `undefined`. */
  predicate Present(v: Option<string>)
  {
    v.Some? && v.value != ""
  }
}
