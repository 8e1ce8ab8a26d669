/** Optional values and success/failure outcomes, standing in for the
    repository's `Option<T>` and for thrown exceptions. */
module Wrappers {

  /** A value that may be absent; the `Option<string>` of `args` and `cwd`. */
  datatype Option<+T> = None | Some(value: T) {

    /** The value when present, otherwise `default` (`Option.GetOrElse`). */
    function GetOrElse(default: T): (r: T)
      ensures Some? ==> r == value
      ensures None? ==> r == default
    {
      match this
      case Some(v) => v
      case None => default
    }
  }

  /** The result of a check that either passes or raises an error. */
  datatype Outcome<+E> = Pass | Fail(error: E)

  /** A value returned normally, or an error raised instead. */
  datatype Result<+R, +E> = Ok(value: R) | Failed(error: E)
}
