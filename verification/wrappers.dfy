/** Optional values: a JavaScript field that may be missing (`undefined`/`null`). */
module Wrappers {

  datatype Option<+T> = None | Some(value: T) {

    /** The wrapped value, or `default` when there is none. */
    function GetOr(default: T): T {
      match this
      case Some(v) => v
      case None => default
    }
  }

  /** A JavaScript string that may be missing is truthy when present and not empty. */
  predicate IsTruthyText(field: Option<string>) {
    field.Some? && field.value != ""
  }
}
