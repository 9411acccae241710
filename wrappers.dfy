/** Optional values: `undefined`/`null` in the dashboard, a missing cell in the categoriser. */
module Wrappers {
  datatype Option<+T> = None | Some(value: T) {
    function GetOr(default: T): T {
      match this
      case Some(v) => v
      case None => default
    }
  }
}
