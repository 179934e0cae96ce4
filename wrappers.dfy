/**
  Shared helpers: optional values (the model's stand-in for JavaScript's
  `undefined` / missing property) and string prefixes.
*/
module Wrappers {

  datatype Option<+T> = None | Some(value: T) {

    /** Returns the encapsulated value, or `default` if there is none. */
    function GetOr(default: T): T {
      match this
      case Some(v) => v
      case None => default
    }
  }

  /** `prefix` is an initial segment of `s`. */
  predicate IsPrefix<T(==)>(prefix: seq<T>, s: seq<T>) {
    |prefix| <= |s| && s[..|prefix|] == prefix
  }
}
