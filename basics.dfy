/** Small shared vocabulary: an optional value and Python's `str.endswith`. */
module Basics {

  datatype Option<+T> = None | Some(value: T)

  /** `s.endswith(suffix)` */
  predicate EndsWith<T(==)>(s: seq<T>, suffix: seq<T>) {
    |suffix| <= |s| && s[|s| - |suffix|..] == suffix
  }
}
