/** Vocabulary shared by every component of the balancer. */
module Basics {

  /** A Go string is a sequence of bytes. */
  type Str = seq<bv8>

  datatype Option<+T> = None | Some(value: T)

  function Max(a: int, b: int): int {
    if a < b then b else a
  }

  function Min(a: int, b: int): int {
    if a < b then a else b
  }

  /** No value occurs twice: what configuration validation demands of backend addresses. */
  ghost predicate Distinct<T>(s: seq<T>) {
    forall i, j :: 0 <= i < j < |s| ==> s[i] != s[j]
  }
}
