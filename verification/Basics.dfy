/** What several models share. */
module Basics {
  datatype Option<T> = None | Some(value: T)

  function Min(a: nat, b: nat): nat { if a < b then a else b }

  /** The two names every directory has for itself and its parent. */
  predicate Dots(name: string) { name == "." || name == ".." }
}
