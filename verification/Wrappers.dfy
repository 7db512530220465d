/** What several modules share: a value that may be missing (a lookup that finds nothing, a call that raised),
    and the associativity of concatenation, which the verifier does not see by itself. */
module Wrappers {
  datatype Option<T> = None | Some(value: T)

  lemma Regroup<T>(a: seq<T>, b: seq<T>, c: seq<T>)
    ensures a + (b + c) == a + b + c
  {
  }
}
