/** What several models share. */
module Basics {
  datatype Option<T> = None | Some(value: T)

  lemma Joined<T>(a: seq<T>, b: seq<T>, c: seq<T>)
    ensures a + b + c == a + (b + c)
  {
  }
}
