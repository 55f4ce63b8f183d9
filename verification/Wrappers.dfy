/** What every other module uses. */
module Wrappers {
  datatype Option<+T> = None | Some(value: T)

  lemma {:induction false} Assoc<T>(a: seq<T>, b: seq<T>, c: seq<T>)
    ensures a + (b + c) == (a + b) + c
  {
  }
}
