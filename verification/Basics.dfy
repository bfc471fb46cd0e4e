/**
 What several of the other modules use: an optional value and regrouping of sequences.
 */
module Basics {

  datatype Option<+T> = None | Some(value: T)

  lemma Assoc<T>(a: seq<T>, b: seq<T>, c: seq<T>)
    ensures (a + b) + c == a + (b + c) && b + [] == b
  {
  }
}
