/** Joining sequences. */
module Sequences {
  lemma Assoc<T>(a: seq<T>, b: seq<T>, c: seq<T>)
    ensures a + (b + c) == (a + b) + c
  {}

  lemma NoneBefore<T>(a: seq<T>)
    ensures [] + a == a && a + [] == a
  {}
}
