/** Two facts about concatenation that the proofs of every module share. */
module Sequences {
  lemma Assoc<T>(a: seq<T>, b: seq<T>, c: seq<T>)
    ensures a + (b + c) == a + b + c
  {
  }

  lemma EmptySides<T>(b: seq<T>)
    ensures [] + b == b && b + [] == b
  {
  }
}
