/** Facts about sequence concatenation used by the loop proofs. */
module Sequences {

  /** Concatenation is associative; appending to an accumulator regroups it. */
  lemma Associative<T>(a: seq<T>, b: seq<T>, c: seq<T>)
    ensures a + (b + c) == (a + b) + c
  {
  }
}
