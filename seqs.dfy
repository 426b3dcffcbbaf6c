/** Two facts about sequences that the proofs use at many element types. */
module Seqs {
  /** A non-empty sequence is its front followed by its last element. */
  lemma InitLast<T>(xs: seq<T>)
    requires xs != []
    ensures xs[..|xs| - 1] + [xs[|xs| - 1]] == xs
  {
  }

  /** Dropping the last element of a concatenation with a non-empty right
      part drops it from that part. */
  lemma AppendInit<T>(a: seq<T>, b: seq<T>)
    requires b != []
    ensures (a + b)[..|a + b| - 1] == a + b[..|b| - 1]
    ensures (a + b)[|a + b| - 1] == b[|b| - 1]
  {
  }

  lemma AppendNil<T>(a: seq<T>)
    ensures a + [] == a
  {
  }

  lemma ConcatAssoc<T>(a: seq<T>, b: seq<T>, c: seq<T>)
    ensures (a + b) + c == a + (b + c)
  {
  }
}
