/**
 Sequence facts the walks use, stated once so that they are proved away from
 the stack terms.
 */
module Seqs {
  /** Taking one more element appends it. */
  lemma TakeSnoc<T>(xs: seq<T>, q: nat)
    requires q < |xs|
    ensures xs[..q] + [xs[q]] == xs[..q + 1]
  {
  }

  /** Taking everything gives the whole sequence. */
  lemma TakeAll<T>(xs: seq<T>)
    ensures xs[..|xs|] == xs
  {
  }
}
