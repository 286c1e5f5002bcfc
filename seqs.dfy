/** Facts about sequences shared by the modules. */
module Seqs {

  /** Concatenation can be regrouped. */
  lemma AppendAssoc<T>(a: seq<T>, b: seq<T>, c: seq<T>)
    ensures (a + b) + c == a + (b + c)
  {
  }
}
