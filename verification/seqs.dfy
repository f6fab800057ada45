/** Facts about sequences shared by the modules that build printed text and lists. */
module Seqs {
  /** Regrouping three appended sequences. */
  lemma AppendAssoc<T>(a: seq<T>, b: seq<T>, c: seq<T>)
    ensures (a + b) + c == a + (b + c)
  {
  }
}
