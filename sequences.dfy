/** Facts about sequences shared by the playlist pipeline. */
module Sequences {

  /** `xs` is the subsequence of `ys` taken at the strictly increasing positions `idx`. */
  ghost predicate SubseqAt<T>(xs: seq<T>, ys: seq<T>, idx: seq<nat>) {
    && |idx| == |xs|
    && (forall k :: 0 <= k < |idx| ==> idx[k] < |ys| && xs[k] == ys[idx[k]])
    && (forall k, l :: 0 <= k < l < |idx| ==> idx[k] < idx[l])
  }

  /** Appending an element to `ys` keeps a subsequence a subsequence. */
  lemma SubseqAtSkip<T>(xs: seq<T>, ys: seq<T>, idx: seq<nat>, y: T)
    requires SubseqAt(xs, ys, idx)
    ensures SubseqAt(xs, ys + [y], idx)
  {
  }

  /** Appending the same element to both sides extends the witness by the new last position. */
  lemma SubseqAtTake<T>(xs: seq<T>, ys: seq<T>, idx: seq<nat>, y: T)
    requires SubseqAt(xs, ys, idx)
    ensures SubseqAt(xs + [y], ys + [y], idx + [|ys|])
  {
  }
}
