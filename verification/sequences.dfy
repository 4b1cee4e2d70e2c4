/** Order-keeping selections from a sequence, shared by the server's query
    filters and the client's search. */
module Sequences {

  /** `xs` is `ys` with some elements dropped, in the same order. */
  predicate IsSubsequence<T(==)>(xs: seq<T>, ys: seq<T>)
    decreases |ys|
  {
    if ys == [] then xs == []
    else (xs != [] && xs[0] == ys[0] && IsSubsequence(xs[1..], ys[1..])) || IsSubsequence(xs, ys[1..])
  }
}
