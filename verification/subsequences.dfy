/** Order-preserving selection from a sequence. */
module Subsequences {

  /**
   * `a` is obtained from `b` by deleting elements: every element of `a`
   * appears in `b`, in the same relative order, and none is repeated.
   */
  predicate IsSubsequence<T(==)>(a: seq<T>, b: seq<T>)
    decreases |b|
  {
    if a == [] then true
    else if b == [] then false
    else (a[0] == b[0] && IsSubsequence(a[1..], b[1..])) || IsSubsequence(a, b[1..])
  }
}
