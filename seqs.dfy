/** Order-preserving selection from a sequence. */
module Seqs {

  /** `a` is `b` with some elements left out and the rest in their order. */
  predicate IsSubsequence<T(==)>(a: seq<T>, b: seq<T>)
    decreases |b|
  {
    if a == [] then true
    else if b == [] then false
    else if a[0] == b[0] then IsSubsequence(a[1..], b[1..])
    else IsSubsequence(a, b[1..])
  }

  /** Counting in a sequence with one more element in front. */
  lemma CountCons<T>(h: T, t: seq<T>, x: T)
    ensures multiset([h] + t)[x] == (if h == x then 1 else 0) + multiset(t)[x]
  {
    assert multiset([h] + t) == multiset([h]) + multiset(t);
  }
}
