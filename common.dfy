/** Small shared definitions: an optional value (JavaScript's `null`/`undefined`
    against a present value) and the subsequence relation used to state what
    `filter`-style operations keep. */
module Common {

  datatype Option<+T> = None | Some(value: T)

  /** `a` is obtained from `b` by deleting elements, keeping the order of the rest. */
  predicate IsSubsequence<T(==)>(a: seq<T>, b: seq<T>)
    decreases |b|
  {
    if a == [] then true
    else if b == [] then false
    else if a[0] == b[0] then IsSubsequence(a[1..], b[1..])
    else IsSubsequence(a, b[1..])
  }

  /** The sum of a sequence of sizes (the size of a Blob built from chunks). */
  function Sum(xs: seq<nat>): (r: nat)
    ensures r == 0 <==> forall i :: 0 <= i < |xs| ==> xs[i] == 0
  {
    if xs == [] then 0 else xs[0] + Sum(xs[1..])
  }

  /** Adding a chunk adds its size: a Blob's size is the total over its parts. */
  lemma {:induction false} SumAppend(xs: seq<nat>, x: nat)
    ensures Sum(xs + [x]) == Sum(xs) + x
  {
    if xs != [] {
      assert (xs + [x])[1..] == xs[1..] + [x];
      SumAppend(xs[1..], x);
    }
  }
}
