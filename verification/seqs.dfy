/** Sequence helpers shared by the table and plugin models. */
module Seqs {

  /** What `f` gives for each element of `xs`, concatenated in order. */
  function Concat<T, U>(f: T -> seq<U>, xs: seq<T>): seq<U>
  {
    if xs == [] then [] else f(xs[0]) + Concat(f, xs[1..])
  }

  /** Mapping over two lists in turn is mapping over their concatenation. */
  lemma {:induction false} ConcatAppend<T, U>(f: T -> seq<U>, a: seq<T>, b: seq<T>)
    ensures Concat(f, a + b) == Concat(f, a) + Concat(f, b)
  {
    if a == [] {
      assert a + b == b;
    } else {
      assert (a + b)[0] == a[0] && (a + b)[1..] == a[1..] + b;
      ConcatAppend(f, a[1..], b);
    }
  }
}
