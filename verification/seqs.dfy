/** `Array.prototype.map` on sequences, for element functions that need a
    precondition, and `map(f).join("")` for element functions that
    produce text. */
module Seqs {

  /** `xs.map(f)`: one result per element, in order. */
  function Map<A, B>(xs: seq<A>, f: A --> B): (r: seq<B>)
    requires forall x :: x in xs ==> f.requires(x)
    ensures |r| == |xs|
    ensures forall i :: 0 <= i < |r| ==> r[i] == f(xs[i])
  {
    if xs == [] then []
    else
      var rest := Map(xs[1..], f);
      assert forall i :: 1 <= i < |xs| ==> ([f(xs[0])] + rest)[i] == rest[i - 1];
      [f(xs[0])] + rest
  }

  lemma {:induction false} MapCons<A, B>(x: A, xs: seq<A>, f: A --> B)
    requires f.requires(x) && forall y :: y in xs ==> f.requires(y)
    ensures Map([x] + xs, f) == [f(x)] + Map(xs, f)
  {
    assert ([x] + xs)[1..] == xs;
  }

  /** `xs.map(f).join("")`: the pieces of the elements, in order. */
  function ConcatMap<A, B>(xs: seq<A>, f: A -> seq<B>): seq<B> {
    if xs == [] then [] else f(xs[0]) + ConcatMap(xs[1..], f)
  }

  /** Joining the pieces of concatenated lists gives the joined pieces of
      the first list followed by those of the second. */
  lemma {:induction false} ConcatMapAppend<A, B>(xs: seq<A>, ys: seq<A>, f: A -> seq<B>)
    ensures ConcatMap(xs + ys, f) == ConcatMap(xs, f) + ConcatMap(ys, f)
    decreases |xs|
  {
    if xs == [] {
      assert xs + ys == ys;
    } else {
      assert (xs + ys)[1..] == xs[1..] + ys;
      ConcatMapAppend(xs[1..], ys, f);
    }
  }
}
