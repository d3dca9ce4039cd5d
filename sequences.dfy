/** Element-wise application over sequences, used for the per-line steps of load. */
module Sequences {

  /** `f` applied to every element, in order. */
  function Map<A, B>(f: A -> B, xs: seq<A>): (ys: seq<B>)
    ensures |ys| == |xs|
  {
    if xs == [] then [] else Map(f, xs[..|xs| - 1]) + [f(xs[|xs| - 1])]
  }

  /** Each element of the result is `f` of the element at the same position. */
  lemma {:induction false} MapAt<A, B>(f: A -> B, xs: seq<A>, i: nat)
    requires i < |xs|
    ensures Map(f, xs)[i] == f(xs[i])
  {
    if i < |xs| - 1 {
      MapAt(f, xs[..|xs| - 1], i);
    }
  }

  lemma MapSingle<A, B>(f: A -> B, x: A)
    ensures Map(f, [x]) == [f(x)]
  {
    assert [x][..0] == [];
  }

  /** Three elements map to the map of the first followed by `f` of the other two. */
  lemma MapThree<A, B>(f: A -> B, x: A, y: A, z: A)
    ensures Map(f, [x, y, z]) == Map(f, [x]) + [f(y)] + [f(z)]
  {
    assert [x, y, z][..2] == [x, y];
    assert [x, y][..1] == [x];
  }

  /** Mapping a concatenation maps each part. */
  lemma MapConcat<A, B>(f: A -> B, a: seq<A>, b: seq<A>)
    ensures Map(f, a + b) == Map(f, a) + Map(f, b)
  {
    var l, r := Map(f, a + b), Map(f, a) + Map(f, b);
    forall i | 0 <= i < |l| ensures l[i] == r[i] {
      MapAt(f, a + b, i);
      if i < |a| {
        MapAt(f, a, i);
      } else {
        MapAt(f, b, i - |a|);
      }
    }
  }
}
