/** Concatenation of a sequence of sequences. */
module Sequences {

  function Flatten<T>(xs: seq<seq<T>>): seq<T> {
    if xs == [] then [] else Flatten(xs[..|xs| - 1]) + xs[|xs| - 1]
  }

  lemma {:induction false} FlattenAppend<T>(xs: seq<seq<T>>, ys: seq<seq<T>>)
    ensures Flatten(xs + ys) == Flatten(xs) + Flatten(ys)
  {
    if ys == [] {
      assert xs + ys == xs;
    } else {
      var n := |ys| - 1;
      FlattenAppend(xs, ys[..n]);
      assert (xs + ys)[..|xs + ys| - 1] == xs + ys[..n] && (xs + ys)[|xs + ys| - 1] == ys[n];
      assert Flatten(xs + ys) == Flatten(xs) + Flatten(ys[..n]) + ys[n];
    }
  }

  lemma {:induction false} FlattenCons<T>(x: seq<T>, ys: seq<seq<T>>)
    ensures Flatten([x] + ys) == x + Flatten(ys)
  {
    FlattenAppend([x], ys);
    assert [x][..0] == [];
  }
}
