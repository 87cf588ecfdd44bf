/** Sequence notions shared by the layers. */
module Seqs {

  datatype Option<+T> = None | Some(value: T)

  function Min(a: int, b: int): int {
    if a <= b then a else b
  }

  function Max(a: int, b: int): int {
    if a >= b then a else b
  }

  function Flatten<T>(ss: seq<seq<T>>): seq<T> {
    if ss == [] then [] else ss[0] + Flatten(ss[1..])
  }

  lemma {:induction false} FlattenConcat<T>(x: seq<seq<T>>, y: seq<seq<T>>)
    ensures Flatten(x + y) == Flatten(x) + Flatten(y)
    decreases |x|
  {
    if x == [] {
      assert x + y == y;
    } else {
      assert (x + y)[1..] == x[1..] + y;
      FlattenConcat(x[1..], y);
    }
  }

  lemma FlattenSnoc<T>(x: seq<seq<T>>, s: seq<T>)
    ensures Flatten(x + [s]) == Flatten(x) + s
  {
    FlattenConcat(x, [s]);
    assert Flatten([s]) == s + Flatten([]) == s;
  }

  lemma FlattenPrefix<T>(x: seq<seq<T>>, n: nat)
    requires n <= |x|
    ensures Flatten(x) == Flatten(x[..n]) + Flatten(x[n..])
  {
    FlattenConcat(x[..n], x[n..]);
    assert x[..n] + x[n..] == x;
  }
}
