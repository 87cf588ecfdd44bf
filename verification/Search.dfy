/** Binary search over a caller-defined distance (src/alg/algorithm.c). */
module Search {

  /** The distances from `x` fall along the sequence: positive, then zero, then negative. */
  ghost predicate Ordered<T>(s: seq<T>, x: T, distance: (T, T) -> real) {
    forall i, j :: 0 <= i < j < |s| ==> distance(x, s[i]) >= distance(x, s[j])
  }

  /** `index` is a place of an element equal to `x` if there is one, and otherwise the one
      place where `x` can be inserted. */
  ghost predicate Located<T>(s: seq<T>, x: T, distance: (T, T) -> real, index: nat) {
    if exists i :: 0 <= i < |s| && distance(x, s[i]) == 0.0
    then index < |s| && distance(x, s[index]) == 0.0
    else
      && index <= |s|
      && (forall i :: 0 <= i < index ==> distance(x, s[i]) > 0.0)
      && (forall i :: index <= i < |s| ==> distance(x, s[i]) < 0.0)
  }

  /** Where there is no equal element, the place is unique. */
  lemma InsertionPointUnique<T>(s: seq<T>, x: T, distance: (T, T) -> real, i: nat, j: nat)
    requires Located(s, x, distance, i) && Located(s, x, distance, j)
    requires forall k :: 0 <= k < |s| ==> distance(x, s[k]) != 0.0
    ensures i == j
  {
    assert i < |s| ==> distance(x, s[i]) < 0.0;
    assert j < |s| ==> distance(x, s[j]) < 0.0;
  }

  const MAX_COUNT: nat := 0x8000_0000

  /** `mc_alg_lower_bound`; the bound on the length keeps `bgn + end` within 32 bits. */
  method LowerBound<T>(s: seq<T>, x: T, distance: (T, T) -> real) returns (index: nat)
    requires |s| <= MAX_COUNT && Ordered(s, x, distance)
    ensures Located(s, x, distance, index)
  {
    if |s| == 0 {
      return 0;
    }
    var bgn, end := 0, |s| - 1;
    while bgn <= end
      invariant 0 <= bgn <= |s| && -1 <= end < |s| && bgn <= end + 1
      invariant forall i :: 0 <= i < bgn ==> distance(x, s[i]) > 0.0
      invariant forall i :: end < i < |s| ==> distance(x, s[i]) < 0.0
      decreases end - bgn
    {
      var mid := (bgn + end) / 2;
      var d := distance(x, s[mid]);
      if d > 0.0 {
        bgn := mid + 1;
      } else if d < 0.0 {
        if mid == 0 {
          break;
        }
        end := mid - 1;
      } else {
        bgn := mid;
        break;
      }
    }
    index := bgn;
  }

  function Abs(r: real): real {
    if r < 0.0 then -r else r
  }

  /** `mc_alg_nearest`: an index of least absolute distance. */
  method Nearest<T>(s: seq<T>, x: T, distance: (T, T) -> real) returns (index: nat)
    requires |s| <= MAX_COUNT && Ordered(s, x, distance)
    ensures |s| == 0 ==> index == 0
    ensures |s| > 0 ==> index < |s| && forall i :: 0 <= i < |s| ==> Abs(distance(x, s[index])) <= Abs(distance(x, s[i]))
  {
    index := LowerBound(s, x, distance);
    if index == 0 {
      return;
    }
    if index == |s| {
      index := |s| - 1;
      return;
    }
    var current, previous := distance(x, s[index]), distance(x, s[index - 1]);
    if Abs(previous) < Abs(current) {
      index := index - 1;
    }
  }
}
