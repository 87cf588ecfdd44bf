/** The sorted table of fixed capacity (src/dsa/sarray.c). */
module SortedArray {
  import opened Seqs
  import opened Search

  ghost predicate SortedBy<T>(rank: T -> int, s: seq<T>) {
    forall i, j :: 0 <= i < j < |s| ==> rank(s[i]) <= rank(s[j])
  }

  /** The distance that a rank induces, as `id_compare` does. */
  function Distance<T>(rank: T -> int): (T, T) -> real {
    (a, b) => (rank(a) - rank(b)) as real
  }

  lemma SortedIsOrdered<T>(rank: T -> int, s: seq<T>, x: T)
    requires SortedBy(rank, s)
    ensures Ordered(s, x, Distance(rank))
  {
  }

  /** Where the binary search ends, in terms of ranks. */
  ghost predicate Place<T>(rank: T -> int, s: seq<T>, x: T, index: nat) {
    Located(s, x, Distance(rank), index)
  }

  ghost predicate Present<T>(rank: T -> int, s: seq<T>, x: T) {
    exists i :: 0 <= i < |s| && rank(s[i]) == rank(x)
  }

  lemma PlaceMeans<T>(rank: T -> int, s: seq<T>, x: T, index: nat)
    requires SortedBy(rank, s) && Place(rank, s, x, index)
    ensures index <= |s|
    ensures forall i :: 0 <= i < index ==> rank(s[i]) <= rank(x)
    ensures forall i :: index <= i < |s| ==> rank(x) <= rank(s[i])
    ensures Present(rank, s, x) <==> index < |s| && rank(s[index]) == rank(x)
  {
    var d := Distance(rank);
    if i :| 0 <= i < |s| && rank(s[i]) == rank(x) {
      assert d(x, s[i]) == 0.0;
      assert d(x, s[index]) == 0.0;
    } else {
      assert forall i :: 0 <= i < |s| ==> d(x, s[i]) != 0.0;
    }
  }

  function Inserted<T>(s: seq<T>, index: nat, x: T): seq<T>
    requires index <= |s|
  {
    s[..index] + [x] + s[index..]
  }

  function Removed<T>(s: seq<T>, index: nat): seq<T>
    requires index < |s|
  {
    s[..index] + s[index + 1..]
  }

  lemma InsertKeepsOrder<T>(rank: T -> int, s: seq<T>, x: T, index: nat)
    requires SortedBy(rank, s) && Place(rank, s, x, index)
    ensures index <= |s| && SortedBy(rank, Inserted(s, index, x))
  {
    PlaceMeans(rank, s, x, index);
  }

  /** Insertion keeps order and adds one element. */
  lemma InsertAddsOne<T>(rank: T -> int, s: seq<T>, x: T, index: nat)
    requires SortedBy(rank, s) && Place(rank, s, x, index)
    ensures index <= |s| && SortedBy(rank, Inserted(s, index, x))
    ensures multiset(Inserted(s, index, x)) == multiset(s) + multiset{x}
  {
    InsertKeepsOrder(rank, s, x, index);
    assert s == s[..index] + s[index..];
  }

  lemma RemovedKeepsOrder<T>(rank: T -> int, s: seq<T>, index: nat)
    requires SortedBy(rank, s) && index < |s|
    ensures SortedBy(rank, Removed(s, index))
  {
    var r := Removed(s, index);
    forall i, j | 0 <= i < j < |r| ensures rank(r[i]) <= rank(r[j]) {
      assert r[i] == s[if i < index then i else i + 1];
      assert r[j] == s[if j < index then j else j + 1];
    }
  }

  lemma RemovedTakesOne<T>(s: seq<T>, index: nat)
    requires index < |s|
    ensures multiset(Removed(s, index)) == multiset(s) - multiset{s[index]}
  {
    assert s == s[..index] + [s[index]] + s[index + 1..];
  }

  /** Removing at the place found keeps order and takes one element away: one equal to the
      key exactly if there is one, and otherwise the next greater one. */
  lemma RemoveKeepsOrder<T>(rank: T -> int, s: seq<T>, x: T, index: nat)
    requires SortedBy(rank, s) && Place(rank, s, x, index) && index < |s|
    ensures SortedBy(rank, Removed(s, index))
    ensures multiset(Removed(s, index)) == multiset(s) - multiset{s[index]}
    ensures Present(rank, s, x) <==> rank(s[index]) == rank(x)
    ensures !Present(rank, s, x) ==> rank(s[index]) > rank(x)
  {
    PlaceMeans(rank, s, x, index);
    RemovedKeepsOrder(rank, s, index);
    RemovedTakesOne(s, index);
    hide Removed, SortedBy, Place;
  }

  /** Removing an absent key deletes somebody else's entry. */
  lemma RemoveAbsentExample()
    ensures var rank := (k: int) => k;
      && Place(rank, [1, 5], 3, 1) && !Present(rank, [1, 5], 3)
      && Removed([1, 5], 1) == [1]
  {
    var rank := (k: int) => k;
    var d := Distance(rank);
    assert d(3, 1) == 2.0 && d(3, 5) == -2.0;
    assert forall i :: 0 <= i < 2 ==> d(3, [1, 5][i]) != 0.0;
  }

  class SortedArray<T(0)> {
    const rank: T -> int
    const data: array<T>
    var count: nat

    ghost predicate Valid()
      reads this, data
    {
      && count <= data.Length <= MAX_COUNT
      && SortedBy(rank, data[..count])
    }

    ghost function Contents(): seq<T>
      requires Valid()
      reads this, data
    {
      data[..count]
    }

    constructor (rank: T -> int, capacity: nat)
      requires 0 < capacity <= MAX_COUNT
      ensures Valid() && Contents() == [] && data.Length == capacity && fresh(data) && this.rank == rank
    {
      this.rank := rank;
      data := new T[capacity];
      count := 0;
    }

    method Locate(x: T) returns (index: nat)
      requires Valid()
      ensures Place(rank, Contents(), x, index)
    {
      SortedIsOrdered(rank, data[..count], x);
      index := LowerBound(data[..count], x, Distance(rank));
    }

    /** `mc_sarray_find`: the element at the place found, equal or not. */
    method Find(x: T) returns (found: Option<T>)
      requires Valid()
      ensures Present(rank, Contents(), x) <==> found.Some? && rank(found.value) == rank(x)
      ensures found.Some? ==> found.value in Contents() && rank(found.value) >= rank(x)
      ensures found.Some? ==> forall y :: y in Contents() && rank(y) >= rank(x) ==> rank(found.value) <= rank(y)
      ensures found.None? ==> forall y :: y in Contents() ==> rank(y) < rank(x)
    {
      if count == 0 {
        return None;
      }
      var index := Locate(x);
      PlaceMeans(rank, Contents(), x, index);
      found := if index == count then None else Some(data[index]);
      if index < count && rank(data[index]) != rank(x) {
        assert forall i :: 0 <= i < index ==> rank(Contents()[i]) < rank(x);
      }
    }

    /** `mc_sarray_insert`. */
    method Insert(x: T) returns (ok: bool, ghost at: nat)
      requires Valid()
      modifies this`count, data
      ensures Valid() && ok == (old(count) < data.Length)
      ensures !ok ==> Contents() == old(Contents())
      ensures ok ==> Place(rank, old(Contents()), x, at) && at <= |old(Contents())|
      ensures ok ==> Contents() == Inserted(old(Contents()), at, x)
    {
      hide SortedBy;
      hide Place;
      if count >= data.Length {
        return false, 0;
      }
      ghost var was := Contents();
      var index := Locate(x);
      InsertKeepsOrder(rank, was, x, index);
      ShiftUp(index);
      Overwrite(index, x);
      count := count + 1;
      assert data[..count] == Inserted(was, index, x);
      ok, at := true, index;
    }

    /** `memmove` of the elements from `index` on, one place up. */
    method ShiftUp(index: nat)
      requires index <= count < data.Length
      modifies data
      ensures data[..index] == old(data[..index])
      ensures data[index + 1..count + 1] == old(data[index..count])
    {
      var i := count;
      while i > index
        invariant index <= i <= count
        invariant forall k :: 0 <= k < i ==> data[k] == old(data[k])
        invariant forall k :: i < k <= count ==> data[k] == old(data[k - 1])
      {
        data[i] := data[i - 1];
        i := i - 1;
      }
    }

    /** `memcpy` of the new element into the place made free. */
    method Overwrite(index: nat, x: T)
      requires index <= count < data.Length
      modifies data
      ensures data[..count + 1] == old(data[..index]) + [x] + old(data[index + 1..count + 1])
    {
      data[index] := x;
    }

    /** `memmove` of the elements behind `index`, one place down. */
    method ShiftDown(index: nat)
      requires index < count <= data.Length
      modifies data
      ensures data[..index] == old(data[..index])
      ensures data[index..count - 1] == old(data[index + 1..count])
    {
      var i := index;
      while i < count - 1
        invariant index <= i <= count - 1
        invariant forall k :: 0 <= k < index || i <= k < data.Length ==> data[k] == old(data[k])
        invariant forall k :: index <= k < i ==> data[k] == old(data[k + 1])
      {
        data[i] := data[i + 1];
        i := i + 1;
      }
    }

    /** `mc_sarray_remove`. `ok` is the program's report: success unless the table is empty,
        even when nothing is taken; `taken` says what was. */
    method Remove(x: T) returns (ok: bool, taken: Option<T>, ghost at: nat)
      requires Valid()
      modifies this`count, data
      ensures ok <==> old(count) != 0
      ensures Valid() && Place(rank, old(Contents()), x, at) && at <= |old(Contents())|
      ensures at < |old(Contents())| ==>
                taken == Some(old(Contents())[at]) && Contents() == Removed(old(Contents()), at)
      ensures at == |old(Contents())| ==> taken == None && Contents() == old(Contents())
    {
      ghost var was := Contents();
      if count == 0 {
        EmptyPlace(rank, was, x);
        return false, None, 0;
      }
      ok := true;
      var index := Locate(x);
      PlaceMeans(rank, was, x, index);
      at := index;
      if index == count {
        return ok, None, at;
      }
      RemoveKeepsOrder(rank, was, x, index);
      taken := Some(data[index]);
      ShiftDown(index);
      count := count - 1;
      JoinRemoved(data[..], was, index);
    }
  }

  lemma EmptyPlace<T>(rank: T -> int, s: seq<T>, x: T)
    requires s == []
    ensures Place(rank, s, x, 0)
  {
  }

  lemma JoinRemoved<T>(d: seq<T>, was: seq<T>, index: nat)
    requires index < |was| <= |d|
    requires d[..index] == was[..index] && d[index..|was| - 1] == was[index + 1..]
    ensures d[..|was| - 1] == Removed(was, index)
  {
    assert d[..|was| - 1] == d[..index] + d[index..|was| - 1];
  }
}
