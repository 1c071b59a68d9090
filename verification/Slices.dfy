/**
 Go slices as headers over heap arrays. Appending writes into spare capacity, updating assigns in
 place, and removing shifts the elements that follow, so whoever shares the array sees the write.
 */
module Slices {
  import opened Wrappers
  import opened RuleLists

  datatype Slice<T> = Slice(arr: array<T>, len: nat) {
    ghost predicate Valid() {
      len <= arr.Length
    }

    function Contents(): (r: seq<T>)
      requires Valid()
      reads arr
    {
      arr[..len]
    }
  }

  /** A slice of its own with the same capacity and contents. */
  method CloneSlice<T>(s: Slice<T>, zero: T) returns (c: Slice<T>)
    requires s.Valid()
    ensures fresh(c.arr) && c.Valid() && c.arr.Length == s.arr.Length && c.Contents() == s.Contents()
  {
    var arr := new T[s.arr.Length](_ => zero);
    for i := 0 to s.len
      invariant arr[..i] == s.arr[..i]
    {
      arr[i] := s.arr[i];
    }
    c := Slice(arr, s.len);
  }

  /** In place if there is room, into a larger array if there is none. */
  method Append<T>(s: Slice<T>, x: T, spare: nat) returns (s': Slice<T>)
    requires s.Valid()
    modifies s.arr
    ensures s'.Valid() && s'.Contents() == old(s.Contents()) + [x] && s.Contents() == old(s.Contents())
    ensures if s.len < s.arr.Length then s'.arr == s.arr else fresh(s'.arr)
  {
    if s.len < s.arr.Length {
      s.arr[s.len] := x;
      s' := Slice(s.arr, s.len + 1);
    } else {
      var arr := new T[s.len + 1 + spare](_ => x);
      for i := 0 to s.len
        invariant s.arr[..] == old(s.arr[..])
        invariant arr[..i] == s.arr[..i] && arr[s.len] == x
      {
        arr[i] := s.arr[i];
      }
      s' := Slice(arr, s.len + 1);
    }
  }

  /** Replaces the first element with the ID of x. */
  method UpdateFirst<T>(s: Slice<T>, id: T -> nat, x: T) returns (found: bool)
    requires s.Valid()
    modifies s.arr
    ensures s.Contents() == Updated(old(s.Contents()), id, x)
    ensures found <==> FirstIndex(old(s.Contents()), id, id(x)) < s.len
  {
    for i := 0 to s.len
      invariant s.arr[..] == old(s.arr[..])
      invariant forall j :: 0 <= j < i ==> id(s.arr[j]) != id(x)
    {
      if id(s.arr[i]) == id(x) {
        FirstIndexUnique(s.Contents(), id, id(x), i);
        s.arr[i] := x;
        return true;
      }
    }
    return false;
  }

  /** Shifts the elements after the first one with the given ID over it. */
  method RemoveFirst<T>(s: Slice<T>, id: T -> nat, x: nat) returns (s': Slice<T>, gone: Option<T>)
    requires s.Valid()
    modifies s.arr
    ensures s'.Valid() && s'.arr == s.arr
    ensures gone.Some? <==> FirstIndex(old(s.Contents()), id, x) < s.len
    ensures gone.None? ==> s' == s && s.Contents() == old(s.Contents())
    ensures gone.Some? ==>
              var was, i := old(s.Contents()), FirstIndex(old(s.Contents()), id, x);
              && gone.value == was[i]
              && s'.Contents() == Without(was, i)
              && s.Contents() == Without(was, i) + [was[|was| - 1]]
  {
    ghost var was := s.Contents();
    for i := 0 to s.len
      invariant s.Contents() == was
      invariant forall j :: 0 <= j < i ==> id(was[j]) != x
    {
      if id(s.arr[i]) == x {
        FirstIndexUnique(was, id, x, i);
        gone := Some(s.arr[i]);
        ShiftLeft(s, i);
        return Slice(s.arr, s.len - 1), gone;
      }
    }
    return s, None;
  }

  method ShiftLeft<T>(s: Slice<T>, i: nat)
    requires s.Valid() && i < s.len
    modifies s.arr
    ensures s.arr[..s.len - 1] == Without(old(s.Contents()), i)
    ensures s.arr[s.len - 1] == old(s.arr[s.len - 1])
  {
    for j := i to s.len - 1
      invariant forall k :: 0 <= k < i ==> s.arr[k] == old(s.arr[k])
      invariant forall k :: i <= k < j ==> s.arr[k] == old(s.arr[k + 1])
      invariant forall k :: j <= k < s.len ==> s.arr[k] == old(s.arr[k])
    {
      s.arr[j] := s.arr[j + 1];
    }
  }
}
