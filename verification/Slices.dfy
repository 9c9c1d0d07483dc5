/** A Go slice of its own backing array: appended to, cut and filtered in place. */
module Slices {

  function Without<T(==)>(s: seq<T>, x: T): seq<T> {
    if s == [] then []
    else (if s[0] != x then [s[0]] else []) + Without(s[1..], x)
  }

  lemma {:induction false} WithoutAppend<T>(s: seq<T>, last: T, x: T)
    ensures Without(s + [last], x) == Without(s, x) + if last != x then [last] else []
  {
    if s == [] {
      assert [] + [last] == [last] && [last][1..] == [];
    } else {
      var first, end := if s[0] != x then [s[0]] else [], if last != x then [last] else [];
      assert (s + [last])[1..] == s[1..] + [last] && (s + [last])[0] == s[0];
      WithoutAppend(s[1..], last, x);
      Regroup(first, Without(s[1..], x), end);
    }
  }

  lemma {:induction false} Regroup<T>(a: seq<T>, b: seq<T>, c: seq<T>)
    ensures a + (b + c) == a + b + c
  {
  }

  class Slice<T(0, ==)> {
    var data: array<T>
    var len: nat

    ghost predicate Valid()
      reads this
    {
      len <= data.Length
    }

    ghost function Contents(): seq<T>
      reads this, data
      requires Valid()
    {
      data[..len]
    }

    constructor (capacity: nat)
      ensures Valid() && fresh(data) && Contents() == []
    {
      data := new T[capacity];
      len := 0;
    }

    /** A slice that holds these elements. */
    constructor Of(s: seq<T>)
      ensures Valid() && fresh(data) && Contents() == s
    {
      data := new T[|s|](i requires 0 <= i < |s| => s[i]);
      len := |s|;
      new;
      assert data[..] == s;
    }

    /** `slices.Contains(s, x)`. */
    method Has(x: T) returns (found: bool)
      requires Valid()
      ensures found == (x in Contents())
    {
      for i := 0 to len
        invariant x !in data[..i]
      {
        if data[i] == x { return true; }
      }
      return false;
    }

    /** `s = append(s, x)`: a full backing array is replaced by a larger copy. */
    method Append(x: T)
      requires Valid()
      modifies this, data
      ensures Valid() && (data == old(data) || fresh(data))
      ensures Contents() == old(Contents()) + [x]
    {
      if len == data.Length {
        var old_ := data;
        var larger := new T[2 * len + 1];
        forall i | 0 <= i < len { larger[i] := old_[i]; }
        data := larger;
        assert data[..len] == old(data[..len]);
      }
      data[len] := x;
      len := len + 1;
    }

    /** `s = append(s[:i], s[i+1:]...)`: the elements behind move down, one by one. */
    method DeleteAt(i: nat)
      requires Valid() && i < len
      modifies this, data
      ensures Valid() && data == old(data)
      ensures Contents() == old(Contents()[..i] + Contents()[i + 1..])
    {
      ghost var was := data[..len];
      for j := i to len - 1
        invariant len == old(len) && data == old(data)
        invariant forall k :: 0 <= k < i ==> data[k] == was[k]
        invariant forall k :: i <= k < j ==> data[k] == was[k + 1]
        invariant forall k :: j <= k < len ==> data[k] == was[k]
      {
        data[j] := data[j + 1];
      }
      len := len - 1;
      assert data[..len] == was[..i] + was[i + 1..];
    }

    /** `kept := s[:0]`, then a pass that appends to it what is to stay, overwriting the array
        it reads from: the write index never passes the read index. */
    method Drop(x: T)
      requires Valid()
      modifies this, data
      ensures Valid() && data == old(data)
      ensures Contents() == Without(old(Contents()), x)
    {
      var kept := 0;
      for i := 0 to len
        invariant len == old(len) && data == old(data) && kept <= i
        invariant data[..kept] == Without(old(data[..i]), x)
        invariant data[i..len] == old(data[i..len])
      {
        var e := data[i];
        assert e == old(data[i..len])[0] == old(data[i]);
        assert old(data[..i + 1]) == old(data[..i]) + [e];
        WithoutAppend(old(data[..i]), e, x);
        ghost var before := data[..kept];
        if e != x {
          data[kept] := e;
          kept := kept + 1;
          assert data[..kept] == before + [e];
        }
      }
      len := kept;
    }

    /** `s = s[:0]`. */
    method Clear()
      requires Valid()
      modifies this
      ensures Valid() && data == old(data) && Contents() == []
    {
      len := 0;
    }
  }
}
