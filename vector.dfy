/** The doubling dynamic array of homework4/vector.c. */
module Vector {

  /** Capacities a vector can have: 2, 4, 8, ..., that is 2 * 2^k. */
  predicate Doubled(c: nat)
  {
    c == 2 || (c >= 4 && c % 2 == 0 && Doubled(c / 2))
  }

  /** The capacity after n pushes into a fresh vector. */
  function CapacityAfter(n: nat): nat
  {
    if n == 0 then 2
    else
      var c := CapacityAfter(n - 1);
      if n - 1 == c then 2 * c else c
  }

  /** After n pushes the capacity is of the form 2 * 2^k, holds the n
      elements, and (past the initial 2) is less than twice what they need. */
  lemma {:induction false} CapacityAfterBounds(n: nat)
    ensures Doubled(CapacityAfter(n))
    ensures n <= CapacityAfter(n)
    ensures n > 2 ==> CapacityAfter(n) < 2 * n
  {
    if n > 0 {
      CapacityAfterBounds(n - 1);
      var c := CapacityAfter(n - 1);
      if n - 1 == c {
        assert (2 * c) / 2 == c;
      }
    }
  }

  class Vector {
    var data: array?<int>
    var size: nat
    var capacity: nat

    /** Either freed (no buffer, size and capacity 0) or live: the buffer
        has `capacity` slots, the first `size` in use. */
    ghost predicate Valid()
      reads this
    {
      (data == null && size == 0 && capacity == 0)
      || (data != null && data.Length == capacity && size <= capacity && Doubled(capacity))
    }

    ghost predicate Live()
      reads this
    {
      Valid() && data != null
    }

    /** The elements, in order. */
    ghost function Contents(): seq<int>
      reads this, data
      requires Valid()
    {
      if data == null then [] else data[..size]
    }

    /** vector_init: empty, with room for two. */
    constructor ()
      ensures Live() && fresh(data)
      ensures size == 0 && capacity == 2 && Contents() == []
    {
      size := 0;
      capacity := 2;
      data := new int[2];
    }

    /** vector_push: doubles the capacity when full, then stores the value
        at the old size. */
    method Push(value: int)
      requires Live()
      modifies this, data
      ensures Live()
      ensures capacity == if old(size) == old(capacity) then 2 * old(capacity) else old(capacity)
      ensures size == old(size) + 1
      ensures Contents() == old(Contents()) + [value]
      ensures old(size) < old(capacity) ==> data == old(data)
      ensures old(size) == old(capacity) ==> fresh(data)
    {
      if size == capacity {
        capacity := 2 * capacity;
        assert capacity / 2 == old(capacity);
        var grown := new int[capacity];
        forall i | 0 <= i < size {
          grown[i] := data[i];
        }
        data := grown;
      }
      data[size] := value;
      size := size + 1;
    }

    /** vector_free: releases the buffer and zeroes both counts. */
    method Free()
      requires Valid()
      modifies this
      ensures Valid() && data == null && size == 0 && capacity == 0 && Contents() == []
    {
      data := null;
      size := 0;
      capacity := 0;
    }
  }

  lemma CapacityAfterTen()
    ensures CapacityAfter(10) == 16
  {
    assert CapacityAfter(1) == 2 && CapacityAfter(2) == 2 && CapacityAfter(3) == 4;
    assert CapacityAfter(4) == 4 && CapacityAfter(5) == 8 && CapacityAfter(6) == 8;
    assert CapacityAfter(7) == 8 && CapacityAfter(8) == 8 && CapacityAfter(9) == 16;
  }

  /** The demonstration in main: pushing 0, 10, ..., 90 into a fresh vector
      leaves those values in order, size 10 and capacity 16. */
  method FillDemo() returns (contents: seq<int>, size: nat, capacity: nat)
    ensures contents == [0, 10, 20, 30, 40, 50, 60, 70, 80, 90]
    ensures size == 10 && capacity == 16
  {
    var v := new Vector();
    for i := 0 to 10
      invariant v.Live() && fresh(v) && fresh(v.data)
      invariant v.size == i && v.capacity == CapacityAfter(i)
      invariant |v.Contents()| == i
      invariant forall j :: 0 <= j < i ==> v.Contents()[j] == 10 * j
    {
      v.Push(i * 10);
    }
    CapacityAfterTen();
    contents := v.data[..v.size];
    assert forall j :: 0 <= j < 10 ==> contents[j] == 10 * j;
    size := v.size;
    capacity := v.capacity;
    v.Free();
  }
}
