/** lib/dynamic_array.c: an array that doubles its capacity when a push finds it full. */
module DynamicArray {
  import opened CInt

  // ---------- sizes, and what growing costs ----------

  /** `moved` counts the elements realloc() has carried over in da_push(), `maxSize` is the
      largest size there has been. */
  datatype Shape = Shape(size: nat, capacity: nat, moved: nat, maxSize: nat)

  function Max(a: nat, b: nat): nat { if a < b then b else a }

  function Pushed(s: Shape): Shape {
    var grown := if s.capacity == 0 then 1 else 2 * s.capacity;
    var s' := if s.size >= s.capacity then s.(capacity := grown, moved := s.moved + s.capacity) else s;
    s'.(size := s.size + 1, maxSize := Max(s.maxSize, s.size + 1))
  }

  function Popped(s: Shape): Shape {
    if s.size < 1 then s else s.(size := s.size - 1)
  }

  datatype Op = Push | Pop

  function After(ops: seq<Op>): Shape {
    if ops == [] then Shape(0, 0, 0, 0)
    else
      var s := After(ops[..|ops| - 1]);
      if ops[|ops| - 1].Push? then Pushed(s) else Popped(s)
  }

  /** Over any pushes and pops from an empty array the capacity suffices, stays below twice the
      largest size, and growing has moved fewer than twice that many elements. */
  lemma {:induction false} GrowthIsCheap(ops: seq<Op>)
    ensures var s := After(ops);
            && s.size <= s.capacity && s.size <= s.maxSize
            && (s.capacity == 0 <==> s.maxSize == 0)
            && (if s.maxSize == 0 then s.moved == 0 else s.moved == s.capacity - 1 && s.capacity < 2 * s.maxSize)
  {
    if ops != [] {
      GrowthIsCheap(ops[..|ops| - 1]);
    }
  }

  // ---------- reversal ----------

  ghost function Reversed<T>(s: seq<T>): (r: seq<T>)
    ensures |r| == |s|
    ensures forall i :: 0 <= i < |s| ==> r[i] == s[|s| - 1 - i]
  {
    if s == [] then [] else Reversed(s[1..]) + [s[0]]
  }

  lemma ReversedTwice<T>(s: seq<T>)
    ensures Reversed(Reversed(s)) == s
  {
    assert forall i :: 0 <= i < |s| ==> Reversed(Reversed(s))[i] == s[i];
  }

  /** How many elements da_reverse() copies, from index i down to the first whose (int) is negative. */
  function Copied(i: int): nat
    requires i >= -1
  {
    if ToInt(i) < 0 then 0 else 1 + Copied(i - 1)
  }

  lemma CopiedNext(i: int)
    requires i >= -1
    ensures Copied(i) == if ToInt(i) < 0 then 0 else 1 + Copied(i - 1)
  {
  }

  lemma {:induction false} CopiedBelow(i: int)
    requires i >= -1
    ensures i < 0x8000_0000 ==> Copied(i) == i + 1
    ensures i >= 0x8000_0000 ==> Copied(i) <= i - 0x8000_0000
  {
    if i >= 0 && ToInt(i) >= 0 {
      CopiedBelow(i - 1);
    }
  }

  /** da_reverse() copies every element exactly up to a size of 2^31. */
  lemma ReverseCopiesAllExactly(size: nat)
    ensures Copied(size - 1) == size <==> size <= 0x8000_0000
  {
    CopiedBelow(size - 1);
  }

  /** With one element more the loop ends before it has copied anything. */
  lemma ReverseCopiesNothing()
    ensures Copied((0x8000_0000 + 1) - 1) == 0
  {
  }

  lemma ReversedPrefix<T>(s: seq<T>, t: seq<T>, y: nat)
    requires y <= |s| == |t| && forall k :: 0 <= k < y ==> t[k] == s[|s| - 1 - k]
    ensures |Reversed(s)| == |s| && t[..y] == Reversed(s)[..y]
    ensures y == |s| ==> t == Reversed(s)
  {
  }

  // ---------- the array ----------

  class DynArray<T(0)> {
    var data: array<T>
    var size: nat
    var capacity: nat
    ghost var moved: nat
    ghost var maxSize: nat

    ghost predicate Valid()
      reads this
    {
      data.Length == capacity && size <= capacity
    }

    ghost function Contents(): (s: seq<T>)
      requires Valid()
      reads this, data
      ensures |s| == size
    {
      data[..size]
    }

    ghost function Sizes(): Shape
      reads this
    {
      Shape(size, capacity, moved, maxSize)
    }

    /** da_init(arr, 0, sizeof(T)) */
    constructor ()
      ensures Valid() && Contents() == [] && Sizes() == After([]) && fresh(data)
    {
      data := new T[0];
      size, capacity, moved, maxSize := 0, 0, 0, 0;
    }

    /** realloc(data, newCapacity * dataSize) */
    method Reallocate(newCapacity: nat)
      requires Valid() && newCapacity >= capacity
      modifies this`data, this`capacity
      ensures Valid() && capacity == newCapacity && fresh(data)
      ensures data[..old(capacity)] == old(data[..])
    {
      var temp := new T[newCapacity];
      var i := 0;
      while i < capacity
        modifies temp
        invariant 0 <= i <= capacity
        invariant temp[..i] == data[..i]
      {
        temp[i] := data[i];
        i := i + 1;
      }
      data, capacity := temp, newCapacity;
    }

    method Reserve(newCapacity: nat) returns (r: int)
      requires Valid()
      modifies this
      ensures Valid() && (data == old(data) || fresh(data))
      ensures Contents() == old(Contents()) && capacity == Max(old(capacity), newCapacity)
      ensures r == if newCapacity <= old(capacity) then 0 else 1
    {
      if newCapacity <= capacity {
        return 0;
      }
      ghost var contents := Contents();
      Reallocate(newCapacity);
      assert Contents() == contents;
      return 1;
    }

    /** `*(T *) da_push(arr) = x` */
    method Push(x: T)
      requires Valid()
      modifies this, data
      ensures Valid() && (data == old(data) || fresh(data))
      ensures Contents() == old(Contents()) + [x] && Sizes() == Pushed(old(Sizes()))
    {
      ghost var contents := Contents();
      if size >= capacity {
        moved := moved + capacity;
        Reallocate(if capacity == 0 then 1 else capacity * 2);
        assert Contents() == contents;
      }
      size := size + 1;
      data[size - 1] := x;
      maxSize := Max(maxSize, size);
    }

    method Pop() returns (r: int)
      requires Valid()
      modifies this`size
      ensures Valid() && Sizes() == Popped(old(Sizes()))
      ensures r == -1 <==> old(Contents()) == []
      ensures Contents() == if r == -1 then [] else old(Contents())[..old(size) - 1]
    {
      if size < 1 {
        return -1;
      }
      size := size - 1;
      return 1;
    }

    /** `*(T *) da_get(arr, i) = x` */
    method Set(i: nat, x: T)
      requires Valid() && i < size
      modifies data
      ensures Valid() && Contents() == old(Contents())[i := x]
    {
      data[i] := x;
    }

    /** What is not copied is whatever malloc() left in the new memory. */
    method Reverse() returns (r: int)
      requires Valid()
      modifies this`data
      ensures Valid() && (r == -1 <==> old(size) == 0)
      ensures r == -1 ==> data == old(data)
      ensures r != -1 ==> fresh(data)
      ensures Copied(size - 1) <= size
      ensures Contents()[..Copied(size - 1)] == Reversed(old(Contents()))[..Copied(size - 1)]
      ensures size <= 0x8000_0000 ==> Contents() == Reversed(old(Contents()))
    {
      hide ToInt, Reversed, Copied;
      ReverseCopiesAllExactly(size);
      CopiedBelow(size - 1);
      ghost var before := Contents();
      if size <= 0 {
        return -1;
      }
      var newData := new T[capacity];
      var i: int, y := size - 1, 0;
      while ToInt(i) >= 0
        modifies newData
        invariant -1 <= i && y == size - 1 - i
        invariant Copied(size - 1) == y + Copied(i)
        invariant forall k :: 0 <= k < y ==> newData[k] == data[size - 1 - k]
        decreases i
      {
        CopiedNext(i);
        newData[y] := data[i];
        i, y := i - 1, y + 1;
      }
      CopiedNext(i);
      ReversedPrefix(before, newData[..size], y);
      data := newData;
      return 1;
    }
  }
}
