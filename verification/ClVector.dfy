/**
 cl::vector<T, N> of CL/cl.hpp: a fixed array and a size, with exceptions off, for
 plain values. It is proved to be a sequence of at most N elements.
 */
module ClVector {
  import opened Basics

  /** An iterator's index: the position, or -1 whenever the vector is empty. */
  function IterIndex(size: nat, index: nat): int { if size == 0 then -1 else index }

  class Vector<T(0)> {
    const data: array<T>
    var size: nat

    ghost predicate Valid()
      reads this
    {
      size <= data.Length
    }

    ghost function Contents(): seq<T>
      requires Valid()
      reads this, data
    {
      data[..size]
    }

    constructor (n: nat)
      ensures Valid() && fresh(data) && data.Length == n && Contents() == []
    {
      data := new T[n];
      size := 0;
    }

    /** vector(size, val): pushes beyond the capacity are dropped. */
    constructor Filled(n: nat, count: nat, val: T)
      ensures Valid() && fresh(data) && data.Length == n
      ensures Contents() == seq(Min(count, n), _ => val)
    {
      data := new T[n];
      size := 0;
      new;
      for i := 0 to count
        invariant Valid() && Contents() == seq(Min(i, n), _ => val)
      {
        PushBack(val);
      }
    }

    method PushBack(x: T)
      requires Valid()
      modifies this`size, data
      ensures Valid() && Contents() == (if old(size) < data.Length then old(Contents()) + [x] else old(Contents()))
      ensures forall i :: 0 <= i < data.Length && i != old(size) ==> data[i] == old(data[i])
    {
      if size < data.Length {
        data[size] := x;
        size := size + 1;
      }
    }

    method PopBack()
      requires Valid()
      modifies this`size
      ensures Valid() && Contents() == (if old(size) > 0 then old(Contents())[..old(size) - 1] else [])
    {
      if size != 0 { size := size - 1; }
    }

    method Clear()
      requires Valid()
      modifies this`size
      ensures Valid() && size == 0
    {
      while size != 0
        invariant Valid()
        decreases size
      {
        PopBack();
      }
    }

    /** Beyond the capacity nothing happens. */
    method Resize(newSize: nat, fill: T)
      requires Valid()
      modifies this`size, data
      ensures Valid()
      ensures Contents() ==
                if newSize > data.Length then old(Contents())
                else if newSize <= old(size) then old(Contents())[..newSize]
                else old(Contents()) + seq(newSize - old(size), _ => fill)
    {
      if newSize <= data.Length {
        ghost var was := Contents();
        while size < newSize
          invariant Valid() && |was| <= size && (size <= newSize || size == |was|)
          invariant Contents() == was + seq(size - |was|, _ => fill)
        {
          data[size] := fill;
          size := size + 1;
        }
        while size > newSize
          invariant Valid() && newSize <= size
          invariant newSize < |was| ==> size <= |was| && Contents() == was[..size]
          invariant newSize >= |was| ==> Contents() == was + seq(newSize - |was|, _ => fill)
        {
          size := size - 1;
        }
      }
    }

    /** assign from a range of other memory: the first N elements are kept, the rest dropped. */
    method AssignRange(values: seq<T>)
      requires Valid()
      modifies this`size, data
      ensures Valid() && Contents() == values[..Min(|values|, data.Length)]
    {
      Clear();
      var start := 0;
      while start != |values|
        invariant 0 <= start <= |values| && Valid()
        invariant Contents() == values[..Min(start, data.Length)]
        decreases |values| - start
      {
        PushBack(values[start]);
        start := start + 1;
      }
    }

    /**
     assign(it, end) with iterators into a vector of any capacity, possibly this one: the elements are
     read while this vector is being rewritten, and still come out as they were, up to the capacity.
     */
    method AssignIterators(src: Vector<T>, start: int, end: int)
      requires Valid() && src.Valid()
      requires src.data == data ==> src == this
      requires 0 <= start <= end <= src.size || (src.size == 0 && start == end == -1)
      modifies this`size, data
      ensures Valid()
      ensures Contents() == if start == -1 then [] else old(src.Contents())[start..end][..Min(end - start, data.Length)]
    {
      ghost var was := if start == -1 then [] else src.Contents()[start..end];
      Clear();
      var it := start;
      while it != end
        invariant start <= it <= end && Valid() && size == Min(it - start, data.Length)
        invariant forall k :: 0 <= k < size ==> data[k] == was[k]
        invariant forall k :: 0 <= it <= k < end ==> src.data[k] == was[k - start]
        decreases end - it
      {
        PushBack(src.data[it]);
        it := it + 1;
      }
    }

    /** The copy constructor starts with the other's size and pops it away before copying. */
    constructor Copy(vec: Vector<T>)
      requires vec.Valid()
      ensures Valid() && fresh(data) && data.Length == vec.data.Length && Contents() == vec.Contents()
    {
      data := new T[vec.data.Length];
      size := vec.size;
      new;
      if size != 0 { AssignIterators(vec, IterIndex(vec.size, 0), IterIndex(vec.size, vec.size)); }
    }

    method Assign(rhs: Vector<T>)
      requires Valid() && rhs.Valid() && rhs.data.Length == data.Length && (rhs.data == data ==> rhs == this)
      modifies this`size, data
      ensures Valid() && Contents() == old(rhs.Contents())
    {
      if this == rhs { return; }
      if rhs.size != 0 {
        AssignIterators(rhs, IterIndex(rhs.size, 0), IterIndex(rhs.size, rhs.size));
      } else {
        Clear();
      }
    }
  }
}
