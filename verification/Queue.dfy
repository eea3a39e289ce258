/** QUEUE_DECL of queue.h: an array whose live part starts at `offset`. */
module Queue {

  const QUEUE_INIT_SIZE := 16

  class Queue<T(0)> {
    var ptr: array<T>
    var size: nat
    var offset: nat

    ghost predicate Valid()
      reads `ptr, `size, `offset
    {
      offset + size <= ptr.Length && (offset < ptr.Length || offset == 0)
    }

    ghost function Contents(): (s: seq<T>)
      requires Valid()
      reads this, ptr
      ensures |s| == size
    {
      ptr[offset..offset + size]
    }

    /** `maxsize` may be 0, as in an io that has not had to queue anything. */
    constructor (maxsize: nat)
      ensures Valid() && Contents() == [] && fresh(ptr)
    {
      ptr, size, offset := new T[maxsize], 0, 0;
    }

    function Empty(): bool
      reads `size
    {
      size == 0
    }

    method Front() returns (x: T)
      requires Valid() && size > 0
      ensures x == Contents()[0]
    {
      x := ptr[offset];
    }

    /** The code updates the front element through the pointer `front` gives. */
    method SetFront(x: T)
      requires Valid() && size > 0
      modifies ptr
      ensures Valid() && Contents() == [x] + old(Contents())[1..]
    {
      ptr[offset] := x;
    }

    /** `resize`, to `maxsize` elements or to the initial size. */
    method Resize(maxsize0: nat)
      requires Valid() && offset + size <= (if maxsize0 == 0 then QUEUE_INIT_SIZE else maxsize0)
      requires offset == 0 || offset < if maxsize0 == 0 then QUEUE_INIT_SIZE else maxsize0
      modifies `ptr
      ensures Valid() && fresh(ptr) && Contents() == old(Contents()) && ptr.Length == if maxsize0 == 0 then QUEUE_INIT_SIZE else maxsize0
    {
      var maxsize := if maxsize0 == 0 then QUEUE_INIT_SIZE else maxsize0;
      var p := new T[maxsize];
      forall i | 0 <= i < ptr.Length && i < maxsize {
        p[i] := ptr[i];
      }
      ptr := p;
    }

    method PushBack(x: T)
      requires Valid()
      modifies this, ptr
      ensures Valid() && Contents() == old(Contents()) + [x] && (ptr == old(ptr) || fresh(ptr))
    {
      if size == ptr.Length {
        Resize(ptr.Length * 2);
      } else if offset + size == ptr.Length {
        Shift();
      }
      ptr[offset + size] := x;
      size := size + 1;
    }

    /** The live part moves to the front of the array. */
    method Shift()
      requires Valid()
      modifies `offset, ptr
      ensures Valid() && offset == 0 && Contents() == old(Contents())
    {
      ghost var was := Contents();
      var i := 0;
      while i < size
        modifies ptr
        invariant i <= size && ptr[..i] == was[..i]
        invariant forall k | offset + i <= k < offset + size :: ptr[k] == was[k - offset]
      {
        ptr[i] := ptr[offset + i];
        i := i + 1;
      }
      offset := 0;
    }

    method PopFront()
      requires Valid() && size > 0
      modifies `size, `offset
      ensures Valid() && Contents() == old(Contents())[1..]
    {
      size := size - 1;
      offset := offset + 1;
      if offset == ptr.Length {
        offset := 0;
      }
    }

    method PopBack()
      requires Valid() && size > 0
      modifies `size
      ensures Valid() && Contents() == old(Contents())[..old(size) - 1]
    {
      size := size - 1;
    }

    /** `cleanup`. */
    method Cleanup()
      modifies this
      ensures Valid() && Contents() == [] && fresh(ptr)
    {
      ptr, size, offset := new T[0], 0, 0;
    }
  }
}
