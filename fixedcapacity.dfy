/**
 * Fixed-capacity containers of the runtime: an inline array allocator and the
 * ring buffer built on it, which keeps its items in `capacity` slots starting at
 * slot `fr` and wrapping round.
 */
module FixedCapacity {

  /** `inline_allocator`: `capacity` items held inline. */
  class InlineAllocator<T(0)> {
    const capacity: nat
    const items: array<T>

    ghost predicate Valid()
    {
      items.Length == capacity
    }

    constructor(capacity: nat)
      ensures Valid() && fresh(items) && this.capacity == capacity
    {
      this.capacity := capacity;
      items := new T[capacity];
    }

    /** `operator[]`: index `n` must be below the capacity. */
    method Get(n: nat) returns (x: T)
      requires Valid() && n < capacity
      ensures x == items[n]
    {
      x := items[n];
    }

    /** `swap`: copy this allocator's items aside, take the other's, then give it the
        copy.  When both sides share their items nothing changes, which is also an
        exchange. */
    method Swap(other: InlineAllocator<T>)
      requires Valid() && other.Valid() && other.capacity == capacity
      modifies items, other.items
      ensures items[..] == old(other.items[..])
      ensures other.items[..] == old(items[..])
    {
      var tmp := new T[capacity];
      for i := 0 to capacity
        invariant forall k :: 0 <= k < i ==> tmp[k] == items[k]
        invariant items[..] == old(items[..]) && other.items[..] == old(other.items[..])
      {
        tmp[i] := items[i];
      }
      for i := 0 to capacity
        invariant forall k :: 0 <= k < i ==> items[k] == old(other.items[k])
        invariant forall k :: i <= k < capacity ==> items[k] == old(items[k])
        invariant forall k :: 0 <= k < capacity ==> other.items[k] == old(other.items[k])
        invariant forall k :: 0 <= k < capacity ==> tmp[k] == old(items[k])
      {
        items[i] := other.items[i];
      }
      for i := 0 to capacity
        invariant forall k :: 0 <= k < i ==> other.items[k] == old(items[k])
        invariant forall k :: i <= k < capacity ==> other.items[k] == old(other.items[k])
        invariant forall k :: 0 <= k < capacity ==> items[k] == old(other.items[k])
        invariant forall k :: 0 <= k < capacity ==> tmp[k] == old(items[k])
      {
        other.items[i] := tmp[i];
      }
    }
  }

  /** `ringbuffer_idx`: a double-ended queue of at most `capacity` items. */
  class RingBuffer<T(0)> {
    const capacity: nat
    const data: array<T>
    var fr: int
    var sz: int
    /** The items from front to back. */
    ghost var Contents: seq<T>

    /** The slot that holds the item at position `k` from the front. */
    function Slot(k: int): int
      reads this
    {
      if fr + k >= capacity then fr + k - capacity else fr + k
    }

    ghost predicate Valid()
      reads this, data
    {
      capacity > 0 && data.Length == capacity &&
      0 <= fr < capacity && 0 <= sz <= capacity && |Contents| == sz &&
      forall k :: 0 <= k < sz ==> 0 <= Slot(k) < capacity && Contents[k] == data[Slot(k)]
    }

    /** An empty buffer; a zero-capacity C++ array is ill-formed, so capacity is positive. */
    constructor(capacity: nat)
      requires capacity > 0
      ensures Valid() && fresh(data) && this.capacity == capacity
      ensures Contents == []
    {
      this.capacity := capacity;
      data := new T[capacity];
      fr, sz := 0, 0;
      Contents := [];
    }

    method Size() returns (n: int)
      requires Valid()
      ensures n == |Contents|
    {
      n := sz;
    }

    method Full() returns (b: bool)
      requires Valid()
      ensures b <==> |Contents| == capacity
    {
      b := sz == capacity;
    }

    method Empty() returns (b: bool)
      requires Valid()
      ensures b <==> Contents == []
    {
      b := sz == 0;
    }

    /** `push_front`: the front slot moves one back, wrapping from 0 to `capacity - 1`. */
    method PushFront(x: T)
      requires Valid() && |Contents| < capacity
      modifies this, data
      ensures Valid() && Contents == [x] + old(Contents)
    {
      fr := fr - 1;
      if fr == -1 {
        fr := fr + capacity;
      }
      sz := sz + 1;
      data[fr] := x;
      Contents := [x] + Contents;
      forall k | 0 <= k < sz
        ensures 0 <= Slot(k) < capacity && Contents[k] == data[Slot(k)]
      {
        if k > 0 {
          assert Slot(k) == old(Slot(k - 1));
        }
      }
    }

    /** `push_back`: the item goes into the slot after the last one. */
    method PushBack(x: T)
      requires Valid() && |Contents| < capacity
      modifies this, data
      ensures Valid() && Contents == old(Contents) + [x]
    {
      var bk := fr + sz;
      if bk >= capacity {
        bk := bk - capacity;
      }
      sz := sz + 1;
      data[bk] := x;
      Contents := Contents + [x];
    }

    method Front() returns (x: T)
      requires Valid() && Contents != []
      ensures x == Contents[0]
    {
      x := data[fr];
    }

    method Back() returns (x: T)
      requires Valid() && Contents != []
      ensures x == Contents[|Contents| - 1]
    {
      var bk := fr + sz - 1;
      if bk >= capacity {
        bk := bk - capacity;
      }
      x := data[bk];
    }

    /** `pop_front`: the front slot moves one on, wrapping from `capacity` to 0. */
    method PopFront() returns (v: T)
      requires Valid() && Contents != []
      modifies this
      ensures Valid()
      ensures v == old(Contents[0]) && Contents == old(Contents[1..])
    {
      v := Front();
      fr := fr + 1;
      if fr == capacity {
        fr := 0;
      }
      sz := sz - 1;
      Contents := Contents[1..];
      forall k | 0 <= k < sz
        ensures 0 <= Slot(k) < capacity && Contents[k] == data[Slot(k)]
      {
        assert Slot(k) == old(Slot(k + 1));
      }
    }

    method PopBack() returns (v: T)
      requires Valid() && Contents != []
      modifies this
      ensures Valid()
      ensures v == old(Contents[|Contents| - 1]) && Contents == old(Contents[..|Contents| - 1])
    {
      v := Back();
      sz := sz - 1;
      Contents := Contents[..sz];
    }

    /** `clear`: pop from the back until empty. */
    method Clear()
      requires Valid()
      modifies this
      ensures Valid() && Contents == []
    {
      var empty := Empty();
      while !empty
        invariant Valid()
        invariant empty <==> Contents == []
        decreases |Contents|
      {
        var _ := PopBack();
        empty := Empty();
      }
    }
  }

  /** Pushing at the back and popping at the front is first in, first out. */
  method Fifo<T(0)>(x: T, y: T) returns (a: T, b: T, n: int)
    ensures a == x && b == y && n == 0
  {
    var q := new RingBuffer<T>(2);
    q.PushBack(x);
    q.PushBack(y);
    a := q.PopFront();
    b := q.PopFront();
    n := q.Size();
  }

  /** Push then look at the same end: the pushed item is there, once more item. */
  method PushThenPeek<T(0)>(x: T, y: T) returns (f: T, bk: T, n: int)
    ensures f == y && bk == x && n == 2
  {
    var q := new RingBuffer<T>(4);
    q.PushBack(x);
    q.PushFront(y);
    f := q.Front();
    bk := q.Back();
    n := q.Size();
  }

  /** A push at the back undone by a pop at the back gives the item back and
      leaves the rest as it was; the indices wrap round a buffer of capacity 2. */
  method PushPopWraps<T(0)>(x: T, y: T, z: T) returns (v: T, w: T, n: int)
    ensures v == z && w == y && n == 1
  {
    var q := new RingBuffer<T>(2);
    q.PushBack(x);
    q.PushBack(y);
    var _ := q.PopFront();
    q.PushBack(z);
    v := q.PopBack();
    w := q.Front();
    n := q.Size();
  }

  /** On any buffer with room, `pop_back` after `push_back(x)` returns `x` and
      restores the contents and the size. */
  method PushPopBack<T(0)>(q: RingBuffer<T>, x: T) returns (v: T)
    requires q.Valid() && |q.Contents| < q.capacity
    modifies q, q.data
    ensures q.Valid() && v == x && q.Contents == old(q.Contents)
  {
    q.PushBack(x);
    v := q.PopBack();
  }

  /** On any buffer with room, `pop_front` after `push_front(x)` returns `x` and
      restores the contents. */
  method PushPopFront<T(0)>(q: RingBuffer<T>, x: T) returns (v: T)
    requires q.Valid() && |q.Contents| < q.capacity
    modifies q, q.data
    ensures q.Valid() && v == x && q.Contents == old(q.Contents)
  {
    q.PushFront(x);
    v := q.PopFront();
  }

  /** After `clear` the buffer is empty and can be refilled to capacity. */
  method ClearEmpties<T(0)>(x: T) returns (empty: bool, full: bool)
    ensures empty && full
  {
    var q := new RingBuffer<T>(1);
    q.PushFront(x);
    q.Clear();
    empty := q.Empty();
    q.PushBack(x);
    full := q.Full();
  }

  /** Swapping two allocators exchanges their items. */
  method SwapExchanges(x: int, y: int) returns (a: int, b: int)
    ensures a == y && b == x
  {
    var p := new InlineAllocator<int>(1);
    var q := new InlineAllocator<int>(1);
    p.items[0] := x;
    q.items[0] := y;
    p.Swap(q);
    a := p.Get(0);
    b := q.Get(0);
  }
}
