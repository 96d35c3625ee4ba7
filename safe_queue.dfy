/**
 * SafeQueue: a bounded FIFO over a ring of maxSize slots with a head (next
 * write) and a tail (next read) index.  Modelled sequentially: each
 * operation that waits on the condition variable requires the state it
 * waits for.
 */
module SafeQueue {

  /** x mod m for 0 <= x < 2m, written without division. */
  function Wrap(x: int, m: int): int
  {
    if x >= m then x - m else x
  }

  lemma ModWrap(x: int, m: int)
    requires 0 < m && 0 <= x < 2 * m
    ensures x % m == Wrap(x, m)
  {
    if x >= m {
      assert x == m + (x - m);
      assert (x - m) % m == x - m;
    }
  }

  /** The `n` elements of ring `s` starting at slot `t`, wrapping round. */
  function RingSlice<T>(s: seq<T>, t: int, n: nat): (r: seq<T>)
    requires 0 <= t < |s| && n <= |s|
    ensures |r| == n
  {
    seq(n, i requires 0 <= i < n => s[Wrap(t + i, |s|)])
  }

  /** The number of stored elements, the source's (maxSize + head − tail)
      mod maxSize. */
  function Count(head: int, tail: int, m: int): (n: nat)
    requires 0 <= head < m && 0 <= tail < m
    ensures n < m
    ensures head == Wrap(tail + n, m)
  {
    Wrap(m + head - tail, m)
  }

  /** Writing at the head slot appends one element, provided the ring still
      has a free slot besides it. */
  lemma RingPush<T>(s: seq<T>, t: int, n: nat, e: T)
    requires 0 <= t < |s| && n < |s|
    ensures RingSlice(s[Wrap(t + n, |s|) := e], t, n + 1) == RingSlice(s, t, n) + [e]
  {
    var s2 := s[Wrap(t + n, |s|) := e];
    forall i | 0 <= i < n
      ensures RingSlice(s2, t, n + 1)[i] == RingSlice(s, t, n)[i]
    {
      assert Wrap(t + i, |s|) != Wrap(t + n, |s|);
    }
  }

  /** Advancing the tail drops the first element. */
  lemma RingPop<T>(s: seq<T>, t: int, n: nat)
    requires 0 <= t < |s| && 0 < n <= |s|
    ensures RingSlice(s, Wrap(t + 1, |s|), n - 1) == RingSlice(s, t, n)[1..]
  {
    var a, b := RingSlice(s, Wrap(t + 1, |s|), n - 1), RingSlice(s, t, n)[1..];
    forall i | 0 <= i < n - 1
      ensures a[i] == b[i]
    {
      assert Wrap(Wrap(t + 1, |s|) + i, |s|) == Wrap(t + (i + 1), |s|);
    }
  }

  lemma CountAfterPush(head: int, tail: int, m: int)
    requires 0 <= head < m && 0 <= tail < m && Count(head, tail, m) < m - 1
    ensures Count(Wrap(head + 1, m), tail, m) == Count(head, tail, m) + 1
  {
  }

  lemma CountAfterPop(head: int, tail: int, m: int)
    requires 0 <= head < m && 0 <= tail < m && Count(head, tail, m) > 0
    ensures Count(head, Wrap(tail + 1, m), m) == Count(head, tail, m) - 1
  {
  }

  class SafeQueue<T> {
    var ring: array<T>
    var head: int
    var tail: int
    const maxSize: int

    ghost predicate Valid()
      reads this
    {
      ring.Length == maxSize && 0 < maxSize && 0 <= head < maxSize && 0 <= tail < maxSize
    }

    function Size(): nat
      reads this
      requires Valid()
    {
      Count(head, tail, maxSize)
    }

    /** The stored elements, oldest first. */
    ghost function Contents(): seq<T>
      reads this, ring
      requires Valid()
    {
      RingSlice(ring[..], tail, Size())
    }

    /** SafeQueue(maxSize): a ring of maxSize slots, filled with the element
        type's default value `fill`, with head = tail = 0. */
    constructor(maxSize: int, fill: T)
      requires 0 < maxSize
      ensures Valid() && fresh(ring)
      ensures this.maxSize == maxSize && head == 0 && tail == 0
      ensures Contents() == []
    {
      this.maxSize := maxSize;
      ring := new T[maxSize](_ => fill);
      head, tail := 0, 0;
    }

    /** push: waits while only one free slot is left, then writes at head
        and advances head; the element joins the back of the queue. */
    method Push(e: T)
      requires Valid() && Size() < maxSize - 1
      modifies this, ring
      ensures Valid() && ring == old(ring)
      ensures Contents() == old(Contents()) + [e]
      ensures Size() == old(Size()) + 1
    {
      ghost var n := Size();
      RingPush(ring[..], tail, n, e);
      ring[head] := e;
      ModWrap(head + 1, maxSize);
      CountAfterPush(head, tail, maxSize);
      head := (head + 1) % maxSize;
    }

    /** pop: waits while empty, then returns the element at tail and
        advances tail: the oldest element leaves the queue. */
    method Pop() returns (v: T)
      requires Valid() && Size() > 0
      modifies this
      ensures Valid() && ring == old(ring) && ring[..] == old(ring[..])
      ensures v == old(Contents())[0]
      ensures Contents() == old(Contents())[1..]
      ensures Size() == old(Size()) - 1
    {
      RingPop(ring[..], tail, Size());
      assert Contents()[0] == ring[..][Wrap(tail + 0, maxSize)];
      v := ring[tail];
      ModWrap(tail + 1, maxSize);
      CountAfterPop(head, tail, maxSize);
      tail := (tail + 1) % maxSize;
    }

    /** peek: waits while empty, then returns the oldest element and changes
        nothing. */
    method Peek() returns (v: T)
      requires Valid() && Size() > 0
      ensures v == Contents()[0]
    {
      v := ring[tail];
      assert Contents()[0] == ring[..][Wrap(tail + 0, maxSize)];
    }

    /** empty: head == tail, which is exactly an empty queue. */
    method Empty() returns (b: bool)
      requires Valid()
      ensures b <==> head == tail
      ensures b <==> Contents() == []
    {
      b := head == tail;
      assert |Contents()| == Size();
    }

    /** removeAll: head = tail = 0, dropping every element. */
    method RemoveAll()
      requires Valid()
      modifies this
      ensures Valid() && ring == old(ring) && head == 0 && tail == 0
      ensures Contents() == []
    {
      head, tail := 0, 0;
    }

    /** waitEmpty: returns only once the queue is empty, and changes
        nothing. */
    method WaitEmpty()
      requires Valid() && head == tail
      ensures Contents() == []
    {
    }
  }

  /** A value-level run of the ring: FIFO order.  Pushing a then b into an
      empty queue of at least three slots and popping twice yields a then b. */
  method FifoOrder<T>(q: SafeQueue<T>, a: T, b: T) returns (x: T, y: T)
    requires q.Valid() && q.Size() == 0 && q.maxSize >= 3
    modifies q, q.ring
    ensures x == a && y == b
    ensures q.Valid() && q.Contents() == []
  {
    q.Push(a);
    q.Push(b);
    x := q.Pop();
    y := q.Pop();
  }
}
