/** The ring buffer between the IO thread and a service's thread. */
module Queue {
  import opened Wire

  /** Where the ring keeps its `i`-th item. */
  function Place(size: nat, front: nat, i: nat): (k: nat)
    requires front < size && i < size
    ensures k < size
  {
    if front + i < size then front + i else front + i - size
  }

  lemma PlaceIsModulo(size: nat, front: nat, i: nat)
    requires front < size && i < size
    ensures (front + i) % size == Place(size, front, i)
  {
    var x := front + i;
    if x < size {
      assert x / size == 0;
    } else {
      assert x == size * 1 + (x - size);
      assert x / size == 1;
    }
  }

  /** The items of a ring, from front to back. */
  function Items<T>(ring: seq<T>, front: nat, count: nat): (items: seq<T>)
    requires front < |ring| && count <= |ring|
    ensures |items| == count
  {
    seq(count, i requires 0 <= i < count => ring[Place(|ring|, front, i)])
  }

  lemma ItemsPush<T>(ring: seq<T>, front: nat, count: nat, x: T)
    requires front < |ring| && count < |ring|
    ensures Items(ring[Place(|ring|, front, count) := x], front, count + 1) == Items(ring, front, count) + [x]
  {
  }

  lemma ItemsPop<T>(ring: seq<T>, front: nat, count: nat)
    requires front < |ring| && 0 < count <= |ring|
    ensures Items(ring, front, count)[0] == ring[front]
    ensures (front + 1) % |ring| < |ring|
    ensures Items(ring, (front + 1) % |ring|, count - 1) == Items(ring, front, count)[1..]
  {
    if |ring| > 1 {
      PlaceIsModulo(|ring|, front, 1);
    }
  }

  class BlockingQueue<T(0)> {
    const buffer: array<T>
    var front: nat
    var count: nat

    ghost predicate Valid()
      reads this
    {
      front < buffer.Length && count <= buffer.Length
    }

    ghost function Contents(): (s: seq<T>)
      requires Valid()
      reads this, buffer
      ensures |s| == count
    {
      Items(buffer[..], front, count)
    }

    constructor (size: nat)
      requires size >= 1
      ensures Valid() && fresh(buffer) && buffer.Length == size && Contents() == []
    {
      buffer := new T[size];
      front, count := 0, 0;
    }

    /** Refused exactly if the queue is full. */
    method Push(x: T) returns (ok: bool)
      requires Valid()
      modifies this, buffer
      ensures Valid() && ok == (old(count) < buffer.Length)
      ensures Contents() == if ok then old(Contents()) + [x] else old(Contents())
    {
      if count == buffer.Length {
        return false;
      }
      ItemsPush(buffer[..], front, count, x);
      PlaceIsModulo(buffer.Length, front, count);
      ghost var before := buffer[..];
      var back := (front + count) % buffer.Length;
      buffer[back] := x;
      assert buffer[..] == before[back := x];
      count := count + 1;
      return true;
    }

    /** The oldest item, if there is one. */
    method Pop() returns (item: Option<T>)
      requires Valid()
      modifies this
      ensures Valid() && item == (if old(count) == 0 then None else Some(old(Contents())[0]))
      ensures Contents() == if old(count) == 0 then old(Contents()) else old(Contents())[1..]
    {
      if count == 0 {
        return None;
      }
      ItemsPop(buffer[..], front, count);
      item := Some(buffer[front]);
      front := (front + 1) % buffer.Length;
      count := count - 1;
    }
  }
}
