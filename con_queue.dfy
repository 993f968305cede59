// The bounded ring buffer shared by the scanner threads (con_queue.c, and
// the identical concurrent_queue.c over `struct concurrent_queue`): `head`
// and `tail` index a fixed array of `size` slots, one slot always stays
// empty, push fails on a full queue and pop on an empty one. Only the
// sequential behaviour is modelled; the atomic loads and stores are plain
// field accesses here.

module ConQueue {

  import opened Bytes

  /** con_queue_next / next: the slot after n, wrapping at size. */
  function Next(n: nat, size: nat): (r: nat)
    requires n < size
    ensures r < size
    ensures r == 0 <==> n == size - 1
  {
    (n + 1) % size
  }

  /** The elements a ring holds, oldest first: the slots from head up to,
      but not including, tail, wrapping around the end of the array. */
  function Ring<T>(data: seq<T>, head: nat, tail: nat): (r: seq<T>)
    requires head < |data| && tail < |data|
  {
    if head <= tail then data[head..tail] else data[head..] + data[..tail]
  }

  /** The ring holds (tail - head) mod size elements, at most size - 1. */
  lemma RingLength<T>(data: seq<T>, head: nat, tail: nat)
    requires head < |data| && tail < |data|
    ensures |Ring(data, head, tail)| == (tail - head) % |data|
    ensures |Ring(data, head, tail)| <= |data| - 1
  {
  }

  /** Full means one slot short of the array: the next tail would meet head. */
  lemma FullIff<T>(data: seq<T>, head: nat, tail: nat)
    requires head < |data| && tail < |data|
    ensures Next(tail, |data|) == head <==> |Ring(data, head, tail)| == |data| - 1
  {
    RingLength(data, head, tail);
  }

  lemma NextValue(n: nat, size: nat)
    requires n < size
    ensures Next(n, size) == if n + 1 == size then 0 else n + 1
  {
  }

  /** Storing at tail and advancing it appends to the ring. */
  lemma PushRing<T>(data: seq<T>, head: nat, tail: nat, x: T)
    requires head < |data| && tail < |data|
    requires Next(tail, |data|) != head
    ensures Ring(data[tail := x], head, Next(tail, |data|)) == Ring(data, head, tail) + [x]
  {
    var d := data[tail := x];
    NextValue(tail, |data|);
    if head <= tail {
      if tail + 1 == |data| {
        assert d[head..] == data[head..tail] + [x];
        assert d[..0] == [];
      } else {
        assert d[head..tail + 1] == data[head..tail] + [x];
      }
    } else {
      assert d[head..] == data[head..];
      assert d[..tail + 1] == data[..tail] + [x];
    }
  }

  /** The oldest element sits at head; advancing head drops it. */
  lemma PopRing<T>(data: seq<T>, head: nat, tail: nat)
    requires head < |data| && tail < |data|
    requires head != tail
    ensures Ring(data, head, tail) != []
    ensures Ring(data, head, tail)[0] == data[head]
    ensures Ring(data, Next(head, |data|), tail) == Ring(data, head, tail)[1..]
  {
    NextValue(head, |data|);
    var r := Ring(data, head, tail);
    if head < tail {
      assert r == data[head..tail];
      assert r[1..] == data[head + 1..tail];
    } else if head + 1 == |data| {
      assert r == [data[head]] + data[..tail];
      assert r[1..] == data[..tail];
      assert Ring(data, 0, tail) == data[..tail];
    } else {
      assert r == [data[head]] + (data[head + 1..] + data[..tail]);
      assert Ring(data, head + 1, tail) == data[head + 1..] + data[..tail];
    }
  }

  /** A con_queue: the slot array, `size` its length, and the two indices. */
  class Queue<T(0)> {
    const data: array<T>
    var head: nat
    var tail: nat

    ghost predicate Valid()
      reads this
    {
      data.Length >= 1 && head < data.Length && tail < data.Length
    }

    /** The queued elements, oldest first. */
    function Contents(): seq<T>
      reads this, data
      requires Valid()
    {
      Ring(data[..], head, tail)
    }

    /** A zeroed queue of `size` slots, as the callers allocate it. */
    constructor(size: nat)
      requires size >= 1
      ensures Valid() && fresh(data)
      ensures data.Length == size && head == 0 && tail == 0 && Contents() == []
    {
      data := new T[size];
      head, tail := 0, 0;
    }

    /** con_queue_push: -1 and nothing changed on a full queue; otherwise the
        element goes into the old tail slot and tail advances. */
    method Push(element: T) returns (r: int)
      requires Valid()
      modifies this, data
      ensures Valid() && head == old(head)
      ensures r == 0 || r == -1
      ensures r == -1 <==> |old(Contents())| == data.Length - 1
      ensures r == -1 ==> tail == old(tail) && data[..] == old(data[..])
      ensures r == 0 ==>
        data[..] == old(data[..])[old(tail) := element] && tail == Next(old(tail), data.Length)
      ensures r == 0 ==> Contents() == old(Contents()) + [element]
    {
      FullIff(data[..], head, tail);
      var currentTail := tail;
      var newTail := Next(currentTail, data.Length);
      if newTail == head {
        return -1;
      }
      PushRing(data[..], head, tail, element);
      data[currentTail] := element;
      tail := newTail;
      r := 0;
    }

    /** con_queue_pop: -1 (None here) and nothing changed on an empty
        queue; otherwise the element at head comes out and head advances. */
    method Pop() returns (r: Option<T>)
      requires Valid()
      modifies this
      ensures Valid() && tail == old(tail)
      ensures r.None? <==> old(Contents()) == []
      ensures r.None? ==> head == old(head)
      ensures r.Some? ==> r.value == data[old(head)] && head == Next(old(head), data.Length)
      ensures r.Some? ==> r.value == old(Contents())[0] && Contents() == old(Contents())[1..]
    {
      var currentHead := head;
      if currentHead == tail {
        return None;
      }
      PopRing(data[..], head, tail);
      r := Some(data[currentHead]);
      head := Next(currentHead, data.Length);
    }
  }

  /** First in, first out: two elements pushed into an empty queue come out
      in the order they went in. */
  method FifoExample<T(0)>(a: T, b: T) returns (x: T, y: T)
    ensures x == a && y == b
  {
    var q := new Queue<T>(3);
    var r := q.Push(a);
    r := q.Push(b);
    assert q.Contents() == [a, b];
    var p := q.Pop();
    x := p.value;
    p := q.Pop();
    y := p.value;
  }
}
