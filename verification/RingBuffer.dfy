/** The bounded log queue: a ring over a fixed array that refines a first-in first-out sequence
    and drops the newest message when it is full. */
module RingBuffer {

  /** The slot that follows `offset` places after `head`. */
  function Wrapped(x: nat, capacity: nat): nat {
    if x < capacity then x else x - capacity
  }

  lemma WrapsOnce(x: nat, capacity: nat)
    requires x < 2 * capacity
    ensures x % capacity == Wrapped(x, capacity) < capacity
  {
    if x >= capacity {
      assert x == capacity * 1 + (x - capacity);
    }
  }

  // ---- The queue as a value ----

  datatype Queue<T> = Queue(items: seq<T>, dropped: nat, stop: bool)

  function Pushed<T>(q: Queue<T>, capacity: nat, item: T): Queue<T> {
    if |q.items| == capacity then q.(dropped := q.dropped + 1) else q.(items := q.items + [item])
  }

  class Ring<T(0)> {
    const buf: array<T>
    var head: nat
    var count: nat
    var dropped: nat
    var stop: bool

    predicate Valid()
      reads this
    {
      buf.Length > 0 && head < buf.Length && count <= buf.Length
    }

    function Item(i: nat): T
      requires Valid() && i < count
      reads this, buf
    {
      buf[Wrapped(head + i, buf.Length)]
    }

    ghost function Value(): Queue<T>
      requires Valid()
      reads this, buf
    {
      Queue(seq(count, i requires 0 <= i < count reads this, buf requires Valid() => Item(i)), dropped, stop)
    }

    constructor (capacity: nat, zero: T)
      requires capacity > 0
      ensures Valid() && Value() == Queue([], 0, false) && buf.Length == capacity && fresh(buf)
    {
      buf := new T[capacity](i => zero);
      head, count, dropped, stop := 0, 0, 0, false;
    }

    /** Appends, or drops the new item when the ring is full; never waits. */
    method Push(item: T) returns (ok: bool)
      requires Valid()
      modifies this`count, this`dropped, buf
      ensures Valid() && Value() == Pushed(old(Value()), buf.Length, item)
      ensures ok <==> |old(Value()).items| < buf.Length
    {
      if count == buf.Length {
        dropped := dropped + 1;
        return false;
      }
      WrapsOnce(head + count, buf.Length);
      buf[(head + count) % buf.Length] := item;
      count := count + 1;
      return true;
    }

    /** Takes out everything, in order. The caller has been woken: there is something, or the ring
        has been stopped. Nothing comes out only of a ring that is stopped and empty. */
    method WaitAndPopBatch(out: array<T>) returns (n: nat)
      requires Valid() && out != buf && out.Length == buf.Length
      requires count > 0 || stop
      modifies this`head, this`count, out
      ensures Valid() && Value() == old(Value()).(items := [])
      ensures n <= out.Length && out[..n] == old(Value()).items
      ensures n == 0 ==> stop
    {
      n := 0;
      while count > 0
        invariant Valid() && n + count == old(count)
        invariant head == Wrapped(old(head) + n, buf.Length)
        invariant forall i :: 0 <= i < n ==> out[i] == old(Item(i))
      {
        out[n] := buf[head];
        WrapsOnce(head + 1, buf.Length);
        head := (head + 1) % buf.Length;
        count := count - 1;
        n := n + 1;
      }
    }

    method RequestStop()
      requires Valid()
      modifies this`stop
      ensures Valid() && Value() == old(Value()).(stop := true)
    {
      stop := true;
    }
  }
}
