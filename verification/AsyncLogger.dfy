/** The asynchronous logger over the ring as one object. Other threads act between the rounds of
    the worker; what they do comes in as a schedule. */
module AsyncLogger {
  import opened RingBuffer
  import opened LoggerProtocol

  /** What other threads do to the ring before one round of the worker. */
  datatype Visit = Visit(pushes: seq<Message>, stop: bool)

  const QUIET: Visit := Visit([], false)

  function PushedAll(q: Queue<Message>, capacity: nat, ms: seq<Message>): Queue<Message>
    decreases |ms|
  {
    if ms == [] then q else PushedAll(Pushed(q, capacity, ms[0]), capacity, ms[1..])
  }

  function Visited(q: Queue<Message>, capacity: nat, v: Visit): Queue<Message> {
    var r := PushedAll(q, capacity, v.pushes);
    r.(stop := r.stop || v.stop)
  }

  /** How far the worker gets: the ring and the file then, what of the schedule is still to come,
      and whether the worker has left. */
  datatype Outcome = Outcome(queue: Queue<Message>, written: seq<Message>, rest: seq<Visit>, left: bool)

  /** A round writes the whole ring; it sleeps on an empty ring, or leaves when that is stopped. */
  function Work(q: Queue<Message>, capacity: nat, written: seq<Message>, visits: seq<Visit>): Outcome
    decreases |visits|
  {
    if visits == [] then Outcome(q, written, [], false)
    else
      var r := Visited(q, capacity, visits[0]);
      if r.items != [] then Work(r.(items := []), capacity, written + r.items, visits[1..])
      else if r.stop then Outcome(r, written, visits[1..], true)
      else Work(r, capacity, written, visits[1..])
  }

  function Offered(visits: seq<Visit>): seq<Message> {
    if visits == [] then [] else visits[0].pushes + Offered(visits[1..])
  }

  // ---- What the worker writes ----

  lemma {:induction false} PushedFits(q: Queue<Message>, capacity: nat, ms: seq<Message>)
    requires |q.items| + |ms| <= capacity
    ensures PushedAll(q, capacity, ms) == q.(items := q.items + ms)
    decreases |ms|
  {
    if ms == [] {
      assert q.items + ms == q.items;
    } else {
      PushedFits(Pushed(q, capacity, ms[0]), capacity, ms[1..]);
      assert q.items + [ms[0]] + ms[1..] == q.items + ms;
    }
  }

  /** As long as no visit overfills the ring, the file gets what was in the ring and then all that
      was offered up to where the worker is, in order and once. */
  lemma {:induction false} WorkInOrder(q: Queue<Message>, capacity: nat, written: seq<Message>, visits: seq<Visit>)
    requires visits != [] ==> |q.items| + |visits[0].pushes| <= capacity
    requires forall i :: 0 < i < |visits| ==> |visits[i].pushes| <= capacity
    ensures var o := Work(q, capacity, written, visits);
      o.written + o.queue.items + Offered(o.rest) == written + q.items + Offered(visits)
    decreases |visits|
  {
    if visits != [] {
      var v, r := visits[0], Visited(q, capacity, visits[0]);
      PushedFits(q, capacity, v.pushes);
      assert written + q.items + Offered(visits) == written + r.items + Offered(visits[1..]);
      if r.items != [] {
        WorkInOrder(r.(items := []), capacity, written + r.items, visits[1..]);
        assert written + r.items + [] == written + r.items;
      } else if !r.stop {
        WorkInOrder(r, capacity, written, visits[1..]);
      }
    }
  }

  /** A stopped worker leaves an empty ring by its second round without a visit. */
  lemma {:induction false} WorkEnds(q: Queue<Message>, capacity: nat, written: seq<Message>, visits: seq<Visit>)
    requires q.stop
    ensures Work(q, capacity, written, visits + [QUIET, QUIET]).left
    ensures q.items == [] ==> Work(q, capacity, written, visits + [QUIET]).left
    ensures Work(q, capacity, written, visits + [QUIET, QUIET]).queue.items == []
    decreases |visits|
  {
    var two, one := visits + [QUIET, QUIET], visits + [QUIET];
    if visits == [] {
      assert two[1..] == [QUIET] && one[1..] == [];
      assert Work(q.(items := []), capacity, written + q.items, [QUIET]).left;
    } else {
      assert two[1..] == visits[1..] + [QUIET, QUIET] && one[1..] == visits[1..] + [QUIET];
      StopStays(q, capacity, visits[0].pushes);
      var r := Visited(q, capacity, visits[0]);
      WorkEnds(r.(items := []), capacity, written + r.items, visits[1..]);
      WorkEnds(r, capacity, written, visits[1..]);
    }
  }

  lemma {:induction false} StopStays(q: Queue<Message>, capacity: nat, ms: seq<Message>)
    ensures PushedAll(q, capacity, ms).stop == q.stop
    decreases |ms|
  {
    if ms != [] {
      StopStays(Pushed(q, capacity, ms[0]), capacity, ms[1..]);
    }
  }

  /** A logger that was never started, or whose last worker was joined, has none. */
  datatype Thread = NoThread | Working | Left

  class Logger {
    const ring: Ring<Message>
    var running: bool
    var thread: Thread
    /** What the worker has handed to the file. */
    var written: seq<Message>

    /** A worker has only left a stopped ring. */
    ghost predicate Sound()
      reads this, ring
    {
      ring.Valid() && (thread.Left? ==> ring.stop)
    }

    /** Between a start and a shutdown there is a worker, also one that has left. */
    ghost predicate Valid()
      reads this, ring
    {
      Sound() && (running <==> !thread.NoThread?)
    }

    constructor (capacity: nat)
      requires capacity > 0
      ensures Valid() && !running && written == [] && fresh(ring) && fresh(ring.buf)
      ensures ring.buf.Length == capacity && ring.Value() == Queue([], 0, false)
    {
      ring := new Ring<Message>(capacity, Message(0, ""));
      running, thread, written := false, NoThread, [];
    }

    /** Creates the worker, which may take its first rounds before the start returns: `visits` is
        what others do before each of them. Once the logger runs, a second start does nothing. */
    method Start(visits: seq<Visit>)
      requires Valid()
      modifies this, ring, ring.buf
      ensures Valid() && running
      ensures old(running) ==> thread == old(thread) && written == old(written) && ring.Value() == old(ring.Value())
      ensures !old(running) ==>
        var o := Work(old(ring.Value()), ring.buf.Length, old(written), visits);
        thread == (if o.left then Left else Working) && written == o.written
        && ring.Value() == PushedAll(o.queue, ring.buf.Length, Offered(o.rest))
    {
      if running {
        return;
      }
      running, thread := true, Working;
      var rest := WorkerLoop(visits);
      Admit(Visit(Offered(rest), false));
    }

    /** Without a running logger the message is dropped uncounted. */
    method Log(m: Message)
      requires Sound()
      modifies ring, ring.buf
      ensures Sound()
      ensures ring.Value() == if running then Pushed(old(ring.Value()), ring.buf.Length, m) else old(ring.Value())
    {
      if !running {
        return;
      }
      var _ := ring.Push(m);
    }

    /** Other threads at the ring. */
    method Admit(v: Visit)
      requires Sound()
      modifies ring, ring.buf
      ensures Sound() && ring.Value() == Visited(old(ring.Value()), ring.buf.Length, v)
    {
      for i := 0 to |v.pushes|
        invariant Sound()
        invariant PushedAll(ring.Value(), ring.buf.Length, v.pushes[i..])
          == PushedAll(old(ring.Value()), ring.buf.Length, v.pushes)
      {
        var _ := ring.Push(v.pushes[i]);
        assert v.pushes[i..][1..] == v.pushes[i + 1..];
      }
      if v.stop {
        ring.RequestStop();
      }
    }

    /** One call of `waitAndPopBatch` and the loop over its batch. */
    method Round(batch: array<Message>) returns (n: nat)
      requires Sound() && batch != ring.buf && batch.Length == ring.buf.Length && (ring.count > 0 || ring.stop)
      modifies this`written, ring`head, ring`count, batch
      ensures Sound() && ring.Value() == old(ring.Value()).(items := [])
      ensures written == old(written) + old(ring.Value()).items && n == |old(ring.Value()).items|
    {
      n := ring.WaitAndPopBatch(batch);
      for i := 0 to n
        invariant written == old(written) + batch[..i]
        modifies this`written
      {
        written := written + [batch[i]];
      }
    }

    /** The worker's next rounds, with the visits of others between them. */
    method WorkerLoop(visits: seq<Visit>) returns (rest: seq<Visit>)
      requires Sound() && thread.Working?
      modifies this`written, this`thread, ring, ring.buf
      ensures Sound() && !thread.NoThread?
      ensures Outcome(ring.Value(), written, rest, thread.Left?)
        == Work(old(ring.Value()), ring.buf.Length, old(written), visits)
    {
      var batch := new Message[ring.buf.Length](_ => Message(0, ""));
      rest := visits;
      while rest != [] && thread.Working?
        invariant Sound() && !thread.NoThread? && fresh(batch) && batch.Length == ring.buf.Length
        invariant (if thread.Left? then Outcome(ring.Value(), written, rest, true)
                   else Work(ring.Value(), ring.buf.Length, written, rest))
          == Work(old(ring.Value()), ring.buf.Length, old(written), visits)
        decreases |rest|
      {
        Admit(rest[0]);
        rest := rest[1..];
        if ring.count > 0 || ring.stop {
          var n := Round(batch);
          if n == 0 {
            thread := Left;
          }
        }
      }
    }

    /** Stops a running logger and joins its worker, while callers that are past the check may
        still push. All that is in the ring by the time a working worker leaves is written, and
        what comes later stays in the ring. A worker that has left before writes nothing more. A
        second call does nothing. */
    method Shutdown(late: seq<Visit>)
      requires Valid()
      modifies this, ring, ring.buf
      ensures Valid() && !running
      ensures old(thread).NoThread? ==> written == old(written) && ring.Value() == old(ring.Value())
      ensures old(thread).Working? ==>
        var o := Work(old(ring.Value()).(stop := true), ring.buf.Length, old(written), late + [QUIET, QUIET]);
        o.left && o.queue.items == [] && written == o.written
        && ring.Value() == PushedAll(o.queue, ring.buf.Length, Offered(o.rest))
      ensures old(thread).Left? ==>
        written == old(written) && ring.Value() == PushedAll(old(ring.Value()), ring.buf.Length, Offered(late))
    {
      if !running {
        return;
      }
      var rest := late;
      running := false;
      ring.RequestStop();
      if thread.Working? {
        WorkEnds(ring.Value(), ring.buf.Length, written, late);
        rest := WorkerLoop(late + [QUIET, QUIET]);
      }
      thread := NoThread;
      Admit(Visit(Offered(rest), false));
    }

    /** The second life of a logger: its worker may find the stopped ring empty before the first
        message comes. That message is then never written. */
    method SecondLife(m: Message)
      requires Valid() && !running && ring.stop && ring.Value().items == []
      modifies this, ring, ring.buf
      ensures Valid() && !running && written == old(written) && ring.Value().items == [m]
    {
      Start([QUIET]);
      Log(m);
      Shutdown([]);
    }
  }
}
