/** The delayed-delete queue of the cache: tasks wait a constant delay and are fired one by one
    by a single thread until it is told to stop. */
module DelayDeleter {
  import opened Wrappers

  datatype Task<K> = Task(fireAt: int, keys: seq<K>)

  /** The queue and its thread, with the logs of what was scheduled and what was fired when.
      `firing` is the task whose deletes the thread is issuing without holding the lock. */
  datatype State<K> = State(
    queue: seq<Task<K>>,
    stop: bool,
    exited: bool,
    firing: Option<Task<K>>,
    scheduled: seq<Task<K>>,
    fired: seq<Task<K>>,
    firedAt: seq<int>)

  function Start<K>(): State<K> { State([], false, false, None, [], [], []) }

  /** One section under the lock. `now` is what the steady clock showed inside it. */
  datatype Event<K> =
    | Schedule(keys: seq<K>, now: int)
    | Poll(now: int)
    | FireDone
    | Stop

  /** One round of the thread's loop, from taking the lock to waiting, firing or leaving. */
  function AfterPoll<K>(s: State<K>, now: int): State<K> {
    if s.exited || s.firing.Some? then s
    else if s.stop then s.(exited := true)
    else if s.queue == [] || now < s.queue[0].fireAt then s
    else s.(queue := s.queue[1..], firing := Some(s.queue[0]))
           .(fired := s.fired + [s.queue[0]], firedAt := s.firedAt + [now])
  }

  function Apply<K>(delay: nat, s: State<K>, e: Event<K>): State<K> {
    match e
    case Schedule(keys, now) =>
      if keys == [] then s
      else s.(queue := s.queue + [Task(now + delay, keys)], scheduled := s.scheduled + [Task(now + delay, keys)])
    case Poll(now) => AfterPoll(s, now)
    case FireDone => s.(firing := None)
    case Stop => s.(stop := true)
  }

  function Run<K>(delay: nat, s: State<K>, es: seq<Event<K>>): State<K>
    decreases |es|
  {
    if es == [] then s else Run(delay, Apply(delay, s, es[0]), es[1..])
  }

  // ---- What every run keeps ----

  /** The steady clock never runs backwards from one section under the lock to the next. */
  ghost predicate Clocked<K>(now: int, es: seq<Event<K>>)
    decreases |es|
  {
    es == [] || match es[0]
                case Schedule(_, t) => now <= t && Clocked(t, es[1..])
                case Poll(t) => now <= t && Clocked(t, es[1..])
                case _ => Clocked(now, es[1..])
  }

  ghost predicate Sorted<K>(q: seq<Task<K>>) {
    forall i, j :: 0 <= i < j < |q| ==> q[i].fireAt <= q[j].fireAt
  }

  ghost predicate Inv<K>(delay: nat, s: State<K>, now: int) {
    && s.scheduled == s.fired + s.queue
    && Sorted(s.scheduled)
    && (forall i :: 0 <= i < |s.scheduled| ==> s.scheduled[i].fireAt <= now + delay)
    && |s.firedAt| == |s.fired|
    && (forall i :: 0 <= i < |s.fired| ==> s.fired[i].fireAt <= s.firedAt[i] <= now)
    && (s.firing.Some? ==> s.fired != [] && s.firing.value == s.fired[|s.fired| - 1])
    && (s.exited ==> s.stop && s.firing.None?)
  }

  function Clock<K>(now: int, e: Event<K>): int {
    match e
    case Schedule(_, t) => t
    case Poll(t) => t
    case _ => now
  }

  lemma ScheduleInv<K>(delay: nat, s: State<K>, now: int, keys: seq<K>, t: int)
    requires Inv(delay, s, now) && now <= t && keys != []
    ensures Inv(delay, Apply(delay, s, Schedule(keys, t)), t)
  {
    var task := Task(t + delay, keys);
    assert s.scheduled + [task] == s.fired + (s.queue + [task]);
  }

  lemma FireInv<K>(delay: nat, s: State<K>, now: int, t: int)
    requires Inv(delay, s, now) && now <= t
    ensures Inv(delay, AfterPoll(s, t), t)
  {
    if s.queue != [] {
      assert s.fired + s.queue == (s.fired + [s.queue[0]]) + s.queue[1..];
    }
  }

  /** A thread that has left fires nothing more. */
  lemma StepInv<K>(delay: nat, s: State<K>, now: int, e: Event<K>)
    requires Inv(delay, s, now) && now <= Clock(now, e)
    ensures Inv(delay, Apply(delay, s, e), Clock(now, e))
    ensures s.exited ==> Apply(delay, s, e).exited && Apply(delay, s, e).fired == s.fired
  {
    if e.Schedule? && e.keys != [] {
      ScheduleInv(delay, s, now, e.keys, e.now);
    }
    if e.Poll? {
      FireInv(delay, s, now, e.now);
    }
  }

  lemma {:induction false} RunInv<K>(delay: nat, s: State<K>, now: int, es: seq<Event<K>>) returns (end: int)
    requires Inv(delay, s, now) && Clocked(now, es)
    ensures Inv(delay, Run(delay, s, es), end)
    decreases |es|
  {
    end := now;
    if es != [] {
      StepInv(delay, s, now, es[0]);
      end := RunInv(delay, Apply(delay, s, es[0]), Clock(now, es[0]), es[1..]);
    }
  }

  /** In every reachable state: the queue is sorted by fire time; the scheduled tasks are the
      fired ones, in the order they were scheduled, followed by the queued ones, so each fires
      at most once and after the thread has left the rest is what it abandoned; no task fired
      before its time; and the task being fired is the last of the fired ones. */
  lemma QueueProtocol<K>(delay: nat, es: seq<Event<K>>)
    requires es != [] ==> exists t0 :: Clocked(t0, es)
    ensures var s := Run(delay, Start(), es);
      && Sorted(s.queue)
      && s.scheduled == s.fired + s.queue
      && |s.firedAt| == |s.fired|
      && (forall i :: 0 <= i < |s.fired| ==> s.fired[i].fireAt <= s.firedAt[i])
      && (s.firing.Some? ==> s.fired != [] && s.firing.value == s.fired[|s.fired| - 1])
      && (s.exited ==> s.firing.None?)
  {
    if es != [] {
      var t0 :| Clocked(t0, es);
      var _ := RunInv(delay, Start(), t0, es);
      var s := Run(delay, Start(), es);
      forall i, j | 0 <= i < j < |s.queue| ensures s.queue[i].fireAt <= s.queue[j].fireAt {
        assert s.queue[i] == s.scheduled[|s.fired| + i] && s.queue[j] == s.scheduled[|s.fired| + j];
      }
    }
  }

  // ---- What is fired, and when ----

  /** One look at the queue, case by case: a thread that has left or is busy deleting does nothing, a
      stopped one leaves and abandons the queue, an idle one sleeps until the first task is due,
      and then takes that task and no other. */
  lemma PollExact<K>(delay: nat, s: State<K>, now: int)
    ensures var s' := Apply(delay, s, Poll(now));
      var free := !s.exited && s.firing.None?;
      var due := s.queue != [] && s.queue[0].fireAt <= now;
      && s'.scheduled == s.scheduled && s'.stop == s.stop
      && s'.exited == (s.exited || (free && s.stop))
      && (if free && !s.stop && due then
            s'.queue == s.queue[1..] && s'.firing == Some(s.queue[0])
            && s'.fired == s.fired + [s.queue[0]] && s'.firedAt == s.firedAt + [now]
          else s'.queue == s.queue && s'.firing == s.firing && s'.fired == s.fired && s'.firedAt == s.firedAt)
  {}

  /** What was asked for, in order, with the times of asking; an empty request asks for nothing. */
  function Asked<K>(es: seq<Event<K>>): seq<(int, seq<K>)> {
    if es == [] then []
    else AskedBy(es[0]) + Asked(es[1..])
  }

  function TasksOf<K>(delay: nat, asked: seq<(int, seq<K>)>): seq<Task<K>> {
    if asked == [] then [] else [Task(asked[0].0 + delay, asked[0].1)] + TasksOf(delay, asked[1..])
  }

  lemma {:induction false} TasksAt<K>(delay: nat, asked: seq<(int, seq<K>)>)
    ensures |TasksOf(delay, asked)| == |asked|
    ensures forall i :: 0 <= i < |asked| ==> TasksOf(delay, asked)[i] == Task(asked[i].0 + delay, asked[i].1)
  {
    if asked != [] {
      TasksAt(delay, asked[1..]);
    }
  }

  function AskedBy<K>(e: Event<K>): seq<(int, seq<K>)> {
    if e.Schedule? && e.keys != [] then [(e.now, e.keys)] else []
  }

  lemma StepSchedules<K>(delay: nat, s: State<K>, e: Event<K>)
    ensures Apply(delay, s, e).scheduled == s.scheduled + TasksOf(delay, AskedBy(e))
  {
    if e.Schedule? && e.keys != [] {
      assert AskedBy(e)[1..] == [];
      assert TasksOf(delay, AskedBy(e)) == [Task(e.now + delay, e.keys)];
    }
  }

  lemma {:induction false} TasksAppend<K>(delay: nat, a: seq<(int, seq<K>)>, b: seq<(int, seq<K>)>)
    ensures TasksOf(delay, a + b) == TasksOf(delay, a) + TasksOf(delay, b)
  {
    if a == [] {
      assert a + b == b;
    } else {
      assert (a + b)[1..] == a[1..] + b;
      TasksAppend(delay, a[1..], b);
    }
  }

  lemma {:induction false} RunSchedules<K>(delay: nat, s: State<K>, es: seq<Event<K>>)
    ensures Run(delay, s, es).scheduled == s.scheduled + TasksOf(delay, Asked(es))
    decreases |es|
  {
    if es != [] {
      StepSchedules(delay, s, es[0]);
      TasksAppend(delay, AskedBy(es[0]), Asked(es[1..]));
      RunSchedules(delay, Apply(delay, s, es[0]), es[1..]);
      Regroup(s.scheduled, TasksOf(delay, AskedBy(es[0])), TasksOf(delay, Asked(es[1..])));
    }
  }

  lemma Regroup<T>(a: seq<T>, b: seq<T>, c: seq<T>)
    ensures (a + b) + c == a + (b + c)
  {}

  /** In every run the i-th batch that is fired is the i-th that was asked for, key by key, and it is
      fired no sooner than the delay after it was asked for. */
  lemma FiredAsAsked<K>(delay: nat, es: seq<Event<K>>, i: nat)
    requires es != [] ==> exists t0 :: Clocked(t0, es)
    requires i < |Run(delay, Start(), es).fired|
    ensures i < |Asked(es)| && i < |Run(delay, Start(), es).firedAt|
    ensures Run(delay, Start(), es).fired[i].keys == Asked(es)[i].1
    ensures Asked(es)[i].0 + delay <= Run(delay, Start(), es).firedAt[i]
  {
    QueueProtocol(delay, es);
    RunSchedules(delay, Start(), es);
    var s := Run(delay, Start(), es);
    TasksAt(delay, Asked(es));
    assert s.scheduled == TasksOf(delay, Asked(es));
    assert s.scheduled[i] == s.fired[i];
  }

  /** Rounds of the thread at these times, each with its deletes. */
  function Rounds<K>(times: seq<int>): seq<Event<K>> {
    if times == [] then [] else [Poll(times[0]), FireDone] + Rounds(times[1..])
  }

  lemma {:induction false} RoundsEmptyQueue<K>(delay: nat, s: State<K>, times: seq<int>, due: int)
    requires !s.stop && !s.exited && s.firing.None? && |times| == |s.queue|
    requires forall i :: 0 <= i < |s.queue| ==> s.queue[i].fireAt <= due
    requires forall j :: 0 <= j < |times| ==> due <= times[j]
    ensures var t := Run(delay, s, Rounds(times));
      t.queue == [] && t.fired == s.fired + s.queue && t.scheduled == s.scheduled && t.firing.None?
    decreases |times|
  {
    if times == [] {
      assert s.fired + s.queue == s.fired;
    } else {
      var es: seq<Event<K>> := Rounds(times);
      var s1 := Apply(delay, s, Poll(times[0]));
      var s2 := Apply(delay, s1, FireDone);
      assert es[0] == Poll(times[0]) && es[1..][0] == FireDone && es[1..][1..] == Rounds(times[1..]);
      RoundsEmptyQueue(delay, s2, times[1..], due);
      assert s2.fired + s2.queue == s.fired + s.queue;
    }
  }

  /** Nothing that was asked for is forgotten: as long as the thread is not stopped, as many rounds
      as there are tasks waiting, once all of them are due, fire all that was ever asked for. */
  lemma AllIsFired<K>(delay: nat, es: seq<Event<K>>, times: seq<int>, due: int)
    requires es != [] ==> exists t0 :: Clocked(t0, es)
    requires var s := Run(delay, Start(), es); !s.stop && s.firing.None? && |times| == |s.queue|
    requires forall i :: 0 <= i < |Asked(es)| ==> Asked(es)[i].0 + delay <= due
    requires forall j :: 0 <= j < |times| ==> due <= times[j]
    ensures var t := Run(delay, Run(delay, Start(), es), Rounds(times));
      t.queue == [] && t.fired == TasksOf(delay, Asked(es))
  {
    var s := Run(delay, Start(), es);
    QueueDue(delay, es, due);
    StoppedFirst(delay, Start(), es);
    RoundsEmptyQueue(delay, s, times, due);
  }

  lemma QueueDue<K>(delay: nat, es: seq<Event<K>>, due: int)
    requires es != [] ==> exists t0 :: Clocked(t0, es)
    requires forall i :: 0 <= i < |Asked(es)| ==> Asked(es)[i].0 + delay <= due
    ensures var s := Run(delay, Start(), es);
      && s.fired + s.queue == TasksOf(delay, Asked(es))
      && forall i :: 0 <= i < |s.queue| ==> s.queue[i].fireAt <= due
  {
    var s, ts := Run(delay, Start(), es), TasksOf(delay, Asked(es));
    QueueProtocol(delay, es);
    RunSchedules(delay, Start(), es);
    assert [] + ts == ts;
    TasksAt(delay, Asked(es));
    TailDue(ts, s.fired, s.queue, due);
  }

  lemma TailDue<K>(ts: seq<Task<K>>, front: seq<Task<K>>, tail: seq<Task<K>>, due: int)
    requires ts == front + tail && forall i :: 0 <= i < |ts| ==> ts[i].fireAt <= due
    ensures forall i :: 0 <= i < |tail| ==> tail[i].fireAt <= due
  {
    assert forall i :: 0 <= i < |tail| ==> tail[i] == ts[|front| + i];
  }

  lemma {:induction false} StoppedFirst<K>(delay: nat, s: State<K>, es: seq<Event<K>>)
    requires s.exited ==> s.stop
    ensures Run(delay, s, es).exited ==> Run(delay, s, es).stop
    decreases |es|
  {
    if es != [] {
      StoppedFirst(delay, Apply(delay, s, es[0]), es[1..]);
    }
  }

  // ---- The object ----

  class Deleter<K(==)> {
    const delay: nat
    var queue: seq<Task<K>>
    var stop: bool
    var exited: bool
    var firing: Option<Task<K>>
    ghost var scheduled: seq<Task<K>>
    ghost var fired: seq<Task<K>>
    ghost var firedAt: seq<int>

    ghost function Value(): State<K>
      reads this
    {
      State(queue, stop, exited, firing, scheduled, fired, firedAt)
    }

    constructor (delay: nat)
      ensures Value() == Start() && this.delay == delay
    {
      this.delay := delay;
      queue, stop, exited, firing, scheduled, fired, firedAt := [], false, false, None, [], [], [];
    }

    method Enqueue(keys: seq<K>, now: int)
      modifies this
      ensures Value() == Apply(delay, old(Value()), Schedule(keys, now))
      ensures queue == old(queue) + if keys == [] then [] else [Task(now + delay, keys)]
    {
      if keys == [] {
        return;
      }
      queue := queue + [Task(now + delay, keys)];
      scheduled := scheduled + [Task(now + delay, keys)];
    }

    /** What the thread's loop does each time it holds the lock; the result is the batch of keys
        whose deletes it then issues without the lock. */
    method Round(now: int) returns (batch: seq<K>)
      requires !exited && firing.None?
      modifies this
      ensures Value() == Apply(delay, old(Value()), Poll(now))
      ensures if !old(stop) && old(queue) != [] && old(queue)[0].fireAt <= now
        then batch == old(queue)[0].keys && queue == old(queue)[1..] && firing == Some(old(queue)[0])
        else batch == [] && queue == old(queue) && firing.None?
      ensures exited == old(stop)
    {
      batch := [];
      if stop {
        exited := true;
        return;
      }
      if queue == [] {
        return;
      }
      var next := queue[0];
      if now < next.fireAt {
        return;
      }
      queue := queue[1..];
      firing := Some(next);
      fired := fired + [next];
      firedAt := firedAt + [now];
      batch := next.keys;
    }

    method Relock()
      modifies this
      ensures Value() == Apply(delay, old(Value()), FireDone)
    {
      firing := None;
    }

    method RequestStop()
      modifies this
      ensures Value() == Apply(delay, old(Value()), Stop)
    {
      stop := true;
    }
  }
}
