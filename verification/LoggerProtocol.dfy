/** The protocol around the log ring: producers, one worker and the shutdown, interleaved in any
    order. Each lock-protected section and each atomic operation is one step. */
module LoggerProtocol {
  import opened RingBuffer

  datatype Message = Message(level: int, text: string)

  /** A worker that is alive still has to write the rest of its batch. */
  datatype Worker = NoWorker | Alive(batch: seq<Message>) | Exited

  /** How far a call of `shutdown` has come. */
  datatype Shutdown = Idle | Claimed | StopAsked

  /** `starting` is the time between the claim of `running` and the creation of the worker.
      `entered` are the messages of callers past the check of `running` and before their push;
      `admitted` counts them from the beginning. `accepted` is everything the ring ever took, in
      order, and `written` what was handed to the file. */
  datatype State = State(
    running: bool,
    starting: bool,
    queue: Queue<Message>,
    worker: Worker,
    shutdown: Shutdown,
    entered: multiset<Message>,
    admitted: nat,
    accepted: seq<Message>,
    written: seq<Message>)

  datatype Step =
    | StartClaim
    | StartWorker
    | Log(m: Message)
    | Push(m: Message)
    | Pop
    | Write
    | ShutdownClaim
    | ShutdownStop
    | ShutdownJoin

  /** A worker waits for messages or the stop; a join waits for the worker's end. A second worker
      is only started after the first was joined, and no shutdown overtakes a start. */
  predicate Enabled(s: State, e: Step) {
    match e
    case StartClaim => s.running || s.worker.NoWorker?
    case StartWorker => s.starting
    case Log(_) => true
    case Push(m) => m in s.entered
    case Pop => s.worker == Alive([]) && (s.queue.items != [] || s.queue.stop)
    case Write => s.worker.Alive? && s.worker.batch != []
    case ShutdownClaim => !s.starting
    case ShutdownStop => s.shutdown.Claimed?
    case ShutdownJoin => s.shutdown.StopAsked? && s.worker.Exited?
  }

  function Apply(capacity: nat, s: State, e: Step): State
    requires Enabled(s, e)
  {
    match e
    case StartClaim => if s.running then s else s.(running := true, starting := true)
    case StartWorker => s.(starting := false, worker := Alive([]))
    case Log(m) => if s.running then s.(entered := s.entered + multiset{m}, admitted := s.admitted + 1) else s
    case Push(m) =>
      s.(entered := s.entered - multiset{m},
         queue := Pushed(s.queue, capacity, m),
         accepted := if |s.queue.items| == capacity then s.accepted else s.accepted + [m])
    case Pop =>
      if s.queue.items == [] then s.(worker := Exited)
      else s.(worker := Alive(s.queue.items), queue := s.queue.(items := []))
    case Write => s.(worker := Alive(s.worker.batch[1..]), written := s.written + [s.worker.batch[0]])
    case ShutdownClaim => if s.running then s.(running := false, shutdown := Claimed) else s
    case ShutdownStop => s.(queue := s.queue.(stop := true), shutdown := StopAsked)
    case ShutdownJoin => s.(worker := NoWorker, shutdown := Idle)
  }

  ghost predicate Valid(capacity: nat, s: State, es: seq<Step>)
    decreases |es|
  {
    es == [] || (Enabled(s, es[0]) && Valid(capacity, Apply(capacity, s, es[0]), es[1..]))
  }

  function Run(capacity: nat, s: State, es: seq<Step>): State
    requires Valid(capacity, s, es)
    decreases |es|
  {
    if es == [] then s else Run(capacity, Apply(capacity, s, es[0]), es[1..])
  }

  lemma Before(capacity: nat, s: State, e: Step, rest: seq<Step>)
    requires Enabled(s, e) && Valid(capacity, Apply(capacity, s, e), rest)
    ensures Valid(capacity, s, [e] + rest) && Run(capacity, s, [e] + rest) == Run(capacity, Apply(capacity, s, e), rest)
  {
    assert ([e] + rest)[1..] == rest;
  }

  lemma {:induction false} Append(capacity: nat, s: State, a: seq<Step>, b: seq<Step>)
    requires Valid(capacity, s, a) && Valid(capacity, Run(capacity, s, a), b)
    ensures Valid(capacity, s, a + b) && Run(capacity, s, a + b) == Run(capacity, Run(capacity, s, a), b)
    decreases |a|
  {
    if a == [] {
      assert a + b == b;
    } else {
      Append(capacity, Apply(capacity, s, a[0]), a[1..], b);
      Before(capacity, s, a[0], a[1..] + b);
      assert a + b == [a[0]] + (a[1..] + b);
    }
  }

  lemma {:induction false} Prefix(capacity: nat, s: State, a: seq<Step>, b: seq<Step>)
    requires Valid(capacity, s, a + b)
    ensures Valid(capacity, s, a) && Valid(capacity, Run(capacity, s, a), b)
    ensures Run(capacity, s, a + b) == Run(capacity, Run(capacity, s, a), b)
    decreases |a|
  {
    if a == [] {
      assert a + b == b;
    } else {
      assert (a + b)[1..] == a[1..] + b;
      Prefix(capacity, Apply(capacity, s, a[0]), a[1..], b);
    }
  }

  const INITIAL: State := State(false, false, Queue([], 0, false), NoWorker, Idle, multiset{}, 0, [], [])

  // ---- What every run keeps ----

  function Batch(s: State): seq<Message> { if s.worker.Alive? then s.worker.batch else [] }

  /** Everything accepted is written, in the worker's hands or queued, in that order; everything
      admitted is accepted, dropped or about to be pushed. */
  predicate Balanced(capacity: nat, s: State) {
    && s.accepted == s.written + Batch(s) + s.queue.items
    && |s.queue.items| <= capacity
    && s.admitted == |s.accepted| + s.queue.dropped + |s.entered|
  }

  /** A worker has only gone after the stop, and there is one while the logger runs or ends. */
  predicate Staffed(s: State) {
    && (s.worker.Exited? || s.shutdown.StopAsked? ==> s.queue.stop)
    && (s.running ==> s.shutdown.Idle?)
    && (s.starting ==> s.running)
    && (s.worker.NoWorker? <==> s.starting || (!s.running && s.shutdown.Idle?))
  }

  lemma PushBalanced(capacity: nat, s: State, m: Message)
    requires Balanced(capacity, s) && Enabled(s, Push(m))
    ensures Balanced(capacity, Apply(capacity, s, Push(m)))
  {
    var s' := Apply(capacity, s, Push(m));
    assert s.entered == s'.entered + multiset{m};
    assert |s.queue.items| < capacity ==>
      s.written + Batch(s) + s.queue.items + [m] == s'.written + Batch(s') + s'.queue.items;
  }

  lemma PopBalanced(capacity: nat, s: State)
    requires Balanced(capacity, s) && Enabled(s, Pop)
    ensures Balanced(capacity, Apply(capacity, s, Pop))
  {}

  lemma WriteBalanced(capacity: nat, s: State)
    requires Balanced(capacity, s) && Enabled(s, Write)
    ensures Balanced(capacity, Apply(capacity, s, Write))
  {
    var b := s.worker.batch;
    assert s.written + b == (s.written + [b[0]]) + b[1..];
  }

  lemma StepBalanced(capacity: nat, s: State, e: Step)
    requires Balanced(capacity, s) && Staffed(s) && Enabled(s, e)
    ensures Balanced(capacity, Apply(capacity, s, e))
  {
    match e
    case Push(m) => PushBalanced(capacity, s, m);
    case Pop => PopBalanced(capacity, s);
    case Write => WriteBalanced(capacity, s);
    case _ =>
  }

  lemma StepStaffed(capacity: nat, s: State, e: Step)
    requires Staffed(s) && Enabled(s, e)
    ensures Staffed(Apply(capacity, s, e))
    ensures s.queue.stop ==> Apply(capacity, s, e).queue.stop
  {}

  lemma {:induction false} RunKeeps(capacity: nat, s: State, es: seq<Step>)
    requires Balanced(capacity, s) && Staffed(s) && Valid(capacity, s, es)
    ensures Balanced(capacity, Run(capacity, s, es)) && Staffed(Run(capacity, s, es))
    ensures s.queue.stop ==> Run(capacity, s, es).queue.stop
    decreases |es|
  {
    if es != [] {
      StepBalanced(capacity, s, es[0]);
      StepStaffed(capacity, s, es[0]);
      RunKeeps(capacity, Apply(capacity, s, es[0]), es[1..]);
    }
  }

  /** In every interleaving: what was written is a prefix of what was accepted, in the same order,
      each message once; nothing admitted goes missing; the ring never overfills. */
  lemma NothingLost(capacity: nat, es: seq<Step>)
    requires Valid(capacity, INITIAL, es)
    ensures var s := Run(capacity, INITIAL, es);
      && s.accepted == s.written + Batch(s) + s.queue.items
      && s.admitted == |s.accepted| + s.queue.dropped + |s.entered|
      && |s.queue.items| <= capacity
  {
    RunKeeps(capacity, INITIAL, es);
  }

  /** When the worker leaves, everything accepted up to then has been written. */
  lemma ExitWritesAll(capacity: nat, es: seq<Step>)
    requires Valid(capacity, INITIAL, es) && Enabled(Run(capacity, INITIAL, es), Pop)
    requires Apply(capacity, Run(capacity, INITIAL, es), Pop).worker.Exited?
    ensures var s := Run(capacity, INITIAL, es); s.queue.stop && s.written == s.accepted
  {
    RunKeeps(capacity, INITIAL, es);
  }

  // ---- After the worker has left ----

  predicate Starts(es: seq<Step>) { exists i :: 0 <= i < |es| && es[i].StartClaim? }

  predicate Pushes(es: seq<Step>) { exists i :: 0 <= i < |es| && es[i].Push? }

  lemma TailOf(es: seq<Step>)
    requires es != []
    ensures Starts(es) <==> es[0].StartClaim? || Starts(es[1..])
    ensures Pushes(es) <==> es[0].Push? || Pushes(es[1..])
  {
    var rest := es[1..];
    if i :| 0 <= i < |es| && es[i].StartClaim? {
      assert i > 0 ==> rest[i - 1].StartClaim?;
    }
    if i :| 0 <= i < |es| && es[i].Push? {
      assert i > 0 ==> rest[i - 1].Push?;
    }
    assert forall i :: 0 <= i < |rest| ==> rest[i] == es[i + 1];
  }

  /** From then on nothing more is written, unless the logger is started again. So all that was
      accepted is written, then and later, if and only if the ring was empty and nobody pushes. */
  lemma {:induction false} NothingAfterExit(capacity: nat, s: State, es: seq<Step>)
    requires capacity > 0 && Balanced(capacity, s) && Staffed(s) && Valid(capacity, s, es)
    requires !s.worker.Alive? && !s.starting && !Starts(es)
    ensures var t := Run(capacity, s, es);
      && !t.worker.Alive? && !t.starting && t.written == s.written
      && (t.written == t.accepted <==> s.queue.items == [] && !Pushes(es))
    decreases |es|
  {
    if es != [] {
      TailOf(es);
      StepBalanced(capacity, s, es[0]);
      StepStaffed(capacity, s, es[0]);
      NothingAfterExit(capacity, Apply(capacity, s, es[0]), es[1..]);
    }
  }

  // ---- The shutdown comes to its end ----

  predicate WorkerSteps(es: seq<Step>) { forall i :: 0 <= i < |es| ==> es[i].Pop? || es[i].Write? }

  /** After the stop the worker never waits: alone it writes all that was accepted, and leaves. */
  lemma {:induction false} WorkerFinishes(capacity: nat, s: State) returns (es: seq<Step>)
    requires Balanced(capacity, s) && Staffed(s) && s.worker.Alive? && s.queue.stop
    ensures WorkerSteps(es) && Valid(capacity, s, es)
    ensures Run(capacity, s, es) == s.(worker := Exited, written := s.accepted, queue := s.queue.(items := []))
    ensures |es| == |Batch(s)| + |s.queue.items| + (if s.queue.items == [] then 1 else 2)
    decreases |Batch(s)| + 2 * |s.queue.items|
  {
    var e := if s.worker.batch != [] then Write else Pop;
    var t := Apply(capacity, s, e);
    var rest := [];
    if t.worker.Alive? {
      StepBalanced(capacity, s, e);
      StepStaffed(capacity, s, e);
      rest := WorkerFinishes(capacity, t);
    }
    es := [e] + rest;
    Before(capacity, s, e, rest);
  }

  /** The logger is closed to new messages and none is on its way. */
  predicate Closing(s: State) {
    !s.running && !s.starting && s.entered == multiset{} && (!s.worker.Alive? ==> s.written == s.accepted)
  }

  lemma {:induction false} ClosingKeeps(capacity: nat, s: State, es: seq<Step>)
    requires Balanced(capacity, s) && Staffed(s) && Valid(capacity, s, es) && Closing(s) && !Starts(es)
    ensures Closing(Run(capacity, s, es))
    decreases |es|
  {
    if es != [] {
      TailOf(es);
      StepBalanced(capacity, s, es[0]);
      StepStaffed(capacity, s, es[0]);
      ClosingKeeps(capacity, Apply(capacity, s, es[0]), es[1..]);
    }
  }

  /** One call of `shutdown` from its first step to its last, with anything in between. */
  function ShutdownWith(mid: seq<Step>): seq<Step> { [ShutdownClaim] + (mid + [ShutdownJoin]) }

  lemma QuietShutdown(capacity: nat, s: State, mid: seq<Step>)
    requires Balanced(capacity, s) && Staffed(s) && s.running && !s.starting && s.entered == multiset{}
    requires s.worker.Exited? ==> s.queue.items == []
    requires Valid(capacity, s, ShutdownWith(mid)) && !Starts(mid)
    ensures Run(capacity, s, ShutdownWith(mid)).written == Run(capacity, s, ShutdownWith(mid)).accepted
  {
    var s1, rest := Apply(capacity, s, ShutdownClaim), mid + [ShutdownJoin];
    assert ShutdownWith(mid)[1..] == rest;
    StepBalanced(capacity, s, ShutdownClaim);
    StepStaffed(capacity, s, ShutdownClaim);
    Prefix(capacity, s1, mid, [ShutdownJoin]);
    ClosingKeeps(capacity, s1, mid);
    assert [ShutdownJoin][1..] == [];
  }

  /** A caller that passed the check in time and pushes after the worker has left: its message is
      accepted, not counted as dropped, and not written when the shutdown returns. */
  lemma LatePush(capacity: nat, s: State, m: Message) returns (mid: seq<Step>)
    requires capacity > 0 && Balanced(capacity, s) && Staffed(s)
    requires s.running && s.worker.Alive? && m in s.entered
    ensures Valid(capacity, s, ShutdownWith(mid)) && !Starts(mid)
    ensures var t := Run(capacity, s, ShutdownWith(mid));
      t.accepted == s.accepted + [m] && t.written == s.accepted && t.queue.dropped == s.queue.dropped
  {
    var s1 := Apply(capacity, s, ShutdownClaim);
    StepBalanced(capacity, s, ShutdownClaim);
    StepStaffed(capacity, s, ShutdownClaim);
    StepBalanced(capacity, s1, ShutdownStop);
    StepStaffed(capacity, s1, ShutdownStop);
    var drain := LatePushTail(capacity, Apply(capacity, s1, ShutdownStop), m);
    var tail := drain + ([Push(m)] + [ShutdownJoin]);
    Before(capacity, s1, ShutdownStop, tail);
    Before(capacity, s, ShutdownClaim, [ShutdownStop] + tail);
    mid := [ShutdownStop] + drain + [Push(m)];
    assert mid + [ShutdownJoin] == [ShutdownStop] + tail;
    assert forall i :: 0 <= i < |drain| ==> mid[i + 1] == drain[i];
  }

  lemma LatePushTail(capacity: nat, s: State, m: Message) returns (drain: seq<Step>)
    requires capacity > 0 && Balanced(capacity, s) && Staffed(s)
    requires s.shutdown.StopAsked? && s.worker.Alive? && m in s.entered
    ensures var es := drain + ([Push(m)] + [ShutdownJoin]);
      && WorkerSteps(drain) && Valid(capacity, s, es)
      && Run(capacity, s, es).accepted == s.accepted + [m] && Run(capacity, s, es).written == s.accepted
      && Run(capacity, s, es).queue.dropped == s.queue.dropped
  {
    drain := WorkerFinishes(capacity, s);
    var left := Run(capacity, s, drain);
    var pushed := Apply(capacity, left, Push(m));
    Before(capacity, pushed, ShutdownJoin, []);
    Before(capacity, left, Push(m), [ShutdownJoin]);
    Append(capacity, s, drain, [Push(m)] + [ShutdownJoin]);
  }

  /** A shutdown of a running logger whose worker has left: what is in the ring, or comes there
      late, stays there. */
  lemma ShutdownOfLost(capacity: nat, s: State) returns (mid: seq<Step>)
    requires capacity > 0 && Balanced(capacity, s) && Staffed(s) && s.running && s.worker.Exited?
    requires s.entered != multiset{} || s.queue.items != []
    ensures Valid(capacity, s, ShutdownWith(mid)) && !Starts(mid)
    ensures Run(capacity, s, ShutdownWith(mid)).written != Run(capacity, s, ShutdownWith(mid)).accepted
  {
    var s2 := Apply(capacity, Apply(capacity, s, ShutdownClaim), ShutdownStop);
    var tail := [];
    if s.queue.items == [] {
      var m :| m in s.entered;
      tail := [Push(m)];
      Before(capacity, Apply(capacity, s2, Push(m)), ShutdownJoin, []);
      Before(capacity, s2, Push(m), [ShutdownJoin]);
    } else {
      Before(capacity, s2, ShutdownJoin, []);
      assert tail + [ShutdownJoin] == [ShutdownJoin];
    }
    assert |Run(capacity, s2, tail + [ShutdownJoin]).accepted| > |Run(capacity, s2, tail + [ShutdownJoin]).written|;
    Before(capacity, Apply(capacity, s, ShutdownClaim), ShutdownStop, tail + [ShutdownJoin]);
    Before(capacity, s, ShutdownClaim, [ShutdownStop] + (tail + [ShutdownJoin]));
    mid := [ShutdownStop] + tail;
    assert mid + [ShutdownJoin] == [ShutdownStop] + (tail + [ShutdownJoin]);
  }

  /** Every shutdown from here hands everything that was accepted to the file, whatever happens
      while it runs. */
  ghost predicate ShutdownsWriteAll(capacity: nat, s: State) {
    forall mid :: Valid(capacity, s, ShutdownWith(mid)) && !Starts(mid) ==>
      Run(capacity, s, ShutdownWith(mid)).written == Run(capacity, s, ShutdownWith(mid)).accepted
  }

  /** For a running logger that holds if and only if no caller is past the check of `running` when
      the shutdown clears it and a worker that has left has left nothing in the ring. */
  lemma ShutdownExact(capacity: nat, s: State)
    requires capacity > 0 && Balanced(capacity, s) && Staffed(s) && s.running && !s.starting
    ensures ShutdownsWriteAll(capacity, s)
      <==> s.entered == multiset{} && (s.worker.Exited? ==> s.queue.items == [])
  {
    if s.entered == multiset{} && (s.worker.Exited? ==> s.queue.items == []) {
      forall mid | Valid(capacity, s, ShutdownWith(mid)) && !Starts(mid) {
        QuietShutdown(capacity, s, mid);
      }
    } else if s.worker.Exited? {
      var mid := ShutdownOfLost(capacity, s);
    } else {
      var m :| m in s.entered;
      var mid := LatePush(capacity, s, m);
      assert |Run(capacity, s, ShutdownWith(mid)).accepted| > |Run(capacity, s, ShutdownWith(mid)).written|;
    }
  }

  /** Such a state is reached by starting the logger and one call of `log`. */
  lemma LatePushReached(capacity: nat, m: Message)
    ensures var es := [StartClaim, StartWorker, Log(m)];
      && Valid(capacity, INITIAL, es)
      && Run(capacity, INITIAL, es) == State(true, false, Queue([], 0, false), Alive([]), Idle, multiset{m}, 1, [], [])
  {
    var s1 := INITIAL.(running := true, starting := true);
    var s2 := INITIAL.(running := true, worker := Alive([]));
    assert Apply(capacity, s2, Log(m)).entered == multiset{m} by { assert multiset{} + multiset{m} == multiset{m}; }
    Before(capacity, s2, Log(m), []);
    Before(capacity, s1, StartWorker, [Log(m)]);
    Before(capacity, INITIAL, StartClaim, [StartWorker] + [Log(m)]);
    assert [StartClaim] + ([StartWorker] + [Log(m)]) == [StartClaim, StartWorker, Log(m)];
  }

  // ---- A second start ----

  /** The stop is never taken back. Whatever follows it, a new start included, a worker that finds
      the ring empty leaves at once, also while the logger counts as running. */
  lemma StopIsForGood(capacity: nat, s: State, es: seq<Step>)
    requires Balanced(capacity, s) && Staffed(s) && s.queue.stop && Valid(capacity, s, es)
    ensures var t := Run(capacity, s, es);
      && t.queue.stop
      && (t.worker == Alive([]) && t.queue.items == [] ==>
            Enabled(t, Pop) && Apply(capacity, t, Pop) == t.(worker := Exited))
  {
    RunKeeps(capacity, s, es);
  }

  predicate Stops(es: seq<Step>) { exists i :: 0 <= i < |es| && es[i].ShutdownStop? }

  lemma StopsTail(es: seq<Step>)
    requires es != []
    ensures Stops(es) <==> es[0].ShutdownStop? || Stops(es[1..])
  {
    if i :| 0 <= i < |es| && es[i].ShutdownStop? {
      assert i > 0 ==> es[1..][i - 1].ShutdownStop?;
    }
    assert forall i :: 0 <= i < |es[1..]| ==> es[1..][i] == es[i + 1];
  }

  /** The ring is stopped exactly from the first shutdown on. */
  lemma {:induction false} StoppedExact(capacity: nat, s: State, es: seq<Step>)
    requires Valid(capacity, s, es)
    ensures Run(capacity, s, es).queue.stop <==> s.queue.stop || Stops(es)
    decreases |es|
  {
    if es != [] {
      StopsTail(es);
      StoppedExact(capacity, Apply(capacity, s, es[0]), es[1..]);
    }
  }

  predicate Shuts(es: seq<Step>) { exists i :: 0 <= i < |es| && es[i].ShutdownClaim? }

  lemma ShutsTail(es: seq<Step>)
    requires es != [] && !Shuts(es)
    ensures !es[0].ShutdownClaim? && !Shuts(es[1..])
  {
    assert forall i :: 0 <= i < |es[1..]| ==> es[1..][i] == es[i + 1];
  }

  /** Before the first stop a running logger that nobody shuts down is not stopped. */
  lemma {:induction false} StaysUnstopped(capacity: nat, s: State, es: seq<Step>)
    requires Staffed(s) && s.running && !s.queue.stop && Valid(capacity, s, es) && !Shuts(es)
    ensures var t := Run(capacity, s, es); Staffed(t) && t.running && !t.queue.stop
    decreases |es|
  {
    if es != [] {
      ShutsTail(es);
      StepStaffed(capacity, s, es[0]);
      StaysUnstopped(capacity, Apply(capacity, s, es[0]), es[1..]);
    }
  }

  /** Without being shut down the logger can come to a state in which it runs without a worker. */
  ghost predicate CanLoseWorker(capacity: nat, s: State) {
    exists es :: Valid(capacity, s, es) && !Shuts(es) && Run(capacity, s, es).running && Run(capacity, s, es).worker.Exited?
  }

  /** A running logger can lose its worker, without being shut down, if and only if the ring was
      stopped before, by an earlier shutdown (`StoppedExact`). */
  lemma LoseWorkerExact(capacity: nat, s: State)
    requires Balanced(capacity, s) && Staffed(s) && s.running && !s.starting && s.worker.Alive?
    ensures CanLoseWorker(capacity, s) <==> s.queue.stop
  {
    if s.queue.stop {
      var es := WorkerFinishes(capacity, s);
      assert Valid(capacity, s, es) && !Shuts(es);
    } else {
      forall es | Valid(capacity, s, es) && !Shuts(es) ensures !Run(capacity, s, es).worker.Exited? {
        StaysUnstopped(capacity, s, es);
      }
    }
  }

  /** A run that gets there: start, shut down, start again. The logger counts as running and its
      worker has left. */
  lemma RestartLosesWorker(capacity: nat)
    ensures var es := [StartClaim, StartWorker, ShutdownClaim, ShutdownStop, Pop, ShutdownJoin, StartClaim, StartWorker, Pop];
      && Valid(capacity, INITIAL, es)
      && Run(capacity, INITIAL, es)
         == State(true, false, Queue([], 0, true), Exited, Idle, multiset{}, 0, [], [])
  {
    var stopped := INITIAL.(queue := Queue([], 0, true));
    RestartEnd(capacity, stopped);
    var s2 := INITIAL.(running := true, worker := Alive([]));
    var s4 := stopped.(worker := Alive([]), shutdown := StopAsked);
    var a, b := [ShutdownStop, Pop, ShutdownJoin], [StartClaim, StartWorker, Pop];
    Before(capacity, s4.(worker := Exited), ShutdownJoin, b);
    Before(capacity, s4, Pop, [ShutdownJoin] + b);
    Before(capacity, s2.(running := false, shutdown := Claimed), ShutdownStop, [Pop] + ([ShutdownJoin] + b));
    Before(capacity, s2, ShutdownClaim, [ShutdownStop] + ([Pop] + ([ShutdownJoin] + b)));
    var rest := [ShutdownClaim] + ([ShutdownStop] + ([Pop] + ([ShutdownJoin] + b)));
    Before(capacity, INITIAL.(running := true, starting := true), StartWorker, rest);
    Before(capacity, INITIAL, StartClaim, [StartWorker] + rest);
    assert [StartClaim] + ([StartWorker] + rest)
      == [StartClaim, StartWorker, ShutdownClaim, ShutdownStop, Pop, ShutdownJoin, StartClaim, StartWorker, Pop];
  }

  lemma RestartEnd(capacity: nat, s: State)
    requires s == INITIAL.(queue := Queue([], 0, true))
    ensures Valid(capacity, s, [StartClaim, StartWorker, Pop])
    ensures Run(capacity, s, [StartClaim, StartWorker, Pop]) == s.(running := true, worker := Exited)
  {
    var s2 := s.(running := true, worker := Alive([]));
    Before(capacity, s2, Pop, []);
    Before(capacity, s.(running := true, starting := true), StartWorker, [Pop]);
    Before(capacity, s, StartClaim, [StartWorker] + [Pop]);
    assert [StartClaim] + ([StartWorker] + [Pop]) == [StartClaim, StartWorker, Pop];
  }

  /** And on from there: one message, and a shutdown that no caller overlaps. The message has been
      accepted and is not written. */
  lemma RestartLosesMessage(capacity: nat, s: State, m: Message)
    requires capacity > 0 && Balanced(capacity, s) && Staffed(s)
    requires s.running && s.worker.Exited? && s.entered == multiset{} && s.queue.items == []
    ensures Valid(capacity, s, [Log(m), Push(m)])
    ensures var t := Run(capacity, s, [Log(m), Push(m)]);
      t.entered == multiset{} && t.running && !ShutdownsWriteAll(capacity, t)
  {
    var s1 := Apply(capacity, s, Log(m));
    assert s1.entered == multiset{m};
    var s2 := Apply(capacity, s1, Push(m));
    assert s2.entered == multiset{};
    StepBalanced(capacity, s, Log(m));
    StepStaffed(capacity, s, Log(m));
    StepBalanced(capacity, s1, Push(m));
    StepStaffed(capacity, s1, Push(m));
    Before(capacity, s1, Push(m), []);
    Before(capacity, s, Log(m), [Push(m)]);
    assert [Log(m)] + [Push(m)] == [Log(m), Push(m)];
    ShutdownExact(capacity, s2);
  }
}
