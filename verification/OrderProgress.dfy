/** Liveness of the order protocol: no run of a given number of orders goes on for ever, no state
    is a deadlock, and every state can be brought to an end without any failure. */
module OrderProgress {
  import opened OrderProtocol
  import opened OrderInvariants
  import opened OrderTheorems

  // ---- Every step brings its request closer to the end ----

  function StageRank(stage: Stage): nat {
    match stage
    case Opening => 3
    case Deducting => 2
    case Inserting => 1
    case Decided => 0
  }

  function TxRank(tx: Tx): nat {
    match tx
    case NoTx => 0
    case Open => 4
    case CommitQueued => 3
    case Acked(_) => 2
    case RollbackQueued => 1
    case Closed => 0
  }

  function ReqRank(q: Req): nat { 20 * StageRank(q.stage) + TxRank(q.tx) + |q.closures| }

  /** The rank of the requests numbered below `n`. */
  function Rank(s: State, n: nat): nat {
    if n == 0 then 0
    else Rank(s, n - 1) + (if n - 1 in s.reqs then ReqRank(s.reqs[n - 1]) else 0)
  }

  /** The rank of a request that was just let in. */
  const FRESH: nat := 62

  lemma OpenShrinks(q: Req)
    requires q.stage.Opening?
    ensures ReqRank(Opened(q)) < ReqRank(q)
  {
    var more := {Handle, CommitCb, UpdateOk, UpdateErr};
    assert |q.closures + more| == |q.closures| + |more| - |q.closures * more|;
  }

  lemma DeductShrinks(q: Req)
    requires q.stage.Deducting? && q.tx.Open?
    ensures ReqRank(Deducted(q)) < ReqRank(q)
  {
    var more := {InsertOk, InsertErr};
    assert |q.closures + more| == |q.closures| + |more| - |q.closures * more|;
  }

  lemma DropShrinks(q: Req, c: Closure)
    requires c in q.closures
    ensures ReqRank(DropReq(q, c)) < ReqRank(q)
  {
    assert |q.closures - {c}| == |q.closures| - 1;
  }

  lemma QueryShrinks(cfg: Config, s: State, e: Step)
    requires Inv(cfg, s) && Enabled(s, e)
    requires e.OpenNull? || e.OpenTx? || e.Update? || e.UpdateFails? || e.Insert? || e.InsertFails?
    ensures ReqRank(Apply(cfg, s, e).reqs[e.r]) < ReqRank(s.reqs[e.r])
  {
    var q := s.reqs[e.r];
    assert Local(cfg, q);
    if e.OpenTx? {
      OpenShrinks(q);
    } else if e.Update? {
      DeductShrinks(q);
    }
  }

  lemma ClosingShrinks(cfg: Config, s: State, e: Step)
    requires Enabled(s, e)
    requires e.Drop? || e.Commit? || e.CommitFails? || e.CommitCallback? || e.Rollback?
    ensures ReqRank(Apply(cfg, s, e).reqs[e.r]) < ReqRank(s.reqs[e.r])
  {
    if e.Drop? {
      DropShrinks(s.reqs[e.r], e.closure);
    }
  }

  lemma {:induction false} RankOfOne(s: State, s': State, r: nat, n: nat)
    requires r in s'.reqs && s'.reqs == s.reqs[r := s'.reqs[r]]
    ensures Rank(s', n) == Rank(s, n)
      + if r < n then ReqRank(s'.reqs[r]) - (if r in s.reqs then ReqRank(s.reqs[r]) else 0) else 0
  {
    if n > 0 {
      RankOfOne(s, s', r, n - 1);
    }
  }

  lemma StepShrinks(cfg: Config, s: State, e: Step, n: nat)
    requires Inv(cfg, s) && Enabled(s, e) && e.r < n
    ensures if e.Arrive? then Rank(Apply(cfg, s, e), n) <= Rank(s, n) + FRESH
      else Rank(Apply(cfg, s, e), n) < Rank(s, n)
  {
    SameOrder(cfg, s, e);
    RankOfOne(s, Apply(cfg, s, e), e.r, n);
    if e.Arrive? {
      assert |{Frame, OpenCb}| == 2;
    } else if e.Drop? || e.Commit? || e.CommitFails? || e.CommitCallback? || e.Rollback? {
      ClosingShrinks(cfg, s, e);
    } else {
      QueryShrinks(cfg, s, e);
    }
  }

  // ---- No run goes on for ever ----

  function Arrivals(es: seq<Step>): nat {
    if es == [] then 0 else (if es[0].Arrive? then 1 else 0) + Arrivals(es[1..])
  }

  lemma {:induction false} RunRank(cfg: Config, s: State, es: seq<Step>, n: nat)
    requires Inv(cfg, s) && Valid(cfg, s, es)
    requires forall i :: 0 <= i < |es| ==> es[i].r < n
    ensures |es| + Rank(Run(cfg, s, es), n) <= Rank(s, n) + (FRESH + 1) * Arrivals(es)
    decreases |es|
  {
    if es != [] {
      var s' := Apply(cfg, s, es[0]);
      StepInv(cfg, s, es[0]);
      StepShrinks(cfg, s, es[0], n);
      RunRank(cfg, s', es[1..], n);
    }
  }

  lemma {:induction false} IdsBounded(es: seq<Step>) returns (n: nat)
    ensures forall i :: 0 <= i < |es| ==> es[i].r < n
  {
    if es == [] {
      n := 0;
    } else {
      var m := IdsBounded(es[1..]);
      n := if es[0].r < m then m else es[0].r + 1;
      forall i | 0 <= i < |es| ensures es[i].r < n {
        assert i > 0 ==> es[i] == es[1..][i - 1];
      }
    }
  }

  lemma {:induction false} EmptyRank(s: State, n: nat)
    requires s.reqs == map[]
    ensures Rank(s, n) == 0
  {
    if n > 0 {
      EmptyRank(s, n - 1);
    }
  }

  /** A run of `m` orders has at most 63 * m steps, whatever the interleaving and the failures. */
  lemma RunsEnd(cfg: Config, init: State, es: seq<Step>)
    requires Initial(init) && Valid(cfg, init, es)
    ensures |es| <= 63 * Arrivals(es)
  {
    InitialInv(cfg, init);
    var n := IdsBounded(es);
    EmptyRank(init, n);
    RunRank(cfg, init, es, n);
  }

  // ---- No state is a deadlock ----

  /** A step of the protocol itself: neither a new order nor a failure. */
  predicate Forward(e: Step) {
    !e.Arrive? && !e.OpenNull? && !e.UpdateFails? && !e.InsertFails? && !e.CommitFails?
  }

  /** A transaction that is past its UPDATE waits for nobody. */
  lemma PastUpdateMoves(cfg: Config, s: State, r: nat) returns (e: Step)
    requires Inv(cfg, s) && r in s.reqs && PastUpdate(s.reqs[r])
    ensures Enabled(s, e) && Forward(e) && e.r == r
  {
    var q := s.reqs[r];
    assert Local(cfg, q);
    if q.stage.Inserting? {
      e := Insert(r);
    } else if q.tx.CommitQueued? {
      e := Commit(r);
    } else if q.tx.RollbackQueued? {
      e := Rollback(r);
    } else {
      var c := if Handle in q.closures then Handle
        else if UpdateOk in q.closures then UpdateOk
        else if UpdateErr in q.closures then UpdateErr
        else if InsertOk in q.closures then InsertOk else InsertErr;
      e := Drop(r, c);
    }
  }

  /** Whatever is unfinished can move, or waits for the holder of its sku row, who can. */
  lemma NoDeadlock(cfg: Config, s: State, r: nat) returns (e: Step)
    requires Inv(cfg, s) && r in s.reqs && !Finished(s.reqs[r])
    ensures Enabled(s, e) && Forward(e)
    ensures e.r == r || (s.reqs[r].stage.Deducting? && s.reqs[r].sku in s.lock && s.lock[s.reqs[r].sku] == e.r)
  {
    var q := s.reqs[r];
    assert Local(cfg, q);
    if q.stage.Opening? {
      e := OpenTx(r);
    } else if q.stage.Deducting? {
      if q.sku in s.lock {
        e := PastUpdateMoves(cfg, s, s.lock[q.sku]);
      } else {
        e := Update(r);
      }
    } else if PastUpdate(q) {
      e := PastUpdateMoves(cfg, s, r);
    } else if q.tx.Acked? {
      e := CommitCallback(r);
    } else {
      var c :| c in q.closures;
      e := Drop(r, c);
    }
  }

  predicate AllFinished(s: State) { forall r :: r in s.reqs ==> Finished(s.reqs[r]) }

  lemma DrainStep(cfg: Config, s: State, e: Step, n: nat)
    requires Inv(cfg, s) && Enabled(s, e) && !e.Arrive? && forall r :: r in s.reqs ==> r < n
    ensures Inv(cfg, Apply(cfg, s, e)) && Rank(Apply(cfg, s, e), n) < Rank(s, n)
    ensures forall r :: r in Apply(cfg, s, e).reqs ==> r < n
  {
    StepInv(cfg, s, e);
    StepShrinks(cfg, s, e, n);
    SameOrder(cfg, s, e);
  }

  /** A continuation without arrivals and failures after which nothing is unfinished. */
  ghost predicate CleanEnd(cfg: Config, s: State, rest: seq<Step>) {
    && Valid(cfg, s, rest)
    && (forall i :: 0 <= i < |rest| ==> Forward(rest[i]))
    && AllFinished(Run(cfg, s, rest))
  }

  lemma CleanEndBefore(cfg: Config, s: State, e: Step, rest: seq<Step>)
    requires Enabled(s, e) && Forward(e) && CleanEnd(cfg, Apply(cfg, s, e), rest)
    ensures CleanEnd(cfg, s, [e] + rest)
  {
    Prepend(cfg, s, e, rest);
  }

  lemma FinishedOrNot(s: State) returns (found: bool, r: nat)
    ensures if found then r in s.reqs && !Finished(s.reqs[r]) else AllFinished(s)
  {
    found, r := false, 0;
    if t :| t in s.reqs && !Finished(s.reqs[t]) {
      found, r := true, t;
    }
  }

  lemma {:induction false} Drain(cfg: Config, s: State, n: nat) returns (es: seq<Step>)
    requires Inv(cfg, s) && forall r :: r in s.reqs ==> r < n
    ensures CleanEnd(cfg, s, es)
    decreases Rank(s, n)
  {
    var found, r := FinishedOrNot(s);
    if found {
      var e := NoDeadlock(cfg, s, r);
      DrainStep(cfg, s, e, n);
      var rest := Drain(cfg, Apply(cfg, s, e), n);
      CleanEndBefore(cfg, s, e, rest);
      es := [e] + rest;
    } else {
      es := [];
    }
  }

  /** After everything has finished nothing is left behind: no row lock, no mark, no open change. */
  lemma NothingLeft(cfg: Config, s: State)
    requires Inv(cfg, s) && AllFinished(s)
    ensures s.lock == map[] && s.marks == {}
    ensures forall k :: k in s.stock ==> CommittedStock(s, k) == s.stock[k]
    ensures forall id: nat :: !Uncommitted(s, id)
  {
    forall r | r in s.reqs ensures Local(cfg, s.reqs[r]) && !PastUpdate(s.reqs[r]) && !Live(s.reqs[r]) {}
    assert forall k :: k in s.lock ==> false;
    assert forall m :: m in s.marks ==> false;
  }

  /** From every reachable state the protocol can run to a clean end without a single failure. */
  lemma RunsCanFinish(cfg: Config, init: State, es: seq<Step>) returns (rest: seq<Step>)
    requires Initial(init) && Valid(cfg, init, es)
    ensures var s := Run(cfg, init, es);
      CleanEnd(cfg, s, rest) && Run(cfg, s, rest).lock == map[] && Run(cfg, s, rest).marks == {}
  {
    InitialInv(cfg, init);
    RunInv(cfg, init, es);
    var s := Run(cfg, init, es);
    var n := KeysBounded(s.reqs.Keys);
    rest := Drain(cfg, s, n);
    RunInv(cfg, s, rest);
    NothingLeft(cfg, Run(cfg, s, rest));
  }

  lemma KeysBounded(keys: set<nat>) returns (n: nat)
    ensures forall r :: r in keys ==> r < n
  {
    if keys == {} {
      n := 0;
    } else {
      var x :| x in keys;
      var m := KeysBounded(keys - {x});
      n := if x < m then m else x + 1;
      forall r | r in keys ensures r < n {
        assert r != x ==> r in keys - {x};
      }
    }
  }
}
