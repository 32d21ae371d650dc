/** The one way in which a request stays unanswered is reached: its commit fails and the client
    does not report it. */
module OrderSilence {
  import opened OrderProtocol
  import opened OrderInvariants
  import opened OrderTheorems
  import opened OrderProgress

  /** Nothing but its commit is left to do for the request, or that commit has failed. */
  predicate Doomable(q: Req) {
    q.stage.Decided? && (q.tx.Open? || q.tx.CommitQueued? || (q.lost && (q.tx.Acked? || q.tx.Closed?)))
  }

  lemma DoomedMoves(cfg: Config, s: State, r: nat) returns (e: Step)
    requires Inv(cfg, s) && r in s.reqs && Doomable(s.reqs[r]) && !Finished(s.reqs[r])
    ensures e.r == r && !e.Arrive? && Enabled(s, e)
    ensures r in Apply(cfg, s, e).reqs && Doomable(Apply(cfg, s, e).reqs[r])
  {
    var q := s.reqs[r];
    assert Local(cfg, q);
    if q.tx.Open? {
      e := PastUpdateMoves(cfg, s, r);
    } else if q.tx.CommitQueued? {
      e := CommitFails(r);
    } else if q.tx.Acked? {
      e := CommitCallback(r);
    } else {
      var c :| c in q.closures;
      e := Drop(r, c);
    }
  }

  lemma {:induction false} GoesSilent(cfg: Config, s: State, r: nat, n: nat) returns (es: seq<Step>)
    requires Inv(cfg, s) && r in s.reqs && Doomable(s.reqs[r]) && forall t :: t in s.reqs ==> t < n
    ensures Valid(cfg, s, es) && Inv(cfg, Run(cfg, s, es))
    ensures r in Run(cfg, s, es).reqs && Doomable(Run(cfg, s, es).reqs[r]) && Finished(Run(cfg, s, es).reqs[r])
    decreases Rank(s, n)
  {
    if Finished(s.reqs[r]) {
      es := [];
    } else {
      var e := DoomedMoves(cfg, s, r);
      DrainStep(cfg, s, e, n);
      var rest := GoesSilent(cfg, Apply(cfg, s, e), r, n);
      es := [e] + rest;
      Prepend(cfg, s, e, rest);
    }
  }

  /** An order for the last unit of a sku, up to its INSERT. */
  function Ordered(user: int, sku: int): seq<Step> {
    [Arrive(0, user, sku)] + ([OpenTx(0)] + ([Update(0)] + [Insert(0)]))
  }

  function Fresh(sku: int): State { State(map[], map[sku := 1], map[], 0, map[], {}) }

  lemma OrderedRun(cfg: Config, user: int, sku: int)
    ensures Valid(cfg, Fresh(sku), Ordered(user, sku))
    ensures var s := Run(cfg, Fresh(sku), Ordered(user, sku));
      s.reqs.Keys == {0} && s.reqs[0].user == user && s.reqs[0].sku == sku
      && Doomable(s.reqs[0])
  {
    var s1 := Apply(cfg, Fresh(sku), Arrive(0, user, sku));
    var s2 := Apply(cfg, s1, OpenTx(0));
    var s3 := Apply(cfg, s2, Update(0));
    Prepend(cfg, s3, Insert(0), []);
    Prepend(cfg, s2, Update(0), [Insert(0)]);
    Prepend(cfg, s1, OpenTx(0), [Update(0)] + [Insert(0)]);
    Prepend(cfg, Fresh(sku), Arrive(0, user, sku), [OpenTx(0)] + ([Update(0)] + [Insert(0)]));
  }

  /** For every user and sku there is a run after which the request is over and was never
      answered, whatever the guard, when the client is silent about failed commits. */
  lemma UnansweredRun(cfg: Config, user: int, sku: int) returns (tail: seq<Step>)
    requires !cfg.reportsFailure
    ensures Initial(Fresh(sku)) && Valid(cfg, Fresh(sku), Ordered(user, sku))
    ensures var s := Run(cfg, Fresh(sku), Ordered(user, sku));
      && Valid(cfg, s, tail)
      && 0 in Run(cfg, s, tail).reqs
      && var q := Run(cfg, s, tail).reqs[0];
         Finished(q) && q.lost && q.replies == []
  {
    OrderedRun(cfg, user, sku);
    InitialInv(cfg, Fresh(sku));
    RunInv(cfg, Fresh(sku), Ordered(user, sku));
    var s := Run(cfg, Fresh(sku), Ordered(user, sku));
    tail := GoesSilent(cfg, s, 0, 1);
    SilentAtEnd(cfg, Run(cfg, s, tail), 0);
  }

  lemma SilentAtEnd(cfg: Config, s: State, r: nat)
    requires Inv(cfg, s) && r in s.reqs && Doomable(s.reqs[r]) && Finished(s.reqs[r]) && !cfg.reportsFailure
    ensures s.reqs[r].lost && s.reqs[r].replies == []
  {
    assert Local(cfg, s.reqs[r]);
  }

  // ---- A token may go before the rollback ends ----

  /** After a rollback has been asked for, all that the request captured may go at once: its mark is
      then free while the database has still to undo, and to unlock, what it did. */
  lemma {:induction false} TokenMayGoFirst(cfg: Config, s: State, r: nat) returns (es: seq<Step>)
    requires Inv(cfg, s) && r in s.reqs && s.reqs[r].stage.Decided? && s.reqs[r].tx.RollbackQueued?
    ensures Valid(cfg, s, es)
    ensures var t := Run(cfg, s, es);
      && r in t.reqs && t.reqs[r].tx.RollbackQueued? && t.reqs[r].closures == {}
      && (s.reqs[r].guarded ==> t.reqs[r].released == 1)
      && (Live(s.reqs[r]) ==> cfg.mark(s.reqs[r].user, s.reqs[r].sku) !in t.marks)
      && t.lock == s.lock && t.stock == s.stock && t.marks <= s.marks
    decreases |s.reqs[r].closures|
  {
    assert Local(cfg, s.reqs[r]);
    if s.reqs[r].closures == {} {
      es := [];
    } else {
      var c :| c in s.reqs[r].closures;
      var s' := Apply(cfg, s, Drop(r, c));
      StepInv(cfg, s, Drop(r, c));
      assert |s.reqs[r].closures - {c}| < |s.reqs[r].closures|;
      var rest := TokenMayGoFirst(cfg, s', r);
      es := [Drop(r, c)] + rest;
      Prepend(cfg, s, Drop(r, c), rest);
    }
  }
}
