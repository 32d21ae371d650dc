/** The in-flight guard is a safe optimisation: strike the requests it turned away out of any run,
    and what is left is a run without a guard that makes the same database states and gives the
    same answers. */
module GuardErasure {
  import opened OrderProtocol

  function Unguarded(cfg: Config): Config { cfg.(guardOn := false) }

  /** A request without its token. */
  function Bare(q: Req): Req { q.(guarded := false, released := 0) }

  /** The state without the guard and the requests it turned away. */
  function Erase(s: State): State {
    s.(reqs := map r | r in s.reqs && s.reqs[r].guarded :: Bare(s.reqs[r]), marks := {})
  }

  predicate TurnsAway(cfg: Config, s: State, e: Step) {
    e.Arrive? && cfg.mark(e.user, e.sku) in s.marks
  }

  /** The run without the arrivals that the guard turned away. */
  function EraseRun(cfg: Config, s: State, es: seq<Step>): seq<Step>
    requires Valid(cfg, s, es)
    decreases |es|
  {
    if es == [] then []
    else (if TurnsAway(cfg, s, es[0]) then [] else [es[0]]) + EraseRun(cfg, Apply(cfg, s, es[0]), es[1..])
  }

  /** With the guard on, whoever has no token was turned away and never moves again. */
  predicate GateInv(s: State) {
    forall r :: r in s.reqs && !s.reqs[r].guarded ==>
      s.reqs[r] == TurnedAway(s.reqs[r].user, s.reqs[r].sku)
  }

  lemma MoverIsGuarded(s: State, e: Step)
    requires GateInv(s) && Enabled(s, e) && !e.Arrive?
    ensures s.reqs[e.r].guarded
  {}

  lemma EraseWith(s: State, r: nat, q: Req)
    requires q.guarded || r !in s.reqs
    ensures Erase(With(s, r, q)) == if q.guarded then With(Erase(s), r, Bare(q)) else Erase(s)
  {
    assert Erase(With(s, r, q)).reqs == if q.guarded then Erase(s).reqs[r := Bare(q)] else Erase(s).reqs;
  }

  lemma ArriveErased(cfg: Config, s: State, r: nat, user: int, sku: int)
    requires cfg.guardOn && r !in s.reqs
    ensures r !in Erase(s).reqs
    ensures Erase(Arrived(cfg, s, r, user, sku)) ==
      if cfg.mark(user, sku) in s.marks then Erase(s) else Arrived(Unguarded(cfg), Erase(s), r, user, sku)
  {
    EraseWith(s, r, TurnedAway(user, sku));
    EraseWith(s, r, LetIn(user, sku, true));
  }

  lemma QueryErased(cfg: Config, s: State, e: Step)
    requires GateInv(s) && Enabled(s, e)
    requires e.OpenNull? || e.OpenTx? || e.Update? || e.UpdateFails? || e.Insert? || e.InsertFails?
    ensures Enabled(Erase(s), e) && Apply(Unguarded(cfg), Erase(s), e) == Erase(Apply(cfg, s, e))
  {
    MoverIsGuarded(s, e);
    EraseWith(s, e.r, Apply(cfg, s, e).reqs[e.r]);
  }

  lemma ClosingErased(cfg: Config, s: State, e: Step)
    requires GateInv(s) && Enabled(s, e)
    requires e.Drop? || e.Commit? || e.CommitFails? || e.CommitCallback? || e.Rollback?
    ensures Enabled(Erase(s), e) && Apply(Unguarded(cfg), Erase(s), e) == Erase(Apply(cfg, s, e))
  {
    MoverIsGuarded(s, e);
    EraseWith(s, e.r, Apply(cfg, s, e).reqs[e.r]);
  }

  lemma StepErased(cfg: Config, s: State, e: Step)
    requires cfg.guardOn && GateInv(s) && Enabled(s, e)
    ensures if TurnsAway(cfg, s, e) then Erase(Apply(cfg, s, e)) == Erase(s)
      else Enabled(Erase(s), e) && Apply(Unguarded(cfg), Erase(s), e) == Erase(Apply(cfg, s, e))
  {
    if e.Arrive? {
      ArriveErased(cfg, s, e.r, e.user, e.sku);
    } else if e.Drop? || e.Commit? || e.CommitFails? || e.CommitCallback? || e.Rollback? {
      ClosingErased(cfg, s, e);
    } else {
      QueryErased(cfg, s, e);
    }
  }

  lemma StepGate(cfg: Config, s: State, e: Step)
    requires cfg.guardOn && GateInv(s) && Enabled(s, e)
    ensures GateInv(Apply(cfg, s, e))
  {
    if !e.Arrive? {
      MoverIsGuarded(s, e);
      MoverStaysGuarded(cfg, s, e);
    }
  }

  lemma MoverStaysGuarded(cfg: Config, s: State, e: Step)
    requires Enabled(s, e) && !e.Arrive?
    ensures var s' := Apply(cfg, s, e);
      e.r in s'.reqs && s'.reqs == s.reqs[e.r := s'.reqs[e.r]] && s'.reqs[e.r].guarded == s.reqs[e.r].guarded
  {}

  lemma {:induction false} RunErased(cfg: Config, s: State, es: seq<Step>)
    requires cfg.guardOn && GateInv(s) && Valid(cfg, s, es)
    ensures Valid(Unguarded(cfg), Erase(s), EraseRun(cfg, s, es))
    ensures Run(Unguarded(cfg), Erase(s), EraseRun(cfg, s, es)) == Erase(Run(cfg, s, es))
    ensures GateInv(Run(cfg, s, es))
    decreases |es|
  {
    if es != [] {
      var s', rest := Apply(cfg, s, es[0]), es[1..];
      StepErased(cfg, s, es[0]);
      StepGate(cfg, s, es[0]);
      RunErased(cfg, s', rest);
      var tail := EraseRun(cfg, s', rest);
      if TurnsAway(cfg, s, es[0]) {
        assert EraseRun(cfg, s, es) == tail;
      } else {
        Prepend(Unguarded(cfg), Erase(s), es[0], tail);
      }
    }
  }

  /** Any guarded run from any database, of any number of orders: the erased run is a run without
      the guard. It ends in the same stock, rows and locks, and everyone who was not turned away at
      the gate is in the same place with the same answers; the others were told DUPLICATE_ORDER. */
  lemma GuardIsSafe(cfg: Config, init: State, es: seq<Step>)
    requires cfg.guardOn && Initial(init) && Valid(cfg, init, es)
    ensures Valid(Unguarded(cfg), init, EraseRun(cfg, init, es))
    ensures var s, u := Run(cfg, init, es), Run(Unguarded(cfg), init, EraseRun(cfg, init, es));
      && u.stock == s.stock && u.rows == s.rows && u.nextRow == s.nextRow && u.lock == s.lock
      && (forall r :: r in s.reqs ==>
            if r in u.reqs then u.reqs[r].replies == s.reqs[r].replies && u.reqs[r].order == s.reqs[r].order
            else s.reqs[r].replies == [DUPLICATE_ORDER] && s.reqs[r].order.None?)
      && (forall r :: r in u.reqs ==> r in s.reqs)
  {
    assert Erase(init).reqs == init.reqs;
    RunErased(cfg, init, es);
  }
}
