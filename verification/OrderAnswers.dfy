/** What every answer says: each reply names its cause, and each cause gets its reply. */
module OrderAnswers {
  import opened Wrappers
  import opened OrderProtocol
  import opened OrderInvariants
  import opened OrderTheorems

  /** The cause of a reply to the request r: what the step finds in the state in which it runs. */
  predicate Causes(cfg: Config, s: State, e: Step, r: nat, reply: Reply)
    requires Enabled(s, e)
  {
    e.r == r &&
    match reply
    case SOLD_OUT => e.Update? && (s.reqs[r].sku !in s.stock || s.stock[s.reqs[r].sku] <= 0)
    case DUPLICATE_ORDER =>
      || (e.Arrive? && cfg.guardOn && cfg.mark(e.user, e.sku) in s.marks)
      || (e.Insert? && exists id :: id in s.rows && s.rows[id] == (s.reqs[r].user, s.reqs[r].sku))
    case DB_ERROR =>
      || e.OpenNull? || e.UpdateFails? || e.InsertFails?
      || (e.CommitCallback? && s.reqs[r].tx == Acked(false) && cfg.reportsFailure)
    case OK => e.CommitCallback? && s.reqs[r].tx == Acked(true)
  }

  function RepliesOf(s: State, r: nat): seq<Reply> { if r in s.reqs then s.reqs[r].replies else [] }

  // ---- One step ----

  lemma QueryAnswers(cfg: Config, s: State, e: Step, r: nat, reply: Reply)
    requires Enabled(s, e) && (e.OpenNull? || e.OpenTx? || e.Update? || e.UpdateFails? || e.Insert? || e.InsertFails?)
    ensures Causes(cfg, s, e, r, reply) ==> RepliesOf(Apply(cfg, s, e), r) == RepliesOf(s, r) + [reply]
    ensures (forall x :: !Causes(cfg, s, e, r, x)) ==> RepliesOf(Apply(cfg, s, e), r) == RepliesOf(s, r)
  {
    if forall x :: !Causes(cfg, s, e, r, x) {
      assert !Causes(cfg, s, e, r, SOLD_OUT) && !Causes(cfg, s, e, r, DUPLICATE_ORDER);
      assert !Causes(cfg, s, e, r, DB_ERROR);
    }
  }

  lemma ClosingAnswers(cfg: Config, s: State, e: Step, r: nat, reply: Reply)
    requires Enabled(s, e)
    requires e.Arrive? || e.Drop? || e.Commit? || e.CommitFails? || e.CommitCallback? || e.Rollback?
    ensures Causes(cfg, s, e, r, reply) ==> RepliesOf(Apply(cfg, s, e), r) == RepliesOf(s, r) + [reply]
    ensures (forall x :: !Causes(cfg, s, e, r, x)) ==> RepliesOf(Apply(cfg, s, e), r) == RepliesOf(s, r)
  {
    if forall x :: !Causes(cfg, s, e, r, x) {
      assert !Causes(cfg, s, e, r, DUPLICATE_ORDER) && !Causes(cfg, s, e, r, DB_ERROR);
      assert !Causes(cfg, s, e, r, OK);
    }
  }

  /** A step answers a request exactly when there is a cause, with the reply that the cause has. */
  lemma StepAnswers(cfg: Config, s: State, e: Step, r: nat, reply: Reply)
    requires Enabled(s, e)
    ensures Causes(cfg, s, e, r, reply) ==> RepliesOf(Apply(cfg, s, e), r) == RepliesOf(s, r) + [reply]
    ensures (forall x :: !Causes(cfg, s, e, r, x)) ==> RepliesOf(Apply(cfg, s, e), r) == RepliesOf(s, r)
  {
    if e.OpenNull? || e.OpenTx? || e.Update? || e.UpdateFails? || e.Insert? || e.InsertFails? {
      QueryAnswers(cfg, s, e, r, reply);
    } else {
      ClosingAnswers(cfg, s, e, r, reply);
    }
  }

  /** Nothing has two causes at once. */
  lemma OneCause(cfg: Config, s: State, e: Step, r: nat, x: Reply, y: Reply)
    requires Enabled(s, e) && Causes(cfg, s, e, r, x) && Causes(cfg, s, e, r, y)
    ensures x == y
  {}

  // ---- Runs ----

  /** Somewhere in the run from s there was a cause of this reply to r. */
  ghost predicate Caused(cfg: Config, s: State, es: seq<Step>, r: nat, reply: Reply)
    requires Valid(cfg, s, es)
    decreases |es|
  {
    es != [] && (Causes(cfg, s, es[0], r, reply) || Caused(cfg, Apply(cfg, s, es[0]), es[1..], r, reply))
  }

  lemma {:induction false} RunAnswers(cfg: Config, s: State, es: seq<Step>, r: nat, reply: Reply)
    requires Valid(cfg, s, es)
    ensures reply in RepliesOf(Run(cfg, s, es), r) <==> reply in RepliesOf(s, r) || Caused(cfg, s, es, r, reply)
    decreases |es|
  {
    if es != [] {
      var e := es[0];
      StepAnswers(cfg, s, e, r, reply);
      if x :| Causes(cfg, s, e, r, x) {
        StepAnswers(cfg, s, e, r, x);
      }
      RunAnswers(cfg, Apply(cfg, s, e), es[1..], r, reply);
    }
  }

  /** In every run, with any interleaving and any failures: a request has been given a reply if and
      only if there was its cause, and it has been given at most one. So SOLD_OUT is what an order
      hears that found no stock, DUPLICATE_ORDER one that met a live mark or an order, DB_ERROR
      one whose transaction, statement or reported commit failed, OK one that has committed. */
  lemma AnswersExact(cfg: Config, init: State, es: seq<Step>, r: nat, reply: Reply)
    requires Initial(init) && Valid(cfg, init, es)
    ensures RepliesOf(Run(cfg, init, es), r) == [reply] <==> Caused(cfg, init, es, r, reply)
  {
    RunAnswers(cfg, init, es, r, reply);
    if r in Run(cfg, init, es).reqs {
      AnsweredOnce(cfg, init, es, r);
    }
  }

  // ---- What goes on without an answer ----

  /** An UPDATE that finds stock takes one unit, locks the row and goes on to the INSERT. One that
      finds the row sold out locks it too and ends in a rollback. */
  lemma UpdateExact(cfg: Config, s: State, r: nat)
    requires Inv(cfg, s) && Enabled(s, Update(r))
    ensures var s', k := Apply(cfg, s, Update(r)), s.reqs[r].sku;
      && (k in s.stock && s.stock[k] > 0 ==>
            && s'.reqs[r].stage == Inserting && s'.reqs[r].replies == [] && s'.stock == s.stock[k := s.stock[k] - 1]
            && s'.reqs[r].undo == Undo(true, None))
      && (k !in s.stock || s.stock[k] == 0 ==>
            s'.reqs[r].tx == RollbackQueued && s'.reqs[r].replies == [SOLD_OUT] && s'.stock == s.stock)
      && s'.lock == (if k in s.stock then s.lock[k := r] else s.lock) && s'.rows == s.rows
  {
    assert Local(cfg, s.reqs[r]);
  }

  /** An INSERT that meets no order adds one row and waits for the commit; one that meets an order
      ends in a rollback. A primary key is drawn in either case. */
  lemma InsertExact(cfg: Config, s: State, r: nat)
    requires Inv(cfg, s) && Enabled(s, Insert(r))
    ensures var s', q := Apply(cfg, s, Insert(r)), s.reqs[r];
      && (if HasOrder(s.rows, q.user, q.sku) then
            s'.reqs[r].tx == RollbackQueued && s'.reqs[r].replies == [DUPLICATE_ORDER] && s'.rows == s.rows
          else
            s'.reqs[r].tx == Open && s'.reqs[r].replies == [] && s'.rows == s.rows[s.nextRow := (q.user, q.sku)])
      && s'.nextRow == s.nextRow + 1 && s'.stock == s.stock && s'.lock == s.lock
  {
    assert Local(cfg, s.reqs[r]);
  }

  /** The gate lets a request in, with its mark, unless a live request has the mark of its user and
      sku; then, and with the guard on only, it is refused on the spot and leaves nothing. */
  lemma GateExact(cfg: Config, s: State, r: nat, user: int, sku: int)
    requires Inv(cfg, s) && r !in s.reqs
    ensures var s' := Apply(cfg, s, Arrive(r, user, sku));
      var taken := cfg.guardOn && exists t :: t in s.reqs && Live(s.reqs[t])
                                              && cfg.mark(s.reqs[t].user, s.reqs[t].sku) == cfg.mark(user, sku);
      && s'.reqs[r].user == user && s'.reqs[r].sku == sku
      && (if taken then s'.reqs[r].replies == [DUPLICATE_ORDER] && s'.reqs[r].closures == {} && s'.marks == s.marks
          else s'.reqs[r].replies == [] && s'.reqs[r].stage == Opening && (Live(s'.reqs[r]) <==> cfg.guardOn)
               && s'.marks == if cfg.guardOn then s.marks + {cfg.mark(user, sku)} else s.marks)
      && s'.stock == s.stock && s'.rows == s.rows && s'.lock == s.lock
  {}
}
