/** Safety of the order protocol over all runs: conservation, no overselling, one order per user
    and sku, one answer per request, and what the answers mean. */
module OrderTheorems {
  import opened Wrappers
  import opened OrderProtocol
  import opened OrderInvariants

  // ---- Only a commit moves the committed view, by one unit into one order ----

  /** The committed view depends on the rows and on what each request would undo. */
  lemma ViewQuiet(cfg: Config, s: State, s': State, r: nat, q': Req, k: int)
    requires Inv(cfg, s) && k in s.stock
    requires s'.stock == s.stock && s'.rows == s.rows && s'.reqs == s.reqs[r := q']
    requires if r in s.reqs then q'.undo == s.reqs[r].undo && q'.sku == s.reqs[r].sku else q'.undo == CLEAN
    requires forall x :: x in s.lock ==> x in s'.lock && s'.lock[x] == s.lock[x]
    requires forall x :: x in s'.lock && x !in s.lock ==> s'.lock[x] == r && !q'.undo.deducted
    ensures CommittedStock(s', k) == CommittedStock(s, k)
    ensures CommittedOrders(s', k) == CommittedOrders(s, k)
  {
    UncommittedElsewhere(s, s', r);
  }

  /** Which rows are uncommitted changes at most at the rows of the request that moved. */
  lemma UncommittedElsewhere(s: State, s': State, r: nat)
    requires r in s'.reqs && s'.reqs == s.reqs[r := s'.reqs[r]]
    ensures forall id: nat ::
      s'.reqs[r].undo.row != Some(id) && (r in s.reqs ==> s.reqs[r].undo.row != Some(id)) ==>
        (Uncommitted(s', id) <==> Uncommitted(s, id))
    ensures forall id: nat :: s'.reqs[r].undo.row == Some(id) ==> Uncommitted(s', id)
    ensures forall id: nat :: r in s.reqs && s.reqs[r].undo.row == Some(id) ==> Uncommitted(s, id)
  {
    forall id: nat | s'.reqs[r].undo.row != Some(id) && (r in s.reqs ==> s.reqs[r].undo.row != Some(id))
      ensures Uncommitted(s', id) <==> Uncommitted(s, id)
    {
      if Uncommitted(s, id) {
        var t :| t in s.reqs && s.reqs[t].undo.row == Some(id);
        assert t in s'.reqs && s'.reqs[t].undo.row == Some(id);
      }
      if Uncommitted(s', id) {
        var t :| t in s'.reqs && s'.reqs[t].undo.row == Some(id);
        assert t in s.reqs && s.reqs[t].undo.row == Some(id);
      }
    }
  }

  lemma DeductView(cfg: Config, s: State, r: nat, k: int)
    requires Inv(cfg, s) && Enabled(s, Update(r)) && k in s.stock
    ensures k in Updated(s, r).stock && CommittedStock(Updated(s, r), k) == CommittedStock(s, k)
    ensures CommittedOrders(Updated(s, r), k) == CommittedOrders(s, k)
  {
    var s', q := Updated(s, r), s.reqs[r];
    assert Local(cfg, q);
    UncommittedElsewhere(s, s', r);
  }

  lemma InsertView(cfg: Config, s: State, r: nat, k: int)
    requires Inv(cfg, s) && Enabled(s, Insert(r)) && k in s.stock
    ensures CommittedStock(Inserted(s, r), k) == CommittedStock(s, k)
    ensures CommittedOrders(Inserted(s, r), k) == CommittedOrders(s, k)
  {
    var s', q := Inserted(s, r), s.reqs[r];
    assert Local(cfg, q);
    UncommittedElsewhere(s, s', r);
  }

  /** Taking back an open transaction leaves the committed view as it was. */
  lemma UndoView(cfg: Config, s: State, r: nat, q': Req, k: int)
    requires Inv(cfg, s) && r in s.reqs && k in s.stock
    requires q'.undo == CLEAN && q'.sku == s.reqs[r].sku
    ensures k in Undone(s, r, q').stock && CommittedStock(Undone(s, r, q'), k) == CommittedStock(s, k)
    ensures CommittedOrders(Undone(s, r, q'), k) == CommittedOrders(s, k)
  {
    var s', q := Undone(s, r, q'), s.reqs[r];
    assert Local(cfg, q);
    UncommittedElsewhere(s, s', r);
  }

  /** A commit sells exactly one unit: the committed stock of its sku falls by one and exactly one
      new order of its user for that sku becomes visible. */
  lemma CommitView(cfg: Config, s: State, r: nat, k: int)
    requires Inv(cfg, s) && Enabled(s, Commit(r)) && k in s.stock
    ensures var s', q := Apply(cfg, s, Commit(r)), s.reqs[r];
      && CommittedStock(s', k) == CommittedStock(s, k) - (if k == q.sku then 1 else 0)
      && q.undo.row.Some? && q.undo.row.value in s.rows && s.rows[q.undo.row.value] == (q.user, q.sku)
      && q.undo.row.value !in CommittedOrders(s, k)
      && CommittedOrders(s', k) == CommittedOrders(s, k) + (if k == q.sku then {q.undo.row.value} else {})
  {
    var s', q := Apply(cfg, s, Commit(r)), s.reqs[r];
    assert Local(cfg, q);
    var sold := q.undo.row.value;
    UncommittedElsewhere(s, s', r);
    forall t | t in s'.reqs ensures s'.reqs[t].undo.row != Some(sold) {
      if t != r && s.reqs[t].undo.row == Some(sold) {
        RowOwner(cfg, s, r, t);
      }
    }
  }

  /** Every other step leaves the committed view alone. */
  lemma OtherView(cfg: Config, s: State, e: Step, k: int)
    requires Inv(cfg, s) && Enabled(s, e) && !e.Commit? && k in s.stock
    ensures k in Apply(cfg, s, e).stock && CommittedStock(Apply(cfg, s, e), k) == CommittedStock(s, k)
    ensures CommittedOrders(Apply(cfg, s, e), k) == CommittedOrders(s, k)
  {
    if e.Update? {
      DeductView(cfg, s, e.r, k);
    } else if e.Insert? {
      InsertView(cfg, s, e.r, k);
    } else if e.CommitFails? || e.Rollback? {
      UndoView(cfg, s, e.r, Apply(cfg, s, e).reqs[e.r], k);
    } else if e.Arrive? || e.Drop? || e.CommitCallback? {
      CallerView(cfg, s, e, k);
    } else {
      AnswerView(cfg, s, e, k);
    }
  }

  lemma CallerView(cfg: Config, s: State, e: Step, k: int)
    requires Inv(cfg, s) && Enabled(s, e) && (e.Arrive? || e.Drop? || e.CommitCallback?) && k in s.stock
    ensures k in Apply(cfg, s, e).stock && CommittedStock(Apply(cfg, s, e), k) == CommittedStock(s, k)
    ensures CommittedOrders(Apply(cfg, s, e), k) == CommittedOrders(s, k)
  {
    var s' := Apply(cfg, s, e);
    ViewQuiet(cfg, s, s', e.r, s'.reqs[e.r], k);
  }

  lemma AnswerView(cfg: Config, s: State, e: Step, k: int)
    requires Inv(cfg, s) && Enabled(s, e) && (e.OpenNull? || e.OpenTx? || e.UpdateFails? || e.InsertFails?) && k in s.stock
    ensures k in Apply(cfg, s, e).stock && CommittedStock(Apply(cfg, s, e), k) == CommittedStock(s, k)
    ensures CommittedOrders(Apply(cfg, s, e), k) == CommittedOrders(s, k)
  {
    var s' := Apply(cfg, s, e);
    ViewQuiet(cfg, s, s', e.r, s'.reqs[e.r], k);
  }

  // ---- Counting ----

  /** The requests for a sku that have committed an order. */
  function Buyers(s: State, k: int): set<nat> {
    set r | r in s.reqs && s.reqs[r].sku == k && s.reqs[r].order.Some?
  }

  /** Those among them that have been told so, and those whose callback has not run yet. */
  function ToldOk(s: State, k: int): set<nat> {
    set r | r in s.reqs && s.reqs[r].sku == k && OK in s.reqs[r].replies
  }

  function NotYetTold(s: State, k: int): set<nat> {
    set r | r in s.reqs && s.reqs[r].sku == k && s.reqs[r].tx == Acked(true)
  }

  lemma BuyersSplit(cfg: Config, s: State, k: int)
    requires Inv(cfg, s)
    ensures Buyers(s, k) == ToldOk(s, k) + NotYetTold(s, k) && ToldOk(s, k) !! NotYetTold(s, k)
  {
    forall r | r in s.reqs
      ensures s.reqs[r].order.Some? <==> OK in s.reqs[r].replies || s.reqs[r].tx == Acked(true)
      ensures !(OK in s.reqs[r].replies && s.reqs[r].tx == Acked(true))
    {
      assert Local(cfg, s.reqs[r]);
    }
  }

  lemma BuyersStep(cfg: Config, s: State, e: Step, k: int)
    requires Inv(cfg, s) && Enabled(s, e)
    ensures Buyers(Apply(cfg, s, e), k) == Buyers(s, k) + (if e.Commit? && s.reqs[e.r].sku == k then {e.r} else {})
    ensures e.Commit? ==> e.r !in Buyers(s, k)
  {
    SameOrder(cfg, s, e);
    assert e.Commit? ==> Local(cfg, s.reqs[e.r]);
    BuyersOfOne(s, Apply(cfg, s, e), e.r, k);
  }

  lemma BuyersOfOne(s: State, s': State, r: nat, k: int)
    requires r in s'.reqs && s'.reqs == s.reqs[r := s'.reqs[r]]
    ensures Buyers(s', k) == Buyers(s, k) - {r} + (if s'.reqs[r].sku == k && s'.reqs[r].order.Some? then {r} else {})
  {}

  /** What a step leaves alone about requests, and which order it gives to its own. */
  ghost predicate OrderMoves(cfg: Config, s: State, e: Step)
    requires Enabled(s, e)
  {
    var s' := Apply(cfg, s, e);
    && e.r in s'.reqs && s'.reqs == s.reqs[e.r := s'.reqs[e.r]]
    && (if e.Arrive? then s'.reqs[e.r].order.None?
        else s'.reqs[e.r].sku == s.reqs[e.r].sku
             && s'.reqs[e.r].order == if e.Commit? then s.reqs[e.r].undo.row else s.reqs[e.r].order)
  }

  lemma QueryOrder(cfg: Config, s: State, e: Step)
    requires Enabled(s, e)
    requires e.OpenNull? || e.OpenTx? || e.Update? || e.UpdateFails? || e.Insert? || e.InsertFails?
    ensures OrderMoves(cfg, s, e)
  {}

  lemma ClosingOrder(cfg: Config, s: State, e: Step)
    requires Enabled(s, e)
    requires e.Arrive? || e.Drop? || e.Commit? || e.CommitFails? || e.CommitCallback? || e.Rollback?
    ensures OrderMoves(cfg, s, e)
  {}

  lemma SameOrder(cfg: Config, s: State, e: Step)
    requires Enabled(s, e)
    ensures OrderMoves(cfg, s, e)
  {
    if e.Arrive? || e.Drop? || e.Commit? || e.CommitFails? || e.CommitCallback? || e.Rollback? {
      ClosingOrder(cfg, s, e);
    } else {
      QueryOrder(cfg, s, e);
    }
  }

  /** What is conserved, against the database the run started from. */
  ghost predicate Books(init: State, s: State) {
    forall k :: k in init.stock ==>
      && k in s.stock
      && CommittedStock(s, k) + |CommittedOrders(s, k)| == CommittedStock(init, k) + |CommittedOrders(init, k)|
      && |CommittedOrders(s, k)| == |CommittedOrders(init, k)| + |Buyers(s, k)|
  }

  /** What a step adds to the books of a sku: one sale for a commit of that sku, else nothing. */
  function Sales(s: State, e: Step, k: int): nat
    requires Enabled(s, e)
  {
    if e.Commit? && s.reqs[e.r].sku == k then 1 else 0
  }

  lemma StepBuyers(cfg: Config, s: State, e: Step, k: int)
    requires Inv(cfg, s) && Enabled(s, e)
    ensures |Buyers(Apply(cfg, s, e), k)| == |Buyers(s, k)| + Sales(s, e, k)
  {
    BuyersStep(cfg, s, e, k);
  }

  lemma StepView(cfg: Config, s: State, e: Step, k: int)
    requires Inv(cfg, s) && Enabled(s, e) && k in s.stock
    ensures k in Apply(cfg, s, e).stock
    ensures CommittedStock(Apply(cfg, s, e), k) == CommittedStock(s, k) - Sales(s, e, k)
    ensures |CommittedOrders(Apply(cfg, s, e), k)| == |CommittedOrders(s, k)| + Sales(s, e, k)
  {
    if e.Commit? {
      CommitView(cfg, s, e.r, k);
    } else {
      OtherView(cfg, s, e, k);
    }
  }

  lemma StepBooks(cfg: Config, init: State, s: State, e: Step)
    requires Inv(cfg, s) && Enabled(s, e) && Books(init, s)
    ensures Books(init, Apply(cfg, s, e))
  {
    var s' := Apply(cfg, s, e);
    forall k | k in init.stock
      ensures k in s'.stock
      ensures CommittedStock(s', k) == CommittedStock(s, k) - Sales(s, e, k)
      ensures |CommittedOrders(s', k)| == |CommittedOrders(s, k)| + Sales(s, e, k)
      ensures |Buyers(s', k)| == |Buyers(s, k)| + Sales(s, e, k)
    {
      StepBuyers(cfg, s, e, k);
      StepView(cfg, s, e, k);
    }
  }

  lemma {:induction false} RunBooks(cfg: Config, init: State, s: State, es: seq<Step>)
    requires Inv(cfg, s) && Books(init, s) && Valid(cfg, s, es)
    ensures Books(init, Run(cfg, s, es)) && Inv(cfg, Run(cfg, s, es))
    decreases |es|
  {
    if es != [] {
      StepBooks(cfg, init, s, es[0]);
      StepInv(cfg, s, es[0]);
      RunBooks(cfg, init, Apply(cfg, s, es[0]), es[1..]);
    }
  }

  // ---- The theorems ----

  /** In every interleaving of any number of orders with failures at any step, for every sku:
      committed stock plus committed orders never changes, neither the stock nor its committed
      view is ever negative, and the new orders are exactly as many as the OK answers given and
      the acknowledged commits whose callback has still to run. */
  lemma Conservation(cfg: Config, init: State, es: seq<Step>, k: int)
    requires Initial(init) && Valid(cfg, init, es) && k in init.stock
    ensures var s := Run(cfg, init, es);
      && k in s.stock && s.stock[k] >= 0 && CommittedStock(s, k) >= 0
      && CommittedStock(s, k) + |CommittedOrders(s, k)| == CommittedStock(init, k) + |CommittedOrders(init, k)|
      && |ToldOk(s, k)| + |NotYetTold(s, k)| == |CommittedOrders(s, k)| - |CommittedOrders(init, k)|
      && |ToldOk(s, k)| <= init.stock[k]
  {
    InitialInv(cfg, init);
    assert Buyers(init, k) == {};
    forall x | x in init.stock ensures Buyers(init, x) == {} {}
    RunBooks(cfg, init, init, es);
    BuyersSplit(cfg, Run(cfg, init, es), k);
  }

  /** No user ever has two orders for one sku, committed or not. */
  lemma OneOrderPerUser(cfg: Config, init: State, es: seq<Step>, i: nat, j: nat)
    requires Initial(init) && Valid(cfg, init, es)
    requires var s := Run(cfg, init, es); i in s.rows && j in s.rows && s.rows[i] == s.rows[j]
    ensures i == j
  {
    InitialInv(cfg, init);
    RunInv(cfg, init, es);
  }

  /** Everything about the request is over. */
  predicate Finished(q: Req) { q.closures == {} && (q.tx.NoTx? || q.tx.Closed?) }

  /** Every request is answered at most once, and a finished one exactly once, unless its commit
      failed and the client does not report failed commits: precisely then it is never answered.
      A token is released at most once, not before the answer, and by the end of its request. */
  lemma AnsweredOnce(cfg: Config, init: State, es: seq<Step>, r: nat)
    requires Initial(init) && Valid(cfg, init, es) && r in Run(cfg, init, es).reqs
    ensures var q := Run(cfg, init, es).reqs[r];
      && |q.replies| <= 1 && q.released <= 1
      && (Finished(q) ==> (|q.replies| == 1 <==> !(q.lost && !cfg.reportsFailure)))
      && (q.released == 1 ==> |q.replies| == 1 || (q.lost && !cfg.reportsFailure))
      && (Finished(q) && q.guarded ==> q.released == 1)
      && (q.guarded && q.released == 0 ==> cfg.mark(q.user, q.sku) in Run(cfg, init, es).marks)
  {
    InitialInv(cfg, init);
    RunInv(cfg, init, es);
    assert Local(cfg, Run(cfg, init, es).reqs[r]);
  }

  /** OK means that a committed order of this user for this sku exists from then on. */
  lemma OkMeansOrder(cfg: Config, init: State, es: seq<Step>, r: nat)
    requires Initial(init) && Valid(cfg, init, es) && r in Run(cfg, init, es).reqs
    requires OK in Run(cfg, init, es).reqs[r].replies
    ensures var s := Run(cfg, init, es);
      exists id :: id in CommittedOrders(s, s.reqs[r].sku) && s.rows[id] == (s.reqs[r].user, s.reqs[r].sku)
  {
    InitialInv(cfg, init);
    RunInv(cfg, init, es);
    var s := Run(cfg, init, es);
    assert Local(cfg, s.reqs[r]);
    assert s.reqs[r].order.value in CommittedOrders(s, s.reqs[r].sku);
  }

  lemma MetIsCommitted(cfg: Config, s: State, r: nat, id: nat)
    requires Inv(cfg, s) && Enabled(s, Insert(r)) && id in s.rows && s.rows[id].1 == s.reqs[r].sku
    ensures !Uncommitted(s, id)
  {
    assert Local(cfg, s.reqs[r]);
    forall t | t in s.reqs ensures s.reqs[t].undo.row != Some(id) {
      assert Local(cfg, s.reqs[t]);
    }
  }

  /** When the database says duplicate, the order it met is committed: the row lock of the sku
      keeps every other transaction from having an uncommitted one. When it says sold out, no
      committed unit is left. */
  lemma RefusalsMean(cfg: Config, init: State, es: seq<Step>, r: nat)
    requires Initial(init) && Valid(cfg, init, es)
    ensures var s := Run(cfg, init, es);
      && (Enabled(s, Insert(r)) && HasOrder(s.rows, s.reqs[r].user, s.reqs[r].sku) ==>
            exists id :: id in CommittedOrders(s, s.reqs[r].sku) && s.rows[id] == (s.reqs[r].user, s.reqs[r].sku))
      && (Enabled(s, Update(r)) && s.reqs[r].sku in s.stock && s.stock[s.reqs[r].sku] <= 0 ==>
            CommittedStock(s, s.reqs[r].sku) == 0)
  {
    InitialInv(cfg, init);
    RunInv(cfg, init, es);
    var s := Run(cfg, init, es);
    if Enabled(s, Insert(r)) && HasOrder(s.rows, s.reqs[r].user, s.reqs[r].sku) {
      var id :| id in s.rows && s.rows[id] == (s.reqs[r].user, s.reqs[r].sku);
      MetIsCommitted(cfg, s, r, id);
      assert id in CommittedOrders(s, s.reqs[r].sku);
    }
  }
}
