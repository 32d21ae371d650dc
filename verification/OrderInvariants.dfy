/** What every interleaving of orders keeps, and what follows for the database and the answers. */
module OrderInvariants {
  import opened Wrappers
  import opened OrderProtocol

  // ---- The state of one request ----

  predicate Refused(q: Req) { |q.replies| == 1 && q.replies[0] != OK && q.order.None? && !q.lost }

  predicate Unanswered(q: Req) { q.replies == [] && q.order.None? && !q.lost }

  /** Where a request can be, what it then holds, what it has changed and what it has answered. */
  predicate StageInv(cfg: Config, q: Req) {
    match q.stage
    case Opening =>
      q.tx.NoTx? && Unanswered(q) && q.undo == CLEAN && OpenCb in q.closures
      && !TxHeld(q.closures) && CommitCb !in q.closures
    case Deducting =>
      q.tx.Open? && Unanswered(q) && q.undo == CLEAN && {CommitCb, UpdateOk, UpdateErr} <= q.closures
    case Inserting =>
      q.tx.Open? && Unanswered(q) && q.undo == Undo(true, None) && {CommitCb, InsertOk, InsertErr} <= q.closures
    case Decided => DecidedInv(cfg, q)
  }

  predicate DecidedInv(cfg: Config, q: Req) {
    match q.tx
    case NoTx => Refused(q) && q.undo == CLEAN && !TxHeld(q.closures) && CommitCb !in q.closures
    case Open => Unanswered(q) && q.undo.deducted && q.undo.row.Some? && CommitCb in q.closures && TxHeld(q.closures)
    case RollbackQueued => Refused(q) && q.undo.row.None?
    case CommitQueued => Unanswered(q) && q.undo.deducted && q.undo.row.Some? && CommitCb in q.closures
    case Acked(ok) => q.replies == [] && q.undo == CLEAN && CommitCb in q.closures && q.order.Some? == ok && q.lost == !ok
    case Closed => q.undo == CLEAN && Answered(cfg, q)
  }

  /** The token has been released, once, exactly when no copy of it is left. */
  predicate TokenInv(q: Req) {
    q.released == if q.guarded && !TokenHeld(q.closures) then 1 else 0
  }

  predicate Local(cfg: Config, q: Req) { StageInv(cfg, q) && TokenInv(q) }

  /** How a closed request has been answered: OK exactly when it committed an order, one refusal
      otherwise, and nothing only after a failed commit that the client does not report. */
  predicate Answered(cfg: Config, q: Req) {
    if q.order.Some? then q.replies == [OK] && !q.lost
    else if q.lost && !cfg.reportsFailure then q.replies == []
    else |q.replies| == 1 && q.replies[0] != OK
  }

  // ---- All requests together ----

  /** The transaction is past its UPDATE and not yet closed. */
  predicate PastUpdate(q: Req) {
    q.stage.Inserting? || (q.stage.Decided? && (q.tx.Open? || q.tx.CommitQueued? || q.tx.RollbackQueued?))
  }

  /** A row lock belongs to a request for that sku that is past its UPDATE, and whoever has taken
      a unit of stock and not committed it holds the lock. */
  predicate LockInv(s: State) {
    && (forall k :: k in s.lock ==>
          k in s.stock && s.lock[k] in s.reqs && s.reqs[s.lock[k]].sku == k && PastUpdate(s.reqs[s.lock[k]]))
    && (forall r :: r in s.reqs && s.reqs[r].undo.deducted ==> s.reqs[r].sku in s.lock && s.lock[s.reqs[r].sku] == r)
  }

  /** Order rows are fresh and unique, and those of open or committed requests are theirs. */
  predicate RowInv(s: State) {
    && (forall id :: id in s.rows ==> id < s.nextRow)
    && (forall i, j :: i in s.rows && j in s.rows && s.rows[i] == s.rows[j] ==> i == j)
    && (forall r :: r in s.reqs && s.reqs[r].undo.row.Some? ==>
          && s.reqs[r].undo.row.value in s.rows
          && s.rows[s.reqs[r].undo.row.value] == (s.reqs[r].user, s.reqs[r].sku))
    && (forall r :: r in s.reqs && s.reqs[r].order.Some? ==>
          && s.reqs[r].order.value in s.rows
          && s.rows[s.reqs[r].order.value] == (s.reqs[r].user, s.reqs[r].sku)
          && !Uncommitted(s, s.reqs[r].order.value))
  }

  predicate Live(q: Req) { q.guarded && q.released == 0 }

  /** The marks are exactly those of the live tokens, one each. */
  ghost predicate MarkInv(cfg: Config, s: State) {
    && (forall r :: r in s.reqs && Live(s.reqs[r]) ==> cfg.guardOn && cfg.mark(s.reqs[r].user, s.reqs[r].sku) in s.marks)
    && (forall m :: m in s.marks ==> exists r :: r in s.reqs && Live(s.reqs[r]) && cfg.mark(s.reqs[r].user, s.reqs[r].sku) == m)
    && (forall r, t :: r in s.reqs && t in s.reqs && Live(s.reqs[r]) && Live(s.reqs[t]) && r != t ==>
          cfg.mark(s.reqs[r].user, s.reqs[r].sku) != cfg.mark(s.reqs[t].user, s.reqs[t].sku))
  }

  ghost predicate Inv(cfg: Config, s: State) {
    && (forall r :: r in s.reqs ==> Local(cfg, s.reqs[r]))
    && (forall k :: k in s.stock ==> s.stock[k] >= 0)
    && LockInv(s) && RowInv(s) && MarkInv(cfg, s)
  }

  // ---- Steps of one request ----

  lemma DropLocal(cfg: Config, q: Req, c: Closure)
    requires Local(cfg, q) && c in q.closures && Spent(q, c)
    ensures Local(cfg, DropReq(q, c))
  {
    var left := q.closures - {c};
    assert forall x: Closure :: x in left <==> x in q.closures && x != c;
  }

  lemma GateLocal(cfg: Config, user: int, sku: int, guarded: bool)
    ensures Local(cfg, TurnedAway(user, sku)) && Local(cfg, LetIn(user, sku, guarded))
  {}

  lemma OpenLocal(cfg: Config, q: Req)
    requires Local(cfg, q) && q.stage.Opening?
    ensures Local(cfg, Opened(q)) && Local(cfg, q.(stage := Decided, replies := q.replies + [DB_ERROR]))
  {}

  lemma DeductLocal(cfg: Config, q: Req)
    requires Local(cfg, q) && q.stage.Deducting?
    ensures Local(cfg, Deducted(q))
  {}

  lemma RefuseLocal(cfg: Config, q: Req, reply: Reply)
    requires Local(cfg, q) && (q.stage.Deducting? || q.stage.Inserting?) && reply != OK
    ensures Local(cfg, Refuse(q, reply))
  {}

  lemma InsertLocal(cfg: Config, q: Req, id: nat)
    requires Local(cfg, q) && q.stage.Inserting?
    ensures Local(cfg, q.(stage := Decided, undo := q.undo.(row := Some(id))))
  {}

  lemma CloseLocal(cfg: Config, q: Req)
    requires Local(cfg, q)
    ensures q.tx.CommitQueued? ==> Local(cfg, q.(tx := Acked(true), undo := CLEAN, order := q.undo.row))
    ensures q.tx.CommitQueued? ==> Local(cfg, q.(tx := Acked(false), undo := CLEAN, lost := true))
    ensures q.tx.Acked? ==> Local(cfg, Acknowledged(cfg, q))
    ensures q.tx.RollbackQueued? ==> Local(cfg, q.(tx := Closed, undo := CLEAN))
  {}

  // ---- Locks ----

  /** A request that keeps its sku, its unit of stock and its place past the UPDATE. */
  lemma LockQuiet(s: State, s': State, r: nat, q': Req)
    requires LockInv(s) && s'.lock == s.lock && s'.stock.Keys == s.stock.Keys && s'.reqs == s.reqs[r := q']
    requires r in s.reqs ==> var q := s.reqs[r];
      q'.sku == q.sku && q'.undo.deducted == q.undo.deducted && (PastUpdate(q) ==> PastUpdate(q'))
    requires r !in s.reqs ==> !q'.undo.deducted
    ensures LockInv(s')
  {}

  lemma LockTaken(s: State, s': State, r: nat, q': Req)
    requires LockInv(s) && r in s.reqs && s'.stock.Keys == s.stock.Keys && s'.reqs == s.reqs[r := q']
    requires q'.sku == s.reqs[r].sku && q'.sku in s.stock && q'.sku !in s.lock && PastUpdate(q')
    requires s'.lock == s.lock[q'.sku := r]
    ensures LockInv(s')
  {}

  lemma LockFreed(s: State, s': State, r: nat, q': Req)
    requires LockInv(s) && r in s.reqs && s'.stock.Keys == s.stock.Keys && s'.reqs == s.reqs[r := q']
    requires q'.sku == s.reqs[r].sku && !q'.undo.deducted && s'.lock == Unlocked(s, r, q'.sku)
    ensures LockInv(s')
  {}

  // ---- Rows ----

  lemma RowQuiet(s: State, s': State, r: nat, q': Req)
    requires RowInv(s) && s'.rows == s.rows && s.nextRow <= s'.nextRow && s'.reqs == s.reqs[r := q']
    requires r in s.reqs ==> var q := s.reqs[r];
      q'.user == q.user && q'.sku == q.sku && q'.undo.row == q.undo.row && q'.order == q.order
    requires r !in s.reqs ==> q'.undo.row.None? && q'.order.None?
    ensures RowInv(s')
  {
    forall id: nat | Uncommitted(s', id) ensures Uncommitted(s, id) {
      var t :| t in s'.reqs && s'.reqs[t].undo.row == Some(id);
      assert t in s.reqs && s.reqs[t].undo.row == Some(id);
    }
  }

  lemma RowAdded(s: State, s': State, r: nat, q': Req)
    requires RowInv(s) && r in s.reqs && s'.reqs == s.reqs[r := q'] && s'.nextRow == s.nextRow + 1
    requires s.reqs[r].undo.row.None? && q'.undo.row == Some(s.nextRow) && q'.order == s.reqs[r].order
    requires q'.user == s.reqs[r].user && q'.sku == s.reqs[r].sku && !HasOrder(s.rows, q'.user, q'.sku)
    requires s'.rows == s.rows[s.nextRow := (q'.user, q'.sku)]
    ensures RowInv(s')
  {
    forall id: nat | Uncommitted(s', id) && id != s.nextRow ensures Uncommitted(s, id) {
      var t :| t in s'.reqs && s'.reqs[t].undo.row == Some(id);
      assert t in s.reqs && s.reqs[t].undo.row == Some(id);
    }
  }

  /** Two requests never own the same row: it carries its owner's sku, whose lock the owner holds. */
  lemma RowOwner(cfg: Config, s: State, r: nat, t: nat)
    requires Inv(cfg, s) && r in s.reqs && t in s.reqs
    requires s.reqs[r].undo.row.Some? && s.reqs[r].undo.row == s.reqs[t].undo.row
    ensures r == t
  {
    assert Local(cfg, s.reqs[r]) && Local(cfg, s.reqs[t]);
  }

  lemma RowCommitted(cfg: Config, s: State, r: nat)
    requires Inv(cfg, s) && Enabled(s, Commit(r))
    ensures RowInv(Apply(cfg, s, Commit(r)))
  {
    var s' := Apply(cfg, s, Commit(r));
    forall id: nat | Uncommitted(s', id) ensures Uncommitted(s, id) && Some(id) != s.reqs[r].undo.row {
      var t :| t in s'.reqs && s'.reqs[t].undo.row == Some(id);
      assert t in s.reqs && s.reqs[t].undo.row == Some(id);
      if s.reqs[r].undo.row == Some(id) {
        RowOwner(cfg, s, r, t);
      }
    }
  }

  lemma RowRemoved(cfg: Config, s: State, r: nat)
    requires Inv(cfg, s) && Enabled(s, CommitFails(r))
    ensures RowInv(Apply(cfg, s, CommitFails(r)))
  {
    var s' := Apply(cfg, s, CommitFails(r));
    assert Local(cfg, s.reqs[r]);
    var id := s.reqs[r].undo.row.value;
    assert Uncommitted(s, id);
    forall t | t in s'.reqs && s'.reqs[t].undo.row.Some? ensures s'.reqs[t].undo.row.value != id {
      if s.reqs[t].undo.row == Some(id) {
        RowOwner(cfg, s, r, t);
      }
    }
    forall x: nat | Uncommitted(s', x) ensures Uncommitted(s, x) {
      var t :| t in s'.reqs && s'.reqs[t].undo.row == Some(x);
      assert t in s.reqs && s.reqs[t].undo.row == Some(x);
    }
  }

  // ---- Marks ----

  lemma MarkQuiet(cfg: Config, s: State, s': State, r: nat, q': Req)
    requires MarkInv(cfg, s) && s'.marks == s.marks && s'.reqs == s.reqs[r := q']
    requires r in s.reqs ==> q'.user == s.reqs[r].user && q'.sku == s.reqs[r].sku && Live(q') == Live(s.reqs[r])
    requires r !in s.reqs ==> !Live(q')
    ensures MarkInv(cfg, s')
  {
    forall m | m in s'.marks
      ensures exists t :: t in s'.reqs && Live(s'.reqs[t]) && cfg.mark(s'.reqs[t].user, s'.reqs[t].sku) == m
    {
      var t :| t in s.reqs && Live(s.reqs[t]) && cfg.mark(s.reqs[t].user, s.reqs[t].sku) == m;
      assert t in s'.reqs && Live(s'.reqs[t]);
    }
  }

  lemma MarkTaken(cfg: Config, s: State, s': State, r: nat, q': Req)
    requires MarkInv(cfg, s) && r !in s.reqs && s'.reqs == s.reqs[r := q'] && cfg.guardOn && Live(q')
    requires cfg.mark(q'.user, q'.sku) !in s.marks && s'.marks == s.marks + {cfg.mark(q'.user, q'.sku)}
    ensures MarkInv(cfg, s')
  {
    forall m | m in s'.marks
      ensures exists t :: t in s'.reqs && Live(s'.reqs[t]) && cfg.mark(s'.reqs[t].user, s'.reqs[t].sku) == m
    {
      if m in s.marks {
        var t :| t in s.reqs && Live(s.reqs[t]) && cfg.mark(s.reqs[t].user, s.reqs[t].sku) == m;
        assert t in s'.reqs && Live(s'.reqs[t]);
      } else {
        assert r in s'.reqs && Live(s'.reqs[r]);
      }
    }
  }

  lemma MarkCleared(cfg: Config, s: State, s': State, r: nat, q': Req)
    requires MarkInv(cfg, s) && r in s.reqs && s'.reqs == s.reqs[r := q'] && Live(s.reqs[r]) && !Live(q')
    requires q'.user == s.reqs[r].user && q'.sku == s.reqs[r].sku
    requires s'.marks == s.marks - {cfg.mark(q'.user, q'.sku)}
    ensures MarkInv(cfg, s')
  {
    forall m | m in s'.marks
      ensures exists t :: t in s'.reqs && Live(s'.reqs[t]) && cfg.mark(s'.reqs[t].user, s'.reqs[t].sku) == m
    {
      var t :| t in s.reqs && Live(s.reqs[t]) && cfg.mark(s.reqs[t].user, s.reqs[t].sku) == m;
      assert t != r && t in s'.reqs && Live(s'.reqs[t]);
    }
  }

  // ---- One step at a time ----

  /** A step that changes nothing but its request, and there neither lock, row nor token. */
  lemma RequestOnly(cfg: Config, s: State, r: nat, q': Req)
    requires Inv(cfg, s) && r in s.reqs && Local(cfg, q')
    requires var q := s.reqs[r];
      && q'.user == q.user && q'.sku == q.sku && q'.undo == q.undo && q'.order == q.order
      && Live(q') == Live(q) && (PastUpdate(q) ==> PastUpdate(q'))
    ensures Inv(cfg, With(s, r, q'))
  {
    var s' := With(s, r, q');
    LockQuiet(s, s', r, q');
    RowQuiet(s, s', r, q');
    MarkQuiet(cfg, s, s', r, q');
  }

  lemma TurnAwayKeeps(cfg: Config, s: State, r: nat, user: int, sku: int)
    requires Inv(cfg, s) && r !in s.reqs
    ensures Inv(cfg, With(s, r, TurnedAway(user, sku)))
  {
    var q' := TurnedAway(user, sku);
    var s' := With(s, r, q');
    GateLocal(cfg, user, sku, false);
    LockQuiet(s, s', r, q');
    RowQuiet(s, s', r, q');
    MarkQuiet(cfg, s, s', r, q');
  }

  lemma LetInKeeps(cfg: Config, s: State, r: nat, user: int, sku: int)
    requires Inv(cfg, s) && r !in s.reqs && (cfg.guardOn ==> cfg.mark(user, sku) !in s.marks)
    ensures Inv(cfg, Arrived(cfg, s, r, user, sku))
  {
    var q' := LetIn(user, sku, cfg.guardOn);
    var s' := Arrived(cfg, s, r, user, sku);
    GateLocal(cfg, user, sku, cfg.guardOn);
    LockQuiet(s, s', r, q');
    RowQuiet(s, s', r, q');
    if cfg.guardOn {
      MarkTaken(cfg, s, s', r, q');
    } else {
      MarkQuiet(cfg, s, s', r, q');
    }
  }

  lemma ArriveKeeps(cfg: Config, s: State, r: nat, user: int, sku: int)
    requires Inv(cfg, s) && r !in s.reqs
    ensures Inv(cfg, Arrived(cfg, s, r, user, sku))
  {
    if cfg.guardOn && cfg.mark(user, sku) in s.marks {
      TurnAwayKeeps(cfg, s, r, user, sku);
    } else {
      LetInKeeps(cfg, s, r, user, sku);
    }
  }

  lemma RefuseKeeps(cfg: Config, s: State, r: nat, reply: Reply)
    requires Inv(cfg, s) && r in s.reqs && (s.reqs[r].stage.Deducting? || s.reqs[r].stage.Inserting?) && reply != OK
    ensures Inv(cfg, With(s, r, Refuse(s.reqs[r], reply)))
  {
    assert Local(cfg, s.reqs[r]);
    RefuseLocal(cfg, s.reqs[r], reply);
    RequestOnly(cfg, s, r, Refuse(s.reqs[r], reply));
  }

  lemma DeductKeeps(cfg: Config, s: State, r: nat)
    requires Inv(cfg, s) && Enabled(s, Update(r)) && s.reqs[r].sku in s.stock && s.stock[s.reqs[r].sku] > 0
    ensures Inv(cfg, Updated(s, r))
  {
    var s', q' := Updated(s, r), Deducted(s.reqs[r]);
    assert Local(cfg, s.reqs[r]);
    DeductLocal(cfg, s.reqs[r]);
    LockTaken(s, s', r, q');
    RowQuiet(s, s', r, q');
    MarkQuiet(cfg, s, s', r, q');
  }

  lemma SoldOutKeeps(cfg: Config, s: State, r: nat)
    requires Inv(cfg, s) && Enabled(s, Update(r)) && !(s.reqs[r].sku in s.stock && s.stock[s.reqs[r].sku] > 0)
    ensures Inv(cfg, Updated(s, r))
  {
    var s', q' := Updated(s, r), Refuse(s.reqs[r], SOLD_OUT);
    assert Local(cfg, s.reqs[r]);
    RefuseLocal(cfg, s.reqs[r], SOLD_OUT);
    if s.reqs[r].sku in s.stock {
      LockTaken(s, s', r, q');
    } else {
      LockQuiet(s, s', r, q');
    }
    RowQuiet(s, s', r, q');
    MarkQuiet(cfg, s, s', r, q');
  }

  lemma InsertKeeps(cfg: Config, s: State, r: nat)
    requires Inv(cfg, s) && Enabled(s, Insert(r))
    ensures Inv(cfg, Inserted(s, r))
  {
    var s', q := Inserted(s, r), s.reqs[r];
    var q' := s'.reqs[r];
    assert Local(cfg, q);
    InsertLocal(cfg, q, s.nextRow);
    RefuseLocal(cfg, q, DUPLICATE_ORDER);
    LockQuiet(s, s', r, q');
    if HasOrder(s.rows, q.user, q.sku) {
      RowQuiet(s, s', r, q');
    } else {
      RowAdded(s, s', r, q');
    }
    MarkQuiet(cfg, s, s', r, q');
  }

  lemma DropKeeps(cfg: Config, s: State, r: nat, c: Closure)
    requires Inv(cfg, s) && Enabled(s, Drop(r, c))
    ensures Inv(cfg, Dropped(cfg, s, r, c))
  {
    var s', q := Dropped(cfg, s, r, c), s.reqs[r];
    var q' := DropReq(q, c);
    assert Local(cfg, q);
    DropLocal(cfg, q, c);
    DropPlaces(cfg, q, c);
    LockQuiet(s, s', r, q');
    RowQuiet(s, s', r, q');
    if ReleasedBy(q, c) {
      MarkCleared(cfg, s, s', r, q');
    } else {
      MarkQuiet(cfg, s, s', r, q');
    }
  }

  lemma DropPlaces(cfg: Config, q: Req, c: Closure)
    requires Local(cfg, q) && c in q.closures && Spent(q, c)
    ensures PastUpdate(q) ==> PastUpdate(DropReq(q, c))
    ensures if ReleasedBy(q, c) then Live(q) && !Live(DropReq(q, c)) else Live(DropReq(q, c)) == Live(q)
  {
    assert HoldsToken(c) ==> TokenHeld(q.closures);
  }

  lemma CommitKeeps(cfg: Config, s: State, r: nat)
    requires Inv(cfg, s) && Enabled(s, Commit(r))
    ensures Inv(cfg, Apply(cfg, s, Commit(r)))
  {
    var s' := Apply(cfg, s, Commit(r));
    assert Local(cfg, s.reqs[r]);
    CloseLocal(cfg, s.reqs[r]);
    LockFreed(s, s', r, s'.reqs[r]);
    RowCommitted(cfg, s, r);
    MarkQuiet(cfg, s, s', r, s'.reqs[r]);
  }

  lemma CommitFailsKeeps(cfg: Config, s: State, r: nat)
    requires Inv(cfg, s) && Enabled(s, CommitFails(r))
    ensures Inv(cfg, Apply(cfg, s, CommitFails(r)))
  {
    var s' := Apply(cfg, s, CommitFails(r));
    assert Local(cfg, s.reqs[r]);
    CloseLocal(cfg, s.reqs[r]);
    LockFreed(s, s', r, s'.reqs[r]);
    RowRemoved(cfg, s, r);
    MarkQuiet(cfg, s, s', r, s'.reqs[r]);
  }

  lemma RollbackKeeps(cfg: Config, s: State, r: nat)
    requires Inv(cfg, s) && Enabled(s, Rollback(r))
    ensures Inv(cfg, Apply(cfg, s, Rollback(r)))
  {
    var s' := Apply(cfg, s, Rollback(r));
    assert Local(cfg, s.reqs[r]);
    CloseLocal(cfg, s.reqs[r]);
    LockFreed(s, s', r, s'.reqs[r]);
    RowQuiet(s, s', r, s'.reqs[r]);
    MarkQuiet(cfg, s, s', r, s'.reqs[r]);
  }

  // ---- All runs ----

  lemma StepInv(cfg: Config, s: State, e: Step)
    requires Inv(cfg, s) && Enabled(s, e)
    ensures Inv(cfg, Apply(cfg, s, e))
  {
    assert !e.Arrive? ==> Local(cfg, s.reqs[e.r]);
    match e
    case Arrive(r, user, sku) => ArriveKeeps(cfg, s, r, user, sku);
    case OpenNull(r) =>
      OpenLocal(cfg, s.reqs[r]);
      RequestOnly(cfg, s, r, s.reqs[r].(stage := Decided, replies := s.reqs[r].replies + [DB_ERROR]));
    case OpenTx(r) =>
      OpenLocal(cfg, s.reqs[r]);
      RequestOnly(cfg, s, r, Opened(s.reqs[r]));
    case Update(r) =>
      if s.reqs[r].sku in s.stock && s.stock[s.reqs[r].sku] > 0 {
        DeductKeeps(cfg, s, r);
      } else {
        SoldOutKeeps(cfg, s, r);
      }
    case UpdateFails(r) => RefuseKeeps(cfg, s, r, DB_ERROR);
    case Insert(r) => InsertKeeps(cfg, s, r);
    case InsertFails(r) => RefuseKeeps(cfg, s, r, DB_ERROR);
    case Drop(r, c) => DropKeeps(cfg, s, r, c);
    case Commit(r) => CommitKeeps(cfg, s, r);
    case CommitFails(r) => CommitFailsKeeps(cfg, s, r);
    case CommitCallback(r) =>
      CloseLocal(cfg, s.reqs[r]);
      RequestOnly(cfg, s, r, Acknowledged(cfg, s.reqs[r]));
    case Rollback(r) => RollbackKeeps(cfg, s, r);
  }

  lemma {:induction false} RunInv(cfg: Config, s: State, es: seq<Step>)
    requires Inv(cfg, s) && Valid(cfg, s, es)
    ensures Inv(cfg, Run(cfg, s, es))
    decreases |es|
  {
    if es != [] {
      StepInv(cfg, s, es[0]);
      RunInv(cfg, Apply(cfg, s, es[0]), es[1..]);
    }
  }

  lemma InitialInv(cfg: Config, s: State)
    requires Initial(s)
    ensures Inv(cfg, s)
  {}
}
