/** The order protocol: one request is a chain of asynchronous callbacks around a database
    transaction. Captured handles decide when the transaction commits and when the in-flight mark
    goes; the machine runs any number of requests in any interleaving, and any database step may
    fail. */
module OrderProtocol {
  import opened Wrappers

  datatype Reply = OK | SOLD_OUT | DUPLICATE_ORDER | DB_ERROR

  /** What can hold a copy of the transaction or of the token: the frame of `doSeckill`, the
      callback of `newTransactionAsync` and the handle it is given, the commit callback inside the
      transaction, and the two callbacks of each statement. */
  datatype Closure = Frame | OpenCb | Handle | CommitCb | UpdateOk | UpdateErr | InsertOk | InsertErr

  predicate HoldsTx(c: Closure) { c.Handle? || c.UpdateOk? || c.UpdateErr? || c.InsertOk? || c.InsertErr? }

  predicate HoldsToken(c: Closure) { !c.Handle? }

  predicate TxHeld(cs: set<Closure>) {
    Handle in cs || UpdateOk in cs || UpdateErr in cs || InsertOk in cs || InsertErr in cs
  }

  predicate TokenHeld(cs: set<Closure>) {
    || Frame in cs || OpenCb in cs || CommitCb in cs
    || UpdateOk in cs || UpdateErr in cs || InsertOk in cs || InsertErr in cs
  }

  /** What the request waits for: its transaction, its UPDATE, its INSERT, or nothing more. */
  datatype Stage = Opening | Deducting | Inserting | Decided

  /** `Acked` is the time between the end of the commit and the run of the commit callback. */
  datatype Tx = NoTx | Open | RollbackQueued | CommitQueued | Acked(ok: bool) | Closed

  /** What a rollback would take back. */
  datatype Undo = Undo(deducted: bool, row: Option<nat>)

  const CLEAN: Undo := Undo(false, None)

  /** `order` is the row the request has committed, `lost` says that its commit failed. */
  datatype Req = Req(
    user: int,
    sku: int,
    stage: Stage,
    tx: Tx,
    closures: set<Closure>,
    replies: seq<Reply>,
    undo: Undo,
    guarded: bool,
    released: nat,
    order: Option<nat>,
    lost: bool)

  /** `stock` and `rows` are the current rows, changes of open transactions included; `lock` names
      the request that holds a sku row; `marks` are the in-flight marks. */
  datatype State = State(
    reqs: map<nat, Req>,
    stock: map<int, int>,
    rows: map<nat, (int, int)>,
    nextRow: nat,
    lock: map<int, nat>,
    marks: set<(nat, nat)>)

  /** Whether the guard is on, the mark that it uses for a user and a sku, and whether the
      database client calls the commit callback after a failed commit. */
  datatype Config = Config(guardOn: bool, mark: (int, int) -> (nat, nat), reportsFailure: bool)

  datatype Step =
    | Arrive(r: nat, user: int, sku: int)
    | OpenNull(r: nat)
    | OpenTx(r: nat)
    | Update(r: nat)
    | UpdateFails(r: nat)
    | Insert(r: nat)
    | InsertFails(r: nat)
    | Drop(r: nat, closure: Closure)
    | Commit(r: nat)
    | CommitFails(r: nat)
    | CommitCallback(r: nat)
    | Rollback(r: nat)

  // ---- When a step can happen ----

  /** A copy goes when the callback that carries it can no longer run. The commit callback lives
      in the transaction until that is closed; after a rollback it may go at once. */
  predicate Spent(q: Req, c: Closure) {
    match c
    case Frame => true
    case OpenCb => !q.stage.Opening?
    case Handle => true
    case CommitCb => q.tx.Closed? || q.tx.RollbackQueued?
    case UpdateOk => q.stage.Inserting? || q.stage.Decided?
    case UpdateErr => q.stage.Inserting? || q.stage.Decided?
    case InsertOk => q.stage.Decided?
    case InsertErr => q.stage.Decided?
  }

  /** The UPDATE waits while another transaction holds the sku row. */
  predicate Enabled(s: State, e: Step) {
    match e
    case Arrive(r, _, _) => r !in s.reqs
    case OpenNull(r) => r in s.reqs && s.reqs[r].stage.Opening?
    case OpenTx(r) => r in s.reqs && s.reqs[r].stage.Opening?
    case Update(r) => r in s.reqs && s.reqs[r].stage.Deducting? && s.reqs[r].sku !in s.lock
    case UpdateFails(r) => r in s.reqs && s.reqs[r].stage.Deducting?
    case Insert(r) => r in s.reqs && s.reqs[r].stage.Inserting?
    case InsertFails(r) => r in s.reqs && s.reqs[r].stage.Inserting?
    case Drop(r, c) => r in s.reqs && c in s.reqs[r].closures && Spent(s.reqs[r], c)
    case Commit(r) => r in s.reqs && s.reqs[r].tx.CommitQueued?
    case CommitFails(r) => r in s.reqs && s.reqs[r].tx.CommitQueued?
    case CommitCallback(r) => r in s.reqs && s.reqs[r].tx.Acked?
    case Rollback(r) => r in s.reqs && s.reqs[r].tx.RollbackQueued?
  }

  // ---- What a step does ----

  function With(s: State, r: nat, q: Req): State { s.(reqs := s.reqs[r := q]) }

  /** Queues the rollback and answers, in one callback. */
  function Refuse(q: Req, reply: Reply): Req {
    q.(stage := Decided, tx := RollbackQueued, replies := q.replies + [reply])
  }

  predicate HasOrder(rows: map<nat, (int, int)>, user: int, sku: int) {
    exists id :: id in rows && rows[id] == (user, sku)
  }

  /** A request turned away at the gate, and one let in with its token or without a guard. */
  function TurnedAway(user: int, sku: int): Req {
    Req(user, sku, Decided, NoTx, {}, [DUPLICATE_ORDER], CLEAN, false, 0, None, false)
  }

  function LetIn(user: int, sku: int, guarded: bool): Req {
    Req(user, sku, Opening, NoTx, {Frame, OpenCb}, [], CLEAN, guarded, 0, None, false)
  }

  function Arrived(cfg: Config, s: State, r: nat, user: int, sku: int): State {
    var m := cfg.mark(user, sku);
    if cfg.guardOn && m in s.marks then With(s, r, TurnedAway(user, sku))
    else With(s, r, LetIn(user, sku, cfg.guardOn)).(marks := if cfg.guardOn then s.marks + {m} else s.marks)
  }

  function Opened(q: Req): Req {
    q.(stage := Deducting, tx := Open, closures := q.closures + {Handle, CommitCb, UpdateOk, UpdateErr})
  }

  function Deducted(q: Req): Req {
    q.(stage := Inserting, undo := Undo(true, None), closures := q.closures + {InsertOk, InsertErr})
  }

  /** `UPDATE ... SET stock = stock - 1 WHERE id = ? AND stock > 0` and its success callback. */
  function Updated(s: State, r: nat): State
    requires r in s.reqs
  {
    var q := s.reqs[r];
    if q.sku in s.stock && s.stock[q.sku] > 0 then
      With(s, r, Deducted(q)).(stock := s.stock[q.sku := s.stock[q.sku] - 1], lock := s.lock[q.sku := r])
    else
      With(s, r, Refuse(q, SOLD_OUT)).(lock := if q.sku in s.stock then s.lock[q.sku := r] else s.lock)
  }

  /** `INSERT ... ON DUPLICATE KEY UPDATE id = id` and its success callback. The primary key is
      drawn in either case. */
  function Inserted(s: State, r: nat): State
    requires r in s.reqs
  {
    var q := s.reqs[r];
    if HasOrder(s.rows, q.user, q.sku) then
      With(s, r, Refuse(q, DUPLICATE_ORDER)).(nextRow := s.nextRow + 1)
    else
      With(s, r, q.(stage := Decided, undo := q.undo.(row := Some(s.nextRow))))
        .(rows := s.rows[s.nextRow := (q.user, q.sku)], nextRow := s.nextRow + 1)
  }

  /** The last copy of the transaction commits it. */
  function TxAfterDrop(q: Req, c: Closure): Tx {
    if q.tx.Open? && HoldsTx(c) && !TxHeld(q.closures - {c}) then CommitQueued else q.tx
  }

  /** The last copy of the token clears the mark. */
  predicate ReleasedBy(q: Req, c: Closure) {
    q.guarded && HoldsToken(c) && !TokenHeld(q.closures - {c})
  }

  function DropReq(q: Req, c: Closure): Req {
    q.(closures := q.closures - {c}, tx := TxAfterDrop(q, c),
       released := if ReleasedBy(q, c) then q.released + 1 else q.released)
  }

  function Dropped(cfg: Config, s: State, r: nat, c: Closure): State
    requires r in s.reqs
  {
    var q := s.reqs[r];
    With(s, r, DropReq(q, c))
      .(marks := if ReleasedBy(q, c) then s.marks - {cfg.mark(q.user, q.sku)} else s.marks)
  }

  function Unlocked(s: State, r: nat, sku: int): map<int, nat> {
    if sku in s.lock && s.lock[sku] == r then s.lock - {sku} else s.lock
  }

  /** Takes back what the transaction changed and frees its row lock. */
  function Undone(s: State, r: nat, q': Req): State
    requires r in s.reqs
  {
    var q := s.reqs[r];
    With(s, r, q')
      .(stock := if q.undo.deducted && q.sku in s.stock then s.stock[q.sku := s.stock[q.sku] + 1] else s.stock,
        rows := if q.undo.row.Some? then s.rows - {q.undo.row.value} else s.rows,
        lock := Unlocked(s, r, q.sku))
  }

  function Acknowledged(cfg: Config, q: Req): Req
    requires q.tx.Acked?
  {
    q.(tx := Closed,
       replies := if q.tx.ok then q.replies + [OK]
                  else if cfg.reportsFailure then q.replies + [DB_ERROR] else q.replies)
  }

  function Apply(cfg: Config, s: State, e: Step): State
    requires Enabled(s, e)
  {
    match e
    case Arrive(r, user, sku) => Arrived(cfg, s, r, user, sku)
    case OpenNull(r) => With(s, r, s.reqs[r].(stage := Decided, replies := s.reqs[r].replies + [DB_ERROR]))
    case OpenTx(r) => With(s, r, Opened(s.reqs[r]))
    case Update(r) => Updated(s, r)
    case UpdateFails(r) => With(s, r, Refuse(s.reqs[r], DB_ERROR))
    case Insert(r) => Inserted(s, r)
    case InsertFails(r) => With(s, r, Refuse(s.reqs[r], DB_ERROR))
    case Drop(r, c) => Dropped(cfg, s, r, c)
    case Commit(r) =>
      With(s, r, s.reqs[r].(tx := Acked(true), undo := CLEAN, order := s.reqs[r].undo.row))
        .(lock := Unlocked(s, r, s.reqs[r].sku))
    case CommitFails(r) => Undone(s, r, s.reqs[r].(tx := Acked(false), undo := CLEAN, lost := true))
    case CommitCallback(r) => With(s, r, Acknowledged(cfg, s.reqs[r]))
    case Rollback(r) => Undone(s, r, s.reqs[r].(tx := Closed, undo := CLEAN))
  }

  ghost predicate Valid(cfg: Config, s: State, es: seq<Step>)
    decreases |es|
  {
    es == [] || (Enabled(s, es[0]) && Valid(cfg, Apply(cfg, s, es[0]), es[1..]))
  }

  function Run(cfg: Config, s: State, es: seq<Step>): State
    requires Valid(cfg, s, es)
    decreases |es|
  {
    if es == [] then s else Run(cfg, Apply(cfg, s, es[0]), es[1..])
  }

  lemma Prepend(cfg: Config, s: State, e: Step, rest: seq<Step>)
    requires Enabled(s, e) && Valid(cfg, Apply(cfg, s, e), rest)
    ensures Valid(cfg, s, [e] + rest) && Run(cfg, s, [e] + rest) == Run(cfg, Apply(cfg, s, e), rest)
  {
    assert ([e] + rest)[1..] == rest;
  }

  /** A database before the first request: any stock that is not negative, any orders that respect
      the unique key. */
  ghost predicate Initial(s: State) {
    && s.reqs == map[] && s.lock == map[] && s.marks == {}
    && (forall k :: k in s.stock ==> s.stock[k] >= 0)
    && (forall id :: id in s.rows ==> id < s.nextRow)
    && (forall i, j :: i in s.rows && j in s.rows && s.rows[i] == s.rows[j] ==> i == j)
  }

  // ---- The committed view ----

  /** What a reader outside the transactions sees as the stock of a sku. */
  function CommittedStock(s: State, k: int): int
    requires k in s.stock
  {
    s.stock[k] + (if k in s.lock && s.lock[k] in s.reqs && s.reqs[s.lock[k]].undo.deducted then 1 else 0)
  }

  predicate Uncommitted(s: State, id: nat) {
    exists r :: r in s.reqs && s.reqs[r].undo.row == Some(id)
  }

  /** What a reader outside the transactions sees as the orders of a sku. */
  function CommittedOrders(s: State, k: int): set<nat> {
    set id | id in s.rows && s.rows[id].1 == k && !Uncommitted(s, id)
  }
}
