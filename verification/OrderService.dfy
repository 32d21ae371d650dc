/** The order service and its database as one object that is updated in place, callback by
    callback. Every method is one step of the protocol and keeps its invariant. */
module OrderService {
  import opened Wrappers
  import opened OrderProtocol
  import opened OrderInvariants
  import Caching = SkuCache
  import Delays = DelayDeleter
  import Bytes = Base64Url

  class Service {
    const cfg: Config
    const cache: Caching.SkuCache?
    var reqs: map<nat, Req>
    var stock: map<int, int>
    var rows: map<nat, (int, int)>
    var nextRow: nat
    var lock: map<int, nat>
    var marks: set<(nat, nat)>

    function Value(): State
      reads this
    {
      State(reqs, stock, rows, nextRow, lock, marks)
    }

    ghost predicate Valid()
      reads this
    {
      Inv(cfg, Value())
    }

    constructor (cfg: Config, cache: Caching.SkuCache?, stock: map<int, int>)
      requires forall k :: k in stock ==> stock[k] >= 0
      ensures Valid() && Initial(Value()) && this.cfg == cfg && this.cache == cache && this.stock == stock
    {
      this.cfg, this.cache, this.stock := cfg, cache, stock;
      reqs, rows, nextRow, lock, marks := map[], map[], 0, map[], {};
    }

    /** The gate. */
    method DoSeckill(r: nat, user: int, sku: int)
      requires Valid() && r !in reqs
      modifies this
      ensures Valid() && Value() == Apply(cfg, old(Value()), Arrive(r, user, sku))
    {
      StepInv(cfg, Value(), Arrive(r, user, sku));
      if cfg.guardOn {
        var m := cfg.mark(user, sku);
        if m in marks {
          reqs := reqs[r := TurnedAway(user, sku)];
          return;
        }
        marks := marks + {m};
      }
      reqs := reqs[r := LetIn(user, sku, cfg.guardOn)];
    }

    /** The callback of `newTransactionAsync`; without a transaction it reports the failure. */
    method OnTransaction(r: nat, granted: bool)
      requires Valid() && r in reqs && reqs[r].stage.Opening?
      modifies this
      ensures Valid() && Value() == Apply(cfg, old(Value()), if granted then OpenTx(r) else OpenNull(r))
    {
      StepInv(cfg, Value(), if granted then OpenTx(r) else OpenNull(r));
      var q := reqs[r];
      if !granted {
        reqs := reqs[r := q.(stage := Decided, replies := q.replies + [DB_ERROR])];
        return;
      }
      reqs := reqs[r := q.(stage := Deducting, tx := Open, closures := q.closures + {Handle, CommitCb, UpdateOk, UpdateErr})];
    }

    /** The UPDATE and its success callback. */
    method OnUpdate(r: nat)
      requires Valid() && r in reqs && reqs[r].stage.Deducting? && reqs[r].sku !in lock
      modifies this
      ensures Valid() && Value() == Apply(cfg, old(Value()), Update(r))
    {
      StepInv(cfg, Value(), Update(r));
      UpdateAndGoOn(r);
    }

    method UpdateAndGoOn(r: nat)
      requires r in reqs
      modifies this`reqs, this`stock, this`lock
      ensures Value() == Updated(old(Value()), r)
    {
      var affected := ExecUpdate(r, reqs[r].sku);
      AfterUpdate(r, affected);
    }

    /** `UPDATE ... AND stock > 0`: a row that exists is locked in any case. */
    method ExecUpdate(r: nat, sku: int) returns (affected: nat)
      modifies this`stock, this`lock
      ensures affected == if sku in old(stock) && old(stock)[sku] > 0 then 1 else 0
      ensures stock == if affected == 1 then old(stock)[sku := old(stock)[sku] - 1] else old(stock)
      ensures lock == if sku in old(stock) then old(lock)[sku := r] else old(lock)
    {
      affected := 0;
      if sku in stock {
        lock := lock[sku := r];
        if stock[sku] > 0 {
          stock := stock[sku := stock[sku] - 1];
          affected := 1;
        }
      }
    }

    method AfterUpdate(r: nat, affected: nat)
      requires r in reqs
      modifies this`reqs
      ensures reqs == old(reqs)[r := if affected == 0 then Refuse(old(reqs)[r], SOLD_OUT) else Deducted(old(reqs)[r])]
    {
      if affected == 0 {
        RollBack(r, SOLD_OUT);
        return;
      }
      var q := reqs[r];
      reqs := reqs[r := q.(stage := Inserting, undo := Undo(true, None), closures := q.closures + {InsertOk, InsertErr})];
    }

    /** The INSERT and its success callback. */
    method OnInsert(r: nat)
      requires Valid() && r in reqs && reqs[r].stage.Inserting?
      modifies this
      ensures Valid() && Value() == Apply(cfg, old(Value()), Insert(r))
    {
      StepInv(cfg, Value(), Insert(r));
      InsertAndGoOn(r);
    }

    method InsertAndGoOn(r: nat)
      requires r in reqs
      modifies this`reqs, this`rows, this`nextRow
      ensures Value() == Inserted(old(Value()), r)
    {
      var id := nextRow;
      var affected := ExecInsert(reqs[r].user, reqs[r].sku);
      AfterInsert(r, id, affected);
    }

    /** `INSERT ... ON DUPLICATE KEY UPDATE id = id`: the primary key is drawn in either case. */
    method ExecInsert(user: int, sku: int) returns (affected: nat)
      modifies this`rows, this`nextRow
      ensures affected == if HasOrder(old(rows), user, sku) then 0 else 1
      ensures rows == if affected == 1 then old(rows)[old(nextRow) := (user, sku)] else old(rows)
      ensures nextRow == old(nextRow) + 1
    {
      affected := 0;
      if !HasOrder(rows, user, sku) {
        rows := rows[nextRow := (user, sku)];
        affected := 1;
      }
      nextRow := nextRow + 1;
    }

    method AfterInsert(r: nat, id: nat, affected: nat)
      requires r in reqs
      modifies this`reqs
      ensures var q := old(reqs)[r]; reqs == old(reqs)[r :=
        if affected == 0 then Refuse(q, DUPLICATE_ORDER) else q.(stage := Decided, undo := q.undo.(row := Some(id)))]
    {
      if affected == 0 {
        RollBack(r, DUPLICATE_ORDER);
        return;
      }
      var q := reqs[r];
      reqs := reqs[r := q.(stage := Decided, undo := q.undo.(row := Some(id)))];
    }

    /** The error callbacks of both statements. */
    method OnError(r: nat)
      requires Valid() && r in reqs && (reqs[r].stage.Deducting? || reqs[r].stage.Inserting?)
      modifies this
      ensures Valid()
      ensures Value() == Apply(cfg, old(Value()), if old(reqs)[r].stage.Deducting? then UpdateFails(r) else InsertFails(r))
    {
      StepInv(cfg, Value(), if reqs[r].stage.Deducting? then UpdateFails(r) else InsertFails(r));
      RollBack(r, DB_ERROR);
    }

    /** `tx->rollback()` and the answer, in one callback. */
    method RollBack(r: nat, reply: Reply)
      requires r in reqs
      modifies this`reqs
      ensures reqs == old(reqs)[r := Refuse(old(reqs)[r], reply)]
    {
      var q := reqs[r];
      reqs := reqs[r := q.(stage := Decided, tx := RollbackQueued, replies := q.replies + [reply])];
    }

    /** A copy goes. The last copy of the transaction commits, the last of the token releases. */
    method DropCopy(r: nat, c: Closure)
      requires Valid() && r in reqs && c in reqs[r].closures && Spent(reqs[r], c)
      modifies this
      ensures Valid() && Value() == Apply(cfg, old(Value()), Drop(r, c))
    {
      StepInv(cfg, Value(), Drop(r, c));
      Destroy(r, c);
    }

    method Destroy(r: nat, c: Closure)
      requires r in reqs && c in reqs[r].closures
      modifies this`reqs, this`marks
      ensures Value() == Dropped(cfg, old(Value()), r, c)
    {
      var q := reqs[r];
      var left := q.closures - {c};
      var q' := q.(closures := left);
      if q.tx.Open? && HoldsTx(c) && !TxHeld(left) {
        q' := q'.(tx := CommitQueued);
      }
      if q.guarded && HoldsToken(c) && !TokenHeld(left) {
        q' := q'.(released := q.released + 1);
        marks := marks - {cfg.mark(q.user, q.sku)};
      }
      reqs := reqs[r := q'];
    }

    /** The database ends the commit, or fails it and takes everything back. */
    method EndCommit(r: nat, committed: bool)
      requires Valid() && r in reqs && reqs[r].tx.CommitQueued?
      modifies this
      ensures Valid() && Value() == Apply(cfg, old(Value()), if committed then Commit(r) else CommitFails(r))
    {
      StepInv(cfg, Value(), if committed then Commit(r) else CommitFails(r));
      var q := reqs[r];
      if committed {
        lock := Unlocked(Value(), r, q.sku);
        reqs := reqs[r := q.(tx := Acked(true), undo := CLEAN, order := q.undo.row)];
      } else {
        TakeBack(r);
        reqs := reqs[r := q.(tx := Acked(false), undo := CLEAN, lost := true)];
      }
    }

    /** The commit callback: after a commit the cache is invalidated before the caller is told. */
    method OnCommit(r: nat, now: int, up: bool)
      requires Valid() && r in reqs && reqs[r].tx.Acked?
      requires cache != null ==> cache.Valid()
      modifies this
      modifies if cache != null && reqs[r].tx.ok then CacheParts() else {}
      ensures Valid() && Value() == Apply(cfg, old(Value()), CommitCallback(r))
      ensures cache != null ==> cache.Valid()
      ensures cache != null && old(reqs)[r].tx.ok && cache.Active() ==>
        && cache.store
           == (if up then Caching.Without(old(cache.store), OrderKeys(old(reqs)[r].sku)) else old(cache.store))
        && cache.LocalItems() == Caching.EraseAll(old(cache.LocalItems()), OrderKeys(old(reqs)[r].sku))
        && (cache.deleter != null ==>
              cache.deleter.Value() == Delays.Apply(cache.deleter.delay, old(cache.deleter.Value()),
                                                    Delays.Schedule(OrderKeys(old(reqs)[r].sku), now)))
      ensures cache != null && !(old(reqs)[r].tx.ok && cache.Active()) ==>
        cache.store == old(cache.store) && cache.LocalItems() == old(cache.LocalItems())
    {
      if reqs[r].tx.ok && cache != null {
        cache.OnOrder(reqs[r].sku, now, up);
      }
      TellCaller(r);
    }

    method TellCaller(r: nat)
      requires Valid() && r in reqs && reqs[r].tx.Acked?
      modifies this`reqs
      ensures Valid() && Value() == Apply(cfg, old(Value()), CommitCallback(r))
    {
      StepInv(cfg, Value(), CommitCallback(r));
      Tell(r);
    }

    /** The cache with what it is made of. */
    ghost function CacheParts(): set<object>
      requires cache != null
    {
      {cache} + (if cache.local != null then {cache.local} else {}) + (if cache.deleter != null then {cache.deleter} else {})
    }

    function OrderKeys(sku: int): seq<Bytes.bytes>
      requires cache != null
    {
      Caching.KeysOf(cache.cfg.invalidateOnOrder, cache.keys, sku)
    }

    method Tell(r: nat)
      requires r in reqs && reqs[r].tx.Acked?
      modifies this`reqs
      ensures reqs == old(reqs)[r := Acknowledged(cfg, old(reqs)[r])]
    {
      var q := reqs[r];
      var replies := q.replies;
      if q.tx.ok {
        replies := replies + [OK];
      } else if cfg.reportsFailure {
        replies := replies + [DB_ERROR];
      }
      reqs := reqs[r := q.(tx := Closed, replies := replies)];
    }

    /** The database ends a rollback. */
    method EndRollback(r: nat)
      requires Valid() && r in reqs && reqs[r].tx.RollbackQueued?
      modifies this
      ensures Valid() && Value() == Apply(cfg, old(Value()), Rollback(r))
    {
      StepInv(cfg, Value(), Rollback(r));
      TakeBack(r);
      reqs := reqs[r := reqs[r].(tx := Closed, undo := CLEAN)];
    }

    /** Undoes what the transaction did and frees its row lock. */
    method TakeBack(r: nat)
      requires r in reqs
      modifies this`stock, this`rows, this`lock
      ensures Value() == Undone(old(Value()), r, reqs[r])
    {
      var q := reqs[r];
      if q.undo.deducted && q.sku in stock {
        stock := stock[q.sku := stock[q.sku] + 1];
      }
      if q.undo.row.Some? {
        rows := rows - {q.undo.row.value};
      }
      lock := Unlocked(Value(), r, q.sku);
      assert reqs == reqs[r := q];
    }
  }
}
