/** What the gate adds while it is on: between its arrival and its release a request is alone with
    its user and sku, so a duplicate that it meets is older than itself. */
module OrderGate {
  import opened Wrappers
  import opened OrderProtocol
  import opened OrderInvariants
  import opened OrderTheorems
  import GuardErasure

  /** With the guard on, no two requests of one user and sku are between the gate and the release
      of their tokens at once, whatever marks the guard uses. */
  lemma OneAtATime(cfg: Config, init: State, es: seq<Step>, r: nat, t: nat)
    requires cfg.guardOn && Initial(init) && Valid(cfg, init, es)
    requires var s := Run(cfg, init, es);
      && r in s.reqs && t in s.reqs && Live(s.reqs[r]) && Live(s.reqs[t])
      && s.reqs[r].user == s.reqs[t].user && s.reqs[r].sku == s.reqs[t].sku
    ensures r == t
  {
    InitialInv(cfg, init);
    RunInv(cfg, init, es);
  }

  ghost predicate Guarded(cfg: Config, s: State) { cfg.guardOn && Inv(cfg, s) && GuardErasure.GateInv(s) }

  /** A request that has still to be decided, or to be committed, holds its token. */
  lemma BusyIsLive(cfg: Config, s: State, r: nat)
    requires Guarded(cfg, s) && r in s.reqs
    requires !s.reqs[r].stage.Decided? || s.reqs[r].undo.row.Some?
    ensures Live(s.reqs[r])
  {
    assert Local(cfg, s.reqs[r]);
  }

  lemma StepGuarded(cfg: Config, s: State, e: Step)
    requires Guarded(cfg, s) && Enabled(s, e)
    ensures Guarded(cfg, Apply(cfg, s, e))
  {
    StepInv(cfg, s, e);
    GuardErasure.StepGate(cfg, s, e);
  }

  lemma StepKeepsRequest(cfg: Config, s: State, e: Step, r: nat)
    requires Enabled(s, e) && r in s.reqs
    ensures var s' := Apply(cfg, s, e);
      r in s'.reqs && s'.reqs[r].user == s.reqs[r].user && s'.reqs[r].sku == s.reqs[r].sku
      && (s.reqs[r].stage.Decided? ==> s'.reqs[r].stage.Decided?)
  {
    if e.r == r {
      assert !e.Arrive?;
    }
  }

  lemma {:induction false} DecidedStays(cfg: Config, s: State, es: seq<Step>, r: nat)
    requires Valid(cfg, s, es) && r in s.reqs && s.reqs[r].stage.Decided?
    ensures r in Run(cfg, s, es).reqs && Run(cfg, s, es).reqs[r].stage.Decided?
    decreases |es|
  {
    if es != [] {
      StepKeepsRequest(cfg, s, es[0], r);
      DecidedStays(cfg, Apply(cfg, s, es[0]), es[1..], r);
    }
  }

  /** Only the INSERT of a request adds a row, and the row is its own. */
  lemma RowsGrow(cfg: Config, s: State, e: Step, id: nat)
    requires Enabled(s, e) && id in Apply(cfg, s, e).rows
    ensures id in s.rows ==> Apply(cfg, s, e).rows[id] == s.rows[id] || (e.Insert? && id == s.nextRow)
    ensures id !in s.rows ==> e.Insert? && Apply(cfg, s, e).rows[id] == (s.reqs[e.r].user, s.reqs[e.r].sku)
  {}

  /** As long as the request r is undecided, nobody else inserts an order of its user and sku. */
  lemma StepAddsNone(cfg: Config, s: State, e: Step, r: nat, id: nat)
    requires Guarded(cfg, s) && Enabled(s, e) && r in s.reqs && !s.reqs[r].stage.Decided?
    requires r in Apply(cfg, s, e).reqs && !Apply(cfg, s, e).reqs[r].stage.Decided?
    requires id in Apply(cfg, s, e).rows && Apply(cfg, s, e).rows[id] == (s.reqs[r].user, s.reqs[r].sku)
    ensures id in s.rows && s.rows[id] == Apply(cfg, s, e).rows[id]
  {
    RowsGrow(cfg, s, e, id);
    BusyIsLive(cfg, s, r);
    if e.Insert? {
      BusyIsLive(cfg, s, e.r);
    }
  }

  lemma {:induction false} RunAddsNone(cfg: Config, s: State, es: seq<Step>, r: nat, id: nat)
    requires Guarded(cfg, s) && Valid(cfg, s, es) && r in s.reqs
    requires var t := Run(cfg, s, es);
      && r in t.reqs && !t.reqs[r].stage.Decided?
      && id in t.rows && t.rows[id] == (s.reqs[r].user, s.reqs[r].sku)
    ensures id in s.rows && s.rows[id] == (s.reqs[r].user, s.reqs[r].sku)
    decreases |es|
  {
    if es != [] {
      var s' := Apply(cfg, s, es[0]);
      StepGuarded(cfg, s, es[0]);
      StepKeepsRequest(cfg, s, es[0], r);
      RunAddsNone(cfg, s', es[1..], r, id);
      if s.reqs[r].stage.Decided? {
        DecidedStays(cfg, s, es, r);
      } else {
        if s'.reqs[r].stage.Decided? {
          DecidedStays(cfg, s', es[1..], r);
        }
        StepAddsNone(cfg, s, es[0], r, id);
      }
    }
  }

  /** A gate that lets a request in has found no order of its user and sku still uncommitted. */
  lemma LetInFindsCommitted(cfg: Config, s: State, user: int, sku: int, id: nat)
    requires Guarded(cfg, s) && cfg.mark(user, sku) !in s.marks
    requires id in s.rows && s.rows[id] == (user, sku)
    ensures !Uncommitted(s, id)
  {
    forall t | t in s.reqs ensures s.reqs[t].undo.row != Some(id) {
      if s.reqs[t].undo.row == Some(id) {
        BusyIsLive(cfg, s, t);
      }
    }
  }

  /** When the INSERT of a request that the guard let in meets an order of its user and sku, that
      order was committed before the request arrived: answers of DUPLICATE_ORDER after the gate are
      never about an order that was placed alongside. */
  lemma DuplicateIsOlder(cfg: Config, init: State, before: seq<Step>, since: seq<Step>, r: nat, user: int, sku: int, id: nat)
    requires cfg.guardOn && Initial(init) && Valid(cfg, init, before)
    requires var s := Run(cfg, init, before);
      && r !in s.reqs && cfg.mark(user, sku) !in s.marks
      && Valid(cfg, Arrived(cfg, s, r, user, sku), since)
      && var t := Run(cfg, Arrived(cfg, s, r, user, sku), since);
         && Enabled(t, Insert(r)) && id in t.rows && t.rows[id] == (user, sku)
    ensures var s := Run(cfg, init, before);
      id in CommittedOrders(s, sku) && s.rows[id] == (user, sku)
  {
    var s := Run(cfg, init, before);
    var s1 := Arrived(cfg, s, r, user, sku);
    InitialInv(cfg, init);
    RunInv(cfg, init, before);
    GuardErasure.RunErased(cfg, init, before);
    StepGuarded(cfg, s, Arrive(r, user, sku));
    assert s1 == Apply(cfg, s, Arrive(r, user, sku));
    RunAddsNone(cfg, s1, since, r, id);
    LetInFindsCommitted(cfg, s, user, sku, id);
  }
}
