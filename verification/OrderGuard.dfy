/** The order protocol with the marks of the in-flight guard's own back ends. */
module OrderGuard {
  import opened Decimal
  import opened Words
  import opened SplitMix
  import opened BloomFilter
  import opened InflightGuard
  import opened OrderProtocol
  import opened OrderInvariants
  import opened OrderTheorems

  /** The key of a user and a sku, both cast to 64 bits without a sign. */
  function OrderKey(user: int, sku: int): Word { MakeKey(Unsigned(user), Unsigned(sku)) }

  function Guarding(c: Setup, reportsFailure: bool): Config
    requires c.Usable()
  {
    Config(!c.mode.None?, (user, sku) => c.PlaceOf(OrderKey(user, sku)), reportsFailure)
  }

  lemma UnsignedInjective(a: int, b: int)
    requires Fits(a) && Fits(b)
    ensures Unsigned(a) == Unsigned(b) <==> a == b
  {}

  /** All the requests of a run are for 64-bit users and skus. */
  predicate Typed(es: seq<Step>) {
    forall i :: 0 <= i < |es| && es[i].Arrive? ==> Fits(es[i].user) && Fits(es[i].sku)
  }

  predicate TypedReqs(s: State) {
    forall r :: r in s.reqs ==> Fits(s.reqs[r].user) && Fits(s.reqs[r].sku)
  }

  lemma {:induction false} RunTyped(cfg: Config, s: State, es: seq<Step>)
    requires Inv(cfg, s) && Valid(cfg, s, es) && Typed(es) && TypedReqs(s)
    ensures TypedReqs(Run(cfg, s, es))
    decreases |es|
  {
    if es != [] {
      StepInv(cfg, s, es[0]);
      StepTyped(cfg, s, es[0]);
      RunTyped(cfg, Apply(cfg, s, es[0]), es[1..]);
    }
  }

  lemma StepTyped(cfg: Config, s: State, e: Step)
    requires Enabled(s, e) && TypedReqs(s) && (e.Arrive? ==> Fits(e.user) && Fits(e.sku))
    ensures TypedReqs(Apply(cfg, s, e))
  {
    SameOrder(cfg, s, e);
    SameCaller(cfg, s, e);
  }

  lemma SameCaller(cfg: Config, s: State, e: Step)
    requires Enabled(s, e)
    ensures e.r in Apply(cfg, s, e).reqs
    ensures var q := Apply(cfg, s, e).reqs[e.r];
      if e.Arrive? then q.user == e.user && q.sku == e.sku
      else q.user == s.reqs[e.r].user && q.sku == s.reqs[e.r].sku
  {}

  /** The gate turns an order away exactly if a live token has the place of its key. */
  lemma TurnedAwayExact(c: Setup, reports: bool, init: State, es: seq<Step>, user: int, sku: int)
    requires c.Usable() && !c.mode.None? && Initial(init) && Valid(Guarding(c, reports), init, es)
    ensures var s := Run(Guarding(c, reports), init, es);
      c.PlaceOf(OrderKey(user, sku)) in s.marks <==>
        exists t :: t in s.reqs && Live(s.reqs[t])
                    && c.PlaceOf(OrderKey(s.reqs[t].user, s.reqs[t].sku)) == c.PlaceOf(OrderKey(user, sku))
  {
    InitialInv(Guarding(c, reports), init);
    RunInv(Guarding(c, reports), init, es);
  }

  /** With the set back ends no order is turned away because of the same user's order for another
      sku: a live token of that user at the same place is for the same sku. */
  lemma OwnOrdersDoNotBlock(c: Setup, reports: bool, init: State, es: seq<Step>, t: nat, user: int, sku: int)
    requires (c.mode.Mutex? || c.mode.Spin?) && c.Usable() && Initial(init)
    requires Valid(Guarding(c, reports), init, es) && Typed(es) && Fits(sku)
    requires var s := Run(Guarding(c, reports), init, es);
      && t in s.reqs && Live(s.reqs[t]) && s.reqs[t].user == user
      && c.PlaceOf(OrderKey(s.reqs[t].user, s.reqs[t].sku)) == c.PlaceOf(OrderKey(user, sku))
    ensures Run(Guarding(c, reports), init, es).reqs[t].sku == sku
  {
    var s := Run(Guarding(c, reports), init, es);
    InitialInv(Guarding(c, reports), init);
    RunTyped(Guarding(c, reports), init, es);
    var other := s.reqs[t].sku;
    ShardPlaceExact(OrderKey(user, other), OrderKey(user, sku), c.shards);
    KeysOfOneUserDiffer(Unsigned(user), Unsigned(other), Unsigned(sku));
    UnsignedInjective(other, sku);
  }
}
