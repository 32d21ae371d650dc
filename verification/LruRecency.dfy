/** The order of the local cache: entries stand in the order of their last touch, and a new entry
    pushes out the one that was touched longest ago, and only that. */
module LruRecency {
  import opened Wrappers
  import opened LruSpec
  import opened LruTraces

  /** The last operation of a trace puts or hits its key. */
  predicate TouchesLast<K(==), V>(cap: nat, ops: seq<Op<K, V>>)
    requires ops != []
  {
    var op := ops[|ops| - 1];
    op.Put? || Answer(Run([], cap, ops[..|ops| - 1]), op).Some?
  }

  /** When a key was last put or hit: the index of that operation, or -1. */
  function Stamp<K(==), V>(cap: nat, ops: seq<Op<K, V>>, k: K): int
    decreases |ops|
  {
    if ops == [] then -1
    else if ops[|ops| - 1].key == k && TouchesLast(cap, ops) then |ops| - 1
    else Stamp(cap, ops[..|ops| - 1], k)
  }

  lemma {:induction false} StampRange<K, V>(cap: nat, ops: seq<Op<K, V>>, k: K)
    ensures -1 <= Stamp(cap, ops, k) < |ops|
    decreases |ops|
  {
    if ops != [] {
      StampRange(cap, ops[..|ops| - 1], k);
    }
  }

  lemma {:induction false} RunSnoc<K, V>(l: Items<K, V>, cap: nat, ops: seq<Op<K, V>>)
    requires ops != []
    ensures Run(l, cap, ops) == After(Run(l, cap, ops[..|ops| - 1]), cap, ops[|ops| - 1])
    decreases |ops|
  {
    if |ops| == 1 {
      assert ops[1..] == [] && ops[..0] == [];
    } else {
      assert ops[..|ops| - 1][1..] == ops[1..][..|ops| - 2];
      RunSnoc(After(l, cap, ops[0]), cap, ops[1..]);
    }
  }

  /** Most recently touched first. */
  ghost predicate InOrder<K, V>(l: Items<K, V>, cap: nat, ops: seq<Op<K, V>>) {
    forall i, j :: 0 <= i < j < |l| ==> Stamp(cap, ops, l[j].key) < Stamp(cap, ops, l[i].key)
  }

  ghost predicate Stamped<K, V>(l: Items<K, V>, cap: nat, ops: seq<Op<K, V>>) {
    forall i :: 0 <= i < |l| ==> 0 <= Stamp(cap, ops, l[i].key)
  }

  /** Leaving an entry out keeps the order of the others. */
  lemma GapOrder<K, V>(l: Items<K, V>, cap: nat, ops: seq<Op<K, V>>, p: nat)
    requires p < |l| && InOrder(l, cap, ops) && Stamped(l, cap, ops)
    ensures InOrder(l[..p] + l[p + 1..], cap, ops) && Stamped(l[..p] + l[p + 1..], cap, ops)
  {
    var m := l[..p] + l[p + 1..];
    forall i | 0 <= i < |m| ensures m[i] == l[if i < p then i else i + 1] {}
  }

  lemma EraseOrder<K, V>(l: Items<K, V>, cap: nat, ops: seq<Op<K, V>>, k: K)
    requires Unique(l) && InOrder(l, cap, ops) && Stamped(l, cap, ops)
    ensures InOrder(Erase(l, k), cap, ops) && Stamped(Erase(l, k), cap, ops)
  {
    HasAt(l, k);
    if Has(l, k) {
      var p :| 0 <= p < |l| && l[p].key == k;
      EraseAt(l, p);
      GapOrder(l, cap, ops, p);
    } else {
      EraseMiss(l, k);
    }
  }

  lemma ErasedIsGone<K, V>(l: Items<K, V>, k: K)
    requires Unique(l)
    ensures forall i :: 0 <= i < |Erase(l, k)| ==> Erase(l, k)[i].key != k
  {
    HasErase(l, k, k);
    HasAt(Erase(l, k), k);
  }

  /** An operation stamps its own key, if it touches it, later than all others. */
  lemma StampNext<K, V>(cap: nat, ops: seq<Op<K, V>>, k: K)
    requires ops != []
    ensures Stamp(cap, ops, k) ==
      if ops[|ops| - 1].key == k && TouchesLast(cap, ops) then |ops| - 1 else Stamp(cap, ops[..|ops| - 1], k)
    ensures Stamp(cap, ops[..|ops| - 1], k) < |ops| - 1
  {
    StampRange(cap, ops[..|ops| - 1], k);
  }

  lemma FrontOrder<K, V>(x: Item<K, V>, l: Items<K, V>, cap: nat, ops: seq<Op<K, V>>)
    requires ops != [] && ops[|ops| - 1].key == x.key && TouchesLast(cap, ops)
    requires InOrder(l, cap, ops[..|ops| - 1]) && Stamped(l, cap, ops[..|ops| - 1])
    requires forall i :: 0 <= i < |l| ==> l[i].key != x.key
    ensures InOrder([x] + l, cap, ops) && Stamped([x] + l, cap, ops)
  {
    var m := [x] + l;
    StampNext(cap, ops, x.key);
    forall i | 0 <= i < |l| ensures Stamp(cap, ops, l[i].key) == Stamp(cap, ops[..|ops| - 1], l[i].key) < |ops| - 1 {
      StampNext(cap, ops, l[i].key);
    }
    forall i, j | 0 <= i < j < |m| ensures Stamp(cap, ops, m[j].key) < Stamp(cap, ops, m[i].key) {
      assert m[j] == l[j - 1];
      assert i > 0 ==> m[i] == l[i - 1];
    }
    forall i | 0 <= i < |m| ensures 0 <= Stamp(cap, ops, m[i].key) {
      assert i > 0 ==> m[i] == l[i - 1];
    }
  }

  lemma OthersOrder<K, V>(l: Items<K, V>, cap: nat, ops: seq<Op<K, V>>)
    requires ops != [] && InOrder(l, cap, ops[..|ops| - 1]) && Stamped(l, cap, ops[..|ops| - 1])
    requires TouchesLast(cap, ops) ==> forall i :: 0 <= i < |l| ==> l[i].key != ops[|ops| - 1].key
    ensures InOrder(l, cap, ops) && Stamped(l, cap, ops)
  {
    forall i | 0 <= i < |l| ensures Stamp(cap, ops, l[i].key) == Stamp(cap, ops[..|ops| - 1], l[i].key) {
      StampNext(cap, ops, l[i].key);
    }
  }

  lemma StepOrder<K, V>(l: Items<K, V>, cap: nat, ops: seq<Op<K, V>>)
    requires ops != [] && 0 < cap && l == Run([], cap, ops[..|ops| - 1]) && Sane(l, cap)
    requires InOrder(l, cap, ops[..|ops| - 1]) && Stamped(l, cap, ops[..|ops| - 1])
    ensures InOrder(After(l, cap, ops[|ops| - 1]), cap, ops) && Stamped(After(l, cap, ops[|ops| - 1]), cap, ops)
  {
    var op := ops[|ops| - 1];
    EraseOrder(l, cap, ops[..|ops| - 1], op.key);
    ErasedIsGone(l, op.key);
    HasAt(l, op.key);
    if op.Put? {
      FrontOrder(Item(op.key, op.value, op.expireAt), Erase(l, op.key), cap, ops);
    } else if op.Get? && Answer(l, op).Some? {
      FrontOrder(Lookup(l, op.key), Erase(l, op.key), cap, ops);
    } else if op.Get? && !Has(l, op.key) {
      OthersOrder(l, cap, ops);
    } else {
      OthersOrder(Erase(l, op.key), cap, ops);
    }
  }

  /** After every trace the entries stand in the order of their last put or hit, the latest first. */
  lemma {:induction false} RecencyOrder<K, V>(cap: nat, ops: seq<Op<K, V>>)
    requires 0 < cap
    ensures InOrder(Run([], cap, ops), cap, ops) && Stamped(Run([], cap, ops), cap, ops)
    decreases |ops|
  {
    if ops != [] {
      var front := ops[..|ops| - 1];
      RecencyOrder(cap, front);
      RunKeeps([], cap, front);
      RunSnoc([], cap, ops);
      StepOrder(Run([], cap, front), cap, ops);
    }
  }

  // ---- What stays and what goes ----

  lemma FrontHasOr<K, V>(l: Items<K, V>, m: Items<K, V>, x: K)
    requires l != [] && Unique(l) && m == l[..|l| - 1]
    ensures Has(m, x) <==> Has(l, x) && l[|l| - 1].key != x
  {
    HasAt(l, x);
    HasAt(m, x);
    if i :| 0 <= i < |l| && l[i].key == x {
      assert i < |l| - 1 ==> m[i].key == x;
    }
    if i :| 0 <= i < |m| && m[i].key == x {
      assert l[i].key == x;
    }
  }

  lemma ConsHas<K, V>(y: Item<K, V>, l: Items<K, V>, x: K)
    ensures Has([y] + l, x) <==> y.key == x || Has(l, x)
  {
    assert ([y] + l)[1..] == l;
  }

  lemma NewPut<K, V>(l: Items<K, V>, cap: nat, k: K, v: V, e: int, x: K)
    requires Sane(l, cap) && 0 < cap && !Has(l, k)
    ensures Has(AfterPut(l, cap, k, v, e), x) <==> x == k || (Has(l, x) && !(|l| == cap && l[|l| - 1].key == x))
    ensures AfterPut(l, cap, k, v, e)[0] == Item(k, v, e)
  {
    var y := Item(k, v, e);
    var m := [y] + l;
    EraseMiss(l, k);
    ConsHas(y, l, x);
    if |m| > cap {
      UniqueCons(y, l);
      FrontHasOr(m, m[..|m| - 1], x);
      assert m[|m| - 1] == l[|l| - 1];
      HasAt(l, k);
    }
  }

  /** A put keeps every other entry, except that a new key in a full cache pushes out the last one;
      the key itself is there afterwards. */
  lemma PutExact<K, V>(l: Items<K, V>, cap: nat, k: K, v: V, e: int, x: K)
    requires Sane(l, cap) && 0 < cap
    ensures Has(AfterPut(l, cap, k, v, e), x) <==>
      x == k || (Has(l, x) && !(!Has(l, k) && |l| == cap && l[|l| - 1].key == x))
    ensures AfterPut(l, cap, k, v, e)[0] == Item(k, v, e)
  {
    if Has(l, k) {
      HasErase(l, k, x);
      ConsHas(Item(k, v, e), Erase(l, k), x);
    } else {
      NewPut(l, cap, k, v, e, x);
    }
  }

  /** A get keeps every other entry, and its own unless that has expired. A hit goes to the front. */
  lemma GetExact<K, V>(l: Items<K, V>, k: K, now: int, x: K)
    requires Unique(l)
    ensures Has(AfterGet(l, k, now), x) <==> Has(l, x) && !(x == k && Lookup(l, k).expireAt <= now)
    ensures Hit(l, k, now).Some? <==> Has(l, k) && now < Lookup(l, k).expireAt
    ensures Hit(l, k, now).Some? ==> Hit(l, k, now).value == Lookup(l, k).value && AfterGet(l, k, now)[0] == Lookup(l, k)
  {
    HasErase(l, k, x);
    HasErase(l, k, k);
    HasAt(l, k);
    if Has(l, k) {
      assert ([Lookup(l, k)] + Erase(l, k))[1..] == Erase(l, k);
    }
  }

  /** The entry that a put pushes out is the one that was put or hit longest ago of all. */
  lemma VictimIsOldest<K, V>(cap: nat, ops: seq<Op<K, V>>, k: K, v: V, e: int, x: K, y: K)
    requires 0 < cap
    requires var l := Run([], cap, ops);
      && Has(l, x) && x != k && !Has(AfterPut(l, cap, k, v, e), x)
      && Has(l, y) && y != x
    ensures Stamp(cap, ops, x) < Stamp(cap, ops, y)
  {
    var l := Run([], cap, ops);
    RecencyOrder(cap, ops);
    RunKeeps([], cap, ops);
    PutExact(l, cap, k, v, e, x);
    HasAt(l, y);
    var i :| 0 <= i < |l| && l[i].key == y;
    assert l[|l| - 1].key == x;
  }
}
