/** Two cache levels over one another: the local list in front of Redis. The clock is one clock
    of integer ticks for both levels. */
module TwoLevel {
  import opened Wrappers
  import opened LruSpec
  import opened Base64Url
  import opened CStrings

  /** A Redis string with its exact expiry. */
  datatype Entry = Entry(value: bytes, expireAt: int)

  type Store = map<bytes, Entry>

  /** Operations of the cache with the clock reading at which they run. */
  datatype CacheOp =
    | Get(key: bytes, now: int)
    | Setex(key: bytes, value: bytes, ttl: int, now: int)
    | Del(key: bytes, now: int)

  // ---- Redis alone ----

  /** Keys and values go to Redis as C strings. */
  function Sent(b: bytes): bytes { Cut(b, 0) }

  /** GET: an expired or absent key is nil. The empty string also counts as a miss. */
  function StoreGet(s: Store, k: bytes, now: int): Option<bytes> {
    var c := Sent(k);
    if c in s && now < s[c].expireAt && s[c].value != [] then Some(s[c].value) else None
  }

  /** SETEX refuses a lifetime that is not positive and then changes nothing. */
  function StoreSetex(s: Store, k: bytes, v: bytes, ttl: int, now: int): Store {
    if ttl <= 0 then s else s[Sent(k) := Entry(Sent(v), now + ttl)]
  }

  function StoreDel(s: Store, k: bytes): Store {
    map x | x in s && x != Sent(k) :: s[x]
  }

  function StoreAfter(s: Store, op: CacheOp): Store {
    match op
    case Get(_, _) => s
    case Setex(k, v, ttl, now) => StoreSetex(s, k, v, ttl, now)
    case Del(k, _) => StoreDel(s, k)
  }

  // ---- Both levels ----

  datatype Levels = Levels(local: Items<bytes, bytes>, store: Store)

  /** A local hit ends the lookup; otherwise Redis answers, and its answer is not copied to the
      local level. */
  function LevelsGet(l: Levels, k: bytes, now: int): Option<bytes> {
    if Hit(l.local, k, now).Some? then Hit(l.local, k, now) else StoreGet(l.store, k, now)
  }

  function LevelsAfter(l: Levels, cap: nat, op: CacheOp): Levels {
    match op
    case Get(k, now) => Levels(AfterGet(l.local, k, now), l.store)
    case Setex(k, v, ttl, now) =>
      Levels(AfterPut(l.local, cap, k, v, now + ttl), StoreSetex(l.store, k, v, ttl, now))
    case Del(k, _) => Levels(AfterDel(l.local, k), StoreDel(l.store, k))
  }

  function LevelsAnswers(l: Levels, cap: nat, ops: seq<CacheOp>): seq<Option<bytes>>
    decreases |ops|
  {
    if ops == [] then []
    else [if ops[0].Get? then LevelsGet(l, ops[0].key, ops[0].now) else None]
         + LevelsAnswers(LevelsAfter(l, cap, ops[0]), cap, ops[1..])
  }

  function StoreAnswers(s: Store, ops: seq<CacheOp>): seq<Option<bytes>>
    decreases |ops|
  {
    if ops == [] then []
    else [if ops[0].Get? then StoreGet(s, ops[0].key, ops[0].now) else None]
         + StoreAnswers(StoreAfter(s, ops[0]), ops[1..])
  }

  // ---- Transparency ----

  ghost predicate Monotone(now: int, ops: seq<CacheOp>)
    decreases |ops|
  {
    ops == [] || (now <= ops[0].now && Monotone(ops[0].now, ops[1..]))
  }

  /** Texts that reach Redis whole and are not taken for a miss. */
  predicate WritesText(op: CacheOp) {
    op.Setex? && op.ttl > 0 ==> op.value != [] && 0 !in op.value
  }

  /** No two of the keys are one key to Redis. */
  ghost predicate Apart(keys: set<bytes>) {
    forall j, k :: j in keys && k in keys && Sent(j) == Sent(k) ==> j == k
  }

  /** Every local entry that has not expired is the Redis entry of its key. */
  ghost predicate Coherent(l: Levels, cap: nat, now: int, keys: set<bytes>) {
    && Sane(l.local, cap)
    && (forall k :: Has(l.local, k) ==> k in keys)
    && forall k :: Has(l.local, k) && now < Lookup(l.local, k).expireAt ==>
                     && Sent(k) in l.store
                     && l.store[Sent(k)] == Entry(Lookup(l.local, k).value, Lookup(l.local, k).expireAt)
                     && l.store[Sent(k)].value != []
  }

  lemma GetCoherent(l: Levels, cap: nat, k: bytes, now: int, keys: set<bytes>)
    requires Coherent(l, cap, now, keys)
    ensures Coherent(LevelsAfter(l, cap, Get(k, now)), cap, now, keys)
    ensures LevelsGet(l, k, now) == StoreGet(l.store, k, now)
  {
    var l' := LevelsAfter(l, cap, Get(k, now));
    GetKeeps(l.local, cap, k, now);
    if Has(l.local, k) {
      HasAt(l.local, k);
      forall x | Has(l'.local, x) ensures Has(l.local, x) && Lookup(l'.local, x) == Lookup(l.local, x) {
        FrontErase(l.local, k, x);
      }
    }
  }

  /** Moving an entry to the front, or erasing it, changes no other lookup. */
  lemma FrontErase(l: Items<bytes, bytes>, k: bytes, x: bytes)
    requires Unique(l) && Has(l, k)
    ensures Has([Lookup(l, k)] + Erase(l, k), x) <==> Has(l, x)
    ensures Has(l, x) ==> Lookup([Lookup(l, k)] + Erase(l, k), x) == Lookup(l, x)
    ensures Has(Erase(l, k), x) ==> Has(l, x) && Lookup(Erase(l, k), x) == Lookup(l, x)
  {
    HasErase(l, k, x);
    HasAt(l, k);
    assert ([Lookup(l, k)] + Erase(l, k))[1..] == Erase(l, k);
  }

  lemma {:induction false} FrontHas(l: Items<bytes, bytes>, n: nat, x: bytes)
    requires n <= |l| && Has(l[..n], x)
    ensures Has(l, x) && Lookup(l[..n], x) == Lookup(l, x)
    decreases n
  {
    if l[0].key != x {
      assert l[..n][1..] == l[1..][..n - 1];
      FrontHas(l[1..], n - 1, x);
    }
  }

  lemma PutLookup(l: Items<bytes, bytes>, cap: nat, k: bytes, v: bytes, e: int, x: bytes)
    requires Unique(l) && Has(AfterPut(l, cap, k, v, e), x)
    ensures x == k ==> Lookup(AfterPut(l, cap, k, v, e), x) == Item(k, v, e)
    ensures x != k ==> Has(l, x) && Lookup(AfterPut(l, cap, k, v, e), x) == Lookup(l, x)
  {
    var front := [Item(k, v, e)] + Erase(l, k);
    if AfterPut(l, cap, k, v, e) != front {
      FrontHas(front, |front| - 1, x);
    }
    assert front[1..] == Erase(l, k);
    HasErase(l, k, x);
  }

  lemma SetexCoherent(l: Levels, cap: nat, k: bytes, v: bytes, ttl: int, now: int, keys: set<bytes>)
    requires 0 < cap && Coherent(l, cap, now, keys) && Apart(keys) && k in keys && WritesText(Setex(k, v, ttl, now))
    ensures Coherent(LevelsAfter(l, cap, Setex(k, v, ttl, now)), cap, now, keys)
  {
    var l' := LevelsAfter(l, cap, Setex(k, v, ttl, now));
    PutKeeps(l.local, cap, k, v, now + ttl);
    CutExact(v, 0);
    forall x | Has(l'.local, x)
      ensures x in keys
      ensures now < Lookup(l'.local, x).expireAt ==>
        && Sent(x) in l'.store
        && l'.store[Sent(x)] == Entry(Lookup(l'.local, x).value, Lookup(l'.local, x).expireAt)
        && l'.store[Sent(x)].value != []
    {
      PutLookup(l.local, cap, k, v, now + ttl, x);
    }
  }

  lemma DelCoherent(l: Levels, cap: nat, k: bytes, now: int, keys: set<bytes>)
    requires Coherent(l, cap, now, keys) && Apart(keys) && k in keys
    ensures Coherent(LevelsAfter(l, cap, Del(k, now)), cap, now, keys)
  {
    var l' := LevelsAfter(l, cap, Del(k, now));
    DelKeeps(l.local, cap, k);
    forall x | Has(l'.local, x)
      ensures x != k && Has(l.local, x) && Lookup(l'.local, x) == Lookup(l.local, x) && Sent(x) != Sent(k)
    {
      HasErase(l.local, k, x);
    }
  }

  /** The operations use these keys and write no text that Redis would not get whole. */
  ghost predicate Proper(ops: seq<CacheOp>, keys: set<bytes>) {
    forall i :: 0 <= i < |ops| ==> WritesText(ops[i]) && ops[i].key in keys
  }

  lemma {:induction false} RunTransparent(l: Levels, cap: nat, now: int, ops: seq<CacheOp>, keys: set<bytes>)
    requires 0 < cap && Coherent(l, cap, now, keys) && Monotone(now, ops) && Apart(keys) && Proper(ops, keys)
    ensures LevelsAnswers(l, cap, ops) == StoreAnswers(l.store, ops)
    decreases |ops|
  {
    if ops != [] {
      assert Coherent(l, cap, ops[0].now, keys);
      match ops[0] {
        case Get(k, t) => GetCoherent(l, cap, k, t, keys);
        case Setex(k, v, ttl, t) => SetexCoherent(l, cap, k, v, ttl, t, keys);
        case Del(k, t) => DelCoherent(l, cap, k, t, keys);
      }
      RunTransparent(LevelsAfter(l, cap, ops[0]), cap, ops[0].now, ops[1..], keys);
    }
  }

  /** The local level is invisible: in every run without Redis failures that writes no empty text
      and none with a zero byte, each lookup answers what Redis alone would have answered, for
      every capacity, every lifetime and whatever Redis held before. */
  lemma Transparency(store: Store, cap: nat, now: int, ops: seq<CacheOp>, keys: set<bytes>)
    requires 0 < cap && Monotone(now, ops) && Apart(keys) && Proper(ops, keys)
    ensures LevelsAnswers(Levels([], store), cap, ops) == StoreAnswers(store, ops)
  {
    RunTransparent(Levels([], store), cap, now, ops, keys);
  }

  /** The condition on the texts is exact: a write is seen alike through both levels and through
      Redis alone if and only if, with a positive lifetime, its text is not empty and has no zero
      byte. */
  lemma TextExact(l: Levels, cap: nat, k: bytes, v: bytes, ttl: int, now: int, keys: set<bytes>)
    requires 0 < cap && Coherent(l, cap, now, keys) && Apart(keys) && k in keys
    ensures var l' := LevelsAfter(l, cap, Setex(k, v, ttl, now));
      LevelsGet(l', k, now) == StoreGet(l'.store, k, now) <==> (ttl > 0 ==> v != [] && 0 !in v)
  {
    var l' := LevelsAfter(l, cap, Setex(k, v, ttl, now));
    PutKeeps(l.local, cap, k, v, now + ttl);
    CutExact(v, 0);
    if ttl > 0 && (v == [] || 0 in v) {
      assert Hit(l'.local, k, now) == Some(v);
    } else {
      SetexCoherent(l, cap, k, v, ttl, now, keys);
      GetCoherent(l', cap, k, now, keys);
    }
  }

  /** Whatever is done with these keys, the local level is invisible. */
  ghost predicate TransparentOver(keys: set<bytes>) {
    forall store: Store, cap: nat, now: int, ops: seq<CacheOp> ::
      0 < cap && Monotone(now, ops) && Proper(ops, keys) ==>
        LevelsAnswers(Levels([], store), cap, ops) == StoreAnswers(store, ops)
  }

  /** The condition on the keys is exact too: no two of them may be one key to Redis. */
  lemma KeysExact(keys: set<bytes>)
    ensures TransparentOver(keys) <==> Apart(keys)
  {
    if Apart(keys) {
      forall store: Store, cap: nat, now: int, ops: seq<CacheOp> | 0 < cap && Monotone(now, ops) && Proper(ops, keys)
        ensures LevelsAnswers(Levels([], store), cap, ops) == StoreAnswers(store, ops)
      {
        Transparency(store, cap, now, ops, keys);
      }
    } else {
      var j, k :| j in keys && k in keys && Sent(j) == Sent(k) && j != k;
      Clash(j, k);
      var ops := [Setex(j, [1], 1, 0), Del(k, 0), Get(j, 0)];
      assert Monotone(0, ops) && Proper(ops, keys);
    }
  }

  /** A text under one key, and a delete of the other: Redis has lost it, the local level not. */
  lemma Clash(j: bytes, k: bytes)
    requires j != k && Sent(j) == Sent(k)
    ensures var ops := [Setex(j, [1], 1, 0), Del(k, 0), Get(j, 0)];
      Monotone(0, ops) && LevelsAnswers(Levels([], map[]), 1, ops) != StoreAnswers(map[], ops)
  {
    var ops: seq<CacheOp> := [Setex(j, [1], 1, 0), Del(k, 0), Get(j, 0)];
    var two: seq<CacheOp> := [Del(k, 0), Get(j, 0)];
    var one: seq<CacheOp> := [Get(j, 0)];
    assert ops[1..] == two && two[1..] == one && one[1..] == [];
    assert Monotone(0, one) && Monotone(0, two);
    var l0 := Levels([], map[]);
    var l1 := LevelsAfter(l0, 1, ops[0]);
    var l2 := LevelsAfter(l1, 1, two[0]);
    assert l1.local == [Item(j, [1], 1)] && l1.store.Keys == {Sent(j)};
    assert l1.local[1..] == [] && Erase(l1.local[1..], k) == [];
    assert l2.local == [Item(j, [1], 1)] && l2.store == map[];
    assert LevelsAnswers(l2, 1, one)[0] == Some([1]) && StoreAnswers(l2.store, one)[0] == None;
    assert LevelsAnswers(l1, 1, two)[1] == Some([1]) && StoreAnswers(l1.store, two)[1] == None;
    assert LevelsAnswers(l0, 1, ops)[2] == Some([1]) && StoreAnswers(l0.store, ops)[2] == None;
  }
}
