/** The cache object of the service: Redis behind an optional local level, with its counters and
    the wiring of the delayed second delete. Every call names whether its Redis command
    succeeded; times are in milliseconds. */
module SkuCache {
  import opened Wrappers
  import opened Base64Url
  import opened LruSpec
  import opened TwoLevel
  import opened LocalLru
  import opened DelayDeleter
  import Texts = CacheKeys

  datatype InvalidateOnOrder = NoKey | ItemKey | ItemAndList

  datatype Config = Config(
    enabled: bool,
    listTtlSeconds: int,
    detailTtlSeconds: int,
    nullTtlSeconds: int,
    jitterSeconds: int,
    doubleDeleteMs: int,
    localEnabled: bool,
    localCapacity: nat,
    invalidateOnOrder: InvalidateOnOrder)

  /** The keys that a committed order deletes. */
  function KeysOf(mode: InvalidateOnOrder, keys: Texts.CacheKeys, skuId: int): seq<bytes> {
    match mode
    case NoKey => []
    case ItemKey => [keys.Item(skuId)]
    case ItemAndList => [keys.Item(skuId), keys.List()]
  }

  /** DEL of several keys. */
  function Without(s: Store, ks: seq<bytes>): Store
    decreases |ks|
  {
    if ks == [] then s else StoreDel(Without(s, ks[..|ks| - 1]), ks[|ks| - 1])
  }

  /** What Redis receives of each of these keys goes, and nothing else. */
  lemma {:induction false} WithoutMeans(s: Store, ks: seq<bytes>, x: bytes)
    ensures x in Without(s, ks) <==> x in s && forall i :: 0 <= i < |ks| ==> Sent(ks[i]) != x
    ensures x in Without(s, ks) ==> Without(s, ks)[x] == s[x]
    decreases |ks|
  {
    if ks != [] {
      WithoutMeans(s, ks[..|ks| - 1], x);
    }
  }

  /** DEL of keys one by one, each taken by Redis or not. */
  function WithoutTaken(s: Store, ks: seq<bytes>, ups: nat -> bool): Store
    decreases |ks|
  {
    if ks == [] then s
    else
      var r := WithoutTaken(s, ks[..|ks| - 1], ups);
      if ups(|ks| - 1) then StoreDel(r, ks[|ks| - 1]) else r
  }

  /** Exactly what Redis receives of the keys it takes goes. */
  lemma {:induction false} WithoutTakenMeans(s: Store, ks: seq<bytes>, ups: nat -> bool, x: bytes)
    ensures x in WithoutTaken(s, ks, ups) <==> x in s && forall i :: 0 <= i < |ks| && ups(i) ==> Sent(ks[i]) != x
    ensures x in WithoutTaken(s, ks, ups) ==> WithoutTaken(s, ks, ups)[x] == s[x]
    decreases |ks|
  {
    if ks != [] {
      WithoutTakenMeans(s, ks[..|ks| - 1], ups, x);
    }
  }

  function EraseAll(l: Items<bytes, bytes>, ks: seq<bytes>): Items<bytes, bytes>
    decreases |ks|
  {
    if ks == [] then l else Erase(EraseAll(l, ks[..|ks| - 1]), ks[|ks| - 1])
  }

  lemma DeleteNext(l: Items<bytes, bytes>, s: Store, ks: seq<bytes>, ups: nat -> bool, i: nat)
    requires i < |ks|
    ensures EraseAll(l, ks[..i + 1]) == Erase(EraseAll(l, ks[..i]), ks[i])
    ensures var r := WithoutTaken(s, ks[..i], ups);
      WithoutTaken(s, ks[..i + 1], ups) == if ups(i) then StoreDel(r, ks[i]) else r
  {
    assert ks[..i + 1][..i] == ks[..i];
  }

  lemma EraseOne(l: Items<bytes, bytes>, k: bytes)
    ensures EraseAll(l, [k]) == Erase(l, k)
  {
    assert [k][..0] == [];
  }

  lemma EraseTwo(l: Items<bytes, bytes>, j: bytes, k: bytes)
    ensures EraseAll(l, [j, k]) == Erase(Erase(l, j), k)
  {
    assert [j, k][..1] == [j];
    EraseOne(l, j);
  }

  /** Jitter is drawn from zero to its bound, both included. */
  function TtlWithJitter(cfg: Config, baseSeconds: int, draw: nat): (ttl: int)
    requires cfg.jitterSeconds > 0 ==> draw <= cfg.jitterSeconds
    ensures baseSeconds <= ttl <= baseSeconds + (if cfg.jitterSeconds > 0 then cfg.jitterSeconds else 0)
  {
    if cfg.jitterSeconds <= 0 then baseSeconds else baseSeconds + draw
  }

  /** Every draw counts in full, and the bound is reached by the largest draw and no other. */
  lemma JitterReachesBound(cfg: Config, baseSeconds: int, draw: nat)
    requires 0 < cfg.jitterSeconds && draw <= cfg.jitterSeconds
    ensures TtlWithJitter(cfg, baseSeconds, draw) == baseSeconds + cfg.jitterSeconds <==> draw == cfg.jitterSeconds
    ensures TtlWithJitter(cfg, baseSeconds, 0) == baseSeconds
    ensures draw > 0 ==> TtlWithJitter(cfg, baseSeconds, draw) == TtlWithJitter(cfg, baseSeconds, draw - 1) + 1
  {}

  class SkuCache {
    const connected: bool
    const keys: Texts.CacheKeys
    const cfg: Config
    const local: LocalLruCache?<bytes, bytes>
    const deleter: Deleter?<bytes>
    var store: Store              // what Redis holds
    var hit: nat
    var localHit: nat
    var miss: nat
    var err: nat
    var write: nat
    var delayedDelete: nat

    ghost predicate Valid()
      reads this, if local != null then {local} else {}
    {
      local != null ==> local.Valid()
    }

    ghost function LocalItems(): Items<bytes, bytes>
      requires Valid()
      reads this, if local != null then {local} else {}
    {
      if local == null then [] else local.Contents()
    }

    predicate Active() { cfg.enabled && connected }

    constructor (connected: bool, keys: Texts.CacheKeys, cfg: Config)
      ensures Valid() && LocalItems() == [] && this.connected == connected && this.keys == keys && this.cfg == cfg
      ensures (local != null <==> cfg.localEnabled) && (deleter != null <==> cfg.doubleDeleteMs > 0 && connected)
      ensures local != null ==> local.capacity == if cfg.localCapacity > 0 then cfg.localCapacity else 1
      ensures deleter != null ==> deleter.delay == cfg.doubleDeleteMs && deleter.Value() == Start()
      ensures hit == localHit == miss == err == write == delayedDelete == 0
    {
      this.connected, this.keys, this.cfg := connected, keys, cfg;
      store := map[];
      hit, localHit, miss, err, write, delayedDelete := 0, 0, 0, 0, 0, 0;
      var l: LocalLruCache?<bytes, bytes> := null;
      if cfg.localEnabled {
        l := new LocalLruCache(cfg.localCapacity);
      }
      local := l;
      var d: Deleter?<bytes> := null;
      if cfg.doubleDeleteMs > 0 && connected {
        d := new Deleter(cfg.doubleDeleteMs);
      }
      deleter := d;
    }

    /** A local hit ends the lookup. A Redis failure is a miss, never an error for the caller;
        and every lookup of an active cache counts exactly one hit, miss or failure. */
    method Get(key: bytes, now: int, up: bool) returns (r: Option<bytes>)
      requires Valid()
      modifies this`hit, this`localHit, this`miss, this`err, if local != null then {local} else {}
      ensures write == old(write)
      ensures Valid() && store == old(store)
      ensures !Active() ==> r == None && LocalItems() == old(LocalItems()) && hit == old(hit) && miss == old(miss) && err == old(err)
      ensures Active() && local != null ==> LocalItems() == AfterGet(old(LocalItems()), key, now)
      ensures Active() && up ==> r == LevelsGet(Levels(old(LocalItems()), store), key, now)
      ensures Active() && !up ==> r == Hit(old(LocalItems()), key, now)
      ensures Active() ==> hit + miss + err == old(hit + miss + err) + 1
      ensures Active() ==> (hit == old(hit) + 1 <==> r.Some?)
      ensures Active() ==> err == old(err) + if !up && r.None? then 1 else 0
      ensures localHit == old(localHit) + if Active() && Hit(old(LocalItems()), key, now).Some? then 1 else 0
    {
      if !cfg.enabled || !connected {
        return None;
      }
      if local != null {
        var v := local.Get(key, now);
        if v.Some? {
          hit, localHit := hit + 1, localHit + 1;
          return v;
        }
      }
      r := AskRedis(key, now, up);
    }

    /** GET, with its outcome counted. */
    method AskRedis(key: bytes, now: int, up: bool) returns (r: Option<bytes>)
      modifies this`hit, this`miss, this`err
      ensures r == if up then StoreGet(store, key, now) else None
      ensures hit == old(hit) + (if r.Some? then 1 else 0)
      ensures miss == old(miss) + (if up && r.None? then 1 else 0)
      ensures err == old(err) + (if up then 0 else 1)
    {
      if !up {
        err := err + 1;
        return None;
      }
      r := StoreGet(store, key, now);
      if r.None? {
        miss := miss + 1;
      } else {
        hit := hit + 1;
      }
    }

    /** Writes both levels with the same lifetime; the local level is written even when Redis fails. */
    method Setex(key: bytes, value: bytes, ttlSeconds: int, now: int, up: bool)
      requires Valid()
      modifies this`store, this`write, this`err, if local != null then {local} else {}
      ensures Valid()
      ensures !Active() ==> store == old(store) && LocalItems() == old(LocalItems()) && write == old(write)
      ensures Active() ==> write == old(write) + 1 && err == old(err) + (if up && ttlSeconds > 0 then 0 else 1)
      ensures Active() ==> store == if up then StoreSetex(old(store), key, value, 1000 * ttlSeconds, now) else old(store)
      ensures Active() && local != null ==>
                LocalItems() == AfterPut(old(LocalItems()), local.capacity, key, value, now + 1000 * ttlSeconds)
    {
      if !cfg.enabled || !connected {
        return;
      }
      SendSetex(key, value, ttlSeconds, now, up);
      if local != null {
        local.Put(key, value, 1000 * ttlSeconds, now);
      }
    }

    /** The Redis half: a command that fails, or that Redis refuses, is counted. */
    method SendSetex(key: bytes, value: bytes, ttlSeconds: int, now: int, up: bool)
      modifies this`store, this`write, this`err
      ensures write == old(write) + 1 && err == old(err) + (if up && ttlSeconds > 0 then 0 else 1)
      ensures store == if up then StoreSetex(old(store), key, value, 1000 * ttlSeconds, now) else old(store)
    {
      write := write + 1;
      if up {
        store := StoreSetex(store, key, value, 1000 * ttlSeconds, now);
      }
      if !up || ttlSeconds <= 0 {
        err := err + 1;
      }
    }

    method DelKey(key: bytes, up: bool)
      requires Valid()
      modifies this`store, this`err, if local != null then {local} else {}
      ensures write == old(write)
      ensures Valid()
      ensures !Active() ==> store == old(store) && LocalItems() == old(LocalItems())
      ensures Active() ==> store == if up then StoreDel(old(store), key) else old(store)
      ensures Active() ==> LocalItems() == Erase(old(LocalItems()), key)
    {
      if !cfg.enabled || !connected {
        return;
      }
      if up {
        store := StoreDel(store, key);
      } else {
        err := err + 1;
      }
      DropLocal(key);
    }

    method DropLocal(key: bytes)
      requires Valid()
      modifies if local != null then {local} else {}
      ensures write == old(write)
      ensures Valid() && LocalItems() == Erase(old(LocalItems()), key)
    {
      if local != null {
        local.Del(key);
      }
    }

    /** Deletes one batch: what the delayed-delete thread does with a fired task. Each DEL fails or
        succeeds on its own; the local entries go in any case. */
    method FireBatch(batch: seq<bytes>, ups: nat -> bool)
      requires Valid()
      modifies this`store, this`err, this`delayedDelete, if local != null then {local} else {}
      ensures Valid() && delayedDelete == old(delayedDelete) + 1
      ensures !Active() ==> store == old(store) && LocalItems() == old(LocalItems())
      ensures Active() ==>
        store == WithoutTaken(old(store), batch, ups) && LocalItems() == EraseAll(old(LocalItems()), batch)
    {
      delayedDelete := delayedDelete + 1;
      DeleteEach(batch, ups);
    }

    method DeleteEach(batch: seq<bytes>, ups: nat -> bool)
      requires Valid()
      modifies this`store, this`err, if local != null then {local} else {}
      ensures Valid()
      ensures !Active() ==> store == old(store) && LocalItems() == old(LocalItems())
      ensures Active() ==>
        store == WithoutTaken(old(store), batch, ups) && LocalItems() == EraseAll(old(LocalItems()), batch)
    {
      ghost var items, redis := LocalItems(), store;
      var i := 0;
      while i < |batch|
        invariant 0 <= i <= |batch| && Valid()
        invariant store == if Active() then WithoutTaken(redis, batch[..i], ups) else redis
        invariant LocalItems() == if Active() then EraseAll(items, batch[..i]) else items
      {
        ghost var dropped, r := LocalItems(), store;
        DelKey(batch[i], ups(i));
        assert Active() ==> store == (if ups(i) then StoreDel(r, batch[i]) else r) && LocalItems() == Erase(dropped, batch[i]);
        DeleteNext(items, redis, batch, ups, i);
        i := i + 1;
      }
      assert batch[..i] == batch;
    }

    method ScheduleDelayedDelete(ks: seq<bytes>, now: int)
      modifies if deleter != null then {deleter} else {}
      ensures write == old(write)
      ensures deleter != null ==> deleter.Value() == Apply(deleter.delay, old(deleter.Value()), Schedule(ks, now))
    {
      if deleter != null {
        deleter.Enqueue(ks, now);
      }
    }

    /** Detail and list in one DEL: both go or, when Redis fails, both stay. */
    method Invalidate(skuId: int, now: int, up: bool)
      requires Valid()
      modifies this`store, this`err, if local != null then {local} else {}, if deleter != null then {deleter} else {}
      ensures write == old(write)
      ensures Valid()
      ensures !Active() ==> store == old(store) && LocalItems() == old(LocalItems())
      ensures Active() ==> store == if up then Without(old(store), [keys.Item(skuId), keys.List()]) else old(store)
      ensures Active() ==> LocalItems() == EraseAll(old(LocalItems()), [keys.Item(skuId), keys.List()])
      ensures deleter != null && !Active() ==> deleter.Value() == old(deleter.Value())
      ensures deleter != null && Active() ==>
                deleter.Value() == Apply(deleter.delay, old(deleter.Value()), Schedule([keys.Item(skuId), keys.List()], now))
    {
      if !cfg.enabled || !connected {
        return;
      }
      DelBoth(keys.Item(skuId), keys.List(), up);
      ScheduleDelayedDelete([keys.Item(skuId), keys.List()], now);
    }

    /** One DEL of two keys, and both local entries. */
    method DelBoth(a: bytes, b: bytes, up: bool)
      requires Valid()
      modifies this`store, this`err, if local != null then {local} else {}
      ensures write == old(write)
      ensures Valid()
      ensures store == if up then Without(old(store), [a, b]) else old(store)
      ensures LocalItems() == EraseAll(old(LocalItems()), [a, b])
    {
      ghost var before := LocalItems();
      if up {
        store := Without(store, [a, b]);
      } else {
        err := err + 1;
      }
      DropLocal(a);
      DropLocal(b);
      EraseTwo(before, a, b);
    }

    /** One key, now and once more after the delay. */
    method InvalidateKey(key: bytes, now: int, up: bool)
      requires Valid()
      modifies this`store, this`err, if local != null then {local} else {}, if deleter != null then {deleter} else {}
      ensures write == old(write)
      ensures Valid()
      ensures !Active() ==> store == old(store) && LocalItems() == old(LocalItems())
      ensures Active() ==> store == if up then Without(old(store), [key]) else old(store)
      ensures Active() ==> LocalItems() == EraseAll(old(LocalItems()), [key])
      ensures deleter != null && !Active() ==> deleter.Value() == old(deleter.Value())
      ensures deleter != null && Active() ==>
                deleter.Value() == Apply(deleter.delay, old(deleter.Value()), Schedule([key], now))
    {
      if !cfg.enabled || !connected {
        return;
      }
      EraseOne(LocalItems(), key);
      DelKey(key, up);
      ScheduleDelayedDelete([key], now);
    }

    /** What a committed order does to the cache: the keys its mode names go from both levels, and
        the same keys are queued for the second delete. */
    method OnOrder(skuId: int, now: int, up: bool)
      requires Valid()
      modifies this`store, this`err, if local != null then {local} else {}, if deleter != null then {deleter} else {}
      ensures write == old(write)
      ensures Valid()
      ensures !Active() ==> store == old(store) && LocalItems() == old(LocalItems())
      ensures !Active() && deleter != null ==> deleter.Value() == old(deleter.Value())
      ensures Active() ==>
        store == if up then Without(old(store), KeysOf(cfg.invalidateOnOrder, keys, skuId)) else old(store)
      ensures Active() ==> LocalItems() == EraseAll(old(LocalItems()), KeysOf(cfg.invalidateOnOrder, keys, skuId))
      ensures Active() && deleter != null ==>
                deleter.Value() == Apply(deleter.delay, old(deleter.Value()),
                                         Schedule(KeysOf(cfg.invalidateOnOrder, keys, skuId), now))
    {
      match cfg.invalidateOnOrder {
        case ItemKey => InvalidateKey(keys.Item(skuId), now, up);
        case ItemAndList => Invalidate(skuId, now, up);
        case NoKey =>
      }
    }
  }
}
