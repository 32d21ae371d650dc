/** The read and warm paths of the seckill service over its cache and Bloom gate, between two
    changes of the table: what a reader is told, whatever the cache holds that is not a lie. */
module SkuReads {
  import opened Wrappers
  import opened Base64Url
  import opened Decimal
  import opened LruSpec
  import opened TwoLevel
  import opened SkuCache
  import opened BloomFilter
  import opened CStrings
  import Texts = CacheKeys
  import Delays = DelayDeleter

  datatype Row = Row(id: int, name: bytes, stock: int, total: int, startTime: bytes, endTime: bytes)

  /** The JSON library: two writers, and two readers that accept an object and an array. */
  datatype Json = Json(
    writeItem: Row -> bytes,
    writeList: seq<Row> -> bytes,
    readItem: bytes -> Option<Row>,
    readList: bytes -> Option<seq<Row>>)

  /** The text that stands for a sku that does not exist. */
  function Nil(): bytes { Texts.Ascii("__nil__") }

  /** Reading takes back what writing made, no text that is written has a zero byte, no object is
      written like the sentinel, and the empty text is neither. */
  ghost predicate Sound(j: Json) {
    && (forall r :: j.readItem(j.writeItem(r)) == Some(r) && j.writeItem(r) != Nil())
    && (forall rs :: j.readList(j.writeList(rs)) == Some(rs))
    && j.readItem([]) == None && j.readList([]) == None
    && (forall r :: 0 !in j.writeItem(r)) && (forall rs :: 0 !in j.writeList(rs))
  }

  // ---- The table ----

  /** Rows in the order of their 64-bit ids, each id once. */
  predicate Table(rows: seq<Row>) {
    && (forall i :: 0 <= i < |rows| ==> Fits(rows[i].id))
    && (forall i, j :: 0 <= i < j < |rows| ==> rows[i].id < rows[j].id)
  }

  predicate Exists(rows: seq<Row>, id: int) { exists i :: 0 <= i < |rows| && rows[i].id == id }

  /** `WHERE id = ?` */
  function Find(rows: seq<Row>, id: int): Option<Row> {
    if rows == [] then None else if rows[0].id == id then Some(rows[0]) else Find(rows[1..], id)
  }

  lemma {:induction false} FindRow(rows: seq<Row>, i: nat)
    requires Table(rows) && i < |rows|
    ensures Find(rows, rows[i].id) == Some(rows[i])
  {
    if i > 0 {
      FindRow(rows[1..], i - 1);
    }
  }

  lemma {:induction false} FindExists(rows: seq<Row>, id: int)
    ensures Find(rows, id).Some? <==> Exists(rows, id)
  {
    if rows != [] {
      FindExists(rows[1..], id);
      if rows[0].id != id {
        if i :| 0 <= i < |rows| && rows[i].id == id {
          assert rows[1..][i - 1].id == id;
        }
        if i :| 0 <= i < |rows[1..]| && rows[1..][i].id == id {
          assert rows[i + 1].id == id;
        }
      }
    }
  }

  /** `ORDER BY id ASC LIMIT ?` */
  function FirstRows(rows: seq<Row>, limit: nat): seq<Row> {
    if |rows| <= limit then rows else rows[..limit]
  }

  /** As many rows as are asked for and there are, from the first on. */
  lemma FirstRowsMeans(rows: seq<Row>, limit: nat)
    ensures FirstRows(rows, limit) <= rows
    ensures |FirstRows(rows, limit)| == limit || (|FirstRows(rows, limit)| == |rows| && |rows| < limit)
  {}

  lemma FirstRowsNext(rows: seq<Row>, i: nat, limit: nat)
    requires i < |rows|
    ensures var first := FirstRows(rows[..i], limit);
      FirstRows(rows[..i + 1], limit) == if |first| < limit then first + [rows[i]] else first
  {}

  const LIST_LIMIT: nat := 100

  // ---- A cache that does not lie ----

  /** Redis after a SETEX that it takes or does not take. */
  function Taken(up: bool, store: Store, k: bytes, v: bytes, ttl: int, now: int): Store {
    if up then StoreSetex(store, k, v, ttl, now) else store
  }

  /** What the world adds to one Redis command: the jitter drawn, and whether Redis takes it. */
  datatype Call = Call(draw: nat, up: bool)

  /** The facts a cache is measured by; `lists` says whether cached lists are held to them too. */
  datatype Truth = Truth(json: Json, keys: Texts.CacheKeys, rows: seq<Row>, lists: bool) {
    /** A value may be junk, but when it reads as an answer it is the table's answer. */
    ghost predicate DetailFine(id: int, v: bytes) {
      if v == Nil() then Find(rows, id) == None
      else json.readItem(v).Some? ==> json.readItem(v) == Find(rows, id)
    }

    ghost predicate ListFine(v: bytes) {
      json.readList(v).Some? ==> json.readList(v).value == FirstRows(rows, LIST_LIMIT)
    }

    ghost predicate DetailsFine(k: bytes, v: bytes) {
      forall id :: Fits(id) && k == keys.Item(id) ==> DetailFine(id, v)
    }

    ghost predicate Fine(k: bytes, v: bytes) {
      DetailsFine(k, v) && (lists && k == keys.List() ==> ListFine(v))
    }

    ghost predicate LocalFine(local: Items<bytes, bytes>) {
      forall i :: 0 <= i < |local| ==> Fine(local[i].key, local[i].value)
    }

    ghost predicate StoreFine(store: Store) {
      forall k :: k in store ==> Fine(k, store[k].value)
    }

    /** Redis holds those of the first rows whose command it took, each under its key, with its
        lifetime from now. */
    ghost predicate Stored(store: Store, n: nat, calls: nat -> Call, life: Life, now: int)
      requires n <= |rows|
    {
      n == 0
      || (Stored(store, n - 1, calls, life, now)
          && (calls(n - 1).up ==> TextStored(store, keys.Item(rows[n - 1].id), json.writeItem(rows[n - 1]),
                                             life.Ends(calls(n - 1).draw, now))))
    }

    ghost predicate TextStored(store: Store, k: bytes, v: bytes, expireAt: int) {
      k in store && store[k] == Entry(v, expireAt)
    }
  }

  /** A lifetime in seconds, with jitter or without; times are in milliseconds. */
  datatype Life = Life(seconds: int, jitters: bool) {
    function Ends(draw: nat, now: int): int { now + 1000 * (seconds + if jitters then draw else 0) }
  }

  lemma DetailIsFine(t: Truth, id: int, v: bytes)
    requires Fits(id) && t.DetailFine(id, v)
    ensures t.Fine(t.keys.Item(id), v)
  {
    forall other | Fits(other) && t.keys.Item(id) == t.keys.Item(other) ensures t.DetailFine(other, v) {
      Texts.KeysDistinct(t.keys, id, other);
    }
    Texts.KeysDistinct(t.keys, id, id);
  }

  lemma ListIsFine(t: Truth, v: bytes)
    requires t.lists ==> t.ListFine(v)
    ensures t.Fine(t.keys.List(), v)
  {
    forall id | Fits(id) ensures t.keys.Item(id) != t.keys.List() {
      Texts.KeysDistinct(t.keys, id, id);
    }
  }

  lemma {:induction false} EraseFine(t: Truth, local: Items<bytes, bytes>, k: bytes)
    requires t.LocalFine(local)
    ensures t.LocalFine(Erase(local, k))
  {
    if local != [] {
      EraseFine(t, local[1..], k);
    }
  }

  lemma {:induction false} EraseAllFine(t: Truth, local: Items<bytes, bytes>, ks: seq<bytes>)
    requires t.LocalFine(local)
    ensures t.LocalFine(EraseAll(local, ks))
    decreases |ks|
  {
    if ks != [] {
      EraseAllFine(t, local, ks[..|ks| - 1]);
      EraseFine(t, EraseAll(local, ks[..|ks| - 1]), ks[|ks| - 1]);
    }
  }

  lemma GetFine(t: Truth, local: Items<bytes, bytes>, k: bytes, now: int)
    requires t.LocalFine(local)
    ensures t.LocalFine(AfterGet(local, k, now))
    ensures Hit(local, k, now).Some? ==> t.Fine(k, Hit(local, k, now).value)
  {
    EraseFine(t, local, k);
    HasAt(local, k);
  }

  lemma SetexFine(t: Truth, local: Items<bytes, bytes>, cap: nat, store: Store, k: bytes, v: bytes, ttl: int, now: int)
    requires t.LocalFine(local) && t.StoreFine(store) && t.Fine(k, v) && 0 !in k && 0 !in v
    ensures t.LocalFine(AfterPut(local, cap, k, v, now + ttl))
    ensures t.StoreFine(StoreSetex(store, k, v, ttl, now))
  {
    EraseFine(t, local, k);
    CutExact(k, 0);
    CutExact(v, 0);
  }

  /** What was just written is what the next lookup finds. */
  lemma SetexSeen(local: Items<bytes, bytes>, cap: nat, store: Store, k: bytes, v: bytes, ttl: int, now: int)
    requires 0 < cap && 0 < ttl && v != [] && 0 !in v
    ensures StoreGet(StoreSetex(store, k, v, ttl, now), k, now) == Some(v)
    ensures Hit(AfterPut(local, cap, k, v, now + ttl), k, now) == Some(v)
  {
    CutExact(v, 0);
  }

  /** A SETEX under a key that is none of theirs leaves the stored rows alone. */
  lemma {:induction false} OthersKept(t: Truth, store: Store, n: nat, calls: nat -> Call, life: Life,
                                      k: bytes, v: bytes, ttl: int, now: int)
    requires n <= |t.rows| && t.Stored(store, n, calls, life, now)
    requires forall j :: 0 <= j < n ==> t.keys.Item(t.rows[j].id) != Sent(k)
    ensures t.Stored(StoreSetex(store, k, v, ttl, now), n, calls, life, now)
  {
    if n > 0 {
      OthersKept(t, store, n - 1, calls, life, k, v, ttl, now);
    }
  }

  lemma RowAdded(t: Truth, store: Store, i: nat, calls: nat -> Call, life: Life, ttl: int, now: int)
    requires Sound(t.json) && Table(t.rows) && t.keys.Plain() && i < |t.rows|
    requires 0 < ttl == life.Ends(calls(i).draw, now) - now && t.Stored(store, i, calls, life, now)
    ensures var row := t.rows[i];
      t.Stored(Taken(calls(i).up, store, t.keys.Item(row.id), t.json.writeItem(row), ttl, now), i + 1, calls, life, now)
  {
    var row := t.rows[i];
    KeyArrives(t.keys, row.id);
    CutExact(t.json.writeItem(row), 0);
    forall j | 0 <= j < i ensures t.keys.Item(t.rows[j].id) != t.keys.Item(row.id) {
      Texts.KeysDistinct(t.keys, t.rows[j].id, row.id);
    }
    OthersKept(t, store, i, calls, life, t.keys.Item(row.id), t.json.writeItem(row), ttl, now);
  }

  lemma ListAdded(t: Truth, store: Store, n: nat, calls: nat -> Call, life: Life, v: bytes, ttl: int, now: int)
    requires Table(t.rows) && t.keys.Plain() && n <= |t.rows| && t.Stored(store, n, calls, life, now)
    ensures t.Stored(Taken(calls(n).up, store, t.keys.List(), v, ttl, now), n, calls, life, now)
  {
    KeyArrives(t.keys, 0);
    forall j | 0 <= j < n ensures t.keys.Item(t.rows[j].id) != t.keys.List() {
      Texts.KeysDistinct(t.keys, t.rows[j].id, t.rows[j].id);
    }
    OthersKept(t, store, n, calls, life, t.keys.List(), v, ttl, now);
  }

  lemma KeyArrives(keys: Texts.CacheKeys, id: int)
    requires keys.Plain()
    ensures 0 !in keys.Item(id) && 0 !in keys.List()
    ensures Sent(keys.Item(id)) == keys.Item(id) && Sent(keys.List()) == keys.List()
  {
    Texts.KeysPlain(keys, id);
    CutExact(keys.Item(id), 0);
    CutExact(keys.List(), 0);
  }

  /** Deleting never makes a cache lie. */
  lemma LessIsFine(t: Truth, local: Items<bytes, bytes>, store: Store, ks: seq<bytes>,
                   local': Items<bytes, bytes>, store': Store)
    requires t.LocalFine(local) && t.StoreFine(store)
    requires local' == local || local' == EraseAll(local, ks)
    requires store' == store || store' == Without(store, ks)
    ensures t.LocalFine(local') && t.StoreFine(store')
  {
    EraseAllFine(t, local, ks);
    forall x | x in Without(store, ks) ensures x in store && Without(store, ks)[x] == store[x] {
      WithoutMeans(store, ks, x);
    }
  }

  /** Writing a detail leaves the list's key alone. */
  lemma ListUntouched(keys: Texts.CacheKeys, store: Store, id: int, v: bytes)
    requires keys.Plain() && Fits(id)
    ensures forall up, ttl, now ::
      keys.List() in Taken(up, store, keys.Item(id), v, ttl, now) <==> keys.List() in store
  {
    KeyArrives(keys, id);
    Texts.KeysDistinct(keys, id, id);
  }

  // ---- The service ----

  class Reads {
    const json: Json
    const cache: SkuCache
    const gate: BloomGate
    var rows: seq<Row>
    ghost var lists: bool   // no warm-up has cut the cached list short

    ghost predicate Ready()
      reads this, cache, if cache.local != null then {cache.local} else {}
    {
      Sound(json) && Table(rows) && cache.keys.Plain() && cache.Valid()
    }

    ghost predicate Valid()
      reads this, cache, if cache.local != null then {cache.local} else {}, gate,
            gate.bloom, if gate.bloom != null then {gate.bloom.bits} else {}
    {
      Ready() && gate.Valid()
    }

    ghost function Facts(): Truth
      reads this
    {
      Truth(json, cache.keys, rows, lists)
    }

    /** Nothing that either level holds, expired or not, is a wrong answer. */
    ghost predicate Truthful()
      requires cache.Valid()
      reads this, cache, if cache.local != null then {cache.local} else {}
    {
      Facts().LocalFine(cache.LocalItems()) && Facts().StoreFine(cache.store)
    }

    constructor (json: Json, cache: SkuCache, gate: BloomGate, rows: seq<Row>)
      requires Sound(json) && Table(rows) && cache.keys.Plain() && cache.Valid() && gate.Valid()
      ensures Valid() && this.json == json && this.cache == cache && this.gate == gate && this.rows == rows && lists
    {
      this.json, this.cache, this.gate, this.rows, lists := json, cache, gate, rows, true;
    }

    /** What the next lookup of a key would find while Redis answers. */
    ghost function Seen(k: bytes, now: int): Option<bytes>
      requires cache.Valid()
      reads cache, if cache.local != null then {cache.local} else {}
    {
      LevelsGet(Levels(cache.LocalItems(), cache.store), k, now)
    }

    /** What a lookup finds: the local level and Redis, or the local level alone while Redis fails, or
        nothing without a cache. */
    ghost function Found(k: bytes, now: int, up: bool): Option<bytes>
      requires cache.Valid()
      reads cache, if cache.local != null then {cache.local} else {}
    {
      if !cache.Active() then None else if up then Seen(k, now) else Hit(cache.LocalItems(), k, now)
    }

    /** Cached texts that answer a reader by themselves, and the answer that they are. */
    predicate Answers(found: Option<bytes>) {
      found.Some? && (found.value == Nil() || json.readItem(found.value).Some?)
    }

    predicate ListAnswers(found: Option<bytes>) { found.Some? && json.readList(found.value).Some? }

    function AnswerOf(found: Option<bytes>): Option<Row>
      requires Answers(found)
    {
      if found.value == Nil() then None else json.readItem(found.value)
    }

    /** Two keys are asked to be deleted once more, or none. */
    twostate predicate Delayed(asked: bool, ks: seq<bytes>, now: int)
      reads if cache.deleter != null then {cache.deleter} else {}
    {
      cache.deleter != null ==>
        cache.deleter.Value() ==
        if asked then Delays.Apply(cache.deleter.delay, old(cache.deleter.Value()), Delays.Schedule(ks, now))
        else old(cache.deleter.Value())
    }

    /** Writes a value that is no lie, and that the next lookup finds. */
    method Fill(k: bytes, v: bytes, baseSeconds: int, draw: nat, now: int, up: bool)
      requires cache.Valid() && Truthful() && Facts().Fine(k, v) && v != [] && 0 !in k && 0 !in v
      requires cache.cfg.jitterSeconds > 0 ==> draw <= cache.cfg.jitterSeconds
      modifies cache`store, cache`write, cache`err, if cache.local != null then {cache.local} else {}
      ensures cache.Valid() && Truthful()
      ensures cache.write == old(cache.write) + if cache.Active() then 1 else 0
      ensures !cache.Active() ==> cache.store == old(cache.store)
      ensures cache.Active() ==>
        cache.store == Taken(up, old(cache.store), k, v, 1000 * TtlWithJitter(cache.cfg, baseSeconds, draw), now)
      ensures cache.Active() && up && baseSeconds > 0 ==> Seen(k, now) == Some(v)
    {
      var ttl := TtlWithJitter(cache.cfg, baseSeconds, draw);
      ghost var cap := if cache.local == null then 1 else cache.local.capacity;
      SetexFine(Facts(), cache.LocalItems(), cap, cache.store, k, v, 1000 * ttl, now);
      Put(k, v, ttl, now, up);
    }

    method Put(k: bytes, v: bytes, ttl: int, now: int, up: bool)
      requires cache.Valid() && Truthful()
      requires Facts().StoreFine(StoreSetex(cache.store, k, v, 1000 * ttl, now))
      requires cache.local != null ==>
        Facts().LocalFine(AfterPut(cache.LocalItems(), cache.local.capacity, k, v, now + 1000 * ttl))
      modifies cache`store, cache`write, cache`err, if cache.local != null then {cache.local} else {}
      ensures cache.Valid() && Truthful()
      ensures cache.write == old(cache.write) + if cache.Active() then 1 else 0
      ensures !cache.Active() ==> cache.store == old(cache.store)
      ensures cache.Active() ==> cache.store == Taken(up, old(cache.store), k, v, 1000 * ttl, now)
      ensures cache.Active() && up && ttl > 0 && v != [] && 0 !in v ==> Seen(k, now) == Some(v)
    {
      if ttl > 0 && v != [] && 0 !in v {
        SetexSeen(cache.LocalItems(), if cache.local == null then 1 else cache.local.capacity,
                  cache.store, k, v, 1000 * ttl, now);
      }
      cache.Setex(k, v, ttl, now, up);
    }

    /** `setDetail` and `setNull`. */
    method SetItem(id: int, v: bytes, baseSeconds: int, draw: nat, now: int, up: bool)
      requires Ready() && Truthful() && Fits(id) && Facts().DetailFine(id, v) && v != [] && 0 !in v
      requires cache.cfg.jitterSeconds > 0 ==> draw <= cache.cfg.jitterSeconds
      modifies cache`store, cache`write, cache`err, if cache.local != null then {cache.local} else {}
      ensures Ready() && Truthful()
      ensures cache.write == old(cache.write) + if cache.Active() then 1 else 0
      ensures !cache.Active() ==> cache.store == old(cache.store)
      ensures cache.Active() ==>
        cache.store == Taken(up, old(cache.store), cache.keys.Item(id), v,
                             1000 * TtlWithJitter(cache.cfg, baseSeconds, draw), now)
      ensures cache.Active() && up && baseSeconds > 0 ==> Seen(cache.keys.Item(id), now) == Some(v)
    {
      DetailIsFine(Facts(), id, v);
      KeyArrives(cache.keys, id);
      Fill(cache.keys.Item(id), v, baseSeconds, draw, now, up);
    }

    method SetList(list: seq<Row>, draw: nat, now: int, up: bool)
      requires Ready() && Truthful() && (lists ==> list == FirstRows(rows, LIST_LIMIT))
      requires cache.cfg.jitterSeconds > 0 ==> draw <= cache.cfg.jitterSeconds
      modifies cache`store, cache`write, cache`err, if cache.local != null then {cache.local} else {}
      ensures Ready() && Truthful()
      ensures cache.write == old(cache.write) + if cache.Active() then 1 else 0
      ensures !cache.Active() ==> cache.store == old(cache.store)
      ensures cache.Active() ==>
        cache.store == Taken(up, old(cache.store), cache.keys.List(), json.writeList(list),
                             1000 * TtlWithJitter(cache.cfg, cache.cfg.listTtlSeconds, draw), now)
      ensures cache.Active() && up && cache.cfg.listTtlSeconds > 0 ==>
        Seen(cache.keys.List(), now) == Some(json.writeList(list))
    {
      ListIsFine(Facts(), json.writeList(list));
      KeyArrives(cache.keys, 0);
      Fill(cache.keys.List(), json.writeList(list), cache.cfg.listTtlSeconds, draw, now, up);
    }

    /** Reads one key. An answer is no lie; without one the caller goes to the database. */
    method Look(k: bytes, now: int, up: bool) returns (r: Option<bytes>)
      requires cache.Valid() && Truthful() && 0 !in k
      modifies cache`hit, cache`localHit, cache`miss, cache`err, if cache.local != null then {cache.local} else {}
      ensures cache.store == old(cache.store) && cache.write == old(cache.write)
      ensures cache.Valid() && Truthful()
      ensures r == old(Found(k, now, up))
      ensures r.Some? ==> Facts().Fine(k, r.value)
    {
      GetFine(Facts(), cache.LocalItems(), k, now);
      CutExact(k, 0);
      r := cache.Get(k, now, up);
    }

    /** `getDetail` and `getList`. */
    method LookItem(id: int, now: int, up: bool) returns (r: Option<bytes>)
      requires Ready() && Truthful() && Fits(id)
      modifies cache`hit, cache`localHit, cache`miss, cache`err, if cache.local != null then {cache.local} else {}
      ensures Ready() && Truthful() && cache.store == old(cache.store) && cache.write == old(cache.write)
      ensures r == old(Found(cache.keys.Item(id), now, up)) && (r.Some? ==> cache.Active())
      ensures r.Some? ==> Facts().DetailFine(id, r.value)
    {
      KeyArrives(cache.keys, id);
      r := Look(cache.keys.Item(id), now, up);
    }

    method LookList(now: int, up: bool) returns (r: Option<bytes>)
      requires Ready() && Truthful()
      modifies cache`hit, cache`localHit, cache`miss, cache`err, if cache.local != null then {cache.local} else {}
      ensures Ready() && Truthful() && cache.store == old(cache.store) && cache.write == old(cache.write)
      ensures r == old(Found(cache.keys.List(), now, up)) && (r.Some? ==> cache.Active())
      ensures r.Some? && lists ==> Facts().ListFine(r.value)
    {
      KeyArrives(cache.keys, 0);
      r := Look(cache.keys.List(), now, up);
    }

    /** `detailSku`: the gate, the cache, then the database. `dbUp` says whether the query succeeds.
        Whatever is answered is what the table says, except that the gate may turn away a row that
        was added after the last published rebuild. */
    method DetailSku(id: int, draw: nat, now: int, up: bool, dbUp: bool) returns (reply: Option<Row>, rejected: bool)
      requires Valid() && Truthful() && Fits(id)
      requires cache.cfg.jitterSeconds > 0 ==> draw <= cache.cfg.jitterSeconds
      modifies cache`store, cache`write, cache`err, cache`hit, cache`localHit, cache`miss, gate`bloomRejected,
               if cache.local != null then {cache.local} else {}, if cache.deleter != null then {cache.deleter} else {}
      ensures Valid() && Truthful()
      ensures reply.Some? ==> reply == Find(rows, id)
      ensures dbUp && !rejected ==> reply == Find(rows, id)
      ensures rejected <==> cache.cfg.enabled && gate.bloomEnabled && old(gate.Excludes(id))
      ensures rejected ==> reply == None && id !in gate.table
      ensures gate.bloomRejected == old(gate.bloomRejected) + if rejected then 1 else 0
      ensures dbUp && GateKnowsAll() ==> reply == Find(rows, id)
      ensures var found := old(Found(cache.keys.Item(id), now, up));
        !rejected && cache.cfg.enabled && Answers(found) ==>
          reply == AnswerOf(found) && cache.store == old(cache.store) && cache.write == old(cache.write)
    {
      rejected := false;
      if !cache.cfg.enabled {
        reply := if dbUp then Find(rows, id) else None;
        return;
      }
      rejected := AskGate(id);
      if rejected {
        return None, true;
      }
      reply := CachedDetail(id, draw, now, up, dbUp);
    }

    /** The rest of `detailSku`: the cache, then the database. The gate is not touched. */
    method CachedDetail(id: int, draw: nat, now: int, up: bool, dbUp: bool) returns (reply: Option<Row>)
      requires Valid() && Truthful() && Fits(id)
      requires cache.cfg.jitterSeconds > 0 ==> draw <= cache.cfg.jitterSeconds
      modifies cache`store, cache`write, cache`err, cache`hit, cache`localHit, cache`miss,
               if cache.local != null then {cache.local} else {}, if cache.deleter != null then {cache.deleter} else {}
      ensures Valid() && Truthful()
      ensures reply.Some? || dbUp ==> reply == Find(rows, id)
      ensures Served(id, now, up, reply)
    {
      reply := ReadThrough(id, draw, now, up, dbUp);
      GateKept();
    }

    /** A cached text that answers is the answer, and nothing is written. */
    twostate predicate Served(id: int, now: int, up: bool, reply: Option<Row>)
      requires old(Ready()) && Fits(id)
      reads this, cache
    {
      var found := old(Found(cache.keys.Item(id), now, up));
      Answers(found) ==> reply == AnswerOf(found) && cache.store == old(cache.store) && cache.write == old(cache.write)
    }

    /** The cache is no part of the gate. */
    twostate lemma GateKept()
      ensures old(gate.Valid()) && unchanged(gate) && (gate.bloom != null ==> unchanged(gate.bloom, gate.bloom.bits))
              ==> gate.Valid()
    {}

    /** Every row of the table was read by the last published rebuild. */
    ghost predicate GateKnowsAll()
      reads this, gate
    {
      forall i :: 0 <= i < |rows| ==> rows[i].id in gate.table
    }

    /** The gate turns away no row that the last published rebuild read. */
    method AskGate(id: int) returns (rejected: bool)
      requires Valid() && Truthful()
      modifies gate`bloomRejected
      ensures Valid() && Truthful()
      ensures rejected <==> gate.bloomEnabled && old(gate.Excludes(id))
      ensures rejected ==> id !in gate.table
      ensures gate.bloomRejected == old(gate.bloomRejected) + if rejected then 1 else 0
      ensures rejected && GateKnowsAll() ==> Find(rows, id) == None
    {
      FindExists(rows, id);
      rejected := gate.PreCheck(id);
    }

    /** Cache, then database. A text that answers is the answer, and nothing is written; only without
        one the database is asked. */
    method ReadThrough(id: int, draw: nat, now: int, up: bool, dbUp: bool) returns (reply: Option<Row>)
      requires Ready() && Truthful() && Fits(id)
      requires cache.cfg.jitterSeconds > 0 ==> draw <= cache.cfg.jitterSeconds
      modifies cache`store, cache`write, cache`err, cache`hit, cache`localHit, cache`miss,
               if cache.local != null then {cache.local} else {}, if cache.deleter != null then {cache.deleter} else {}
      ensures Ready() && Truthful()
      ensures reply.Some? || dbUp ==> reply == Find(rows, id)
      ensures Served(id, now, up, reply)
      ensures var found := old(Found(cache.keys.Item(id), now, up));
        && (!Answers(found) ==>
              reply == (if dbUp then Find(rows, id) else None)
              && cache.write == old(cache.write) + (if dbUp && cache.Active() then 1 else 0))
        && Delayed(found.Some? && !Answers(found), [cache.keys.Item(id), cache.keys.List()], now)
        && (found.Some? && !Answers(found) && up ==> cache.keys.List() !in cache.store)
        && (found.Some? && !Answers(found) && up && !dbUp ==> cache.keys.Item(id) !in cache.store)
    {
      var value := LookItem(id, now, up);
      if value.Some? {
        if value.value == Nil() {
          return None;
        }
        var item := json.readItem(value.value);
        if item.Some? {
          return item;
        }
        reply := AfterJunk(id, draw, now, up, dbUp);
      } else {
        reply := QueryDetail(id, draw, now, up, dbUp);
      }
    }

    /** Junk in the cache is dropped, then the database is asked. */
    method AfterJunk(id: int, draw: nat, now: int, up: bool, dbUp: bool) returns (reply: Option<Row>)
      requires Ready() && Truthful() && Fits(id) && cache.Active()
      requires cache.cfg.jitterSeconds > 0 ==> draw <= cache.cfg.jitterSeconds
      modifies cache`store, cache`write, cache`err,
               if cache.local != null then {cache.local} else {}, if cache.deleter != null then {cache.deleter} else {}
      ensures Ready() && Truthful()
      ensures reply == if dbUp then Find(rows, id) else None
      ensures cache.write == old(cache.write) + (if dbUp then 1 else 0)
      ensures Delayed(true, [cache.keys.Item(id), cache.keys.List()], now)
      ensures up ==> cache.keys.List() !in cache.store && (dbUp || cache.keys.Item(id) !in cache.store)
    {
      ReplaceJunk(id, now, up);
      reply := QueryDetail(id, draw, now, up, dbUp);
    }

    method ReplaceJunk(id: int, now: int, up: bool)
      requires Ready() && Truthful() && Fits(id) && cache.Active()
      modifies cache`store, cache`err, if cache.local != null then {cache.local} else {},
               if cache.deleter != null then {cache.deleter} else {}
      ensures cache.write == old(cache.write)
      ensures Ready() && Truthful()
      ensures Delayed(true, [cache.keys.Item(id), cache.keys.List()], now)
      ensures up ==> cache.keys.List() !in cache.store && cache.keys.Item(id) !in cache.store
    {
      var ks := [cache.keys.Item(id), cache.keys.List()];
      KeyArrives(cache.keys, id);
      WithoutMeans(cache.store, ks, ks[0]);
      WithoutMeans(cache.store, ks, ks[1]);
      DropItem(id, now, up);
    }

    /** A detail that cannot be read takes the list with it. */
    method DropItem(id: int, now: int, up: bool)
      requires cache.Valid() && Truthful()
      modifies cache`store, cache`err, if cache.local != null then {cache.local} else {},
               if cache.deleter != null then {cache.deleter} else {}
      ensures cache.write == old(cache.write)
      ensures cache.Valid() && Truthful()
      ensures cache.Active() ==>
        cache.store == if up then Without(old(cache.store), [cache.keys.Item(id), cache.keys.List()]) else old(cache.store)
      ensures cache.Active() ==>
        cache.LocalItems() == EraseAll(old(cache.LocalItems()), [cache.keys.Item(id), cache.keys.List()])
      ensures Delayed(cache.Active(), [cache.keys.Item(id), cache.keys.List()], now)
    {
      ghost var t, local, store := Facts(), cache.LocalItems(), cache.store;
      cache.Invalidate(id, now, up);
      LessIsFine(t, local, store, [cache.keys.Item(id), cache.keys.List()], cache.LocalItems(), cache.store);
    }

    /** The text that the read path caches for an id. */
    function Answer(id: int): bytes
      reads this
    {
      var row := Find(rows, id);
      if row.None? then Nil() else json.writeItem(row.value)
    }

    lemma AnswerIsFine(id: int)
      requires Sound(json)
      ensures Facts().DetailFine(id, Answer(id)) && Answer(id) != [] && 0 !in Answer(id)
    {}

    /** `queryDetailFromDb` with write-back: the row, or the sentinel for a row that is not there.
        The next lookup finds it, so the database is not asked again. */
    method QueryDetail(id: int, draw: nat, now: int, up: bool, dbUp: bool) returns (reply: Option<Row>)
      requires Ready() && Truthful() && Fits(id)
      requires cache.cfg.jitterSeconds > 0 ==> draw <= cache.cfg.jitterSeconds
      modifies cache`store, cache`write, cache`err, if cache.local != null then {cache.local} else {}
      ensures Ready() && Truthful()
      ensures reply == if dbUp then Find(rows, id) else None
      ensures cache.write == old(cache.write) + if dbUp && cache.Active() then 1 else 0
      ensures cache.store == if !(dbUp && cache.Active()) then old(cache.store)
        else Taken(up, old(cache.store), cache.keys.Item(id), Answer(id),
                   1000 * TtlWithJitter(cache.cfg, if reply.None? then cache.cfg.nullTtlSeconds else cache.cfg.detailTtlSeconds, draw), now)
      ensures cache.keys.List() !in old(cache.store) ==> cache.keys.List() !in cache.store
      ensures dbUp && up && cache.Active() && cache.cfg.detailTtlSeconds > 0 && cache.cfg.nullTtlSeconds > 0 ==>
        Seen(cache.keys.Item(id), now) == Some(Answer(id))
    {
      if !dbUp {
        return None;
      }
      reply := Find(rows, id);
      AnswerIsFine(id);
      ListUntouched(cache.keys, cache.store, id, Answer(id));
      SetItem(id, Answer(id), if reply.None? then cache.cfg.nullTtlSeconds else cache.cfg.detailTtlSeconds, draw, now, up);
    }

    /** `listSkus`: the cache, then the database. A list that cannot be read is dropped. */
    method ListSkus(draw: nat, now: int, up: bool, dbUp: bool) returns (reply: Option<seq<Row>>)
      requires Ready() && Truthful()
      requires cache.cfg.jitterSeconds > 0 ==> draw <= cache.cfg.jitterSeconds
      modifies cache`store, cache`write, cache`err, cache`hit, cache`localHit, cache`miss,
               if cache.local != null then {cache.local} else {}, if cache.deleter != null then {cache.deleter} else {}
      ensures Ready() && Truthful()
      ensures lists && reply.Some? ==> reply.value == FirstRows(rows, LIST_LIMIT)
      ensures dbUp ==> reply.Some?
      ensures var found := old(Found(cache.keys.List(), now, up));
        && (ListAnswers(found) ==>
              reply == json.readList(found.value) && cache.store == old(cache.store) && cache.write == old(cache.write))
        && (!ListAnswers(found) ==>
              reply == (if dbUp then Some(FirstRows(rows, LIST_LIMIT)) else None)
              && cache.write == old(cache.write) + (if dbUp && cache.Active() then 1 else 0))
        && Delayed(found.Some? && !ListAnswers(found), [cache.keys.List()], now)
        && (found.Some? && !ListAnswers(found) && up && !dbUp ==> cache.keys.List() !in cache.store)
    {
      if !cache.cfg.enabled {
        reply := if dbUp then Some(FirstRows(rows, LIST_LIMIT)) else None;
        return;
      }
      var value := LookList(now, up);
      if value.Some? {
        var list := json.readList(value.value);
        if list.Some? {
          return list;
        }
        reply := ListAfterJunk(draw, now, up, dbUp);
      } else {
        reply := QueryList(draw, now, up, dbUp);
      }
    }

    method ListAfterJunk(draw: nat, now: int, up: bool, dbUp: bool) returns (reply: Option<seq<Row>>)
      requires Ready() && Truthful() && cache.Active()
      requires cache.cfg.jitterSeconds > 0 ==> draw <= cache.cfg.jitterSeconds
      modifies cache`store, cache`write, cache`err,
               if cache.local != null then {cache.local} else {}, if cache.deleter != null then {cache.deleter} else {}
      ensures Ready() && Truthful()
      ensures reply == if dbUp then Some(FirstRows(rows, LIST_LIMIT)) else None
      ensures cache.write == old(cache.write) + (if dbUp then 1 else 0)
      ensures Delayed(true, [cache.keys.List()], now)
      ensures up && !dbUp ==> cache.keys.List() !in cache.store
    {
      DropList(now, up);
      reply := QueryList(draw, now, up, dbUp);
    }

    method DropList(now: int, up: bool)
      requires cache.Valid() && Truthful()
      modifies cache`store, cache`err, if cache.local != null then {cache.local} else {},
               if cache.deleter != null then {cache.deleter} else {}
      ensures cache.write == old(cache.write)
      ensures cache.Valid() && Truthful()
      ensures cache.Active() ==>
        cache.store == if up then Without(old(cache.store), [cache.keys.List()]) else old(cache.store)
      ensures cache.Active() ==> cache.LocalItems() == EraseAll(old(cache.LocalItems()), [cache.keys.List()])
      ensures cache.Active() && up && cache.keys.Plain() ==> cache.keys.List() !in cache.store
      ensures Delayed(cache.Active(), [cache.keys.List()], now)
    {
      ghost var t, local, store := Facts(), cache.LocalItems(), cache.store;
      WithoutMeans(cache.store, [cache.keys.List()], cache.keys.List());
      if cache.keys.Plain() {
        KeyArrives(cache.keys, 0);
      }
      cache.InvalidateKey(cache.keys.List(), now, up);
      LessIsFine(t, local, store, [cache.keys.List()], cache.LocalItems(), cache.store);
    }

    /** `queryListFromDb` with write-back. */
    method QueryList(draw: nat, now: int, up: bool, dbUp: bool) returns (reply: Option<seq<Row>>)
      requires Ready() && Truthful()
      requires cache.cfg.jitterSeconds > 0 ==> draw <= cache.cfg.jitterSeconds
      modifies cache`store, cache`write, cache`err, if cache.local != null then {cache.local} else {}
      ensures Ready() && Truthful()
      ensures reply == if dbUp then Some(FirstRows(rows, LIST_LIMIT)) else None
      ensures cache.write == old(cache.write) + if dbUp && cache.Active() then 1 else 0
      ensures cache.store == if !(dbUp && cache.Active()) then old(cache.store)
        else Taken(up, old(cache.store), cache.keys.List(), json.writeList(FirstRows(rows, LIST_LIMIT)),
                   1000 * TtlWithJitter(cache.cfg, cache.cfg.listTtlSeconds, draw), now)
      ensures dbUp && up && cache.Active() && cache.cfg.listTtlSeconds > 0 ==>
        Seen(cache.keys.List(), now) == Some(json.writeList(FirstRows(rows, LIST_LIMIT)))
    {
      if !dbUp {
        return None;
      }
      var list := FirstRows(rows, LIST_LIMIT);
      SetList(list, draw, now, up);
      return Some(list);
    }

    function DetailLife(): Life { Life(cache.cfg.detailTtlSeconds, cache.cfg.jitterSeconds > 0) }

    function ListLife(): Life { Life(cache.cfg.listTtlSeconds, cache.cfg.jitterSeconds > 0) }

    predicate Draws(calls: nat -> Call, n: nat) {
      cache.cfg.jitterSeconds > 0 ==> forall i :: 0 <= i <= n ==> calls(i).draw <= cache.cfg.jitterSeconds
    }

    /** `warmCache`: writes the detail of each of the first rows, then their list, each with a call
        of its own. It makes no detail wrong, and the list only when it stops before the rows that
        a reader would list. */
    method WarmCache(limit: int, calls: nat -> Call, now: int, dbUp: bool) returns (ok: bool, warmed: nat)
      requires Ready() && Truthful() && Draws(calls, |rows|)
      modifies this`lists, cache`store, cache`write, cache`err, if cache.local != null then {cache.local} else {}
      ensures Ready() && Truthful() && ok == dbUp
      ensures !dbUp ==>
        warmed == 0 && lists == old(lists) && cache.store == old(cache.store) && cache.LocalItems() == old(cache.LocalItems())
      ensures dbUp ==> warmed == |FirstRows(rows, WarmLimit(limit))|
      ensures dbUp ==> lists == (old(lists) && WarmsWholeList(rows, limit))
      ensures dbUp && cache.Active() && cache.cfg.detailTtlSeconds > 0 ==> Facts().Stored(cache.store, warmed, calls, DetailLife(), now)
      ensures dbUp && cache.Active() && calls(warmed).up && cache.cfg.listTtlSeconds > 0 && rows != [] ==>
        Facts().TextStored(cache.store, cache.keys.List(),
                           json.writeList(FirstRows(FirstRows(rows, WarmLimit(limit)), LIST_LIMIT)),
                           ListLife().Ends(calls(warmed).draw, now))
    {
      if !dbUp {
        return false, 0;
      }
      var result := FirstRows(rows, WarmLimit(limit));
      WarmedListExact(rows, limit);
      HoldLists(WarmsWholeList(rows, limit));
      WarmRows(result, calls, now);
      return true, |result|;
    }

    /** What `warmCache` does with the rows of its query. */
    method WarmRows(result: seq<Row>, calls: nat -> Call, now: int)
      requires Ready() && Truthful() && result <= rows && Draws(calls, |rows|)
      requires lists ==> FirstRows(result, LIST_LIMIT) == FirstRows(rows, LIST_LIMIT)
      modifies cache`store, cache`write, cache`err, if cache.local != null then {cache.local} else {}
      ensures Ready() && Truthful()
      ensures cache.Active() && cache.cfg.detailTtlSeconds > 0 ==> Facts().Stored(cache.store, |result|, calls, DetailLife(), now)
      ensures cache.Active() && calls(|result|).up && cache.cfg.listTtlSeconds > 0 && result != [] ==>
        Facts().TextStored(cache.store, cache.keys.List(), json.writeList(FirstRows(result, LIST_LIMIT)),
                           ListLife().Ends(calls(|result|).draw, now))
    {
      var list := WarmDetails(result, calls, now);
      if list != [] {
        WarmList(list, |result|, calls, now);
      }
    }

    /** Holds cached lists to the truth from now on, or no longer. */
    ghost method HoldLists(whole: bool)
      requires Ready() && Truthful()
      modifies this`lists
      ensures Ready() && Truthful() && lists == (old(lists) && whole)
    {
      lists := lists && whole;
    }

    /** The list goes under a key of its own. */
    method WarmList(list: seq<Row>, n: nat, calls: nat -> Call, now: int)
      requires Ready() && Truthful() && n <= |rows| && Draws(calls, |rows|)
      requires lists ==> list == FirstRows(rows, LIST_LIMIT)
      modifies cache`store, cache`write, cache`err, if cache.local != null then {cache.local} else {}
      ensures Ready() && Truthful()
      ensures cache.Active() && Facts().Stored(old(cache.store), n, calls, DetailLife(), now) ==>
        Facts().Stored(cache.store, n, calls, DetailLife(), now)
      ensures cache.Active() && calls(n).up && cache.cfg.listTtlSeconds > 0 ==>
        Facts().TextStored(cache.store, cache.keys.List(), json.writeList(list), ListLife().Ends(calls(n).draw, now))
    {
      ghost var t, store := Facts(), cache.store;
      KeyArrives(cache.keys, 0);
      CutExact(json.writeList(list), 0);
      SetList(list, calls(n).draw, now, calls(n).up);
      if cache.Active() && t.Stored(store, n, calls, DetailLife(), now) {
        ListAdded(t, store, n, calls, DetailLife(), json.writeList(list),
                  1000 * TtlWithJitter(cache.cfg, cache.cfg.listTtlSeconds, calls(n).draw), now);
      }
    }

    /** The loop of `warmCache`. */
    method WarmDetails(result: seq<Row>, calls: nat -> Call, now: int) returns (list: seq<Row>)
      requires Ready() && Truthful() && result <= rows && Draws(calls, |rows|)
      modifies cache`store, cache`write, cache`err, if cache.local != null then {cache.local} else {}
      ensures Ready() && Truthful()
      ensures list == FirstRows(result, LIST_LIMIT)
      ensures cache.Active() && cache.cfg.detailTtlSeconds > 0 ==> Facts().Stored(cache.store, |result|, calls, DetailLife(), now)
    {
      list := [];
      for i := 0 to |result|
        invariant Ready() && Truthful()
        invariant list == FirstRows(result[..i], LIST_LIMIT)
        invariant cache.Active() && cache.cfg.detailTtlSeconds > 0 ==> Facts().Stored(cache.store, i, calls, DetailLife(), now)
      {
        list := Listed(result, list, i);
        WarmRow(i, calls, now);
      }
      assert result[..|result|] == result;
    }

    /** `if (listArr.size() < 100) listArr.append(item)` */
    method Listed(result: seq<Row>, list: seq<Row>, i: nat) returns (more: seq<Row>)
      requires i < |result| && list == FirstRows(result[..i], LIST_LIMIT)
      ensures more == FirstRows(result[..i + 1], LIST_LIMIT)
    {
      FirstRowsNext(result, i, LIST_LIMIT);
      more := list;
      if |list| < LIST_LIMIT {
        more := list + [result[i]];
      }
    }

    method WarmRow(i: nat, calls: nat -> Call, now: int)
      requires Ready() && Truthful() && i < |rows| && Draws(calls, |rows|)
      modifies cache`store, cache`write, cache`err, if cache.local != null then {cache.local} else {}
      ensures Ready() && Truthful()
      ensures cache.Active() && cache.cfg.detailTtlSeconds > 0 && Facts().Stored(old(cache.store), i, calls, DetailLife(), now) ==>
        Facts().Stored(cache.store, i + 1, calls, DetailLife(), now)
    {
      ghost var t, store := Facts(), cache.store;
      SetRow(i, calls(i), now);
      if cache.Active() && cache.cfg.detailTtlSeconds > 0 && t.Stored(store, i, calls, DetailLife(), now) {
        RowAdded(t, store, i, calls, DetailLife(),
                 1000 * TtlWithJitter(cache.cfg, cache.cfg.detailTtlSeconds, calls(i).draw), now);
      }
    }

    method SetRow(i: nat, call: Call, now: int)
      requires Ready() && Truthful() && i < |rows|
      requires cache.cfg.jitterSeconds > 0 ==> call.draw <= cache.cfg.jitterSeconds
      modifies cache`store, cache`write, cache`err, if cache.local != null then {cache.local} else {}
      ensures Ready() && Truthful()
      ensures cache.Active() ==>
        cache.store == Taken(call.up, old(cache.store), cache.keys.Item(rows[i].id), json.writeItem(rows[i]),
                             1000 * TtlWithJitter(cache.cfg, cache.cfg.detailTtlSeconds, call.draw), now)
    {
      FindRow(rows, i);
      SetItem(rows[i].id, json.writeItem(rows[i]), cache.cfg.detailTtlSeconds, call.draw, now, call.up);
    }
  }

  function WarmLimit(limit: int): (n: nat)
    ensures 1 <= n && (1 <= limit ==> n == limit) && (limit < 1 ==> n == 1)
  {
    if limit < 1 then 1 else limit
  }

  predicate WarmsWholeList(rows: seq<Row>, limit: int) { limit >= LIST_LIMIT || |rows| <= WarmLimit(limit) }

  /** A warmed list is the list that a reader would have written exactly when the limit reaches
      the list's own limit or the whole table. */
  lemma WarmedListExact(rows: seq<Row>, limit: int)
    ensures FirstRows(FirstRows(rows, WarmLimit(limit)), LIST_LIMIT) == FirstRows(rows, LIST_LIMIT)
      <==> WarmsWholeList(rows, limit)
  {
    if limit >= LIST_LIMIT && |rows| > limit {
      assert rows[..limit][..LIST_LIMIT] == rows[..LIST_LIMIT];
    } else if !WarmsWholeList(rows, limit) {
      assert |FirstRows(rows, WarmLimit(limit))| == WarmLimit(limit) < |FirstRows(rows, LIST_LIMIT)|;
    }
  }
}
