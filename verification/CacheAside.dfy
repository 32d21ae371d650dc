/** The cache-aside protocol as a timed machine: readers read the database and fill the cache
    later, orders commit and then delete, and every delete is repeated after a delay. One logical
    clock; a DEL or SETEX counts at the moment it takes effect in the cache level that is looked
    at, so the machine describes Redis and the local level alike. */
module CacheAside {
  import opened Wrappers
  import opened Base64Url
  import opened SkuCache
  import Texts = CacheKeys

  datatype Key = Item(sku: int) | List

  /** A change of the database: an order of this service, or anything else that touches some keys. */
  datatype Change = Order(sku: int) | Outside(touches: set<Key>)

  predicate Affects(c: Change, k: Key) {
    match c
    case Order(sku) => k == List || k == Item(sku)
    case Outside(touches) => k in touches
  }

  /** The settings, and what the database answers for a key after a number of changes, when asked
      for so many rows; None is the row that does not exist. A detail does not depend on the rows
      asked for; a list is asked for with 100 by readers and with the operator's limit by a warm-up. */
  datatype Rules = Rules(
    mode: InvalidateOnOrder,
    doubleDelete: nat,
    listTtl: int,
    detailTtl: int,
    nullTtl: int,
    jitter: nat,
    answer: (nat, Key, nat) -> Option<bytes>)

  function OrderKeys(mode: InvalidateOnOrder, sku: int): seq<Key> {
    match mode
    case NoKey => []
    case ItemKey => [Item(sku)]
    case ItemAndList => [Item(sku), List]
  }

  function Text(keys: Texts.CacheKeys, k: Key): bytes {
    if k.Item? then keys.Item(k.sku) else keys.List()
  }

  /** The abstract keys of an order are the texts that the cache object deletes. */
  lemma OrderKeysAreTexts(mode: InvalidateOnOrder, keys: Texts.CacheKeys, sku: int)
    ensures |KeysOf(mode, keys, sku)| == |OrderKeys(mode, sku)|
    ensures forall i :: 0 <= i < |OrderKeys(mode, sku)| ==> KeysOf(mode, keys, sku)[i] == Text(keys, OrderKeys(mode, sku)[i])
  {}

  function BaseTtl(r: Rules, k: Key, value: Option<bytes>): int {
    if k.List? then r.listTtl else if value.Some? then r.detailTtl else r.nullTtl
  }

  // ---- The machine ----

  datatype Entry = Entry(value: Option<bytes>, version: nat, limit: nat, readAt: int, setAt: int, expireAt: int)

  datatype Reader = Reader(key: Key, limit: nat, version: nat, readAt: int)

  datatype Delete = Delete(fireAt: int, keys: set<Key>)

  /** `log` and `times` are the changes with their commit times, `waiting` the orders whose commit
      callback has not run, `queue` the delayed deletes not yet due, `flying` those that the thread
      has taken and whose deletes may still be under way, `refused` the delayed deletes that Redis
      did not take. */
  datatype State = State(
    now: int,
    log: seq<Change>,
    times: seq<int>,
    cache: map<Key, Entry>,
    readers: map<nat, Reader>,
    waiting: set<nat>,
    queue: seq<Delete>,
    flying: seq<Delete>,
    refused: seq<Delete>)

  function Start(now: int): State { State(now, [], [], map[], map[], {}, [], [], []) }

  datatype Step =
    | Tick(d: nat)
    | Commit(change: Change)
    | Callback(order: nat)             // deletes, then queues the second delete
    | Invalidate(keys: set<Key>)       // a corrupted value: deletes, then queues the second delete
    | DirectDelete(key: Key)           // any first delete takes effect, at any time
    | Read(id: nat, key: Key, limit: nat)
    | Backfill(id: nat, draw: nat)
    | Abandon(id: nat)                 // a failed query or a failed write-back
    | Fire
    | DelayedDelete(task: nat, key: Key)
    | RefusedDelete(task: nat, key: Key)

  predicate Enabled(r: Rules, s: State, e: Step) {
    match e
    case Tick(_) => true
    case Commit(_) => true
    case Callback(i) => i in s.waiting && i < |s.log| && s.log[i].Order?
    case Invalidate(_) => true
    case DirectDelete(_) => true
    case Read(id, _, _) => id !in s.readers
    case Backfill(id, draw) => id in s.readers && draw <= r.jitter
    case Abandon(id) => id in s.readers
    case Fire => s.queue != [] && s.queue[0].fireAt <= s.now
    case DelayedDelete(j, k) => j < |s.flying| && k in s.flying[j].keys
    case RefusedDelete(j, k) => j < |s.flying| && k in s.flying[j].keys
  }

  function Queued(r: Rules, s: State, keys: set<Key>): State {
    if r.doubleDelete == 0 || keys == {} then s else s.(queue := s.queue + [Delete(s.now + r.doubleDelete, keys)])
  }

  function KeySet(ks: seq<Key>): set<Key> { set k | k in ks }

  function Filled(r: Rules, s: State, d: Reader, draw: nat): State {
    var value := r.answer(d.version, d.key, d.limit);
    var ttl := BaseTtl(r, d.key, value) + draw;
    if ttl <= 0 then s
    else s.(cache := s.cache[d.key := Entry(value, d.version, d.limit, d.readAt, s.now, s.now + ttl)])
  }

  function Apply(r: Rules, s: State, e: Step): State
    requires Enabled(r, s, e)
  {
    match e
    case Tick(d) => s.(now := s.now + d)
    case Commit(c) =>
      s.(log := s.log + [c], times := s.times + [s.now],
         waiting := if c.Order? then s.waiting + {|s.log|} else s.waiting)
    case Callback(i) => Queued(r, s.(waiting := s.waiting - {i}), KeySet(OrderKeys(r.mode, s.log[i].sku)))
    case Invalidate(keys) => Queued(r, s, keys)
    case DirectDelete(k) => s.(cache := s.cache - {k})
    case Read(id, k, limit) => s.(readers := s.readers[id := Reader(k, limit, |s.log|, s.now)])
    case Backfill(id, draw) => Filled(r, s.(readers := s.readers - {id}), s.readers[id], draw)
    case Abandon(id) => s.(readers := s.readers - {id})
    case Fire => s.(queue := s.queue[1..], flying := s.flying + [s.queue[0]])
    case DelayedDelete(j, k) =>
      s.(cache := s.cache - {k}, flying := s.flying[j := s.flying[j].(keys := s.flying[j].keys - {k})])
    case RefusedDelete(j, k) =>
      s.(flying := s.flying[j := s.flying[j].(keys := s.flying[j].keys - {k})],
         refused := s.refused + [Delete(s.flying[j].fireAt, {k})])
  }

  /** A run: every step is enabled where it happens. */
  ghost predicate Valid(r: Rules, s: State, es: seq<Step>)
    decreases |es|
  {
    es == [] || (Enabled(r, s, es[0]) && Valid(r, Apply(r, s, es[0]), es[1..]))
  }

  function Run(r: Rules, s: State, es: seq<Step>): State
    requires Valid(r, s, es)
    decreases |es|
  {
    if es == [] then s else Run(r, Apply(r, s, es[0]), es[1..])
  }

  // ---- Staleness implies a pending delete ----

  /** The write-back comes sooner after its database read than the second delete after the first. */
  predicate TimelyStep(r: Rules, s: State, e: Step) {
    e.Backfill? && e.id in s.readers ==> s.now < s.readers[e.id].readAt + r.doubleDelete
  }

  ghost predicate Timely(r: Rules, s: State, es: seq<Step>)
    requires Valid(r, s, es)
    decreases |es|
  {
    es == [] || (TimelyStep(r, s, es[0]) && Timely(r, Apply(r, s, es[0]), es[1..]))
  }

  predicate Covers(mode: InvalidateOnOrder, k: Key) {
    match mode
    case NoKey => false
    case ItemKey => k.Item?
    case ItemAndList => true
  }

  /** A delayed delete of k is queued or under way that is not due before t. */
  ghost predicate DeletePending(s: State, k: Key, t: int) {
    || (exists j :: 0 <= j < |s.queue| && k in s.queue[j].keys && t <= s.queue[j].fireAt)
    || (exists j :: 0 <= j < |s.flying| && k in s.flying[j].keys && t <= s.flying[j].fireAt)
  }

  /** A delayed delete of k that was not due before t was refused. */
  ghost predicate DeleteRefused(s: State, k: Key, t: int) {
    exists j :: 0 <= j < |s.refused| && k in s.refused[j].keys && t <= s.refused[j].fireAt
  }

  ghost predicate DeleteOwed(s: State, k: Key, t: int) { DeletePending(s, k, t) || DeleteRefused(s, k, t) }

  /** The i-th change is an order that touches k, and its callback has run. */
  predicate Done(s: State, i: nat, k: Key) {
    i < |s.log| && s.log[i].Order? && Affects(s.log[i], k) && i !in s.waiting
  }

  /** Something read at `version` is behind every finished order on its key only while a delayed
      delete of that key is still to come, no sooner than the delay after the read. */
  ghost predicate Guarded(r: Rules, s: State, k: Key, version: nat, readAt: int) {
    forall i: nat :: version <= i && Done(s, i, k) ==> DeleteOwed(s, k, readAt + r.doubleDelete)
  }

  ghost predicate Inv(r: Rules, s: State) {
    && (forall i :: i in s.waiting ==> i < |s.log|)
    && (forall j :: 0 <= j < |s.flying| ==> s.flying[j].fireAt <= s.now)
    && (forall id :: id in s.readers ==> ReaderInv(r, s, s.readers[id]))
    && (forall k :: k in s.cache ==> EntryInv(r, s, k, s.cache[k]))
  }

  ghost predicate ReaderInv(r: Rules, s: State, d: Reader) {
    && d.readAt <= s.now && d.version <= |s.log|
    && (Covers(r.mode, d.key) && s.now < d.readAt + r.doubleDelete ==> Guarded(r, s, d.key, d.version, d.readAt))
  }

  ghost predicate EntryInv(r: Rules, s: State, k: Key, e: Entry) {
    && e.readAt <= s.now && 0 < r.doubleDelete
    && (Covers(r.mode, k) ==> Guarded(r, s, k, e.version, e.readAt))
  }

  /** Steps that drop no pending delete of k and finish no order on k keep the guard of k. */
  lemma GuardKept(r: Rules, s: State, s': State, k: Key, version: nat, readAt: int)
    requires Guarded(r, s, k, version, readAt)
    requires forall i: nat :: Done(s', i, k) && version <= i ==> Done(s, i, k)
    requires forall j :: 0 <= j < |s.queue| && k in s.queue[j].keys ==> s.queue[j] in s'.queue + s'.flying
    requires |s.flying| <= |s'.flying|
    requires forall j :: 0 <= j < |s.flying| ==>
               s'.flying[j].fireAt == s.flying[j].fireAt && (k in s.flying[j].keys ==> k in s'.flying[j].keys)
    requires s.refused <= s'.refused
    ensures Guarded(r, s', k, version, readAt)
  {
    forall i: nat | version <= i && Done(s', i, k) ensures DeleteOwed(s', k, readAt + r.doubleDelete) {
      if DeletePending(s, k, readAt + r.doubleDelete) {
        StillPending(s, s', k, readAt + r.doubleDelete);
      } else {
        StillRefused(s, s', k, readAt + r.doubleDelete);
      }
    }
  }

  lemma StillRefused(s: State, s': State, k: Key, t: int)
    requires DeleteRefused(s, k, t) && s.refused <= s'.refused
    ensures DeleteRefused(s', k, t)
  {
    var j :| 0 <= j < |s.refused| && k in s.refused[j].keys && t <= s.refused[j].fireAt;
    assert s'.refused[j] == s.refused[j];
  }

  lemma StillPending(s: State, s': State, k: Key, t: int)
    requires DeletePending(s, k, t)
    requires forall j :: 0 <= j < |s.queue| && k in s.queue[j].keys ==> s.queue[j] in s'.queue + s'.flying
    requires |s.flying| <= |s'.flying|
    requires forall j :: 0 <= j < |s.flying| ==>
               s'.flying[j].fireAt == s.flying[j].fireAt && (k in s.flying[j].keys ==> k in s'.flying[j].keys)
    ensures DeletePending(s', k, t)
  {
    if j :| 0 <= j < |s.queue| && k in s.queue[j].keys && t <= s.queue[j].fireAt {
      var d := s.queue[j];
      if d in s'.queue {
        var i :| 0 <= i < |s'.queue| && s'.queue[i] == d;
      } else {
        var i :| 0 <= i < |s'.flying| && s'.flying[i] == d;
      }
    } else {
      var j :| 0 <= j < |s.flying| && k in s.flying[j].keys && t <= s.flying[j].fireAt;
      assert k in s'.flying[j].keys;
    }
  }

  /** Steps after which everything read so far is guarded as before. */
  lemma QuietStep(r: Rules, s: State, s': State)
    requires Inv(r, s)
    requires s.now <= s'.now && |s.log| <= |s'.log|
    requires forall i :: i in s'.waiting ==> i < |s'.log|
    requires forall i: nat, k :: Done(s', i, k) ==> Done(s, i, k)
    requires s'.readers == s.readers && s'.cache == s.cache
    requires s.queue <= s'.queue && s'.flying == s.flying && s'.refused == s.refused
    ensures Inv(r, s')
  {
    forall k, version: nat, readAt | Guarded(r, s, k, version, readAt) ensures Guarded(r, s', k, version, readAt) {
      forall j | 0 <= j < |s.queue| ensures s.queue[j] in s'.queue + s'.flying {
        assert s'.queue[j] == s.queue[j];
      }
      GuardKept(r, s, s', k, version, readAt);
    }
  }

  lemma CallbackStep(r: Rules, s: State, i: nat)
    requires Inv(r, s) && Enabled(r, s, Callback(i))
    ensures Inv(r, Apply(r, s, Callback(i)))
  {
    var s' := Apply(r, s, Callback(i));
    var ks := KeySet(OrderKeys(r.mode, s.log[i].sku));
    forall k, version: nat, readAt | Covers(r.mode, k) && 0 < r.doubleDelete && readAt <= s.now && Guarded(r, s, k, version, readAt)
      ensures Guarded(r, s', k, version, readAt)
    {
      if Affects(s.log[i], k) {
        assert k in OrderKeys(r.mode, s.log[i].sku) by {
          assert OrderKeys(r.mode, s.log[i].sku)[if k.Item? then 0 else 1] == k;
        }
        assert k in ks;
        assert s'.queue[|s.queue|] == Delete(s.now + r.doubleDelete, ks);
      } else {
        forall j | 0 <= j < |s.queue| ensures s.queue[j] in s'.queue + s'.flying {
          assert s'.queue[j] == s.queue[j];
        }
        GuardKept(r, s, s', k, version, readAt);
      }
    }
  }

  lemma FireStep(r: Rules, s: State)
    requires Inv(r, s) && Enabled(r, s, Fire)
    ensures Inv(r, Apply(r, s, Fire))
  {
    var s' := Apply(r, s, Fire);
    forall k, version: nat, readAt | Guarded(r, s, k, version, readAt) ensures Guarded(r, s', k, version, readAt) {
      forall j | 0 <= j < |s.queue| ensures s.queue[j] in s'.queue + s'.flying {
        if j == 0 {
          assert s'.flying[|s.flying|] == s.queue[0];
        } else {
          assert s'.queue[j - 1] == s.queue[j];
        }
      }
      GuardKept(r, s, s', k, version, readAt);
    }
  }

  /** A delayed delete that takes effect may end the guard of its own key: it then removes what
      is cached there, and every reader of that key it might have guarded is late by now. */
  lemma DelayedDeleteStep(r: Rules, s: State, j: nat, k: Key)
    requires Inv(r, s) && Enabled(r, s, DelayedDelete(j, k))
    ensures Inv(r, Apply(r, s, DelayedDelete(j, k)))
  {
    var s' := Apply(r, s, DelayedDelete(j, k));
    forall x, version: nat, readAt | x != k && Guarded(r, s, x, version, readAt) ensures Guarded(r, s', x, version, readAt) {
      GuardKept(r, s, s', x, version, readAt);
    }
    forall version: nat, readAt | Guarded(r, s, k, version, readAt) && s.now < readAt + r.doubleDelete
      ensures Guarded(r, s', k, version, readAt)
    {
      forall i: nat | version <= i && Done(s', i, k) ensures DeleteOwed(s', k, readAt + r.doubleDelete) {
        assert Done(s, i, k);
        if DeleteRefused(s, k, readAt + r.doubleDelete) {
          StillRefused(s, s', k, readAt + r.doubleDelete);
        } else {
          var q :| 0 <= q < |s.queue| && k in s.queue[q].keys && readAt + r.doubleDelete <= s.queue[q].fireAt;
          assert k in s'.queue[q].keys;
        }
      }
    }
  }

  /** A delayed delete that Redis refuses is owed from then on. */
  lemma RefusedDeleteStep(r: Rules, s: State, j: nat, k: Key)
    requires Inv(r, s) && Enabled(r, s, RefusedDelete(j, k))
    ensures Inv(r, Apply(r, s, RefusedDelete(j, k)))
  {
    var s' := Apply(r, s, RefusedDelete(j, k));
    forall x, version: nat, readAt | Guarded(r, s, x, version, readAt) ensures Guarded(r, s', x, version, readAt) {
      if x != k {
        GuardKept(r, s, s', x, version, readAt);
      } else {
        forall i: nat | version <= i && Done(s', i, k) ensures DeleteOwed(s', k, readAt + r.doubleDelete) {
          assert Done(s, i, k);
          StillOwed(s, s', j, k, readAt + r.doubleDelete);
        }
      }
    }
  }

  lemma StillOwed(s: State, s': State, j: nat, k: Key, t: int)
    requires DeleteOwed(s, k, t) && j < |s.flying| && k in s.flying[j].keys
    requires s'.queue == s.queue && s'.refused == s.refused + [Delete(s.flying[j].fireAt, {k})]
    requires s'.flying == s.flying[j := s.flying[j].(keys := s.flying[j].keys - {k})]
    ensures DeleteOwed(s', k, t)
  {
    if DeleteRefused(s, k, t) {
      StillRefused(s, s', k, t);
    } else if q :| 0 <= q < |s.queue| && k in s.queue[q].keys && t <= s.queue[q].fireAt {
      assert k in s'.queue[q].keys;
    } else {
      var f :| 0 <= f < |s.flying| && k in s.flying[f].keys && t <= s.flying[f].fireAt;
      if f == j {
        assert s'.refused[|s.refused|] == Delete(s.flying[j].fireAt, {k});
        assert k in s'.refused[|s.refused|].keys;
      } else {
        assert k in s'.flying[f].keys;
      }
    }
  }

  lemma BackfillStep(r: Rules, s: State, id: nat, draw: nat)
    requires Inv(r, s) && Enabled(r, s, Backfill(id, draw)) && TimelyStep(r, s, Backfill(id, draw))
    ensures Inv(r, Apply(r, s, Backfill(id, draw)))
  {
    var s' := Apply(r, s, Backfill(id, draw));
    assert ReaderInv(r, s, s.readers[id]);
    forall k, version: nat, readAt | Guarded(r, s, k, version, readAt) ensures Guarded(r, s', k, version, readAt) {
      GuardKept(r, s, s', k, version, readAt);
    }
  }

  lemma ReadersOnly(r: Rules, s: State, e: Step)
    requires Inv(r, s) && Enabled(r, s, e) && (e.Read? || e.Abandon? || e.DirectDelete?)
    ensures Inv(r, Apply(r, s, e))
  {
    var s' := Apply(r, s, e);
    forall k, version: nat, readAt | Guarded(r, s, k, version, readAt) ensures Guarded(r, s', k, version, readAt) {
      GuardKept(r, s, s', k, version, readAt);
    }
  }

  lemma StepInv(r: Rules, s: State, e: Step)
    requires Inv(r, s) && Enabled(r, s, e) && TimelyStep(r, s, e)
    ensures Inv(r, Apply(r, s, e))
  {
    match e
    case Tick(_) => QuietStep(r, s, Apply(r, s, e));
    case Commit(_) => QuietStep(r, s, Apply(r, s, e));
    case Callback(i) => CallbackStep(r, s, i);
    case Invalidate(_) => QuietStep(r, s, Apply(r, s, e));
    case DirectDelete(_) => ReadersOnly(r, s, e);
    case Read(_, _, _) => ReadersOnly(r, s, e);
    case Backfill(id, draw) => BackfillStep(r, s, id, draw);
    case Abandon(_) => ReadersOnly(r, s, e);
    case Fire => FireStep(r, s);
    case DelayedDelete(j, k) => DelayedDeleteStep(r, s, j, k);
    case RefusedDelete(j, k) => RefusedDeleteStep(r, s, j, k);
  }

  lemma {:induction false} RunInv(r: Rules, s: State, es: seq<Step>)
    requires Inv(r, s) && Valid(r, s, es) && Timely(r, s, es)
    ensures Inv(r, Run(r, s, es))
    decreases |es|
  {
    if es != [] {
      StepInv(r, s, es[0]);
      RunInv(r, Apply(r, s, es[0]), es[1..]);
    }
  }

  /** In every state that a timely run reaches: when an order on a key that the mode deletes has
      committed after the read behind the cached value, then either its callback has not run yet,
      or a delayed delete of that key is queued or under way, or Redis has refused one. */
  lemma StaleMeansPending(r: Rules, t0: int, es: seq<Step>, k: Key, i: nat)
    requires Valid(r, Start(t0), es) && Timely(r, Start(t0), es) && Covers(r.mode, k)
    requires var s := Run(r, Start(t0), es);
      k in s.cache && s.cache[k].version <= i < |s.log| && s.log[i].Order? && Affects(s.log[i], k)
    ensures var s := Run(r, Start(t0), es);
      i in s.waiting || DeleteOwed(s, k, s.cache[k].readAt + r.doubleDelete)
  {
    RunInv(r, Start(t0), es);
    var s := Run(r, Start(t0), es);
    assert EntryInv(r, s, k, s.cache[k]);
    assert i in s.waiting || Done(s, i, k);
  }

  /** The database answers change only by changes that touch the key. */
  ghost predicate Honest(r: Rules, log: seq<Change>) {
    forall i, k, limit: nat :: 0 <= i < |log| && !Affects(log[i], k) ==> r.answer(i + 1, k, limit) == r.answer(i, k, limit)
  }

  lemma {:induction false} SameAnswer(r: Rules, log: seq<Change>, k: Key, limit: nat, v: nat, n: nat)
    requires Honest(r, log) && v <= n <= |log|
    requires forall i :: v <= i < n ==> !Affects(log[i], k)
    ensures r.answer(n, k, limit) == r.answer(v, k, limit)
    decreases n
  {
    if v < n {
      SameAnswer(r, log, k, limit, v, n - 1);
    }
  }

  /** The same for what a caller sees: when only orders change the database, a cached value that
      differs from the present answer of the database is about to be deleted. */
  lemma WrongMeansPending(r: Rules, t0: int, es: seq<Step>, k: Key)
    requires Valid(r, Start(t0), es) && Timely(r, Start(t0), es) && Covers(r.mode, k)
    requires var s := Run(r, Start(t0), es);
      && Honest(r, s.log) && (forall i :: 0 <= i < |s.log| ==> s.log[i].Order?)
      && k in s.cache && s.cache[k].value != r.answer(|s.log|, k, s.cache[k].limit)
    ensures var s := Run(r, Start(t0), es);
      || (exists i :: i in s.waiting && s.cache[k].version <= i < |s.log| && Affects(s.log[i], k))
      || DeleteOwed(s, k, s.cache[k].readAt + r.doubleDelete)
  {
    var s := Run(r, Start(t0), es);
    RunBounded(r, Start(t0), es);
    var e := s.cache[k];
    assert EntryBounded(r, s, k, e);
    if forall i :: e.version <= i < |s.log| ==> !Affects(s.log[i], k) {
      SameAnswer(r, s.log, k, e.limit, e.version, |s.log|);
    } else {
      var i :| e.version <= i < |s.log| && Affects(s.log[i], k);
      StaleMeansPending(r, t0, es, k, i);
    }
  }

  /** A read, then an order on its key, its callback, and the clock moved on by the gap. */
  function Opening(k: Key, sku: int, gap: nat): seq<Step> {
    [Read(0, k, 100), Commit(Order(sku)), Callback(0), Tick(gap)]
  }

  function Opened(r: Rules, k: Key, sku: int, gap: nat): State {
    State(gap, [Order(sku)], [0], map[], map[0 := Reader(k, 100, 0, 0)], {},
          if r.doubleDelete == 0 then [] else [Delete(r.doubleDelete, KeySet(OrderKeys(r.mode, sku)))], [], [])
  }

  /** The state after the read and the order. */
  function Ordered(k: Key, sku: int): State {
    State(0, [Order(sku)], [0], map[], map[0 := Reader(k, 100, 0, 0)], {0}, [], [], [])
  }

  lemma OpeningEnd(r: Rules, k: Key, sku: int, gap: nat, tail: seq<Step>)
    requires !r.mode.NoKey? && Valid(r, Opened(r, k, sku, gap), tail)
    ensures var es := [Callback(0)] + ([Tick(gap)] + tail);
      Valid(r, Ordered(k, sku), es) && Run(r, Ordered(k, sku), es) == Run(r, Opened(r, k, sku, gap), tail)
  {
    var s := Ordered(k, sku);
    var s' := Apply(r, s, Callback(0));
    assert OrderKeys(r.mode, sku)[0] in KeySet(OrderKeys(r.mode, sku));
    assert s.waiting - {0} == {};
    assert Apply(r, s', Tick(gap)) == Opened(r, k, sku, gap);
    RunCons(r, s', Tick(gap), tail);
    RunCons(r, s, Callback(0), [Tick(gap)] + tail);
  }

  lemma OpeningRun(r: Rules, k: Key, sku: int, gap: nat, tail: seq<Step>)
    requires !r.mode.NoKey? && Valid(r, Opened(r, k, sku, gap), tail)
    ensures Valid(r, Start(0), Opening(k, sku, gap) + tail)
    ensures Run(r, Start(0), Opening(k, sku, gap) + tail) == Run(r, Opened(r, k, sku, gap), tail)
  {
    var rest := [Callback(0)] + ([Tick(gap)] + tail);
    OpeningEnd(r, k, sku, gap, tail);
    var s1 := Apply(r, Start(0), Read(0, k, 100));
    assert Apply(r, s1, Commit(Order(sku))) == Ordered(k, sku);
    RunCons(r, s1, Commit(Order(sku)), rest);
    RunCons(r, Start(0), Read(0, k, 100), [Commit(Order(sku))] + rest);
    assert Opening(k, sku, gap) + tail == [Read(0, k, 100)] + ([Commit(Order(sku))] + rest);
  }

  /** The entry was filled from a read before the order, and nothing is left that would delete it. */
  ghost predicate LeftStale(s: State, k: Key, sku: int, gap: nat) {
    && k in s.cache && s.cache[k].version == 0 && s.cache[k].setAt == s.cache[k].readAt + gap
    && s.log == [Order(sku)] && s.waiting == {} && s.queue == [] && s.refused == []
    && forall j :: 0 <= j < |s.flying| ==> k !in s.flying[j].keys
  }

  lemma LateTail(r: Rules, k: Key, sku: int, gap: nat) returns (tail: seq<Step>)
    requires Covers(r.mode, k) && Affects(Order(sku), k) && r.doubleDelete <= gap
    requires 0 < BaseTtl(r, k, r.answer(0, k, 100))
    ensures Valid(r, Opened(r, k, sku, gap), tail)
    ensures LeftStale(Run(r, Opened(r, k, sku, gap), tail), k, sku, gap)
  {
    var s4 := Opened(r, k, sku, gap);
    if r.doubleDelete == 0 {
      tail := [Backfill(0, 0)];
      RunOne(r, s4, Backfill(0, 0));
    } else {
      var ks := KeySet(OrderKeys(r.mode, sku));
      assert k in ks by {
        assert OrderKeys(r.mode, sku)[if k.Item? then 0 else 1] == k;
      }
      var s5 := Apply(r, s4, Fire);
      assert s5.flying == [Delete(r.doubleDelete, ks)] && s5.queue == [];
      var s6 := Apply(r, s5, DelayedDelete(0, k));
      assert s6.flying == [Delete(r.doubleDelete, ks - {k})];
      RunOne(r, s6, Backfill(0, 0));
      RunCons(r, s5, DelayedDelete(0, k), [Backfill(0, 0)]);
      RunCons(r, s4, Fire, [DelayedDelete(0, k)] + [Backfill(0, 0)]);
      tail := [Fire] + ([DelayedDelete(0, k)] + [Backfill(0, 0)]);
    }
  }

  /** The bound on the gap is exact: for every key that the mode deletes, every delay, off or on,
      and every gap not below it, there is a run with that gap that leaves a stale entry with no
      callback, no delete to come and none refused. */
  lemma GapBoundExact(r: Rules, k: Key, sku: int, gap: nat) returns (es: seq<Step>)
    requires Covers(r.mode, k) && Affects(Order(sku), k) && r.doubleDelete <= gap
    requires 0 < BaseTtl(r, k, r.answer(0, k, 100))
    ensures Valid(r, Start(0), es)
    ensures var s := Run(r, Start(0), es);
      && k in s.cache && s.cache[k].version == 0 && s.cache[k].setAt == s.cache[k].readAt + gap
      && s.log == [Order(sku)] && s.waiting == {}
      && forall t :: !DeleteOwed(s, k, t)
  {
    var tail := LateTail(r, k, sku, gap);
    OpeningRun(r, k, sku, gap, tail);
    es := Opening(k, sku, gap) + tail;
  }

  lemma RunOne(r: Rules, s: State, e: Step)
    requires Enabled(r, s, e)
    ensures Valid(r, s, [e]) && Run(r, s, [e]) == Apply(r, s, e)
  {
    assert [e][1..] == [];
  }

  lemma RunCons(r: Rules, s: State, e: Step, es: seq<Step>)
    requires Enabled(r, s, e) && Valid(r, Apply(r, s, e), es)
    ensures Valid(r, s, [e] + es) && Run(r, s, [e] + es) == Run(r, Apply(r, s, e), es)
  {
    assert ([e] + es)[1..] == es;
  }

  // ---- Bounded staleness, in every mode ----

  /** After v changes, the database is current at time t. */
  ghost predicate CurrentAt(times: seq<int>, v: nat, t: int) {
    && v <= |times|
    && (v > 0 ==> times[v - 1] <= t)
    && (v < |times| ==> t <= times[v])
  }

  ghost predicate ReaderBounded(s: State, d: Reader) {
    d.readAt <= s.now && CurrentAt(s.times, d.version, d.readAt)
  }

  ghost predicate EntryBounded(r: Rules, s: State, k: Key, e: Entry) {
    && e.value == r.answer(e.version, k, e.limit)
    && CurrentAt(s.times, e.version, e.readAt)
    && e.readAt <= e.setAt <= s.now
    && e.expireAt <= e.setAt + BaseTtl(r, k, e.value) + r.jitter
  }

  ghost predicate Bounded(r: Rules, s: State) {
    && |s.times| == |s.log|
    && (forall i :: 0 <= i < |s.times| ==> s.times[i] <= s.now)
    && (forall id :: id in s.readers ==> ReaderBounded(s, s.readers[id]))
    && (forall k :: k in s.cache ==> EntryBounded(r, s, k, s.cache[k]))
  }

  /** What was current stays so when the clock moves on and changes are added. */
  lemma CurrentStays(s: State, s': State, v: nat, t: int)
    requires CurrentAt(s.times, v, t) && t <= s.now && s.times <= s'.times
    requires forall i :: |s.times| <= i < |s'.times| ==> s.now <= s'.times[i]
    ensures CurrentAt(s'.times, v, t)
  {}

  lemma ReadersStay(r: Rules, s: State, s': State, id: nat)
    requires Bounded(r, s) && id in s.readers && s.now <= s'.now && s.times <= s'.times
    requires forall i :: |s.times| <= i < |s'.times| ==> s.now <= s'.times[i]
    ensures ReaderBounded(s', s.readers[id])
  {
    assert ReaderBounded(s, s.readers[id]);
    CurrentStays(s, s', s.readers[id].version, s.readers[id].readAt);
  }

  lemma EntriesStay(r: Rules, s: State, s': State, k: Key)
    requires Bounded(r, s) && k in s.cache && s.now <= s'.now && s.times <= s'.times
    requires forall i :: |s.times| <= i < |s'.times| ==> s.now <= s'.times[i]
    ensures EntryBounded(r, s', k, s.cache[k])
  {
    assert EntryBounded(r, s, k, s.cache[k]);
    CurrentStays(s, s', s.cache[k].version, s.cache[k].readAt);
  }

  lemma BackfillBounded(r: Rules, s: State, id: nat, draw: nat)
    requires Bounded(r, s) && Enabled(r, s, Backfill(id, draw))
    ensures Bounded(r, Apply(r, s, Backfill(id, draw)))
  {
    var s' := Apply(r, s, Backfill(id, draw));
    assert ReaderBounded(s, s.readers[id]);
    forall x | x in s'.readers ensures ReaderBounded(s', s'.readers[x]) {
      ReadersStay(r, s, s', x);
    }
    forall k | k in s'.cache ensures EntryBounded(r, s', k, s'.cache[k]) {
      if k in s.cache && s'.cache[k] == s.cache[k] {
        EntriesStay(r, s, s', k);
      }
    }
  }

  lemma StepBounded(r: Rules, s: State, e: Step)
    requires Bounded(r, s) && Enabled(r, s, e)
    ensures Bounded(r, Apply(r, s, e))
  {
    if e.Backfill? {
      BackfillBounded(r, s, e.id, e.draw);
    } else {
      OtherBounded(r, s, e);
    }
  }

  lemma OtherBounded(r: Rules, s: State, e: Step)
    requires Bounded(r, s) && Enabled(r, s, e) && !e.Backfill?
    ensures Bounded(r, Apply(r, s, e))
  {
    var s' := Apply(r, s, e);
    forall x | x in s'.readers ensures ReaderBounded(s', s'.readers[x]) {
      if x in s.readers {
        ReadersStay(r, s, s', x);
      }
    }
    forall k | k in s'.cache ensures EntryBounded(r, s', k, s'.cache[k]) {
      EntriesStay(r, s, s', k);
    }
  }

  lemma {:induction false} RunBounded(r: Rules, s: State, es: seq<Step>)
    requires Bounded(r, s) && Valid(r, s, es)
    ensures Bounded(r, Run(r, s, es))
    decreases |es|
  {
    if es != [] {
      StepBounded(r, s, es[0]);
      RunBounded(r, Apply(r, s, es[0]), es[1..]);
    }
  }

  /** In every run, whatever the mode, the double delete, the gaps and the outside changes: a
      cached value that is still served, the null sentinel included, is what the database
      answered at some instant less than base lifetime, jitter and its own write-back delay ago. */
  lemma BoundedStaleness(r: Rules, t0: int, es: seq<Step>, k: Key) returns (instant: int, version: nat)
    requires Valid(r, Start(t0), es)
    requires var s := Run(r, Start(t0), es); k in s.cache && s.now < s.cache[k].expireAt
    ensures var s := Run(r, Start(t0), es);
      var e := s.cache[k];
      && instant == e.readAt <= e.setAt && e.value == r.answer(version, k, e.limit) && CurrentAt(s.times, version, instant)
      && instant <= s.now
      && s.now < e.setAt + r.jitter + (if k.List? then r.listTtl else if e.value == None then r.nullTtl else r.detailTtl)
  {
    RunBounded(r, Start(t0), es);
    var s := Run(r, Start(t0), es);
    assert EntryBounded(r, s, k, s.cache[k]);
    instant, version := s.cache[k].readAt, s.cache[k].version;
  }
}
