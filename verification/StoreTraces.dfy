/** What a lookup finds after any sequence of cache operations: the last write to its key, while it
    lives, and nothing else. */
module StoreTraces {
  import opened Wrappers
  import opened Base64Url
  import opened CStrings
  import opened LruSpec
  import opened TwoLevel

  function StoreRun(s: Store, ops: seq<CacheOp>): Store
    decreases |ops|
  {
    if ops == [] then s else StoreRun(StoreAfter(s, ops[0]), ops[1..])
  }

  function LevelsRun(l: Levels, cap: nat, ops: seq<CacheOp>): Levels
    decreases |ops|
  {
    if ops == [] then l else LevelsRun(LevelsAfter(l, cap, ops[0]), cap, ops[1..])
  }

  /** The operation changes what Redis holds under the key: a SETEX that Redis accepts, or a DEL. */
  predicate Writes(op: CacheOp, k: bytes) {
    Sent(op.key) == Sent(k) && (op.Del? || (op.Setex? && op.ttl > 0))
  }

  datatype Place = Nowhere | At(index: nat)

  /** The last operation that does. */
  function LastWrite(ops: seq<CacheOp>, k: bytes): Place {
    if ops == [] then Nowhere
    else
      var n := |ops| - 1;
      if Writes(ops[n], k) then At(n) else LastWrite(ops[..n], k)
  }

  lemma {:induction false} LastWriteMeans(ops: seq<CacheOp>, k: bytes)
    ensures match LastWrite(ops, k)
      case Nowhere => forall i :: 0 <= i < |ops| ==> !Writes(ops[i], k)
      case At(i) => i < |ops| && Writes(ops[i], k) && forall j :: i < j < |ops| ==> !Writes(ops[j], k)
  {
    if ops != [] {
      var n := |ops| - 1;
      LastWriteMeans(ops[..n], k);
      assert forall i :: 0 <= i < n ==> ops[..n][i] == ops[i];
    }
  }

  /** What Redis holds under a key: nothing, or a text with its end. */
  function Held(s: Store, k: bytes): Option<Entry> { if Sent(k) in s then Some(s[Sent(k)]) else None }

  lemma StepHeld(s: Store, op: CacheOp, k: bytes)
    ensures Held(StoreAfter(s, op), k) ==
      if !Writes(op, k) then Held(s, k) else if op.Del? then None else Some(Entry(Sent(op.value), op.now + op.ttl))
  {}

  lemma {:induction false} StoreRunSnoc(s: Store, ops: seq<CacheOp>)
    requires ops != []
    ensures StoreRun(s, ops) == StoreAfter(StoreRun(s, ops[..|ops| - 1]), ops[|ops| - 1])
    decreases |ops|
  {
    if |ops| == 1 {
      assert ops[1..] == [] && ops[..0] == [];
    } else {
      assert ops[..|ops| - 1][1..] == ops[1..][..|ops| - 2];
      StoreRunSnoc(StoreAfter(s, ops[0]), ops[1..]);
    }
  }

  lemma {:induction false} RunHeld(s: Store, ops: seq<CacheOp>, k: bytes)
    ensures match LastWrite(ops, k)
      case Nowhere => Held(StoreRun(s, ops), k) == Held(s, k)
      case At(i) =>
        && i < |ops| && Writes(ops[i], k)
        && Held(StoreRun(s, ops), k)
           == if ops[i].Del? then None else Some(Entry(Sent(ops[i].value), ops[i].now + ops[i].ttl))
    decreases |ops|
  {
    if ops != [] {
      var n := |ops| - 1;
      RunHeld(s, ops[..n], k);
      StoreRunSnoc(s, ops);
      StepHeld(StoreRun(s, ops[..n]), ops[n], k);
    }
  }

  /** The lookup of a key at a time, after any operations on any store: it finds the text v if and
      only if v is not empty and the last operation that wrote its Redis key was a SETEX of it whose
      lifetime is not over, or there was none and the store had v from the start, not yet expired. */
  lemma LookupExact(s: Store, ops: seq<CacheOp>, k: bytes, now: int, v: bytes)
    ensures StoreGet(StoreRun(s, ops), k, now) == Some(v) <==>
      && v != []
      && match LastWrite(ops, k)
         case Nowhere => Sent(k) in s && s[Sent(k)].value == v && now < s[Sent(k)].expireAt
         case At(i) =>
           i < |ops| && ops[i].Setex? && Sent(ops[i].value) == v && now < ops[i].now + ops[i].ttl
  {
    RunHeld(s, ops, k);
  }

  // ---- Through both levels ----

  lemma {:induction false} LevelsStore(l: Levels, cap: nat, ops: seq<CacheOp>)
    ensures LevelsRun(l, cap, ops).store == StoreRun(l.store, ops)
    decreases |ops|
  {
    if ops != [] {
      LevelsStore(LevelsAfter(l, cap, ops[0]), cap, ops[1..]);
    }
  }

  ghost predicate Upto(ops: seq<CacheOp>, now: int) { forall i :: 0 <= i < |ops| ==> ops[i].now <= now }

  lemma {:induction false} RunCoherent(l: Levels, cap: nat, now: int, ops: seq<CacheOp>, keys: set<bytes>, end: int)
    requires 0 < cap && Coherent(l, cap, now, keys) && Monotone(now, ops) && Apart(keys) && Proper(ops, keys)
    requires now <= end && Upto(ops, end)
    ensures Coherent(LevelsRun(l, cap, ops), cap, end, keys)
    decreases |ops|
  {
    if ops != [] {
      assert Coherent(l, cap, ops[0].now, keys);
      match ops[0] {
        case Get(k, t) => GetCoherent(l, cap, k, t, keys);
        case Setex(k, v, ttl, t) => SetexCoherent(l, cap, k, v, ttl, t, keys);
        case Del(k, t) => DelCoherent(l, cap, k, t, keys);
      }
      RunCoherent(LevelsAfter(l, cap, ops[0]), cap, ops[0].now, ops[1..], keys, end);
    }
  }

  /** The same through the local level and Redis together: from the end of the lifetime on, and
      after a delete, the lookup finds nothing, and until then the last text that was written. */
  lemma LookupThroughBoth(s: Store, cap: nat, now: int, ops: seq<CacheOp>, keys: set<bytes>, k: bytes, end: int, v: bytes)
    requires 0 < cap && Monotone(now, ops) && Apart(keys) && Proper(ops, keys) && k in keys
    requires now <= end && Upto(ops, end)
    ensures LevelsGet(LevelsRun(Levels([], s), cap, ops), k, end) == Some(v) <==>
      && v != []
      && match LastWrite(ops, k)
         case Nowhere => Sent(k) in s && s[Sent(k)].value == v && end < s[Sent(k)].expireAt
         case At(i) => i < |ops| && ops[i].Setex? && ops[i].value == v && end < ops[i].now + ops[i].ttl
  {
    var l := LevelsRun(Levels([], s), cap, ops);
    RunCoherent(Levels([], s), cap, now, ops, keys, end);
    GetCoherent(l, cap, k, end, keys);
    LevelsStore(Levels([], s), cap, ops);
    LookupExact(s, ops, k, end, v);
    LastWriteMeans(ops, k);
    if LastWrite(ops, k).At? && ops[LastWrite(ops, k).index].Setex? {
      CutExact(ops[LastWrite(ops, k).index].value, 0);
    }
  }
}
