/** Whole runs of the local cache: a larger capacity only ever adds hits, and a recently used
    entry is safe while fewer distinct other keys than the capacity are touched. */
module LruTraces {
  import opened Wrappers
  import opened LruSpec

  /** An operation with the clock reading it uses; a put carries the expiry it computed. */
  datatype Op<K, V> = Get(key: K, now: int) | Put(key: K, value: V, expireAt: int) | Del(key: K)

  function After<K(==), V>(l: Items<K, V>, cap: nat, op: Op<K, V>): Items<K, V> {
    match op
    case Get(k, now) => AfterGet(l, k, now)
    case Put(k, v, e) => AfterPut(l, cap, k, v, e)
    case Del(k) => AfterDel(l, k)
  }

  /** What the caller of the operation sees. */
  function Answer<K(==), V>(l: Items<K, V>, op: Op<K, V>): Option<V> {
    if op.Get? then Hit(l, op.key, op.now) else None
  }

  function Run<K(==), V>(l: Items<K, V>, cap: nat, ops: seq<Op<K, V>>): Items<K, V>
    decreases |ops|
  {
    if ops == [] then l else Run(After(l, cap, ops[0]), cap, ops[1..])
  }

  function Answers<K(==), V>(l: Items<K, V>, cap: nat, ops: seq<Op<K, V>>): (r: seq<Option<V>>)
    ensures |r| == |ops|
    decreases |ops|
  {
    if ops == [] then [] else [Answer(l, ops[0])] + Answers(After(l, cap, ops[0]), cap, ops[1..])
  }

  lemma AfterKeeps<K, V>(l: Items<K, V>, cap: nat, op: Op<K, V>)
    requires Sane(l, cap) && 0 < cap
    ensures Sane(After(l, cap, op), cap)
  {
    match op
    case Get(k, now) => GetKeeps(l, cap, k, now);
    case Put(k, v, e) => PutKeeps(l, cap, k, v, e);
    case Del(k) => DelKeeps(l, cap, k);
  }

  // ---- Inclusion ----

  /** a can be read off b from left to right. */
  ghost predicate Sub<K, V>(a: Items<K, V>, b: Items<K, V>) {
    a == [] || (b != [] && ((a[0] == b[0] && Sub(a[1..], b[1..])) || Sub(a, b[1..])))
  }

  lemma {:induction false} SubHas<K, V>(a: Items<K, V>, b: Items<K, V>, k: K)
    requires Sub(a, b) && Unique(b)
    ensures Has(a, k) ==> Has(b, k) && Lookup(a, k) == Lookup(b, k)
    decreases |a| + |b|
  {
    if a != [] {
      UniqueTail(b);
      if a[0] == b[0] && Sub(a[1..], b[1..]) {
        SubHas(a[1..], b[1..], k);
      } else {
        SubHas(a, b[1..], k);
      }
    }
  }

  lemma {:induction false} SubErase<K, V>(a: Items<K, V>, b: Items<K, V>, k: K)
    requires Sub(a, b) && Unique(b)
    ensures Sub(Erase(a, k), Erase(b, k))
    decreases |a| + |b|
  {
    if a != [] {
      UniqueTail(b);
      if a[0] == b[0] && Sub(a[1..], b[1..]) {
        SubErase(a[1..], b[1..], k);
        if b[0].key != k {
          SubCons(b[0], Erase(a[1..], k), Erase(b[1..], k));
        }
      } else {
        SubErase(a, b[1..], k);
        if b[0].key == k {
          SubHas(a, b[1..], k);
          EraseMiss(a, k);
        } else {
          SubSkip(b[0], Erase(a, k), Erase(b[1..], k));
        }
      }
    }
  }

  lemma SubCons<K, V>(x: Item<K, V>, a: Items<K, V>, b: Items<K, V>)
    requires Sub(a, b)
    ensures Sub([x] + a, [x] + b)
  {
    assert ([x] + a)[1..] == a && ([x] + b)[1..] == b;
  }

  lemma SubSkip<K, V>(x: Item<K, V>, a: Items<K, V>, b: Items<K, V>)
    requires Sub(a, b)
    ensures Sub(a, [x] + b)
  {
    assert ([x] + b)[1..] == b;
  }

  lemma {:induction false} SubShort<K, V>(a: Items<K, V>, b: Items<K, V>)
    requires Sub(a, b)
    ensures |a| <= |b|
    ensures |a| == |b| ==> a == b
    decreases |a| + |b|
  {
    if a != [] {
      if a[0] == b[0] && Sub(a[1..], b[1..]) {
        SubShort(a[1..], b[1..]);
      } else {
        SubShort(a, b[1..]);
      }
    }
  }

  /** Dropping the last entry of both, or only of the shorter list, keeps the inclusion. */
  lemma {:induction false} SubFront<K, V>(a: Items<K, V>, b: Items<K, V>)
    requires Sub(a, b) && a != []
    ensures Sub(a[..|a| - 1], b) && Sub(a[..|a| - 1], b[..|b| - 1])
    decreases |a| + |b|
  {
    SubShort(a, b);
    var a', b' := a[..|a| - 1], b[..|b| - 1];
    if a[0] == b[0] && Sub(a[1..], b[1..]) {
      if |a| > 1 {
        SubFront(a[1..], b[1..]);
        SubShort(a[1..], b[1..]);
        assert a'[1..] == a[1..][..|a| - 2] && b'[1..] == b[1..][..|b| - 2];
      }
    } else {
      SubFront(a, b[1..]);
      SubShort(a, b[1..]);
      assert b'[1..] == b[1..][..|b| - 2];
    }
  }

  /** The relation between a small and a large cache after the same operations. */
  ghost predicate Included<K, V>(s: Items<K, V>, c: nat, l: Items<K, V>, C: nat) {
    && Sane(s, c) && Sane(l, C)
    && Sub(s, l)
    && |l| - |s| <= C - c
  }

  lemma GetInclusion<K, V>(s: Items<K, V>, c: nat, l: Items<K, V>, C: nat, k: K, now: int)
    requires Included(s, c, l, C)
    ensures Included(AfterGet(s, k, now), c, AfterGet(l, k, now), C)
    ensures Hit(s, k, now).Some? ==> Hit(l, k, now) == Hit(s, k, now)
  {
    GetKeeps(s, c, k, now);
    GetKeeps(l, C, k, now);
    SubHas(s, l, k);
    SubErase(s, l, k);
    HasErase(s, k, k);
    HasErase(l, k, k);
    if !Has(s, k) {
      EraseMiss(s, k);
      if Has(l, k) && now < Lookup(l, k).expireAt {
        SubSkip(Lookup(l, k), s, Erase(l, k));
      }
    } else if now < Lookup(l, k).expireAt {
      SubCons(Lookup(l, k), Erase(s, k), Erase(l, k));
    }
  }

  lemma PutInclusion<K, V>(s: Items<K, V>, c: nat, l: Items<K, V>, C: nat, k: K, v: V, e: int)
    requires Included(s, c, l, C) && 0 < c <= C
    ensures Included(AfterPut(s, c, k, v, e), c, AfterPut(l, C, k, v, e), C)
  {
    PutKeeps(s, c, k, v, e);
    PutKeeps(l, C, k, v, e);
    SubHas(s, l, k);
    SubErase(s, l, k);
    HasErase(s, k, k);
    HasErase(l, k, k);
    var x := Item(k, v, e);
    SubCons(x, Erase(s, k), Erase(l, k));
    SubFront([x] + Erase(s, k), [x] + Erase(l, k));
  }

  lemma StepInclusion<K, V>(s: Items<K, V>, c: nat, l: Items<K, V>, C: nat, op: Op<K, V>)
    requires Included(s, c, l, C) && 0 < c <= C
    ensures Included(After(s, c, op), c, After(l, C, op), C)
    ensures Answer(s, op).Some? ==> Answer(l, op) == Answer(s, op)
  {
    match op
    case Get(k, now) => GetInclusion(s, c, l, C, k, now);
    case Put(k, v, e) => PutInclusion(s, c, l, C, k, v, e);
    case Del(k) =>
      DelKeeps(s, c, k);
      DelKeeps(l, C, k);
      SubErase(s, l, k);
      SubHas(s, l, k);
      HasErase(s, k, k);
      HasErase(l, k, k);
  }

  lemma {:induction false} RunInclusion<K, V>(s: Items<K, V>, c: nat, l: Items<K, V>, C: nat, ops: seq<Op<K, V>>)
    requires Included(s, c, l, C) && 0 < c <= C
    ensures Included(Run(s, c, ops), c, Run(l, C, ops), C)
    ensures forall i :: 0 <= i < |ops| && Answers(s, c, ops)[i].Some? ==> Answers(l, C, ops)[i] == Answers(s, c, ops)[i]
    decreases |ops|
  {
    if ops != [] {
      StepInclusion(s, c, l, C, ops[0]);
      RunInclusion(After(s, c, ops[0]), c, After(l, C, ops[0]), C, ops[1..]);
    }
  }

  /** On every trace, with any clock readings: the smaller cache's list is a subsequence of the
      larger one's, and each of its hits is a hit with the same value there. */
  lemma LruInclusion<K, V>(c: nat, C: nat, ops: seq<Op<K, V>>)
    requires 0 < c <= C
    ensures Sub(Run([], c, ops), Run([], C, ops))
    ensures forall i :: 0 <= i < |ops| && Answers([], c, ops)[i].Some? ==> Answers([], C, ops)[i] == Answers([], c, ops)[i]
  {
    RunInclusion([], c, [], C, ops);
  }

  // ---- Survival ----

  /** The keys that a trace puts or hits. */
  ghost function Touched<K, V>(l: Items<K, V>, cap: nat, ops: seq<Op<K, V>>): set<K>
    decreases |ops|
  {
    if ops == [] then {}
    else (if ops[0].Put? || Answer(l, ops[0]).Some? then {ops[0].key} else {}) + Touched(After(l, cap, ops[0]), cap, ops[1..])
  }

  /** x stands in the list behind entries whose keys all lie in u. */
  ghost predicate Behind<K, V>(l: Items<K, V>, x: Item<K, V>, u: set<K>) {
    exists p :: 0 <= p < |l| && l[p] == x && forall i :: 0 <= i < p ==> l[i].key in u
  }

  lemma {:induction false} DistinctKeysFit<K, V>(l: Items<K, V>, p: nat, u: set<K>)
    requires p <= |l| && Unique(l) && forall i :: 0 <= i < p ==> l[i].key in u
    ensures p <= |u|
    decreases p
  {
    if p > 0 {
      var k := l[p - 1].key;
      DistinctKeysFit(l, p - 1, u - {k});
    }
  }

  lemma BehindGap<K, V>(l: Items<K, V>, j: nat, p: nat, x: Item<K, V>, u: set<K>)
    requires j < |l| && p < |l| && p != j && l[p] == x && forall i :: 0 <= i < p ==> l[i].key in u
    ensures Behind(l[..j] + l[j + 1..], x, u)
  {
    var m, q := l[..j] + l[j + 1..], if j < p then p - 1 else p;
    assert m[q] == x;
    forall i | 0 <= i < q ensures m[i].key in u {
      assert m[i] == if i < j then l[i] else l[i + 1];
    }
  }

  lemma BehindErase<K, V>(l: Items<K, V>, x: Item<K, V>, u: set<K>, k: K)
    requires Unique(l) && Behind(l, x, u) && k != x.key
    ensures Behind(Erase(l, k), x, u)
  {
    var p :| 0 <= p < |l| && l[p] == x && forall i :: 0 <= i < p ==> l[i].key in u;
    HasAt(l, k);
    if !Has(l, k) {
      EraseMiss(l, k);
    } else {
      var j :| 0 <= j < |l| && l[j].key == k;
      EraseAt(l, j);
      BehindGap(l, j, p, x, u);
    }
  }

  lemma BehindCons<K, V>(l: Items<K, V>, x: Item<K, V>, u: set<K>, y: Item<K, V>)
    requires Behind(l, x, u) && y.key in u
    ensures Behind([y] + l, x, u)
  {
    var p :| 0 <= p < |l| && l[p] == x && forall i :: 0 <= i < p ==> l[i].key in u;
    var m := [y] + l;
    assert m[p + 1] == x;
    forall i | 0 <= i < p + 1 ensures m[i].key in u {
      if i > 0 { assert m[i] == l[i - 1]; }
    }
  }

  lemma BehindFront<K, V>(l: Items<K, V>, x: Item<K, V>, u: set<K>)
    requires Unique(l) && Behind(l, x, u) && |u| + 1 < |l|
    ensures Behind(l[..|l| - 1], x, u)
  {
    var p :| 0 <= p < |l| && l[p] == x && forall i :: 0 <= i < p ==> l[i].key in u;
    DistinctKeysFit(l, p, u);
    assert l[..|l| - 1][p] == x;
  }

  lemma StepBehind<K, V>(l: Items<K, V>, cap: nat, op: Op<K, V>, x: Item<K, V>, u: set<K>)
    requires Sane(l, cap) && Behind(l, x, u) && |u| < cap && op.key != x.key
    requires op.Put? || Answer(l, op).Some? ==> op.key in u
    ensures Behind(After(l, cap, op), x, u)
  {
    BehindErase(l, x, u, op.key);
    match op
    case Get(k, now) =>
      if Has(l, k) {
        HasAt(l, k);
        if now < Lookup(l, k).expireAt {
          BehindCons(Erase(l, k), x, u, Lookup(l, k));
        }
      }
    case Put(k, v, e) =>
      var y := Item(k, v, e);
      BehindCons(Erase(l, k), x, u, y);
      HasErase(l, k, k);
      UniqueCons(y, Erase(l, k));
      if !Has(l, k) && |Erase(l, k)| + 1 > cap {
        BehindFront([y] + Erase(l, k), x, u);
      }
    case Del(k) =>
  }

  lemma {:induction false} RunBehind<K, V>(l: Items<K, V>, cap: nat, ops: seq<Op<K, V>>, x: Item<K, V>, u: set<K>)
    requires Sane(l, cap) && Behind(l, x, u) && |u| < cap
    requires forall i :: 0 <= i < |ops| ==> ops[i].key != x.key
    requires Touched(l, cap, ops) <= u
    ensures Behind(Run(l, cap, ops), x, u)
    decreases |ops|
  {
    if ops != [] {
      StepBehind(l, cap, ops[0], x, u);
      AfterKeeps(l, cap, ops[0]);
      RunBehind(After(l, cap, ops[0]), cap, ops[1..], x, u);
    }
  }

  /** After its last touch an entry survives every trace that leaves its key alone and puts or
      hits fewer distinct other keys than the capacity; a later get before its expiry hits. The
      induction over the trace is that of `RunBehind`, so none is wanted here. */
  lemma {:induction false} RecentSurvives<K, V>(l: Items<K, V>, cap: nat, ops: seq<Op<K, V>>, now: int)
    requires Sane(l, cap) && l != [] && now < l[0].expireAt
    requires forall i :: 0 <= i < |ops| ==> ops[i].key != l[0].key
    requires |Touched(l, cap, ops)| < cap
    ensures Hit(Run(l, cap, ops), l[0].key, now) == Some(l[0].value)
  {
    var x, u := l[0], Touched(l, cap, ops);
    assert l[0] == x;
    RunBehind(l, cap, ops, x, u);
    var m := Run(l, cap, ops);
    var p :| 0 <= p < |m| && m[p] == x && forall i :: 0 <= i < p ==> m[i].key in u;
    RunKeeps(l, cap, ops);
    EraseAt(m, p);
  }

  lemma {:induction false} RunKeeps<K, V>(l: Items<K, V>, cap: nat, ops: seq<Op<K, V>>)
    requires Sane(l, cap) && 0 < cap
    ensures Sane(Run(l, cap, ops), cap)
    decreases |ops|
  {
    if ops != [] {
      AfterKeeps(l, cap, ops[0]);
      RunKeeps(After(l, cap, ops[0]), cap, ops[1..]);
    }
  }
}
