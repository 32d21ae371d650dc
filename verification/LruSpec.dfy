/** What the local cache is: an association list in order of recency, most recent first. */
module LruSpec {
  import opened Wrappers

  datatype Item<K, V> = Item(key: K, value: V, expireAt: int)

  type Items<K, V> = seq<Item<K, V>>

  // ---- Lookup and removal ----

  predicate Has<K(==), V>(l: Items<K, V>, k: K) { l != [] && (l[0].key == k || Has(l[1..], k)) }

  function Lookup<K(==), V>(l: Items<K, V>, k: K): Item<K, V>
    requires Has(l, k)
  {
    if l[0].key == k then l[0] else Lookup(l[1..], k)
  }

  function Erase<K(==), V>(l: Items<K, V>, k: K): Items<K, V> {
    if l == [] then [] else if l[0].key == k then l[1..] else [l[0]] + Erase(l[1..], k)
  }

  ghost predicate Unique<K, V>(l: Items<K, V>) {
    forall i, j :: 0 <= i < j < |l| ==> l[i].key != l[j].key
  }

  // ---- The three operations ----

  /** A hit moves to the front; an expired entry is dropped; a miss changes nothing. */
  function AfterGet<K(==), V>(l: Items<K, V>, k: K, now: int): Items<K, V> {
    if !Has(l, k) then l
    else if now >= Lookup(l, k).expireAt then Erase(l, k)
    else [Lookup(l, k)] + Erase(l, k)
  }

  function Hit<K(==), V>(l: Items<K, V>, k: K, now: int): Option<V> {
    if Has(l, k) && now < Lookup(l, k).expireAt then Some(Lookup(l, k).value) else None
  }

  /** A written entry goes to the front; only a new one can push the last entry out. */
  function AfterPut<K(==), V>(l: Items<K, V>, cap: nat, k: K, v: V, expireAt: int): Items<K, V> {
    var front := [Item(k, v, expireAt)] + Erase(l, k);
    if !Has(l, k) && |front| > cap then front[..|front| - 1] else front
  }

  function AfterDel<K(==), V>(l: Items<K, V>, k: K): Items<K, V> { Erase(l, k) }

  // ---- Facts about lookup and removal ----

  lemma {:induction false} HasAt<K, V>(l: Items<K, V>, k: K)
    ensures Has(l, k) <==> exists i :: 0 <= i < |l| && l[i].key == k
    ensures Has(l, k) ==> Lookup(l, k) in l && Lookup(l, k).key == k
  {
    if l != [] {
      HasAt(l[1..], k);
      if l[0].key != k && exists i :: 0 <= i < |l| && l[i].key == k {
        var i :| 0 <= i < |l| && l[i].key == k;
        assert l[1..][i - 1].key == k;
      }
    }
  }

  lemma {:induction false} EraseAt<K, V>(l: Items<K, V>, i: nat)
    requires i < |l| && Unique(l)
    ensures Has(l, l[i].key) && Lookup(l, l[i].key) == l[i]
    ensures Erase(l, l[i].key) == l[..i] + l[i + 1..]
  {
    if i > 0 {
      var t := l[1..];
      assert t[i - 1] == l[i];
      forall a, b | 0 <= a < b < |t| ensures t[a].key != t[b].key {
        assert t[a] == l[a + 1] && t[b] == l[b + 1];
      }
      EraseAt(t, i - 1);
      assert l[0].key != l[i].key;
      assert [l[0]] + (t[..i - 1] + t[i..]) == l[..i] + l[i + 1..];
    }
  }

  lemma {:induction false} EraseMiss<K, V>(l: Items<K, V>, k: K)
    requires !Has(l, k)
    ensures Erase(l, k) == l
  {
    if l != [] {
      EraseMiss(l[1..], k);
    }
  }

  lemma {:induction false} HasErase<K, V>(l: Items<K, V>, k: K, x: K)
    requires Unique(l)
    ensures Has(Erase(l, k), x) <==> Has(l, x) && x != k
    ensures Has(l, x) && x != k ==> Lookup(Erase(l, k), x) == Lookup(l, x)
    ensures |Erase(l, k)| == |l| - (if Has(l, k) then 1 else 0)
    ensures Unique(Erase(l, k))
  {
    if l != [] {
      UniqueTail(l);
      HasErase(l[1..], k, x);
      HasAt(l[1..], l[0].key);
      HasErase(l[1..], k, l[0].key);
      if l[0].key != k {
        UniqueCons(l[0], Erase(l[1..], k));
      }
    }
  }

  lemma UniqueTail<K, V>(l: Items<K, V>)
    requires l != [] && Unique(l)
    ensures Unique(l[1..]) && !Has(l[1..], l[0].key)
  {
    var t := l[1..];
    forall a, b | 0 <= a < b < |t| ensures t[a].key != t[b].key {
      assert t[a] == l[a + 1] && t[b] == l[b + 1];
    }
    HasAt(t, l[0].key);
    forall i | 0 <= i < |t| ensures t[i].key != l[0].key {
      assert t[i] == l[i + 1];
    }
  }

  lemma UniqueCons<K, V>(x: Item<K, V>, l: Items<K, V>)
    requires Unique(l) && !Has(l, x.key)
    ensures Unique([x] + l)
  {
    HasAt(l, x.key);
  }

  // ---- What every operation keeps ----

  ghost predicate Sane<K, V>(l: Items<K, V>, cap: nat) { Unique(l) && |l| <= cap }

  /** Keys stay unique and the size stays within the capacity; the key just written is in
      front with what was written, so it is never its own victim. */
  lemma PutKeeps<K, V>(l: Items<K, V>, cap: nat, k: K, v: V, expireAt: int)
    requires Sane(l, cap) && 0 < cap
    ensures Sane(AfterPut(l, cap, k, v, expireAt), cap)
    ensures AfterPut(l, cap, k, v, expireAt) != [] && AfterPut(l, cap, k, v, expireAt)[0] == Item(k, v, expireAt)
  {
    HasErase(l, k, k);
    UniqueCons(Item(k, v, expireAt), Erase(l, k));
  }

  lemma GetKeeps<K, V>(l: Items<K, V>, cap: nat, k: K, now: int)
    requires Sane(l, cap)
    ensures Sane(AfterGet(l, k, now), cap)
  {
    HasErase(l, k, k);
    if Has(l, k) {
      HasAt(l, k);
      UniqueCons(Lookup(l, k), Erase(l, k));
    }
  }

  lemma DelKeeps<K, V>(l: Items<K, V>, cap: nat, k: K)
    requires Sane(l, cap)
    ensures Sane(AfterDel(l, k), cap) && !Has(AfterDel(l, k), k)
  {
    HasErase(l, k, k);
  }
}
