/** The local cache as the program holds it: a list of nodes, most recent first, and a hash
    table from keys to nodes of that list. Nodes keep their identity while they move. */
module LocalLru {
  import opened Wrappers
  import opened LruSpec

  // ---- The two structures as values ----

  /** Nodes and table name each other. */
  ghost predicate Keyed<K, V>(nodes: map<nat, Item<K, V>>, table: map<K, nat>) {
    && (forall n :: n in nodes ==> nodes[n].key in table && table[nodes[n].key] == n)
    && (forall k :: k in table ==> table[k] in nodes && nodes[table[k]].key == k)
  }

  ghost predicate NoDup(l: seq<nat>) { l == [] || (l[0] !in l[1..] && NoDup(l[1..])) }

  /** List and table describe the same nodes: exactly the live ones, each listed once. */
  ghost predicate Linked<K, V>(list: seq<nat>, nodes: map<nat, Item<K, V>>, table: map<K, nat>, unused: nat) {
    && NoDup(list)
    && (forall n :: n in list <==> n in nodes)
    && (forall n :: n in nodes ==> n < unused)
    && Keyed(nodes, table)
  }

  /** The association list that the two structures stand for. */
  ghost function Deref<K, V>(list: seq<nat>, nodes: map<nat, Item<K, V>>): (l: Items<K, V>)
    requires forall n :: n in list ==> n in nodes
    ensures |l| == |list|
  {
    if list == [] then [] else [nodes[list[0]]] + Deref(list[1..], nodes)
  }

  lemma {:induction false} DerefFrame<K, V>(list: seq<nat>, nodes: map<nat, Item<K, V>>, nodes': map<nat, Item<K, V>>)
    requires forall n :: n in list ==> n in nodes && n in nodes' && nodes[n] == nodes'[n]
    ensures Deref(list, nodes) == Deref(list, nodes')
  {
    if list != [] {
      DerefFrame(list[1..], nodes, nodes');
    }
  }

  /** A listed node is found under its key. */
  lemma {:induction false} DerefFinds<K, V>(list: seq<nat>, nodes: map<nat, Item<K, V>>, table: map<K, nat>, n: nat)
    requires Keyed(nodes, table) && n in list && forall m :: m in list ==> m in nodes
    ensures Has(Deref(list, nodes), nodes[n].key) && Lookup(Deref(list, nodes), nodes[n].key) == nodes[n]
  {
    if list[0] != n {
      DerefFinds(list[1..], nodes, table, n);
    }
  }

  lemma {:induction false} DerefMisses<K, V>(list: seq<nat>, nodes: map<nat, Item<K, V>>, k: K)
    requires forall m :: m in list ==> m in nodes && nodes[m].key != k
    ensures !Has(Deref(list, nodes), k) && Erase(Deref(list, nodes), k) == Deref(list, nodes)
  {
    if list != [] {
      DerefMisses(list[1..], nodes, k);
    }
  }

  /** Takes a node out of the list: `list_.erase`. */
  function Unlink(l: seq<nat>, n: nat): seq<nat> {
    if l == [] then [] else if l[0] == n then l[1..] else [l[0]] + Unlink(l[1..], n)
  }

  lemma {:induction false} UnlinkDistinct(l: seq<nat>, n: nat)
    requires NoDup(l) && n in l
    ensures NoDup(Unlink(l, n)) && |Unlink(l, n)| == |l| - 1
    ensures forall m :: m in Unlink(l, n) <==> m in l && m != n
  {
    if l[0] != n {
      UnlinkDistinct(l[1..], n);
      assert ([l[0]] + Unlink(l[1..], n))[1..] == Unlink(l[1..], n);
    }
  }

  /** Taking a node out of the list erases its key from the association list. */
  lemma {:induction false} DerefUnlink<K, V>(list: seq<nat>, nodes: map<nat, Item<K, V>>, table: map<K, nat>, n: nat)
    requires Keyed(nodes, table) && n in list && NoDup(list) && forall m :: m in list ==> m in nodes
    ensures forall m :: m in Unlink(list, n) ==> m in nodes
    ensures Deref(Unlink(list, n), nodes) == Erase(Deref(list, nodes), nodes[n].key)
  {
    if list[0] != n {
      DerefUnlink(list[1..], nodes, table, n);
      var rest := Unlink(list[1..], n);
      assert ([list[0]] + rest)[1..] == rest;
    }
  }

  lemma {:induction false} UnlinkLast(l: seq<nat>)
    requires NoDup(l) && l != []
    ensures Unlink(l, l[|l| - 1]) == l[..|l| - 1]
  {
    if |l| > 1 {
      var t := l[1..];
      UnlinkLast(t);
      assert t[|t| - 1] == l[|l| - 1] && l[|l| - 1] in t;
      assert [l[0]] + t[..|t| - 1] == l[..|l| - 1];
    }
  }

  lemma {:induction false} DerefFront<K, V>(list: seq<nat>, nodes: map<nat, Item<K, V>>)
    requires list != [] && forall m :: m in list ==> m in nodes
    ensures Deref(list[..|list| - 1], nodes) == Deref(list, nodes)[..|list| - 1]
  {
    if |list| > 1 {
      DerefFront(list[1..], nodes);
      assert list[..|list| - 1][1..] == list[1..][..|list| - 2];
    }
  }

  function WithoutNode<K, V>(nodes: map<nat, Item<K, V>>, n: nat): map<nat, Item<K, V>> {
    map m | m in nodes && m != n :: nodes[m]
  }

  function WithoutKey<K(==)>(table: map<K, nat>, key: K): map<K, nat> {
    map k | k in table && k != key :: table[k]
  }

  lemma RemoveLinked<K, V>(list: seq<nat>, nodes: map<nat, Item<K, V>>, table: map<K, nat>, unused: nat, n: nat)
    requires Linked(list, nodes, table, unused) && n in list
    ensures Linked(Unlink(list, n), WithoutNode(nodes, n), WithoutKey(table, nodes[n].key), unused)
    ensures Deref(Unlink(list, n), WithoutNode(nodes, n)) == Erase(Deref(list, nodes), nodes[n].key)
    ensures |Unlink(list, n)| == |list| - 1
  {
    UnlinkDistinct(list, n);
    DerefUnlink(list, nodes, table, n);
    DerefFrame(Unlink(list, n), nodes, WithoutNode(nodes, n));
  }

  lemma MoveLinked<K, V>(list: seq<nat>, nodes: map<nat, Item<K, V>>, table: map<K, nat>, unused: nat, n: nat)
    requires Linked(list, nodes, table, unused) && n in list
    ensures Linked([n] + Unlink(list, n), nodes, table, unused) && |Unlink(list, n)| == |list| - 1
    ensures Deref([n] + Unlink(list, n), nodes) == [nodes[n]] + Erase(Deref(list, nodes), nodes[n].key)
  {
    UnlinkDistinct(list, n);
    DerefUnlink(list, nodes, table, n);
    assert ([n] + Unlink(list, n))[1..] == Unlink(list, n);
  }

  /** Overwriting a node where it stands changes what is found under its key, nothing else. */
  lemma RefreshLinked<K, V>(list: seq<nat>, nodes: map<nat, Item<K, V>>, table: map<K, nat>, unused: nat, x: Item<K, V>)
    requires Linked(list, nodes, table, unused) && x.key in table
    ensures var nodes' := nodes[table[x.key] := x];
      && Linked(list, nodes', table, unused)
      && Erase(Deref(list, nodes'), x.key) == Erase(Deref(list, nodes), x.key)
  {
    var n := table[x.key];
    var nodes' := nodes[n := x];
    UnlinkDistinct(list, n);
    DerefUnlink(list, nodes, table, n);
    DerefUnlink(list, nodes', table, n);
    DerefFrame(Unlink(list, n), nodes, nodes');
  }

  lemma PushLinked<K, V>(list: seq<nat>, nodes: map<nat, Item<K, V>>, table: map<K, nat>, unused: nat, x: Item<K, V>)
    requires Linked(list, nodes, table, unused) && x.key !in table
    ensures Linked([unused] + list, nodes[unused := x], table[x.key := unused], unused + 1)
    ensures Deref([unused] + list, nodes[unused := x]) == [x] + Deref(list, nodes)
  {
    assert ([unused] + list)[1..] == list;
    DerefFrame(list, nodes, nodes[unused := x]);
  }

  /** The table answers what the association list says. */
  lemma TableAgrees<K, V>(list: seq<nat>, nodes: map<nat, Item<K, V>>, table: map<K, nat>, unused: nat, k: K)
    requires Linked(list, nodes, table, unused)
    ensures k in table <==> Has(Deref(list, nodes), k)
    ensures k in table ==> Lookup(Deref(list, nodes), k) == nodes[table[k]]
    ensures k !in table ==> Erase(Deref(list, nodes), k) == Deref(list, nodes)
  {
    if k in table {
      DerefFinds(list, nodes, table, table[k]);
    } else {
      DerefMisses(list, nodes, k);
    }
  }

  // ---- The object ----

  class LocalLruCache<K(==), V> {
    const capacity: nat
    var list: seq<nat>              // node identities, head of the list first
    var nodes: map<nat, Item<K, V>> // what each live node holds
    var table: map<K, nat>          // key to node
    var unused: nat                 // the next node identity

    ghost predicate Valid()
      reads this
    {
      Linked(list, nodes, table, unused) && 0 < capacity && |list| <= capacity
    }

    ghost function Contents(): Items<K, V>
      requires Linked(list, nodes, table, unused)
      reads this
    {
      Deref(list, nodes)
    }

    constructor (capacity: nat)
      ensures Valid() && Contents() == []
      ensures this.capacity == if capacity > 0 then capacity else 1
    {
      this.capacity := if capacity > 0 then capacity else 1;
      list, nodes, table, unused := [], map[], map[], 0;
    }

    /** Erases the node of a key from both structures. */
    method Drop(key: K)
      requires Valid() && key in table
      modifies this
      ensures Valid()
      ensures Contents() == Erase(old(Contents()), key)
    {
      var it := table[key];
      RemoveLinked(list, nodes, table, unused, it);
      list := Unlink(list, it);
      table := WithoutKey(table, key);
      nodes := WithoutNode(nodes, it);
    }

    /** Moves the node of a key to the head: `list_.splice`. */
    method Splice(key: K)
      requires Valid() && key in table
      modifies this`list
      ensures Valid()
      ensures Contents() == [nodes[table[key]]] + Erase(old(Contents()), key)
    {
      MoveLinked(list, nodes, table, unused, table[key]);
      list := [table[key]] + Unlink(list, table[key]);
    }

    /** Overwrites value and expiry where the node stands. */
    method Refresh(key: K, value: V, expireAt: int)
      requires Valid() && key in table
      modifies this`nodes
      ensures Valid() && nodes[table[key]] == Item(key, value, expireAt)
      ensures Erase(Contents(), key) == Erase(old(Contents()), key)
    {
      RefreshLinked(list, nodes, table, unused, Item(key, value, expireAt));
      nodes := nodes[table[key] := Item(key, value, expireAt)];
    }

    /** Puts a new node at the head: `list_.emplace_front`. */
    method PushFront(key: K, value: V, expireAt: int)
      requires Valid() && key !in table
      modifies this
      ensures Linked(list, nodes, table, unused)
      ensures Contents() == [Item(key, value, expireAt)] + old(Contents())
    {
      PushLinked(list, nodes, table, unused, Item(key, value, expireAt));
      list := [unused] + list;
      nodes := nodes[unused := Item(key, value, expireAt)];
      table := table[key := unused];
      unused := unused + 1;
    }

    method EvictTail()
      requires Linked(list, nodes, table, unused) && |list| > 0
      modifies this
      ensures Linked(list, nodes, table, unused)
      ensures Contents() == old(Contents())[..|old(list)| - 1]
    {
      var it := list[|list| - 1];
      UnlinkLast(list);
      DerefFront(list, nodes);
      RemoveLinked(list, nodes, table, unused, it);
      DerefFrame(list[..|list| - 1], nodes, WithoutNode(nodes, it));
      table := WithoutKey(table, nodes[it].key);
      list := list[..|list| - 1];
      nodes := WithoutNode(nodes, it);
    }

    /** A hit moves the entry to the head; an expired entry is dropped on the way. */
    method Get(key: K, now: int) returns (r: Option<V>)
      requires Valid()
      modifies this
      ensures Valid()
      ensures r == Hit(old(Contents()), key, now)
      ensures Contents() == AfterGet(old(Contents()), key, now)
    {
      TableAgrees(list, nodes, table, unused, key);
      if key !in table {
        return None;
      }
      if now >= nodes[table[key]].expireAt {
        Drop(key);
        return None;
      }
      Splice(key);
      return Some(nodes[table[key]].value);
    }

    /** A known key is refreshed in place and moved to the head; a new one goes to the head and
        may push the tail out. */
    method Put(key: K, value: V, ttl: int, now: int)
      requires Valid()
      modifies this
      ensures Valid()
      ensures Contents() == AfterPut(old(Contents()), capacity, key, value, now + ttl)
    {
      TableAgrees(list, nodes, table, unused, key);
      if key in table {
        Refresh(key, value, now + ttl);
        Splice(key);
        return;
      }
      PushFront(key, value, now + ttl);
      if |list| > capacity {
        EvictTail();
      }
    }

    method Del(key: K)
      requires Valid()
      modifies this
      ensures Valid()
      ensures Contents() == AfterDel(old(Contents()), key)
    {
      TableAgrees(list, nodes, table, unused, key);
      if key in table {
        Drop(key);
      }
    }

    /** The reported size is that of the table; it is the length of the list. */
    method Size() returns (n: nat)
      requires Valid()
      ensures n == |Contents()|
    {
      TableSize(list, nodes, table, unused);
      n := |table|;
    }
  }

  lemma {:induction false} TableSize<K, V>(list: seq<nat>, nodes: map<nat, Item<K, V>>, table: map<K, nat>, unused: nat)
    requires Linked(list, nodes, table, unused)
    ensures |table| == |list|
    decreases |list|
  {
    if list == [] {
      assert table == map[];
    } else {
      var n := list[0];
      var k := nodes[n].key;
      RemoveLinked(list, nodes, table, unused, n);
      TableSize(Unlink(list, n), WithoutNode(nodes, n), WithoutKey(table, k), unused);
      assert table.Keys == WithoutKey(table, k).Keys + {k};
    }
  }
}
