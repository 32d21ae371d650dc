/** The in-process Bloom filter: packed words of 64 bits that stand for a set of probe
    positions, and the rebuild-and-publish protocol around it. */
module BloomFilter {
  import opened Words
  import opened SplitMix

  /** The i-th of the positions that two hashes name among m: double hashing that wraps around. */
  function Slot(h1: Word, h2: Word, i: nat, m: nat): (p: nat)
    requires 0 < m && i < SIZE
    ensures p < m
  {
    Add(h1, Mul(i, h2)) % m
  }

  function Slots(h1: Word, h2: Word, k: nat, m: nat): (s: set<nat>)
    requires 0 < m && k < SIZE
  {
    set i | 0 <= i < k :: Slot(h1, h2, i, m)
  }

  /** The word that is reduced to the i-th position. */
  function Walk(h1: Word, h2: Word, i: nat): Word {
    if i == 0 then h1 else Add(Walk(h1, h2, i - 1), h2)
  }

  /** Double hashing is a walk: from the first hash on, each position is one second hash further on
      the circle of 64-bit words, then reduced to the array. */
  lemma {:induction false} SlotIsWalk(h1: Word, h2: Word, i: nat, m: nat)
    requires 0 < m && i < SIZE
    ensures Slot(h1, h2, i, m) == Walk(h1, h2, i) % m
  {
    WalkIs(h1, h2, i);
  }

  lemma {:induction false} WalkIs(h1: Word, h2: Word, i: nat)
    requires i < SIZE
    ensures Walk(h1, h2, i) == Add(h1, Mul(i, h2))
  {
    if i > 0 {
      WalkIs(h1, h2, i - 1);
      NextMultiple(h1, i - 1, h2);
    }
  }

  lemma NextMultiple(h1: Word, i: nat, h2: Word)
    requires i + 1 < SIZE
    ensures Add(Add(h1, Mul(i, h2)), h2) == Add(h1, Mul(i + 1, h2))
  {
    var p := i * h2;
    assert (i + 1) * h2 == p + h2;
    AddMods(h1, p, h2);
  }

  lemma AddMods(a: nat, p: nat, b: nat)
    ensures ((a + p % SIZE) % SIZE + b) % SIZE == (a + (p + b) % SIZE) % SIZE
  {}

  /** With a second hash that is odd no two of these words are the same. */
  lemma WalkDistinct(h1: Word, h2: Word, inverse: Word, i: nat, j: nat)
    requires (h2 * inverse) % SIZE == 1 && i < SIZE && j < SIZE
    ensures Walk(h1, h2, i) == Walk(h1, h2, j) <==> i == j
  {
    WalkIs(h1, h2, i);
    WalkIs(h1, h2, j);
    MulInverse(i, h2, inverse);
    MulInverse(j, h2, inverse);
    AddSame(h1, Mul(i, h2), Mul(j, h2));
  }

  lemma AddSame(a: Word, x: Word, y: Word)
    ensures Add(a, x) == Add(a, y) <==> x == y
  {}

  /** The k probe positions of an id. */
  function Probes(x: Word, k: nat, m: nat): set<nat>
    requires 0 < m && k < SIZE
  {
    Slots(Hash1(x), Hash2(x), k, m)
  }

  /** All the positions that a set of ids occupies. */
  ghost function Covered(ids: set<Word>, k: nat, m: nat): set<nat>
    requires 0 < m && k < SIZE
  {
    set x, p | x in ids && p in Probes(x, k, m) :: p
  }

  lemma CoveredInsert(ids: set<Word>, x: Word, k: nat, m: nat)
    requires 0 < m && k < SIZE
    ensures Covered(ids + {x}, k, m) == Covered(ids, k, m) + Probes(x, k, m)
  {
    var lhs, rhs := Covered(ids + {x}, k, m), Covered(ids, k, m) + Probes(x, k, m);
    forall p | p in rhs ensures p in lhs {
      if p in Probes(x, k, m) {
        assert x in ids + {x};
      } else {
        var y :| y in ids && p in Probes(y, k, m);
        assert y in ids + {x};
      }
    }
  }

  class Filter {
    const bits: array<Bits>
    const bitsCount: nat
    const hashes: nat
    var added: nat
    ghost var ids: set<Word>

    ghost predicate Valid()
      reads this, bits
    {
      && bits.Length == (bitsCount + 63) / 64
      && hashes < SIZE
      && (bitsCount == 0 ==> ids == {})
      && (bitsCount > 0 ==> Positions() == Covered(ids, hashes, bitsCount))
    }

    /** The set that the packed words stand for. */
    ghost function Positions(): set<nat>
      requires bits.Length == (bitsCount + 63) / 64
      reads this, bits
    {
      set p | 0 <= p < bitsCount && bits[p / 64][p % 64]
    }

    constructor (count: nat, k: nat)
      requires k < SIZE
      ensures Valid() && ids == {} && added == 0
      ensures bitsCount == count && hashes == k && fresh(bits)
    {
      bitsCount, hashes, added, ids := count, k, 0, {};
      bits := new Bits[(count + 63) / 64](i => ZERO);
      new;
      if bitsCount > 0 {
        assert Positions() == {};
        assert Covered({}, hashes, bitsCount) == {};
      }
    }

    method SetBit(idx: nat)
      requires bits.Length == (bitsCount + 63) / 64 && idx < bitsCount
      modifies bits
      ensures Positions() == old(Positions()) + {idx}
    {
      bits[idx / 64] := OrBits(bits[idx / 64], Mask(idx % 64));
      OrMask(old(bits[idx / 64]), idx % 64);
    }

    method TestBit(idx: nat) returns (r: bool)
      requires bits.Length == (bitsCount + 63) / 64 && idx < bitsCount
      ensures r <==> idx in Positions()
    {
      r := AndBits(bits[idx / 64], Mask(idx % 64)) != ZERO;
      MaskTest(bits[idx / 64], idx % 64);
    }

    /** The loop of `add`. */
    method MarkSlots(h1: Word, h2: Word)
      requires bits.Length == (bitsCount + 63) / 64 && 0 < bitsCount && hashes < SIZE
      modifies bits
      ensures Positions() == old(Positions()) + Slots(h1, h2, hashes, bitsCount)
    {
      var i := 0;
      while i < hashes
        invariant 0 <= i <= hashes
        invariant Positions() == old(Positions()) + Slots(h1, h2, i, bitsCount)
      {
        SetBit(Slot(h1, h2, i, bitsCount));
        assert Slots(h1, h2, i + 1, bitsCount) == Slots(h1, h2, i, bitsCount) + {Slot(h1, h2, i, bitsCount)};
        i := i + 1;
      }
    }

    /** The loop of `maybeContains`. */
    method AllSlotsMarked(h1: Word, h2: Word) returns (r: bool)
      requires bits.Length == (bitsCount + 63) / 64 && 0 < bitsCount && hashes < SIZE
      ensures r <==> Slots(h1, h2, hashes, bitsCount) <= Positions()
    {
      var i := 0;
      while i < hashes
        invariant 0 <= i <= hashes
        invariant Slots(h1, h2, i, bitsCount) <= Positions()
      {
        var hit := TestBit(Slot(h1, h2, i, bitsCount));
        if !hit {
          assert Slot(h1, h2, i, bitsCount) in Slots(h1, h2, hashes, bitsCount);
          return false;
        }
        assert Slots(h1, h2, i + 1, bitsCount) == Slots(h1, h2, i, bitsCount) + {Slot(h1, h2, i, bitsCount)};
        i := i + 1;
      }
      return true;
    }

    /** Adds exactly the probes of x. Adding to a filter without bits does nothing. */
    method AddId(x: Word)
      requires Valid()
      modifies this`added, this`ids, bits
      ensures Valid()
      ensures bitsCount > 0 ==> ids == old(ids) + {x} && added == old(added) + 1
      ensures bitsCount > 0 ==> Positions() == old(Positions()) + Probes(x, hashes, bitsCount)
      ensures bitsCount == 0 ==> ids == old(ids) && added == old(added)
    {
      if bitsCount == 0 {
        return;
      }
      MarkSlots(Hash1(x), Hash2(x));
      CoveredInsert(ids, x, hashes, bitsCount);
      ids := ids + {x};
      added := added + 1;
    }

    /** The packed words answer exactly the question about sets: is every probe of x a probe of
        some added id? A filter without bits lets everything pass. */
    method MaybeContains(x: Word) returns (r: bool)
      requires Valid()
      ensures r <==> bitsCount == 0 || Probes(x, hashes, bitsCount) <= Covered(ids, hashes, bitsCount)
      ensures x in ids ==> r
    {
      if bitsCount == 0 {
        return true;
      }
      r := AllSlotsMarked(Hash1(x), Hash2(x));
    }

  }

  // ---- Rebuild and publish ----

  /** The 64-bit pattern of a signed id. */
  function Unsigned(id: int): Word { id % SIZE }

  function Patterns(rows: seq<int>): (s: set<Word>)
    ensures forall id :: id in rows ==> Unsigned(id) in s
  {
    set i | 0 <= i < |rows| :: Unsigned(rows[i])
  }

  lemma PatternsSnoc(rows: seq<int>, j: nat)
    requires j < |rows|
    ensures Patterns(rows[..j + 1]) == Patterns(rows[..j]) + {Unsigned(rows[j])}
  {
    var next, now := rows[..j + 1], rows[..j];
    forall i | 0 <= i < |now| ensures Unsigned(now[i]) in Patterns(next) {
      assert next[i] == now[i];
    }
    assert next[j] == rows[j];
  }

  /** The rebuild loop: a filter that holds exactly the rows it was given. */
  method BuildFilter(rows: seq<int>, count: nat, k: nat) returns (f: Filter)
    requires 0 < count && k < SIZE
    ensures fresh(f) && fresh(f.bits) && f.Valid()
    ensures f.bitsCount == count && f.hashes == k && f.added == |rows| && f.ids == Patterns(rows)
  {
    f := new Filter(count, k);
    var j := 0;
    while j < |rows|
      invariant 0 <= j <= |rows|
      invariant f.Valid() && fresh(f) && fresh(f.bits)
      invariant f.bitsCount == count && f.hashes == k && f.added == j && f.ids == Patterns(rows[..j])
      modifies f, f.bits
    {
      f.AddId(Unsigned(rows[j]));
      PatternsSnoc(rows, j);
      j := j + 1;
    }
    assert rows[..j] == rows;
  }

  /** The Bloom part of the seckill service: the published filter and the pre-check of `detailSku`. */
  class BloomGate {
    const bloomEnabled: bool
    var bloom: Filter?
    var bloomRejected: nat
    ghost var table: set<int>   // the ids that the last published rebuild read

    ghost predicate Valid()
      reads this, bloom, if bloom != null then {bloom.bits} else {}
    {
      && (bloom == null ==> table == {})
      && (bloom != null ==> bloom.Valid() && forall id :: id in table ==> Unsigned(id) in bloom.ids)
    }

    constructor (enabled: bool)
      ensures Valid() && bloom == null && bloomRejected == 0 && bloomEnabled == enabled
    {
      bloomEnabled, bloom, bloomRejected, table := enabled, null, 0, {};
    }

    /** Builds a new filter from the table and only then replaces the published one; `dbUp` says
        whether the query succeeds, `count` and `k` are the sizes that `create` computes, both
        positive. A query that fails, or a filter that is switched off, leaves everything as it was. */
    method RebuildBloom(rows: seq<int>, dbUp: bool, count: nat, k: nat) returns (ok: bool, n: nat)
      requires Valid() && 0 < count && 0 < k < SIZE
      modifies this
      ensures Valid() && bloomRejected == old(bloomRejected)
      ensures ok <==> dbUp || !bloomEnabled
      ensures n == if bloomEnabled && dbUp then |rows| else 0
      ensures bloomEnabled && dbUp ==>
        table == (set id | id in rows) && bloom != null && fresh(bloom)
        && bloom.bitsCount == count && bloom.hashes == k && bloom.ids == Patterns(rows) && bloom.added == |rows|
      ensures !(bloomEnabled && dbUp) ==> bloom == old(bloom) && table == old(table)
    {
      if !bloomEnabled {
        return true, 0;
      }
      if !dbUp {
        return false, 0;
      }
      var next := BuildFilter(rows, count, k);
      bloom := next;
      table := set id | id in rows;
      return true, |rows|;
    }

    /** What the published filter says of an id: surely not there. */
    ghost predicate Excludes(skuId: int)
      requires Valid()
      reads this, bloom, if bloom != null then {bloom.bits} else {}
    {
      bloom != null && bloom.bitsCount > 0
      && !(Probes(Unsigned(skuId), bloom.hashes, bloom.bitsCount) <= Covered(bloom.ids, bloom.hashes, bloom.bitsCount))
    }

    /** Without a published filter every id passes, and with one exactly those that it does not
        exclude; it excludes none that the last published rebuild read. */
    method BloomAllows(skuId: int) returns (r: bool)
      requires Valid()
      ensures r <==> !Excludes(skuId)
      ensures skuId in table ==> r
    {
      if bloom == null || bloom.bitsCount == 0 {
        return true;
      }
      r := bloom.MaybeContains(Unsigned(skuId));
    }

    /** The pre-check of `detailSku`: turns away exactly what the filter excludes, when it is switched
        on. An id that the last published rebuild saw is never turned away, and before the first
        rebuild no id is. A rejection is counted, nothing else moves. */
    method PreCheck(skuId: int) returns (rejected: bool)
      requires Valid()
      modifies this`bloomRejected
      ensures Valid()
      ensures rejected <==> bloomEnabled && Excludes(skuId)
      ensures rejected ==> skuId !in table
      ensures bloomRejected == old(bloomRejected) + (if rejected then 1 else 0)
    {
      rejected := false;
      if bloomEnabled {
        var allowed := BloomAllows(skuId);
        if !allowed {
          bloomRejected := bloomRejected + 1;
          rejected := true;
        }
      }
    }
  }
}
