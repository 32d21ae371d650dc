/** The in-flight guard: marks for keys, held by shared tokens. A token is a shared owner with a
    number of copies; dropping the last copy clears the mark. */
module InflightGuard {
  import opened Wrappers
  import opened Words

  datatype Mode = None | Mutex | Spin | Atomic

  /** The control block behind the copies of one token. */
  datatype Owner = Owner(key: Word, copies: nat)

  /** Where the mark of a key sits: a member of a shard, or a bit of a word. */
  type Place = (nat, nat)

  function ShardPlace(key: Word, shards: nat): Place
    requires shards > 0
  {
    (key % shards, key)
  }

  function BitPlace(key: Word, bits: nat): Place
    requires bits > 0
  {
    (key % bits / 64, key % 64)
  }

  // ---- What sharing a place means ----

  /** With sets the guard is exact: two keys share a place only when they are the same key. */
  lemma ShardPlaceExact(a: Word, b: Word, shards: nat)
    requires shards > 0
    ensures ShardPlace(a, shards) == ShardPlace(b, shards) <==> a == b
  {}

  /** The place of a key lies inside the bitmap, also when the bitmap ends within a word. */
  lemma BitPlaceInside(key: Word, bits: nat)
    requires bits > 0
    ensures BitPlace(key, bits).0 < (bits + 63) / 64 && BitPlace(key, bits).1 < 64
  {}

  /** Keys that agree modulo the number of bits share a bit, if and only if the bitmap is made of
      whole words. */
  lemma SameResidueSharesExact(bits: Word)
    requires bits > 0
    ensures (forall a: Word, b: Word :: a % bits == b % bits ==> BitPlace(a, bits) == BitPlace(b, bits)) <==> bits % 64 == 0
  {
    if bits % 64 == 0 {
      forall a: Word, b: Word | a % bits == b % bits ensures BitPlace(a, bits) == BitPlace(b, bits) {
        BitPlaceMeans(a, b, bits, bits / 64);
      }
    } else {
      SelfResidue(bits);
      assert BitPlace(bits, bits) != BitPlace(0, bits);
    }
  }

  /** Keys that share a bit agree modulo the number of bits, if and only if the bitmap is made of
      whole words or a word is made of whole bitmaps. */
  lemma SharedBitSameResidueExact(bits: Word)
    requires bits > 0
    ensures (forall a: Word, b: Word :: BitPlace(a, bits) == BitPlace(b, bits) ==> a % bits == b % bits)
      <==> bits % 64 == 0 || 64 % bits == 0
  {
    if bits % 64 == 0 {
      forall a: Word, b: Word | BitPlace(a, bits) == BitPlace(b, bits) ensures a % bits == b % bits {
        BitPlaceMeans(a, b, bits, bits / 64);
      }
    } else if 64 % bits == 0 {
      forall a: Word, b: Word | BitPlace(a, bits) == BitPlace(b, bits) ensures a % bits == b % bits {
        SmallResidues(a, b, bits);
      }
    } else if bits < 64 {
      assert BitPlace(64, bits) == BitPlace(0, bits) by {
        SmallResidue(64, bits);
      }
      SelfResidue(bits);
    } else {
      var r: Word := bits % 64;
      SelfResidue(bits);
      BelowResidue(r, bits);
      assert BitPlace(bits, bits) == BitPlace(r, bits);
    }
  }

  lemma SelfResidue(bits: nat)
    requires bits > 0
    ensures bits % bits == 0 && 0 % bits == 0
  {}

  lemma BelowResidue(r: nat, bits: nat)
    requires r < bits
    ensures r % bits == r
  {}

  lemma SmallResidue(a: nat, bits: nat)
    requires 0 < bits < 64
    ensures a % bits / 64 == 0
  {}

  lemma SmallResidues(a: nat, b: nat, bits: nat)
    requires bits > 0 && 64 % bits == 0 && a % 64 == b % 64
    ensures a % bits == b % bits
  {
    DividesSixtyFour(bits);
    var qa, qb, x := a / 64, b / 64, a % 64;
    assert a == 64 * qa + x && b == 64 * qb + x;
    Residue32(a, x, 2 * qa);
    Residue32(b, x, 2 * qb);
    Residue16(a, x, 4 * qa);
    Residue16(b, x, 4 * qb);
    Residue8(a, x, 8 * qa);
    Residue8(b, x, 8 * qb);
    Residue4(a, x, 16 * qa);
    Residue4(b, x, 16 * qb);
    Residue2(a, x, 32 * qa);
    Residue2(b, x, 32 * qb);
  }

  lemma Residue32(a: nat, m: nat, k: nat)
    requires a == 32 * k + m
    ensures a % 32 == m % 32
  {}

  lemma Residue16(a: nat, m: nat, k: nat)
    requires a == 16 * k + m
    ensures a % 16 == m % 16
  {}

  lemma Residue8(a: nat, m: nat, k: nat)
    requires a == 8 * k + m
    ensures a % 8 == m % 8
  {}

  lemma Residue4(a: nat, m: nat, k: nat)
    requires a == 4 * k + m
    ensures a % 4 == m % 4
  {}

  lemma Residue2(a: nat, m: nat, k: nat)
    requires a == 2 * k + m
    ensures a % 2 == m % 2
  {}

  lemma DividesSixtyFour(bits: nat)
    requires bits > 0 && 64 % bits == 0
    ensures bits in {1, 2, 4, 8, 16, 32, 64}
  {
    assert bits <= 64;
  }

  lemma BitPlaceMeans(a: Word, b: Word, bits: nat, words: nat)
    requires bits > 0 && bits == 64 * words
    ensures BitPlace(a, bits) == BitPlace(b, bits) <==> a % bits == b % bits
  {
    var qa, ma := DivMod(a, bits);
    var qb, mb := DivMod(b, bits);
    LowBits(a, bits, words, qa, ma);
    LowBits(b, bits, words, qb, mb);
    SameBlock(ma, mb);
  }

  lemma DivMod(a: nat, n: nat) returns (q: nat, m: nat)
    requires n > 0
    ensures q == a / n && m == a % n && a == n * q + m
  {
    q, m := a / n, a % n;
  }

  lemma LowBits(a: nat, n: nat, w: nat, q: nat, m: nat)
    requires n == 64 * w && a == n * q + m
    ensures a % 64 == m % 64
  {
    var k := q * w;
    assert n * q == 64 * k;
    Congruent(a, m, k);
  }

  lemma Congruent(a: nat, m: nat, k: nat)
    requires a == 64 * k + m
    ensures a % 64 == m % 64
  {}

  lemma SameBlock(m: nat, n: nat)
    ensures m / 64 == n / 64 && m % 64 == n % 64 <==> m == n
  {}

  // ---- Owners and the places they hold ----

  datatype Setup = Setup(mode: Mode, shards: nat, bits: nat) {
    predicate Usable() {
      match mode
      case None => true
      case Atomic => bits > 0
      case _ => shards > 0
    }

    /** Without a guard there is no mark, and the place means nothing. */
    function PlaceOf(key: Word): Place
      requires Usable()
    {
      match mode
      case None => (0, 0)
      case Atomic => BitPlace(key, bits)
      case _ => ShardPlace(key, shards)
    }
  }

  /** The places of the tokens that are alive. */
  ghost function Held(c: Setup, owners: map<nat, Owner>): set<Place>
    requires c.Usable()
  {
    if c.mode.None? then {} else set t | t in owners :: c.PlaceOf(owners[t].key)
  }

  /** Every live token has a place of its own. */
  ghost predicate Apart(c: Setup, owners: map<nat, Owner>)
    requires c.Usable()
  {
    !c.mode.None? ==>
      forall t, u :: t in owners && u in owners && c.PlaceOf(owners[t].key) == c.PlaceOf(owners[u].key) ==> t == u
  }

  lemma Granted(c: Setup, owners: map<nat, Owner>, t: nat, key: Word)
    requires c.Usable() && Apart(c, owners) && t !in owners
    requires c.mode.None? || c.PlaceOf(key) !in Held(c, owners)
    ensures Apart(c, owners[t := Owner(key, 1)])
    ensures Held(c, owners[t := Owner(key, 1)]) == Held(c, owners) + if c.mode.None? then {} else {c.PlaceOf(key)}
  {
    var owners' := owners[t := Owner(key, 1)];
    if !c.mode.None? {
      assert forall u :: u in owners ==> c.PlaceOf(owners[u].key) in Held(c, owners);
      assert forall u :: u in owners' <==> u in owners || u == t;
      forall p | p in Held(c, owners) ensures p in Held(c, owners') {
        var u :| u in owners && c.PlaceOf(owners[u].key) == p;
        assert owners'[u] == owners[u];
      }
      assert owners'[t].key == key;
    }
  }

  lemma Recounted(c: Setup, owners: map<nat, Owner>, t: nat, copies: nat)
    requires c.Usable() && Apart(c, owners) && t in owners
    ensures Apart(c, owners[t := Owner(owners[t].key, copies)])
    ensures Held(c, owners[t := Owner(owners[t].key, copies)]) == Held(c, owners)
  {
    var owners' := owners[t := Owner(owners[t].key, copies)];
    assert forall u :: u in owners ==> owners'[u].key == owners[u].key;
  }

  lemma Gone(c: Setup, owners: map<nat, Owner>, t: nat)
    requires c.Usable() && Apart(c, owners) && t in owners
    ensures Apart(c, owners - {t})
    ensures Held(c, owners - {t}) == Held(c, owners) - {c.PlaceOf(owners[t].key)}
  {
    var owners' := owners - {t};
    assert forall u :: u in owners' ==> owners'[u] == owners[u];
    if !c.mode.None? {
      forall p | p in Held(c, owners) && p != c.PlaceOf(owners[t].key) ensures p in Held(c, owners') {
        var u :| u in owners && c.PlaceOf(owners[u].key) == p;
        assert u in owners';
      }
    }
  }

  /** No two live tokens share a key, and a key that is not live blocks nobody in the exact back
      ends: its place is held exactly when it is the key of a live token. */
  lemma LiveKeys(c: Setup, owners: map<nat, Owner>, key: Word)
    requires c.Usable() && Apart(c, owners) && !c.mode.None?
    ensures forall t, u :: t in owners && u in owners && owners[t].key == owners[u].key ==> t == u
    ensures !c.mode.Atomic? ==> (c.PlaceOf(key) in Held(c, owners) <==> exists t :: t in owners && owners[t].key == key)
  {
    if t :| t in owners && c.PlaceOf(owners[t].key) == c.PlaceOf(key) {
      assert !c.mode.Atomic? ==> owners[t].key == key;
    }
  }

  class Guard {
    const c: Setup
    const sets: array<set<Word>>
    const bitmap: array<Bits>
    var acquired: Word
    var rejected: Word
    /** The owners that still have copies. */
    var owners: map<nat, Owner>
    var nextOwner: nat

    predicate Shape() {
      && c.Usable()
      && (c.mode.Mutex? || c.mode.Spin? ==> sets.Length == c.shards)
      && (c.mode.Atomic? ==> bitmap.Length == (c.bits + 63) / 64)
    }

    /** The marks that are set. */
    ghost function Marks(): set<Place>
      reads sets, bitmap
    {
      match c.mode
      case None => {}
      case Atomic => set w, b | 0 <= w < bitmap.Length && 0 <= b < 64 && bitmap[w][b] :: (w, b)
      case _ => set i, k | 0 <= i < sets.Length && k in sets[i] :: (i, k)
    }

    predicate Numbered()
      reads this
    {
      forall t :: t in owners ==> t < nextOwner && owners[t].copies > 0
    }

    /** Every live token has its own mark, every mark its own live token. */
    ghost predicate Valid()
      reads this, sets, bitmap
    {
      && Shape()
      && Numbered()
      && Marks() == Held(c, owners) && Apart(c, owners)
    }

    constructor (c: Setup)
      requires c.Usable()
      ensures Valid() && this.c == c && owners == map[] && Marks() == {} && acquired == 0 && rejected == 0
      ensures fresh(sets) && fresh(bitmap)
    {
      this.c := c;
      sets := new set<Word>[if c.mode.Mutex? || c.mode.Spin? then c.shards else 0](i => {});
      bitmap := new Bits[if c.mode.Atomic? then (c.bits + 63) / 64 else 0](i => ZERO);
      acquired, rejected, owners, nextOwner := 0, 0, map[], 0;
    }

    /** `unordered_set::insert`, or `fetch_or`: sets the mark and says whether it was clear. */
    method SetMark(key: Word) returns (got: bool)
      requires Shape() && !c.mode.None?
      modifies sets, bitmap
      ensures got <==> c.PlaceOf(key) !in old(Marks())
      ensures Marks() == old(Marks()) + {c.PlaceOf(key)}
    {
      if c.mode.Atomic? {
        BitPlaceInside(key, c.bits);
        var word, mask := key % c.bits / 64, Mask(key % 64);
        var before := bitmap[word];
        bitmap[word] := OrBits(before, mask);
        got := AndBits(before, mask) == ZERO;
        MaskTest(before, key % 64);
        OrMask(before, key % 64);
      } else {
        var idx := key % c.shards;
        got := key !in sets[idx];
        sets[idx] := sets[idx] + {key};
      }
    }

    /** `unordered_set::erase`, or `fetch_and` with the complement: clears this one mark. */
    method Release(key: Word)
      requires Shape()
      modifies sets, bitmap
      ensures Marks() == old(Marks()) - {c.PlaceOf(key)}
    {
      if c.mode.Atomic? {
        BitPlaceInside(key, c.bits);
        var word, mask := key % c.bits / 64, Mask(key % 64);
        AndNotMask(bitmap[word], key % 64);
        bitmap[word] := AndBits(bitmap[word], NotBits(mask));
      } else if !c.mode.None? {
        var idx := key % c.shards;
        sets[idx] := sets[idx] - {key};
      }
    }

    /** A token is granted exactly when no live token has the place of this key; without a guard
        always. A rejection changes nothing but its counter. */
    method TryAcquire(key: Word) returns (token: Option<nat>)
      requires Valid()
      modifies this`acquired, this`rejected, this`owners, this`nextOwner, sets, bitmap
      ensures Valid()
      ensures token.Some? <==> c.mode.None? || c.PlaceOf(key) !in old(Held(c, owners))
      ensures token.Some? ==> token.value !in old(owners) && owners == old(owners)[token.value := Owner(key, 1)]
      ensures token.None? ==> owners == old(owners) && Marks() == old(Marks())
      ensures acquired == (if token.Some? then Add(old(acquired), 1) else old(acquired))
      ensures rejected == (if token.Some? then old(rejected) else Add(old(rejected), 1))
    {
      var got := true;
      if !c.mode.None? {
        got := SetMark(key);
      }
      if !got {
        rejected := Add(rejected, 1);
        return Option.None;
      }
      acquired := Add(acquired, 1);
      var t := NewOwner(key);
      token := Some(t);
    }

    /** The shared owner of a mark that has just been set. */
    method NewOwner(key: Word) returns (t: nat)
      requires Shape() && Numbered() && Apart(c, owners)
      requires c.mode.None? || c.PlaceOf(key) !in Held(c, owners)
      requires Marks() == Held(c, owners) + if c.mode.None? then {} else {c.PlaceOf(key)}
      modifies this`owners, this`nextOwner
      ensures Valid()
      ensures t !in old(owners) && owners == old(owners)[t := Owner(key, 1)]
    {
      Granted(c, owners, nextOwner, key);
      t := nextOwner;
      owners, nextOwner := owners[t := Owner(key, 1)], nextOwner + 1;
    }

    /** A callback that captures the token by value. */
    method CopyToken(token: nat)
      requires Valid() && token in owners
      modifies this`owners
      ensures Valid() && Marks() == old(Marks())
      ensures owners == old(owners)[token := Owner(old(owners)[token].key, old(owners)[token].copies + 1)]
    {
      var o := owners[token];
      Recounted(c, owners, token, o.copies + 1);
      owners := owners[token := Owner(o.key, o.copies + 1)];
    }

    /** A copy that is destroyed. Only the last one releases, and it clears its own mark and
        nobody else's. */
    method DropToken(token: nat)
      requires Valid() && token in owners
      modifies this`owners, sets, bitmap
      ensures Valid()
      ensures var o := old(owners)[token];
        if o.copies > 1 then owners == old(owners)[token := Owner(o.key, o.copies - 1)] && Marks() == old(Marks())
        else owners == old(owners) - {token} && Marks() == old(Marks()) - {c.PlaceOf(o.key)}
    {
      var o := owners[token];
      if o.copies > 1 {
        Recounted(c, owners, token, o.copies - 1);
        owners := owners[token := Owner(o.key, o.copies - 1)];
      } else {
        Gone(c, owners, token);
        owners := owners - {token};
        Release(o.key);
      }
    }
  }
}
