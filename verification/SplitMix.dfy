/** The two 64-bit hash functions of the program: `splitmix64` of the Bloom filter and the
    order key of the in-flight guard. */
module SplitMix {
  import opened Words

  const GAMMA: Word := 0x9e37_79b9_7f4a_7c15
  const MULTIPLIER1: Word := 0xbf58_476d_1ce4_e5b9
  const INVERSE1: Word := 0x96de_1b17_3f11_9089
  const MULTIPLIER2: Word := 0x94d0_49bb_1331_11eb
  const INVERSE2: Word := 0x3196_42b2_d24d_8ec3

  // ---- splitmix64 ----

  function Step(w: Word, n: nat, c: Word): Word { Mul(XorShift(w, n), c) }

  function Unstep(w: Word, n: nat, d: Word): Word { UnXorShift(Mul(w, d), n) }

  function Tail(b: Word): Word { XorShift(Step(b, 27, MULTIPLIER2), 31) }

  function Untail(y: Word): Word { Unstep(UnXorShift(y, 31), 27, INVERSE2) }

  function Core(a: Word): Word { Tail(Step(a, 30, MULTIPLIER1)) }

  function Uncore(y: Word): Word { Unstep(Untail(y), 30, INVERSE1) }

  function SplitMix64(x: Word): Word { Core(Add(x, GAMMA)) }

  /** Runs the steps of `SplitMix64` backwards. */
  function Unsplit(y: Word): Word { Sub(Uncore(y), GAMMA) }

  lemma StepInverse(w: Word, n: nat, c: Word, d: Word)
    requires 22 <= n && (c * d) % SIZE == 1
    ensures Unstep(Step(w, n, c), n, d) == w
    ensures Step(Unstep(w, n, d), n, c) == w
  {
    MulInverse(XorShift(w, n), c, d);
    XorShiftInverse(w, n);
    XorShiftInverse(Mul(w, d), n);
    assert (d * c) % SIZE == 1 by { assert d * c == c * d; }
    MulInverse(w, d, c);
  }

  lemma AddSub(a: Word, c: Word)
    ensures Sub(Add(a, c), c) == a && Add(Sub(a, c), c) == a
  {}

  lemma TailInverse(w: Word)
    ensures Untail(Tail(w)) == w && Tail(Untail(w)) == w
  {
    XorShiftInverse(Step(w, 27, MULTIPLIER2), 31);
    StepInverse(w, 27, MULTIPLIER2, INVERSE2);
    XorShiftInverse(w, 31);
    StepInverse(UnXorShift(w, 31), 27, MULTIPLIER2, INVERSE2);
  }

  lemma CoreInverse(w: Word)
    ensures Uncore(Core(w)) == w && Core(Uncore(w)) == w
  {
    TailInverse(Step(w, 30, MULTIPLIER1));
    StepInverse(w, 30, MULTIPLIER1, INVERSE1);
    TailInverse(w);
    StepInverse(Untail(w), 30, MULTIPLIER1, INVERSE1);
  }

  /** `splitmix64` is a bijection on 64-bit words; `Unsplit` is its two-sided inverse. */
  lemma SplitMixBijective(x: Word)
    ensures Unsplit(SplitMix64(x)) == x
    ensures SplitMix64(Unsplit(x)) == x
  {
    AddSub(x, GAMMA);
    CoreInverse(Add(x, GAMMA));
    CoreInverse(x);
    AddSub(Uncore(x), GAMMA);
  }

  /** Distinct ids have distinct first hashes. */
  lemma FirstHashInjective(x: Word, y: Word)
    ensures SplitMix64(x) == SplitMix64(y) <==> x == y
  {
    SplitMixBijective(x);
    SplitMixBijective(y);
  }

  // ---- The two hashes of the Bloom filter ----

  function Hash1(x: Word): Word { SplitMix64(x) }

  /** The second hash, with the repair that keeps it from being zero. */
  function Hash2(x: Word): Word {
    var h2 := SplitMix64(Xor(x, MULTIPLIER2));
    if h2 == 0 then 1 else h2
  }

  /** The one id whose raw second hash is zero. */
  function RepairedId(): Word { Xor(Unsplit(0), MULTIPLIER2) }

  lemma ZeroOfSplitMix(x: Word)
    ensures SplitMix64(x) == 0 <==> x == Unsplit(0)
  {
    SplitMixBijective(0);
    SplitMixBijective(x);
  }

  /** Exactly one id in the whole 64-bit range makes the raw second hash vanish, so the repair
      changes the probes of that id alone. */
  lemma RepairTriggersOnce(x: Word)
    ensures SplitMix64(Xor(x, MULTIPLIER2)) == 0 <==> x == RepairedId()
    ensures Hash2(x) != 0
  {
    ZeroOfSplitMix(Xor(x, MULTIPLIER2));
    XorCancel(x, MULTIPLIER2);
    XorCancel(Unsplit(0), MULTIPLIER2);
  }

  // ---- The order key of the in-flight guard ----

  function Blend(h: Word, skuId: Word): Word {
    Xor(h, Add(Add(Add(skuId, GAMMA), Shl(h, 6)), Shr(h, 2)))
  }

  function Finish(h: Word): Word { XorShift(Step(h, 29, MULTIPLIER1), 32) }

  function MakeKey(userId: Word, skuId: Word): Word { Finish(Blend(Mul(userId, GAMMA), skuId)) }

  function Unfinish(y: Word): Word { Unstep(UnXorShift(y, 32), 29, INVERSE1) }

  lemma FinishInverse(h: Word)
    ensures Unfinish(Finish(h)) == h
  {
    XorShiftInverse(Step(h, 29, MULTIPLIER1), 32);
    StepInverse(h, 29, MULTIPLIER1, INVERSE1);
  }

  lemma FinishInjective(a: Word, b: Word)
    requires Finish(a) == Finish(b)
    ensures a == b
  {
    FinishInverse(a);
    FinishInverse(b);
  }

  // ---- Which keys meet ----

  /** The sku word that the user v would need for the key of the user u and the sku s. */
  function Partner(u: Word, s: Word, v: Word): Word {
    var h := Mul(v, GAMMA);
    Sub(Sub(Sub(Xor(h, Blend(Mul(u, GAMMA), s)), Shr(h, 2)), Shl(h, 6)), GAMMA)
  }

  lemma BlendExact(h: Word, t: Word, y: Word)
    ensures Blend(h, t) == y <==> t == Sub(Sub(Sub(Xor(h, y), Shr(h, 2)), Shl(h, 6)), GAMMA)
  {
    var a, b := Shl(h, 6), Shr(h, 2);
    var sum := Add(Add(Add(t, GAMMA), a), b);
    XorTwice(h, y);
    XorTwice(h, sum);
    AddSubExact(Add(Add(t, GAMMA), a), b, Xor(h, y));
    AddSubExact(Add(t, GAMMA), a, Sub(Xor(h, y), b));
    AddSubExact(t, GAMMA, Sub(Sub(Xor(h, y), b), a));
  }

  lemma AddSubExact(x: Word, c: Word, y: Word)
    ensures Add(x, c) == y <==> x == Sub(y, c)
  {
    AddSub(x, c);
    AddSub(y, c);
  }

  /** `makeKey` folds two words into one: for every user and sku, every user has exactly one sku
      word with the same key. */
  lemma KeysMeetExact(u: Word, s: Word, v: Word, t: Word)
    ensures MakeKey(u, s) == MakeKey(v, t) <==> t == Partner(u, s, v)
  {
    var y := Blend(Mul(u, GAMMA), s);
    BlendExact(Mul(v, GAMMA), t, y);
    if MakeKey(u, s) == MakeKey(v, t) {
      FinishInjective(y, Blend(Mul(v, GAMMA), t));
    }
  }

  /** A user's own keys therefore differ. With the exact back ends a user's order for one sku is
      never taken for his own order of another sku. */
  lemma KeysOfOneUserDiffer(userId: Word, s: Word, t: Word)
    ensures MakeKey(userId, s) == MakeKey(userId, t) <==> s == t
  {
    KeysMeetExact(userId, s, userId, s);
    KeysMeetExact(userId, s, userId, t);
  }
}
