/** Unsigned 64-bit words: integers below 2^64 whose sums and products wrap around, and the
    row of 64 bits that each of them stands for, low bit first. */
module Words {

  const SIZE: nat := 0x1_0000_0000_0000_0000

  type Word = w: nat | w < SIZE

  type Bits = b: seq<bool> | |b| == 64 witness seq(64, i => false)

  function Add(a: Word, b: Word): Word { (a + b) % SIZE }

  function Sub(a: Word, b: Word): Word { (a - b) % SIZE }

  function Mul(a: Word, b: Word): Word { (a * b) % SIZE }

  // ---- A word and its bits ----

  function Pow2(n: nat): nat { if n == 0 then 1 else 2 * Pow2(n - 1) }

  function Spell(n: nat, len: nat): (b: seq<bool>)
    ensures |b| == len
  {
    if len == 0 then [] else [n % 2 == 1] + Spell(n / 2, len - 1)
  }

  function Read(b: seq<bool>): nat {
    if b == [] then 0 else (if b[0] then 1 else 0) + 2 * Read(b[1..])
  }

  lemma {:induction false} ReadBound(b: seq<bool>)
    ensures Read(b) < Pow2(|b|)
  {
    if b != [] {
      ReadBound(b[1..]);
    }
  }

  lemma {:induction false} ReadSpell(n: nat, len: nat)
    requires n < Pow2(len)
    ensures Read(Spell(n, len)) == n
  {
    if len > 0 {
      ReadSpell(n / 2, len - 1);
      assert Spell(n, len)[1..] == Spell(n / 2, len - 1);
    }
  }

  lemma {:induction false} SpellRead(b: seq<bool>)
    ensures Spell(Read(b), |b|) == b
  {
    if b != [] {
      SpellRead(b[1..]);
      assert Read(b) / 2 == Read(b[1..]);
    }
  }

  lemma SixtyFour()
    ensures Pow2(64) == SIZE
  {
    assert Pow2(4) == 16;
    PowAdd(4, 4);
    PowAdd(8, 8);
    PowAdd(16, 16);
    PowAdd(32, 32);
  }

  lemma {:induction false} PowAdd(m: nat, n: nat)
    ensures Pow2(m + n) == Pow2(m) * Pow2(n)
  {
    if m > 0 {
      PowAdd(m - 1, n);
    }
  }

  function BitsOf(w: Word): Bits { Spell(w, 64) }

  function WordOf(b: Bits): Word {
    ReadBound(b);
    SixtyFour();
    Read(b)
  }

  /** Words and rows of 64 bits are in one-to-one correspondence. */
  lemma WordBits(w: Word, b: Bits)
    ensures WordOf(BitsOf(w)) == w
    ensures BitsOf(WordOf(b)) == b
  {
    SixtyFour();
    ReadSpell(w, 64);
    SpellRead(b);
  }

  // ---- Bitwise operations ----

  const ZERO: Bits := seq(64, i => false)

  /** The word `1 << i`. */
  function Mask(i: nat): Bits
    requires i < 64
  {
    seq(64, k => k == i)
  }

  function OrBits(a: Bits, b: Bits): Bits { seq(64, k requires 0 <= k < 64 => a[k] || b[k]) }

  function AndBits(a: Bits, b: Bits): Bits { seq(64, k requires 0 <= k < 64 => a[k] && b[k]) }

  function NotBits(a: Bits): Bits { seq(64, k requires 0 <= k < 64 => !a[k]) }

  function XorBits(a: Bits, b: Bits): Bits { seq(64, k requires 0 <= k < 64 => a[k] != b[k]) }

  function ShrBits(a: Bits, n: nat): Bits { seq(64, k requires 0 <= k < 64 => k + n < 64 && a[k + n]) }

  function ShlBits(a: Bits, n: nat): Bits { seq(64, k requires 0 <= k < 64 => n <= k && a[k - n]) }

  function Xor(a: Word, b: Word): Word { WordOf(XorBits(BitsOf(a), BitsOf(b))) }

  function Or(a: Word, b: Word): Word { WordOf(OrBits(BitsOf(a), BitsOf(b))) }

  function Shr(a: Word, n: nat): Word { WordOf(ShrBits(BitsOf(a), n)) }

  function Shl(a: Word, n: nat): Word { WordOf(ShlBits(BitsOf(a), n)) }

  /** The program's test `(w & (1 << i)) != 0` reads exactly bit i. */
  lemma MaskTest(w: Bits, i: nat)
    requires i < 64
    ensures AndBits(w, Mask(i)) != ZERO <==> w[i]
  {
    if w[i] {
      assert AndBits(w, Mask(i))[i] && !ZERO[i];
    } else {
      assert AndBits(w, Mask(i)) == ZERO;
    }
  }

  /** Or-ing a mask in sets that bit and no other. */
  lemma OrMask(w: Bits, i: nat)
    requires i < 64
    ensures OrBits(w, Mask(i)) == w[i := true]
  {}

  /** And-ing the complement of a mask clears that bit and no other. */
  lemma AndNotMask(w: Bits, i: nat)
    requires i < 64
    ensures AndBits(w, NotBits(Mask(i))) == w[i := false]
  {}

  lemma XorCancel(a: Word, b: Word)
    ensures Xor(Xor(a, b), b) == a
  {
    WordBits(a, XorBits(BitsOf(a), BitsOf(b)));
    assert XorBits(XorBits(BitsOf(a), BitsOf(b)), BitsOf(b)) == BitsOf(a);
  }

  lemma XorTwice(h: Word, b: Word)
    ensures Xor(h, Xor(h, b)) == b
  {
    WordBits(b, XorBits(BitsOf(h), BitsOf(b)));
    assert XorBits(BitsOf(h), XorBits(BitsOf(h), BitsOf(b))) == BitsOf(b);
  }

  /** Or-ing in an exclusive or keeps zero exactly while both words agree. */
  lemma OrXorZero(d: Word, a: Word, b: Word)
    ensures Or(d, Xor(a, b)) == 0 <==> d == 0 && a == b
  {
    var D, A, B := BitsOf(d), BitsOf(a), BitsOf(b);
    WordBits(0, ZERO);
    ZeroBits();
    WordBits(d, XorBits(A, B));
    WordBits(a, OrBits(D, XorBits(A, B)));
    WordBits(b, B);
    if Or(d, Xor(a, b)) == 0 {
      assert OrBits(D, XorBits(A, B)) == ZERO;
      forall k | 0 <= k < 64 ensures D[k] == ZERO[k] && A[k] == B[k] {
        assert OrBits(D, XorBits(A, B))[k] == ZERO[k];
      }
      assert D == ZERO && A == B;
    }
    if d == 0 && a == b {
      assert OrBits(D, XorBits(A, B)) == ZERO;
    }
  }

  lemma ZeroBits()
    ensures BitsOf(0) == ZERO
  {
    SpellZero(64);
  }

  lemma {:induction false} SpellZero(len: nat)
    ensures Spell(0, len) == seq(len, i => false)
  {
    if len > 0 {
      SpellZero(len - 1);
    }
  }

  // ---- Shifts in numbers ----

  lemma {:induction false} ReadAppend(x: seq<bool>, y: seq<bool>, p: nat)
    requires p == Pow2(|x|)
    ensures Read(x + y) == Read(x) + p * Read(y)
  {
    if x == [] {
      assert x + y == y;
    } else {
      var q := Pow2(|x| - 1);
      assert (x + y)[1..] == x[1..] + y;
      ReadAppend(x[1..], y, q);
      AppendStep(if x[0] then 1 else 0, Read(x[1..]), q, Read(y), Read(x[1..] + y), p);
    }
  }

  lemma AppendStep(bit: nat, x: nat, q: nat, y: nat, r: nat, p: nat)
    requires r == x + q * y && p == 2 * q
    ensures bit + 2 * r == bit + 2 * x + p * y
  {
    assert p * y == 2 * (q * y);
  }

  lemma {:induction false} ReadPadded(y: seq<bool>, z: seq<bool>)
    requires forall i :: 0 <= i < |z| ==> !z[i]
    ensures Read(y + z) == Read(y)
  {
    if y != [] {
      assert (y + z)[1..] == y[1..] + z;
      ReadPadded(y[1..], z);
    } else {
      assert y + z == z;
      if z != [] {
        ReadPadded([], z[1..]);
        assert [] + z[1..] == z[1..];
      }
    }
  }

  /** A right shift divides by the power of two and forgets the remainder. */
  lemma ShrExact(a: Word, n: nat, p: nat) returns (low: nat)
    requires n <= 64 && p == Pow2(n)
    ensures a == low + p * Shr(a, n) && low < p
  {
    var b := BitsOf(a);
    low := Read(b[..n]);
    ReadBound(b[..n]);
    ReadAppend(b[..n], b[n..], p);
    assert b == b[..n] + b[n..];
    WordBits(a, ShrBits(b, n));
    ShiftedOut(b, n);
  }

  lemma ShiftedOut(b: Bits, n: nat)
    requires n <= 64
    ensures Read(ShrBits(b, n)) == Read(b[n..])
  {
    var z := ShrBits(b, n)[64 - n..];
    assert ShrBits(b, n) == b[n..] + z;
    ReadPadded(b[n..], z);
  }

  /** A left shift multiplies by the power of two, modulo 2^64. */
  lemma ShlExact(a: Word, n: nat, p: nat) returns (high: nat)
    requires n <= 64 && p == Pow2(n)
    ensures p * a == Shl(a, n) + SIZE * high
  {
    var b := BitsOf(a);
    var front, q := b[..64 - n], Pow2(64 - n);
    high := Read(b[64 - n..]);
    ReadAppend(front, b[64 - n..], q);
    assert b == front + b[64 - n..];
    WordBits(a, ShlBits(b, n));
    ShiftedIn(b, n, p);
    PowAdd(n, 64 - n);
    SixtyFour();
    Spread(p, Read(front), q, high, a);
  }

  lemma ShiftedIn(b: Bits, n: nat, p: nat)
    requires n <= 64 && p == Pow2(n)
    ensures Read(ShlBits(b, n)) == p * Read(b[..64 - n])
  {
    var z := ShlBits(b, n)[..n];
    assert ShlBits(b, n) == z + b[..64 - n];
    ReadAppend(z, b[..64 - n], p);
    ReadPadded([], z);
    assert [] + z == z;
  }

  lemma Spread(p: nat, x: nat, q: nat, y: nat, a: nat)
    requires a == x + q * y && p * q == SIZE
    ensures p * a == p * x + SIZE * y
  {
    assert p * (q * y) == (p * q) * y;
  }

  // ---- The two kinds of mixing step, with their inverses ----

  function XorShift(w: Word, n: nat): Word { Xor(w, Shr(w, n)) }

  /** Undoes `w ^ (w >> n)` when three shifts leave the word. */
  function UnXorShift(w: Word, n: nat): Word { Xor(XorShift(w, n), Shr(w, 2 * n)) }

  lemma XorShiftBits(w: Word, n: nat)
    ensures BitsOf(XorShift(w, n)) == XorBits(BitsOf(w), ShrBits(BitsOf(w), n))
  {
    WordBits(w, ShrBits(BitsOf(w), n));
    WordBits(w, XorBits(BitsOf(w), ShrBits(BitsOf(w), n)));
  }

  lemma UnXorShiftBits(w: Word, n: nat)
    ensures BitsOf(UnXorShift(w, n)) == XorBits(BitsOf(XorShift(w, n)), ShrBits(BitsOf(w), 2 * n))
  {
    WordBits(w, ShrBits(BitsOf(w), 2 * n));
    WordBits(w, XorBits(BitsOf(XorShift(w, n)), ShrBits(BitsOf(w), 2 * n)));
  }

  lemma XorShiftInverse(w: Word, n: nat)
    requires 22 <= n
    ensures UnXorShift(XorShift(w, n), n) == w
    ensures XorShift(UnXorShift(w, n), n) == w
  {
    UnXorShiftAfter(w, n);
    UnXorShiftBefore(w, n);
  }

  lemma UnXorShiftAfter(w: Word, n: nat)
    requires 22 <= n
    ensures UnXorShift(XorShift(w, n), n) == w
  {
    var b := BitsOf(w);
    XorShiftBits(w, n);
    XorShiftBits(XorShift(w, n), n);
    UnXorShiftBits(XorShift(w, n), n);
    assert BitsOf(UnXorShift(XorShift(w, n), n)) == b;
    WordBits(w, b);
    WordBits(UnXorShift(XorShift(w, n), n), b);
  }

  lemma UnXorShiftBefore(w: Word, n: nat)
    requires 22 <= n
    ensures XorShift(UnXorShift(w, n), n) == w
  {
    var b := BitsOf(w);
    XorShiftBits(w, n);
    UnXorShiftBits(w, n);
    XorShiftBits(UnXorShift(w, n), n);
    assert BitsOf(XorShift(UnXorShift(w, n), n)) == b;
    WordBits(w, b);
    WordBits(XorShift(UnXorShift(w, n), n), b);
  }

  /** Multiplying by c and then by its inverse modulo 2^64 gives the word back. */
  lemma MulInverse(w: Word, c: Word, d: Word)
    requires (c * d) % SIZE == 1
    ensures Mul(Mul(w, c), d) == w
  {
    var q, r := (w * c) / SIZE, (c * d) / SIZE;
    Products(w, c, d, Mul(w, c), q, r);
    AddMultiple(w, w * r - q * d);
  }

  lemma Products(w: nat, c: nat, d: nat, m: nat, q: nat, r: nat)
    requires w * c == q * SIZE + m && c * d == r * SIZE + 1
    ensures m * d == w + (w * r - q * d) * SIZE
  {
    assert (w * c) * d == w * (c * d);
    assert (q * SIZE + m) * d == (q * d) * SIZE + m * d;
    assert w * (r * SIZE + 1) == (w * r) * SIZE + w;
  }

  lemma AddMultiple(w: Word, k: int)
    ensures (w + k * SIZE) % SIZE == w
  {}
}
