/** Base64url without padding (section 5 of RFC 4648), over byte strings. The 32-bit registers
    of the program are integers modulo 2^32; a shift by s places multiplies by 2^s or divides. */
module Base64Url {
  import opened Wrappers

  type byte = b: int | 0 <= b < 256
  type bytes = seq<byte>
  type Sextet = v: int | 0 <= v < 64

  const WRAP: nat := 0x1_0000_0000

  // ---- The alphabet and its reverse table ----

  /** A-Z, a-z, 0-9, '-', '_'. */
  function Alphabet(): (table: bytes)
    ensures |table| == 64
  {
    seq(26, i => 65 + i) + seq(26, i => 97 + i) + seq(10, i => 48 + i) + [45, 95]
  }

  /** The same table by ranges. */
  function Symbol(v: Sextet): byte {
    if v < 26 then 65 + v else if v < 52 then 71 + v else if v < 62 then v - 4 else if v == 62 then 45 else 95
  }

  lemma SymbolIsTable(v: Sextet)
    ensures Alphabet()[v] == Symbol(v)
  {}

  /** The value of a symbol, or -1 outside the alphabet. */
  function Value(c: byte): (v: int)
    ensures -1 <= v < 64
  {
    if 65 <= c <= 90 then c - 65
    else if 97 <= c <= 122 then c - 71
    else if 48 <= c <= 57 then c + 4
    else if c == 45 then 62
    else if c == 95 then 63
    else -1
  }

  /** The 64 symbols are distinct, and `Value` finds the place of each. */
  lemma ValueOfSymbol(v: Sextet, c: byte)
    ensures Value(Symbol(v)) == v
    ensures 0 <= Value(c) ==> Value(c) < 64 && Symbol(Value(c)) == c
    ensures -1 <= Value(c)
  {}

  method BuildReverse() returns (reverse: array<int>)
    ensures fresh(reverse) && reverse.Length == 256
    ensures forall c: byte :: reverse[c] == Value(c)
  {
    reverse := new int[256];
    for i := 0 to 256
      invariant forall c :: 0 <= c < i ==> reverse[c] == -1
    {
      reverse[i] := -1;
    }
    for i := 0 to 64
      invariant forall c: byte :: reverse[c] == if Value(c) < i then Value(c) else -1
    {
      SymbolIsTable(i);
      ValueOfSymbol(i, 0);
      forall c: byte ensures Value(c) == i ==> c == Symbol(i) { ValueOfSymbol(i, c); }
      reverse[Alphabet()[i]] := i;
    }
    forall c: byte ensures reverse[c] == Value(c) { ValueOfSymbol(0, c); }
  }

  // ---- Encoding ----

  /** The sextet of a 24-bit chunk that starts at bit s, `(chunk >> s) & 0x3f`. */
  function Sextet18(chunk: nat): Sextet { chunk / 0x4_0000 % 64 }
  function Sextet12(chunk: nat): Sextet { chunk / 0x1000 % 64 }
  function Sextet6(chunk: nat): Sextet { chunk / 0x40 % 64 }
  function Sextet0(chunk: nat): Sextet { chunk % 64 }

  function Chunk(a: byte, b: byte, c: byte): nat { a * 0x1_0000 + b * 0x100 + c }

  function Quad(chunk: nat): bytes {
    [Symbol(Sextet18(chunk)), Symbol(Sextet12(chunk)), Symbol(Sextet6(chunk)), Symbol(Sextet0(chunk))]
  }

  function Encode(raw: bytes): bytes {
    if |raw| == 0 then []
    else if |raw| == 1 then Quad(Chunk(raw[0], 0, 0))[..2]
    else if |raw| == 2 then Quad(Chunk(raw[0], raw[1], 0))[..3]
    else Quad(Chunk(raw[0], raw[1], raw[2])) + Encode(raw[3..])
  }

  lemma EncodeStep(raw: bytes, i: nat)
    requires i + 2 < |raw|
    ensures Encode(raw[i..]) == Quad(Chunk(raw[i], raw[i + 1], raw[i + 2])) + Encode(raw[i + 3..])
  {
    assert raw[i..][3..] == raw[i + 3..];
  }

  method Base64UrlEncode(raw: bytes) returns (out: bytes)
    ensures out == Encode(raw)
  {
    out := [];
    var i := 0;
    while i + 2 < |raw|
      invariant 0 <= i <= |raw|
      invariant out + Encode(raw[i..]) == Encode(raw)
    {
      var chunk := Chunk(raw[i], raw[i + 1], raw[i + 2]);
      EncodeStep(raw, i);
      assert out + (Quad(chunk) + Encode(raw[i + 3..])) == (out + Quad(chunk)) + Encode(raw[i + 3..]);
      out := out + Quad(chunk);
      i := i + 3;
    }
    var remain := |raw| - i;
    if remain == 1 {
      var chunk := Chunk(raw[i], 0, 0);
      out := out + Quad(chunk)[..2];
    } else if remain == 2 {
      var chunk := Chunk(raw[i], raw[i + 1], 0);
      out := out + Quad(chunk)[..3];
    }
  }

  /** ceil(4n/3) symbols, all of the alphabet; in particular never a dot. */
  lemma {:induction false} EncodeShape(raw: bytes)
    ensures |Encode(raw)| == (4 * |raw| + 2) / 3
    ensures forall i :: 0 <= i < |Encode(raw)| ==> 0 <= Value(Encode(raw)[i])
  {
    if |raw| == 0 {
    } else if |raw| < 3 {
      QuadInAlphabet(Chunk(raw[0], if |raw| == 2 then raw[1] else 0, 0));
    } else {
      QuadInAlphabet(Chunk(raw[0], raw[1], raw[2]));
      EncodeShape(raw[3..]);
    }
  }

  lemma QuadInAlphabet(chunk: nat)
    ensures forall i :: 0 <= i < 4 ==> 0 <= Value(Quad(chunk)[i])
  {
    ValueOfSymbol(Sextet18(chunk), 0);
    ValueOfSymbol(Sextet12(chunk), 0);
    ValueOfSymbol(Sextet6(chunk), 0);
    ValueOfSymbol(Sextet0(chunk), 0);
  }

  // ---- Decoding ----

  /** `acc >> bits` for the bit counts that occur. */
  function ShiftRight(acc: nat, bits: nat): nat {
    if bits == 0 then acc else if bits == 2 then acc / 4 else if bits == 4 then acc / 16 else acc / 64
  }

  /** One symbol shifted into the 32-bit accumulator, which wraps around. */
  function Feed(acc: nat, v: Sextet): nat { (acc * 64 + v) % WRAP }

  function Prepend(front: bytes, rest: Option<bytes>): Option<bytes> {
    match rest
    case None => None
    case Some(r) => Some(front + r)
  }

  /** The decoder from a state of its loop: an accumulator that is never masked, and the number
      of its low bits still to be delivered. */
  function DecodeFrom(acc: nat, bits: nat, s: bytes): Option<bytes>
    requires bits in {0, 2, 4, 6}
    decreases s
  {
    if s == [] then Some([])
    else if Value(s[0]) < 0 then None
    else if bits == 0 then DecodeFrom(Feed(acc, Value(s[0])), 6, s[1..])
    else
      Prepend([ShiftRight(Feed(acc, Value(s[0])), bits - 2) % 256],
              DecodeFrom(Feed(acc, Value(s[0])), bits - 2, s[1..]))
  }

  function Decode(s: bytes): Option<bytes> { DecodeFrom(0, 0, s) }

  lemma PrependNothing(r: Option<bytes>)
    ensures Prepend([], r) == r
  {
    if r.Some? {
      assert [] + r.value == r.value;
    }
  }

  lemma PrependTwice(a: bytes, b: bytes, r: Option<bytes>)
    ensures Prepend(a, Prepend(b, r)) == Prepend(a + b, r)
  {
    if r.Some? {
      assert a + (b + r.value) == (a + b) + r.value;
    }
  }

  method Base64UrlDecode(s: bytes) returns (ok: bool, out: bytes)
    ensures ok == Decode(s).Some?
    ensures ok ==> out == Decode(s).value
  {
    var reverse := BuildReverse();
    out := [];
    var acc, bits := 0, 0;
    assert s[0..] == s;
    PrependNothing(Decode(s));
    for i := 0 to |s|
      invariant bits in {0, 2, 4, 6} && 0 <= acc
      invariant forall c: byte :: reverse[c] == Value(c)
      invariant Decode(s) == Prepend(out, DecodeFrom(acc, bits, s[i..]))
    {
      var v := reverse[s[i]];
      assert s[i..][0] == s[i] && s[i..][1..] == s[i + 1..];
      assert out + [] == out;
      ValueOfSymbol(0, s[i]);
      if v < 0 {
        return false, out;
      }
      acc := Feed(acc, v);
      bits := bits + 6;
      if bits >= 8 {
        bits := bits - 8;
        PrependTwice(out, [ShiftRight(acc, bits) % 256], DecodeFrom(acc, bits, s[i + 1..]));
        out := out + [ShiftRight(acc, bits) % 256];
      }
    }
    return true, out;
  }

  // ---- Round trip ----

  // Feeding a symbol keeps the low bits exact, however often the accumulator has wrapped.

  lemma WrapTo(q: nat, r: nat)
    requires r < WRAP
    ensures (q * WRAP + r) % WRAP == r
  {}

  lemma FeedOnto0(acc: nat, v: Sextet)
    ensures Feed(acc, v) == (acc % 0x400_0000) * 0x40 + v
  {
    var q, r := acc / 0x400_0000, acc % 0x400_0000;
    assert acc * 64 + v == q * WRAP + (r * 0x40 + v);
    WrapTo(q, r * 0x40 + v);
  }

  lemma FeedOnto6(acc: nat, high: nat, low: nat, v: Sextet)
    requires acc == high * 0x40 + low && low < 0x40
    ensures Feed(acc, v) == (high % 0x10_0000) * 0x1000 + (64 * low + v)
  {
    var q, r := high / 0x10_0000, high % 0x10_0000;
    assert acc * 64 + v == q * WRAP + (r * 0x1000 + (64 * low + v));
    WrapTo(q, r * 0x1000 + (64 * low + v));
  }

  lemma FeedOnto12(acc: nat, high: nat, low: nat, v: Sextet)
    requires acc == high * 0x1000 + low && low < 0x1000
    ensures Feed(acc, v) == (high % 0x4000) * 0x4_0000 + (64 * low + v)
  {
    var q, r := high / 0x4000, high % 0x4000;
    assert acc * 64 + v == q * WRAP + (r * 0x4_0000 + (64 * low + v));
    WrapTo(q, r * 0x4_0000 + (64 * low + v));
  }

  lemma FeedOnto18(acc: nat, high: nat, low: nat, v: Sextet)
    requires acc == high * 0x4_0000 + low && low < 0x4_0000
    ensures Feed(acc, v) == (high % 0x100) * 0x100_0000 + (64 * low + v)
  {
    var q, r := high / 0x100, high % 0x100;
    assert acc * 64 + v == q * WRAP + (r * 0x100_0000 + (64 * low + v));
    WrapTo(q, r * 0x100_0000 + (64 * low + v));
  }

  lemma LowBits(h: nat, t: nat)
    ensures t < 0x1000 ==> (h * 0x1000 + t) % 0x1000 == t
    ensures t < 0x4_0000 ==> (h * 0x4_0000 + t) % 0x4_0000 == t
    ensures t < 0x100_0000 ==> (h * 0x100_0000 + t) % 0x100_0000 == t
  {}

  /** Two, three and four symbols fed into any accumulator leave their bits at its low end. */
  lemma FeedFour(acc: nat, v1: Sextet, v2: Sextet, v3: Sextet, v4: Sextet)
    ensures Feed(Feed(acc, v1), v2) % 0x1000 == 64 * v1 + v2
    ensures Feed(Feed(Feed(acc, v1), v2), v3) % 0x4_0000 == 0x1000 * v1 + 64 * v2 + v3
    ensures Feed(Feed(Feed(Feed(acc, v1), v2), v3), v4) % 0x100_0000
            == 0x4_0000 * v1 + 0x1000 * v2 + 64 * v3 + v4
  {
    FeedOnto0(acc, v1);
    var h2 := FeedNext6(Feed(acc, v1), acc % 0x400_0000, v1, v2);
    var h3 := FeedNext12(Feed(Feed(acc, v1), v2), h2, 64 * v1 + v2, v3);
    FeedLast(Feed(Feed(Feed(acc, v1), v2), v3), h3, 0x1000 * v1 + 64 * v2 + v3, v4);
  }

  lemma FeedNext6(acc: nat, high: nat, low: nat, v: Sextet) returns (h: nat)
    requires acc == high * 0x40 + low && low < 0x40
    ensures Feed(acc, v) == h * 0x1000 + (64 * low + v) && Feed(acc, v) % 0x1000 == 64 * low + v
  {
    h := high % 0x10_0000;
    FeedOnto6(acc, high, low, v);
    LowBits(h, 64 * low + v);
  }

  lemma FeedNext12(acc: nat, high: nat, low: nat, v: Sextet) returns (h: nat)
    requires acc == high * 0x1000 + low && low < 0x1000
    ensures Feed(acc, v) == h * 0x4_0000 + (64 * low + v) && Feed(acc, v) % 0x4_0000 == 64 * low + v
  {
    h := high % 0x4000;
    FeedOnto12(acc, high, low, v);
    LowBits(h, 64 * low + v);
  }

  lemma FeedLast(acc: nat, high: nat, low: nat, v: Sextet)
    requires acc == high * 0x4_0000 + low && low < 0x4_0000
    ensures Feed(acc, v) % 0x100_0000 == 64 * low + v
  {
    FeedOnto18(acc, high, low, v);
    LowBits(high % 0x100, 64 * low + v);
  }

  lemma TakeFirst(x: nat)
    ensures x / 16 % 256 == x % 0x1000 / 16
  {
    assert x / 16 == x / 0x1000 * 256 + x % 0x1000 / 16;
  }

  lemma DropMultiple(q: nat, t: nat)
    ensures (q * 256 + t) % 256 == t % 256
  {}

  lemma QuarterSplit(q: nat, r: nat)
    ensures (q * 0x4_0000 + r) / 4 == q * 256 * 256 + r / 4
  {}

  lemma TakeSecond(y: nat)
    ensures y / 4 % 256 == y % 0x4_0000 / 4 % 256
  {
    QuarterSplit(y / 0x4_0000, y % 0x4_0000);
    DropMultiple(y / 0x4_0000 * 256, y % 0x4_0000 / 4);
  }

  lemma TakeThird(z: nat)
    ensures z % 256 == z % 0x100_0000 % 256
  {
    assert z == z / 0x100_0000 * 0x1_0000 * 256 + z % 0x100_0000;
    DropMultiple(z / 0x100_0000 * 0x1_0000, z % 0x100_0000);
  }

  lemma SextetsOfChunk(a: byte, b: byte, c: byte)
    ensures Sextet18(Chunk(a, b, c)) == a / 4
    ensures Sextet12(Chunk(a, b, c)) == a % 4 * 16 + b / 16
    ensures Sextet6(Chunk(a, b, c)) == b % 16 * 4 + c / 64
    ensures Sextet0(Chunk(a, b, c)) == c % 64
  {
    var s1, s2, s3, s4 := a / 4, a % 4 * 16 + b / 16, b % 16 * 4 + c / 64, c % 64;
    assert Chunk(a, b, c) == s1 * 0x4_0000 + s2 * 0x1000 + s3 * 0x40 + s4;
    SextetsOfSum(s1, s2, s3, s4);
  }

  lemma SextetsOfSum(s1: Sextet, s2: Sextet, s3: Sextet, s4: Sextet)
    ensures var k := s1 * 0x4_0000 + s2 * 0x1000 + s3 * 0x40 + s4;
      Sextet18(k) == s1 && Sextet12(k) == s2 && Sextet6(k) == s3 && Sextet0(k) == s4
  {
    var k := s1 * 0x4_0000 + s2 * 0x1000 + s3 * 0x40 + s4;
    assert k / 0x4_0000 == s1;
    assert k / 0x1000 == s1 * 64 + s2;
    assert k / 0x40 == (s1 * 64 + s2) * 64 + s3;
  }

  lemma SumOfTwo(a: byte, b: byte, c: byte)
    ensures 64 * Sextet18(Chunk(a, b, c)) + Sextet12(Chunk(a, b, c)) == 16 * a + b / 16
  {
    SextetsOfChunk(a, b, c);
  }

  lemma SumOfThree(a: byte, b: byte, c: byte)
    ensures 0x1000 * Sextet18(Chunk(a, b, c)) + 64 * Sextet12(Chunk(a, b, c)) + Sextet6(Chunk(a, b, c))
            == 1024 * a + 4 * b + c / 64
  {
    SumOfTwo(a, b, c);
    SextetsOfChunk(a, b, c);
  }

  lemma SumOfFour(a: byte, b: byte, c: byte)
    ensures 0x4_0000 * Sextet18(Chunk(a, b, c)) + 0x1000 * Sextet12(Chunk(a, b, c))
            + 64 * Sextet6(Chunk(a, b, c)) + Sextet0(Chunk(a, b, c)) == 0x1_0000 * a + 0x100 * b + c
  {
    SumOfThree(a, b, c);
    SextetsOfChunk(a, b, c);
  }

  lemma FirstOfSums(a: byte, b: byte)
    ensures (16 * a + b / 16) / 16 == a
  {}

  lemma SecondOfSums(a: byte, b: byte, c: byte)
    ensures (1024 * a + 4 * b + c / 64) / 4 % 256 == b
  {
    assert (1024 * a + 4 * b + c / 64) / 4 == 256 * a + b;
    DropMultiple(a, b);
  }

  lemma ThirdOfSums(a: byte, b: byte, c: byte)
    ensures (0x1_0000 * a + 0x100 * b + c) % 256 == c
  {
    DropMultiple(0x100 * a + b, c);
  }

  /** The bytes that the decoder cuts out while a chunk is fed to it. */
  lemma FedBytes(acc: nat, a: byte, b: byte, c: byte)
    ensures var k := Chunk(a, b, c);
      var acc2 := Feed(Feed(acc, Sextet18(k)), Sextet12(k));
      var acc3 := Feed(acc2, Sextet6(k));
      && ShiftRight(acc2, 4) % 256 == a
      && ShiftRight(acc3, 2) % 256 == b
      && Feed(acc3, Sextet0(k)) % 256 == c
  {
    var k := Chunk(a, b, c);
    var v1, v2, v3, v4 := Sextet18(k), Sextet12(k), Sextet6(k), Sextet0(k);
    var acc2 := Feed(Feed(acc, v1), v2);
    FeedFour(acc, v1, v2, v3, v4);
    SumOfTwo(a, b, c);
    SumOfThree(a, b, c);
    SumOfFour(a, b, c);
    FirstOfSums(a, b);
    SecondOfSums(a, b, c);
    ThirdOfSums(a, b, c);
    TakeFirst(acc2);
    TakeSecond(Feed(acc2, v3));
    TakeThird(Feed(Feed(acc2, v3), v4));
  }

  /** The decoder's step on one symbol. */
  lemma DecodeSymbol(acc: nat, bits: nat, v: Sextet, rest: bytes)
    requires bits in {0, 2, 4, 6}
    ensures bits == 0 ==> DecodeFrom(acc, 0, [Symbol(v)] + rest) == DecodeFrom(Feed(acc, v), 6, rest)
    ensures bits > 0 ==>
              DecodeFrom(acc, bits, [Symbol(v)] + rest)
              == Prepend([ShiftRight(Feed(acc, v), bits - 2) % 256], DecodeFrom(Feed(acc, v), bits - 2, rest))
  {
    ValueOfSymbol(v, 0);
    assert ([Symbol(v)] + rest)[1..] == rest;
  }

  /** The symbols of one whole chunk give its three bytes, whatever the accumulator still holds. */
  lemma DecodeQuad(acc: nat, a: byte, b: byte, c: byte, rest: bytes) returns (acc4: nat)
    ensures DecodeFrom(acc, 0, Quad(Chunk(a, b, c)) + rest) == Prepend([a, b, c], DecodeFrom(acc4, 0, rest))
  {
    var k := Chunk(a, b, c);
    var v1, v2, v3, v4 := Sextet18(k), Sextet12(k), Sextet6(k), Sextet0(k);
    var acc1 := Feed(acc, v1);
    var acc2 := Feed(acc1, v2);
    var acc3 := Feed(acc2, v3);
    acc4 := Feed(acc3, v4);
    FedBytes(acc, a, b, c);
    var s4 := [Symbol(v4)] + rest;
    var s3 := [Symbol(v3)] + s4;
    var s2 := [Symbol(v2)] + s3;
    assert Quad(k) + rest == [Symbol(v1)] + s2;
    DecodeSymbol(acc, 0, v1, s2);
    DecodeSymbol(acc1, 6, v2, s3);
    DecodeSymbol(acc2, 4, v3, s4);
    DecodeSymbol(acc3, 2, v4, rest);
    PrependThree(a, b, c, DecodeFrom(acc4, 0, rest));
  }

  lemma PrependThree(a: byte, b: byte, c: byte, r: Option<bytes>)
    ensures Prepend([a], Prepend([b], Prepend([c], r))) == Prepend([a, b, c], r)
  {
    if r.Some? {
      assert [a] + ([b] + ([c] + r.value)) == [a, b, c] + r.value;
    }
  }

  /** The first two symbols of a chunk already carry its first byte. */
  lemma DecodePair(acc: nat, a: byte, b: byte, c: byte)
    ensures DecodeFrom(acc, 0, Quad(Chunk(a, b, c))[..2]) == Some([a])
  {
    var k := Chunk(a, b, c);
    var v1, v2 := Sextet18(k), Sextet12(k);
    FedBytes(acc, a, b, c);
    var s2 := [Symbol(v2)] + [];
    assert Quad(k)[..2] == [Symbol(v1)] + s2;
    DecodeSymbol(acc, 0, v1, s2);
    DecodeSymbol(Feed(acc, v1), 6, v2, []);
    assert [a] + [] == [a];
  }

  /** The first three symbols of a chunk carry its first two bytes. */
  lemma DecodeTriple(acc: nat, a: byte, b: byte, c: byte)
    ensures DecodeFrom(acc, 0, Quad(Chunk(a, b, c))[..3]) == Some([a, b])
  {
    var k := Chunk(a, b, c);
    var v1, v2, v3 := Sextet18(k), Sextet12(k), Sextet6(k);
    var acc1 := Feed(acc, v1);
    var acc2 := Feed(acc1, v2);
    FedBytes(acc, a, b, c);
    var s3 := [Symbol(v3)] + [];
    var s2 := [Symbol(v2)] + s3;
    assert Quad(k)[..3] == [Symbol(v1)] + s2;
    DecodeSymbol(acc, 0, v1, s2);
    DecodeSymbol(acc1, 6, v2, s3);
    DecodeSymbol(acc2, 4, v3, []);
    assert [a] + ([b] + []) == [a, b];
  }

  lemma ShortRoundTrip(acc: nat, raw: bytes)
    requires 1 <= |raw| <= 2
    ensures DecodeFrom(acc, 0, Encode(raw)) == Some(raw)
  {
    if |raw| == 1 {
      DecodePair(acc, raw[0], 0, 0);
      assert raw == [raw[0]];
    } else {
      DecodeTriple(acc, raw[0], raw[1], 0);
      assert raw == [raw[0], raw[1]];
    }
  }

  lemma LongRoundTrip(acc: nat, raw: bytes) returns (acc': nat)
    requires 3 <= |raw|
    ensures DecodeFrom(acc, 0, Encode(raw)) == Prepend(raw[..3], DecodeFrom(acc', 0, Encode(raw[3..])))
  {
    acc' := DecodeQuad(acc, raw[0], raw[1], raw[2], Encode(raw[3..]));
    assert raw[..3] == [raw[0], raw[1], raw[2]];
  }

  lemma {:induction false} RoundTripFrom(acc: nat, raw: bytes)
    ensures DecodeFrom(acc, 0, Encode(raw)) == Some(raw)
    decreases |raw|
  {
    if |raw| == 0 {
    } else if |raw| < 3 {
      ShortRoundTrip(acc, raw);
    } else {
      var acc' := LongRoundTrip(acc, raw);
      RoundTripFrom(acc', raw[3..]);
      assert raw[..3] + raw[3..] == raw;
    }
  }

  /** Decoding an encoded byte string returns it, for every length. */
  lemma RoundTrip(raw: bytes)
    ensures Decode(Encode(raw)) == Some(raw)
  {
    RoundTripFrom(0, raw);
  }

  // ---- The other way round ----

  /** A text over the alphabet, of a possible length, whose leftover bits are zero. */
  predicate Canonical(s: bytes) {
    if |s| == 0 then true
    else if |s| == 1 then false
    else if |s| == 2 then 0 <= Value(s[0]) && 0 <= Value(s[1]) && Value(s[1]) % 16 == 0
    else if |s| == 3 then 0 <= Value(s[0]) && 0 <= Value(s[1]) && 0 <= Value(s[2]) && Value(s[2]) % 4 == 0
    else 0 <= Value(s[0]) && 0 <= Value(s[1]) && 0 <= Value(s[2]) && 0 <= Value(s[3]) && Canonical(s[4..])
  }

  lemma Regrouped(v1: Sextet, h2: nat, l2: nat, h3: nat, l3: nat, v4: Sextet)
    requires h2 < 4 && l2 < 16 && h3 < 16 && l3 < 4
    ensures Chunk(4 * v1 + h2, 16 * l2 + h3, 64 * l3 + v4)
      == v1 * 0x4_0000 + (16 * h2 + l2) * 0x1000 + (4 * h3 + l3) * 0x40 + v4
  {}

  lemma HighLow(v: Sextet)
    ensures v / 16 < 4 && v % 16 < 16 && v == 16 * (v / 16) + v % 16
    ensures v / 4 < 16 && v % 4 < 4 && v == 4 * (v / 4) + v % 4
  {}

  /** Three bytes that four symbols stand for. */
  lemma QuadOfSymbols(v1: Sextet, v2: Sextet, v3: Sextet, v4: Sextet) returns (a: byte, b: byte, c: byte)
    ensures Quad(Chunk(a, b, c)) == [Symbol(v1), Symbol(v2), Symbol(v3), Symbol(v4)]
    ensures v2 % 16 == 0 && v3 == 0 ==> b == 0
    ensures v3 % 4 == 0 && v4 == 0 ==> c == 0
  {
    HighLow(v2);
    HighLow(v3);
    var h2, l2, h3, l3 := v2 / 16, v2 % 16, v3 / 4, v3 % 4;
    a, b, c := 4 * v1 + h2, 16 * l2 + h3, 64 * l3 + v4;
    Regrouped(v1, h2, l2, h3, l3, v4);
    SextetsOfSum(v1, v2, v3, v4);
  }

  /** The symbol back from its value. */
  function SymbolAt(s: bytes, i: nat): (v: Sextet)
    requires i < |s| && 0 <= Value(s[i])
    ensures Symbol(v) == s[i]
  {
    ValueOfSymbol(0, s[i]);
    Value(s[i])
  }

  lemma PairIsEncoded(s: bytes) returns (raw: bytes)
    requires Canonical(s) && |s| == 2
    ensures Encode(raw) == s
  {
    var a, b, c := QuadOfSymbols(SymbolAt(s, 0), SymbolAt(s, 1), 0, 0);
    raw := [a];
    assert s == [s[0], s[1]];
  }

  lemma TripleIsEncoded(s: bytes) returns (raw: bytes)
    requires Canonical(s) && |s| == 3
    ensures Encode(raw) == s
  {
    var a, b, c := QuadOfSymbols(SymbolAt(s, 0), SymbolAt(s, 1), SymbolAt(s, 2), 0);
    raw := [a, b];
    assert s == [s[0], s[1], s[2]];
  }

  lemma QuadIsEncoded(s: bytes, rest: bytes) returns (raw: bytes)
    requires Canonical(s) && 4 <= |s| && Encode(rest) == s[4..]
    ensures Encode(raw) == s
  {
    var a, b, c := QuadOfSymbols(SymbolAt(s, 0), SymbolAt(s, 1), SymbolAt(s, 2), SymbolAt(s, 3));
    raw := [a, b, c] + rest;
    assert raw[3..] == rest;
    assert s == [s[0], s[1], s[2], s[3]] + s[4..];
  }

  lemma {:induction false} CanonicalIsEncoded(s: bytes) returns (raw: bytes)
    requires Canonical(s)
    ensures Encode(raw) == s
    decreases |s|
  {
    if |s| == 0 {
      raw := [];
    } else if |s| == 2 {
      raw := PairIsEncoded(s);
    } else if |s| == 3 {
      raw := TripleIsEncoded(s);
    } else {
      var rest := CanonicalIsEncoded(s[4..]);
      raw := QuadIsEncoded(s, rest);
    }
  }

  lemma QuadIsCanonical(k: nat, rest: bytes)
    requires Canonical(rest)
    ensures Canonical(Quad(k) + rest)
  {
    QuadInAlphabet(k);
    assert (Quad(k) + rest)[4..] == rest;
  }

  lemma Multiples(q: nat)
    ensures q * 16 % 16 == 0 && q * 4 % 4 == 0
  {}

  lemma SymbolsAreCanonical(v1: Sextet, v2: Sextet, v3: Sextet)
    ensures v2 % 16 == 0 ==> Canonical([Symbol(v1), Symbol(v2)])
    ensures v3 % 4 == 0 ==> Canonical([Symbol(v1), Symbol(v2), Symbol(v3)])
  {
    ValueOfSymbol(v1, 0);
    ValueOfSymbol(v2, 0);
    ValueOfSymbol(v3, 0);
  }

  lemma ChunkSymbols(a: byte, b: byte) returns (v1: Sextet, v2: Sextet, v3: Sextet, v4: Sextet)
    ensures Quad(Chunk(a, b, 0)) == [Symbol(v1), Symbol(v2), Symbol(v3), Symbol(v4)]
    ensures v2 == a % 4 * 16 + b / 16 && v3 == b % 16 * 4
  {
    var k := Chunk(a, b, 0);
    v1, v2, v3, v4 := Sextet18(k), Sextet12(k), Sextet6(k), Sextet0(k);
    SextetsOfChunk(a, b, 0);
  }

  lemma OneIsCanonical(a: byte)
    ensures Canonical(Quad(Chunk(a, 0, 0))[..2])
  {
    var v1, v2, v3, v4 := ChunkSymbols(a, 0);
    Multiples(a % 4);
    SymbolsAreCanonical(v1, v2, v3);
    assert Quad(Chunk(a, 0, 0))[..2] == [Symbol(v1), Symbol(v2)];
  }

  lemma TwoAreCanonical(a: byte, b: byte)
    ensures Canonical(Quad(Chunk(a, b, 0))[..3])
  {
    var v1, v2, v3, v4 := ChunkSymbols(a, b);
    Multiples(b % 16);
    SymbolsAreCanonical(v1, v2, v3);
    assert Quad(Chunk(a, b, 0))[..3] == [Symbol(v1), Symbol(v2), Symbol(v3)];
  }

  lemma {:induction false} EncodedIsCanonical(raw: bytes)
    ensures Canonical(Encode(raw))
    decreases |raw|
  {
    if |raw| == 1 {
      OneIsCanonical(raw[0]);
    } else if |raw| == 2 {
      TwoAreCanonical(raw[0], raw[1]);
    } else if |raw| >= 3 {
      EncodedIsCanonical(raw[3..]);
      QuadIsCanonical(Chunk(raw[0], raw[1], raw[2]), Encode(raw[3..]));
    }
  }

  /** The decoder ignores leftover bits, so a text that it accepts need not be the encoding of what
      it yields. It is, if and only if it is canonical. */
  lemma ReencodeExact(s: bytes)
    requires Decode(s).Some?
    ensures Encode(Decode(s).value) == s <==> Canonical(s)
  {
    EncodedIsCanonical(Decode(s).value);
    if Canonical(s) {
      var raw := CanonicalIsEncoded(s);
      RoundTrip(raw);
    }
  }

  /** Some examples of section 10 of RFC 4648, without their padding. */
  lemma Rfc4648Examples()
    ensures Encode([]) == []
    ensures Encode([102]) == [90, 103]                                       // f, Zg
    ensures Encode([102, 111]) == [90, 109, 56]                              // fo, Zm8
    ensures Encode([102, 111, 111]) == [90, 109, 57, 118]                    // foo, Zm9v
  {
    SextetsOfChunk(102, 0, 0);
    SextetsOfChunk(102, 111, 0);
    SextetsOfChunk(102, 111, 111);
  }

  /** The two symbols in which the alphabet of section 5 differs from that of section 4. */
  lemma UrlSafeExample()
    ensures Encode([251, 255]) == [45, 95, 56]                               // -_8
  {
    SextetsOfChunk(251, 255, 0);
  }

  /** The decoder accepts exactly the texts over the alphabet, whatever their length, and yields a
      byte for every full eight bits. */
  lemma DecodeExact(s: bytes)
    ensures Decode(s).Some? <==> forall i :: 0 <= i < |s| ==> 0 <= Value(s[i])
    ensures Decode(s).Some? ==> |Decode(s).value| == 6 * |s| / 8
  {
    DecodeFromExact(0, 0, s);
  }

  lemma {:induction false} DecodeFromExact(acc: nat, bits: nat, s: bytes)
    requires bits in {0, 2, 4, 6}
    ensures DecodeFrom(acc, bits, s).Some? <==> forall i :: 0 <= i < |s| ==> 0 <= Value(s[i])
    ensures DecodeFrom(acc, bits, s).Some? ==> |DecodeFrom(acc, bits, s).value| == (6 * |s| + bits) / 8
    decreases |s|
  {
    if s != [] && 0 <= Value(s[0]) {
      var acc' := Feed(acc, Value(s[0]));
      DecodeFromExact(acc', if bits == 0 then 6 else bits - 2, s[1..]);
    }
  }
}
