/** Decimal text of 64-bit integers: `std::to_string` and `std::stoll`. */
module Decimal {
  import opened Wrappers
  import opened Base64Url

  const INT64_MIN: int := -0x8000_0000_0000_0000
  const INT64_MAX: int := 0x7fff_ffff_ffff_ffff

  predicate Fits(n: int) { INT64_MIN <= n <= INT64_MAX }

  predicate IsDigit(c: byte) { 48 <= c <= 57 }

  predicate IsSpace(c: byte) { c == 32 || 9 <= c <= 13 }

  function Digits(n: nat): bytes {
    if n < 10 then [48 + n] else Digits(n / 10) + [48 + n % 10]
  }

  function ToText(n: int): bytes {
    if n < 0 then [45] + Digits(-n) else Digits(n)
  }

  /** The longest run of digits from here on, given the value read so far. */
  function Scan(s: bytes, value: nat, seen: bool): Option<nat> {
    if s != [] && IsDigit(s[0]) then Scan(s[1..], 10 * value + s[0] - 48, true)
    else if seen then Some(value)
    else None
  }

  function SkipSpace(s: bytes): bytes {
    if s != [] && IsSpace(s[0]) then SkipSpace(s[1..]) else s
  }

  function Negate(minus: bool, m: int): int { if minus then -m else m }

  /** `std::stoll`: leading blanks, an optional sign, then digits; what follows them is ignored.
      None stands for the two exceptions, no digits and out of range. */
  function Stoll(s: bytes): Option<int> { Signed(SkipSpace(s)) }

  function Signed(t: bytes): Option<int> {
    if t != [] && (t[0] == 43 || t[0] == 45) then InRange(t[0] == 45, Scan(t[1..], 0, false))
    else InRange(false, Scan(t, 0, false))
  }

  function InRange(minus: bool, m: Option<nat>): Option<int> {
    if m.Some? && Fits(Negate(minus, m.value)) then Some(Negate(minus, m.value)) else None
  }

  lemma {:induction false} ScanDigits(n: nat, t: bytes, seen: bool)
    ensures Scan(Digits(n) + t, 0, seen) == Scan(t, n, true)
    ensures IsDigit(Digits(n)[0])
  {
    if n < 10 {
      assert (Digits(n) + t)[1..] == t;
    } else {
      var u := [48 + n % 10] + t;
      ScanDigits(n / 10, u, seen);
      assert Digits(n) + t == Digits(n / 10) + u;
      assert u[1..] == t;
    }
  }

  /** Reading back the decimal text of a 64-bit integer gives the integer. */
  lemma TextRoundTrip(n: int)
    requires Fits(n)
    ensures Stoll(ToText(n)) == Some(n)
  {
    var m := if n < 0 then -n else n;
    ScanDigits(m, [], false);
    assert Digits(m) + [] == Digits(m);
    if n < 0 {
      assert ToText(n)[1..] == Digits(m);
    }
  }

  lemma TextInjective(m: int, n: int)
    requires Fits(m) && Fits(n)
    ensures ToText(m) == ToText(n) <==> m == n
  {
    TextRoundTrip(m);
    TextRoundTrip(n);
  }

  predicate AllDigits(s: bytes) { forall i :: 0 <= i < |s| ==> IsDigit(s[i]) }

  /** The text of a number is its shortest decimal form: digits, a minus exactly for what is below
      zero, and no leading zero but for zero itself. */
  lemma TextShape(n: int)
    ensures var t, m := ToText(n), if n < 0 then -n else n;
      && (n < 0 <==> t[0] == 45)
      && var d := if n < 0 then t[1..] else t;
         d != [] && AllDigits(d) && (d[0] == 48 <==> n == 0) && (n == 0 ==> |d| == 1)
  {
    DigitsShape(if n < 0 then -n else n);
    if n < 0 {
      assert ToText(n)[1..] == Digits(-n);
    }
  }

  lemma {:induction false} DigitsShape(m: nat)
    ensures Digits(m) != [] && AllDigits(Digits(m)) && (Digits(m)[0] == 48 <==> m == 0)
    ensures m == 0 ==> |Digits(m)| == 1
  {
    if m >= 10 {
      DigitsShape(m / 10);
    }
  }

  // ---- What `stoll` reads ----

  /** The number that a row of digits writes. */
  function Number(d: bytes): nat
    requires AllDigits(d)
  {
    if d == [] then 0 else assert IsDigit(d[|d| - 1]); 10 * Number(d[..|d| - 1]) + (d[|d| - 1] - 48)
  }

  predicate Stops(s: bytes) { s == [] || !IsDigit(s[0]) }

  lemma {:induction false} ScanReads(done: bytes, d: bytes, rest: bytes)
    requires AllDigits(done) && AllDigits(d) && Stops(rest)
    ensures Scan(d + rest, Number(done), done != []) ==
      if done + d == [] then None else Some(Number(done + d))
    decreases |d|
  {
    if d == [] {
      assert d + rest == rest && done + d == done;
    } else {
      var next := done + [d[0]];
      assert next[..|next| - 1] == done;
      assert (d + rest)[1..] == d[1..] + rest;
      assert next + d[1..] == done + d;
      ScanReads(next, d[1..], rest);
    }
  }

  lemma {:induction false} SkipsBlanks(sp: bytes, t: bytes)
    requires (forall i :: 0 <= i < |sp| ==> IsSpace(sp[i])) && (t == [] || !IsSpace(t[0]))
    ensures SkipSpace(sp + t) == t
  {
    if sp == [] {
      assert sp + t == t;
    } else {
      assert (sp + t)[1..] == sp[1..] + t;
      SkipsBlanks(sp[1..], t);
    }
  }

  /** A text of blanks, a sign or none, digits and then anything else reads as that number, if there
      are digits and it fits into 64 bits, and as nothing otherwise. Every text is of this form (`EveryText`). */
  lemma StollExact(sp: bytes, sign: bytes, d: bytes, rest: bytes)
    requires forall i :: 0 <= i < |sp| ==> IsSpace(sp[i])
    requires (sign == [] || sign == [43] || sign == [45]) && AllDigits(d) && Stops(rest)
    requires sign == [] && d == [] ==> rest == [] || (!IsSpace(rest[0]) && rest[0] != 43 && rest[0] != 45)
    ensures var n := Negate(sign == [45], Number(d));
      Stoll(sp + (sign + (d + rest))) == if d != [] && Fits(n) then Some(n) else None
  {
    SignedExact(sign, d, rest);
    SkipsBlanks(sp, sign + (d + rest));
  }

  /** The same after the blanks. */
  lemma SignedExact(sign: bytes, d: bytes, rest: bytes)
    requires (sign == [] || sign == [43] || sign == [45]) && AllDigits(d) && Stops(rest)
    requires sign == [] && d == [] ==> rest == [] || (!IsSpace(rest[0]) && rest[0] != 43 && rest[0] != 45)
    ensures var n := Negate(sign == [45], Number(d));
      Signed(sign + (d + rest)) == if d != [] && Fits(n) then Some(n) else None
    ensures sign + (d + rest) == [] || !IsSpace((sign + (d + rest))[0])
  {
    var t := sign + (d + rest);
    ScanReads([], d, rest);
    assert [] + d == d;
    if sign == [] {
      assert t == d + rest;
      assert d != [] ==> t[0] == d[0];
    } else {
      SignRead(sign, d + rest);
    }
  }

  lemma SignRead(sign: bytes, u: bytes)
    requires sign == [43] || sign == [45]
    ensures Signed(sign + u) == InRange(sign == [45], Scan(u, 0, false))
    ensures sign + u != [] && (sign + u)[0] == sign[0]
  {
    assert (sign + u)[1..] == u;
  }

  lemma {:induction false} SplitBlanks(s: bytes) returns (sp: bytes, t: bytes)
    ensures s == sp + t && (forall i :: 0 <= i < |sp| ==> IsSpace(sp[i])) && (t == [] || !IsSpace(t[0]))
  {
    if s != [] && IsSpace(s[0]) {
      sp, t := SplitBlanks(s[1..]);
      sp := [s[0]] + sp;
      assert s == [s[0]] + s[1..];
    } else {
      sp, t := [], s;
    }
  }

  lemma {:induction false} SplitDigits(s: bytes) returns (d: bytes, rest: bytes)
    ensures s == d + rest && AllDigits(d) && Stops(rest)
  {
    if s != [] && IsDigit(s[0]) {
      d, rest := SplitDigits(s[1..]);
      d := [s[0]] + d;
      assert s == [s[0]] + s[1..];
    } else {
      d, rest := [], s;
    }
  }

  lemma EveryText(s: bytes) returns (sp: bytes, sign: bytes, d: bytes, rest: bytes)
    ensures s == sp + (sign + (d + rest))
    ensures (forall i :: 0 <= i < |sp| ==> IsSpace(sp[i])) && AllDigits(d) && Stops(rest)
    ensures sign == [] || sign == [43] || sign == [45]
    ensures sign == [] && d == [] ==> rest == [] || (!IsSpace(rest[0]) && rest[0] != 43 && rest[0] != 45)
  {
    var t;
    sp, t := SplitBlanks(s);
    if t != [] && (t[0] == 43 || t[0] == 45) {
      sign := [t[0]];
      d, rest := SplitDigits(t[1..]);
      assert t == sign + t[1..];
    } else {
      sign := [];
      d, rest := SplitDigits(t);
      assert t == sign + t;
    }
  }
}
