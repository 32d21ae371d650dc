/** A text as a C function receives it: up to its first zero. */
module CStrings {

  function Cut<T(==)>(s: seq<T>, zero: T): seq<T> {
    if s == [] || s[0] == zero then [] else [s[0]] + Cut(s[1..], zero)
  }

  /** A text arrives whole exactly if it has no zero; what arrives never has one. */
  lemma {:induction false} CutExact<T>(s: seq<T>, zero: T)
    ensures Cut(s, zero) == s <==> zero !in s
    ensures zero !in Cut(s, zero) && Cut(s, zero) <= s
    ensures Cut(Cut(s, zero), zero) == Cut(s, zero)
  {
    if s != [] && s[0] != zero {
      CutExact(s[1..], zero);
      assert Cut(s, zero)[1..] == Cut(s[1..], zero);
      assert s == [s[0]] + s[1..];
    }
  }
}
