/** The texts of the cache keys. */
module CacheKeys {
  import opened Base64Url
  import opened CStrings
  import opened Decimal

  function Ascii(s: string): bytes {
    seq(|s|, i requires 0 <= i < |s| => (s[i] as int) % 256)
  }

  datatype CacheKeys = CacheKeys(prefix: bytes, version: bytes) {

    /** The configured texts have no zero byte. */
    predicate Plain() { 0 !in prefix && 0 !in version }

    function Base(): bytes { prefix + Ascii(":sku:") + version }

    function List(): bytes { Base() + Ascii(":list") }

    function Item(skuId: int): bytes { Base() + Ascii(":item:") + ToText(skuId) }
  }

  /** Different skus have different detail keys, and none of them is the list key. */
  lemma KeysDistinct(k: CacheKeys, a: int, b: int)
    requires Fits(a) && Fits(b)
    ensures k.Item(a) == k.Item(b) <==> a == b
    ensures k.Item(a) != k.List()
  {
    var n := |k.Base()|;
    TextInjective(a, b);
    ItemEnds(k, a);
    ItemEnds(k, b);
    assert k.List()[n + 1] == 'l' as int;
  }

  lemma ItemEnds(k: CacheKeys, a: int)
    ensures var n := |k.Base()|;
      n + 6 <= |k.Item(a)| && k.Item(a)[n + 6..] == ToText(a) && k.Item(a)[n + 1] == 'i' as int
  {}

  lemma {:induction false} DigitsPlain(n: nat)
    ensures 0 !in Digits(n)
  {
    if n >= 10 {
      DigitsPlain(n / 10);
    }
  }

  /** Then no key has one, so every key reaches Redis whole. */
  lemma KeysPlain(k: CacheKeys, id: int)
    requires k.Plain()
    ensures 0 !in k.Item(id) && 0 !in k.List()
  {
    DigitsPlain(if id < 0 then -id else id);
    assert 0 !in Ascii(":sku:") && 0 !in Ascii(":item:") && 0 !in Ascii(":list");
  }

  /** Raising the version leaves no key of the old one in use: versions without a colon share none. */
  lemma VersionsApart(p: bytes, v: bytes, w: bytes, a: int, b: int)
    requires v != w && ':' as int !in v && ':' as int !in w
    ensures var k, l := CacheKeys(p, v), CacheKeys(p, w);
      k.Item(a) != l.Item(b) && k.List() != l.List() && k.Item(a) != l.List()
  {
    var k, l := CacheKeys(p, v), CacheKeys(p, w);
    VersionOf(k, a);
    VersionOf(l, b);
  }

  /** Prefix and version can be told from a key. */
  lemma VersionOf(k: CacheKeys, a: int)
    requires ':' as int !in k.version
    ensures |k.prefix| + 5 <= |k.Item(a)| && Cut(k.Item(a)[|k.prefix| + 5..], ':' as int) == k.version
    ensures |k.prefix| + 5 <= |k.List()| && Cut(k.List()[|k.prefix| + 5..], ':' as int) == k.version
  {
    var n := |k.prefix| + 5;
    assert k.Item(a)[n..] == k.version + (Ascii(":item:") + ToText(a));
    UptoColon(k.version, Ascii(":item:") + ToText(a));
    assert k.List()[n..] == k.version + Ascii(":list");
    UptoColon(k.version, Ascii(":list"));
  }

  /** What stands before the first colon can be read off. */
  lemma {:induction false} UptoColon(v: bytes, x: bytes)
    requires ':' as int !in v && x != [] && x[0] == ':' as int
    ensures Cut(v + x, ':' as int) == v
  {
    if v == [] {
      assert v + x == x;
    } else {
      assert (v + x)[1..] == v[1..] + x;
      UptoColon(v[1..], x);
    }
  }
}
