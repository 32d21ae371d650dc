/** Signing and verifying HS256 tokens (RFC 7515, RFC 7519). HMAC and the JSON library are
    parameters; what is assumed of them is the predicate `Sound`. */
module Jwt {
  import opened Wrappers
  import opened Base64Url
  import opened Decimal
  import opened CacheKeys
  import Password

  const DOT: byte := 46

  /** A member of a JSON object. `Nested` stands for arrays and objects, whose conversions raise. */
  datatype JsonValue =
    | Text(text: bytes)
    | Number(number: int)
    | Flag(flag: bool)
    | Fraction(shown: bytes, truncated: Option<int>)
    | Absent
    | Nested

  type Members = map<string, JsonValue>

  datatype Json = Object(members: Members) | Null | Other

  datatype Library = Library(
    hmac: (bytes, bytes) -> bytes,
    write: Members -> bytes,
    parse: bytes -> Option<Json>)

  predicate Plain(m: Members) {
    forall k :: k in m ==> m[k].Text? || (m[k].Number? && Fits(m[k].number))
  }

  /** Reading back a written object of texts and 64-bit integers gives that object, the empty
      text is no JSON, and a digest has 32 bytes. */
  ghost predicate Sound(lib: Library) {
    && (forall m: Members :: Plain(m) ==> lib.parse(lib.write(m)) == Some(Object(m)))
    && lib.parse([]) == None
    && (forall k, d :: |lib.hmac(k, d)| == 32)
  }

  datatype Claims = Claims(userId: int, jti: bytes, issuer: bytes, issuedAt: int, expiresAt: int)

  /** `Raised` stands for an exception that leaves `verify`. */
  datatype Verdict = Accepted(claims: Claims) | Rejected | Raised

  // ---- Conversions of JSON values ----

  function AsString(v: JsonValue): Option<bytes> {
    match v
    case Text(t) => Some(t)
    case Number(n) => Some(ToText(n))
    case Flag(b) => Some(if b then Ascii("true") else Ascii("false"))
    case Fraction(shown, _) => Some(shown)
    case Absent => Some([])
    case Nested => None
  }

  function AsInt64(v: JsonValue): Option<int> {
    match v
    case Text(_) => None
    case Number(n) => if Fits(n) then Some(n) else None
    case Flag(b) => Some(if b then 1 else 0)
    case Fraction(_, t) => if t.Some? && Fits(t.value) then t else None
    case Absent => Some(0)
    case Nested => None
  }

  // ---- Signing ----

  function Header(): Members {
    map["alg" := Text(Ascii("HS256")), "typ" := Text(Ascii("JWT"))]
  }

  function Payload(issuer: bytes, userId: int, jti: bytes, now: int, ttl: int): Members {
    map["iss" := Text(issuer), "sub" := Text(ToText(userId)), "jti" := Text(jti),
        "iat" := Number(now), "exp" := Number(now + ttl)]
  }

  function Join(a: bytes, b: bytes): bytes { a + [DOT] + b }

  function SignAt(lib: Library, secret: bytes, issuer: bytes, ttl: int, userId: int, jti: bytes, now: int): bytes {
    var signingInput := Join(Encode(lib.write(Header())), Encode(lib.write(Payload(issuer, userId, jti, now, ttl))));
    Join(signingInput, Encode(lib.hmac(secret, signingInput)))
  }

  // ---- Verifying ----

  /** The place of the first dot from `from` on; the length when there is none. */
  function FindDot(s: bytes, from: nat): (p: nat)
    requires from <= |s|
    ensures from <= p <= |s|
    ensures forall i :: from <= i < p ==> s[i] != DOT
    ensures p < |s| ==> s[p] == DOT
    decreases |s| - from
  {
    if from == |s| || s[from] == DOT then from else FindDot(s, from + 1)
  }

  datatype Parts = Parts(header: bytes, payload: bytes, signature: bytes)

  /** Three nonempty parts between exactly two dots. */
  function Split(token: bytes): Option<Parts> {
    var p1 := FindDot(token, 0);
    if p1 == |token| then None
    else
      var p2 := FindDot(token, p1 + 1);
      if p2 == |token| || FindDot(token, p2 + 1) != |token| then None
      else
        var parts := Parts(token[..p1], token[p1 + 1..p2], token[p2 + 1..]);
        if parts.header == [] || parts.payload == [] || parts.signature == [] then None else Some(parts)
  }

  function ParsePart(lib: Library, part: bytes): Option<Json> {
    match Decode(part)
    case None => None
    case Some(text) => lib.parse(text)
  }

  datatype Check = Pass | Fail | Throws

  /** `isMember` raises on a document that is neither an object nor null. */
  function HeaderCheck(doc: Option<Json>): Check {
    match doc
    case None => Fail
    case Some(Null) => Fail
    case Some(Other) => Throws
    case Some(Object(m)) =>
      if "alg" !in m then Fail
      else match AsString(m["alg"])
        case None => Throws
        case Some(alg) => if alg == Ascii("HS256") then Pass else Fail
  }

  function PayloadCheck(issuer: bytes, doc: Option<Json>, now: int): Verdict {
    match doc
    case None => Rejected
    case Some(Null) => Rejected
    case Some(Other) => Raised
    case Some(Object(m)) =>
      if "iss" !in m || "exp" !in m || "sub" !in m || "jti" !in m then Rejected
      else match AsString(m["iss"])
        case None => Raised
        case Some(iss) =>
          if iss != issuer then Rejected
          else match AsInt64(m["exp"])
            case None => Raised
            case Some(exp) => if now >= exp then Rejected else ClaimsOf(m, iss, exp)
  }

  function ClaimsOf(m: Members, iss: bytes, exp: int): Verdict
    requires "sub" in m && "jti" in m
  {
    match AsString(m["jti"])
    case None => Raised
    case Some(jti) =>
      match if "iat" in m then AsInt64(m["iat"]) else Some(0)
      case None => Raised
      case Some(iat) =>
        match AsString(m["sub"])
        case None => Raised
        case Some(sub) =>
          match Stoll(sub)
          case None => Rejected
          case Some(userId) => Accepted(Claims(userId, jti, iss, iat, exp))
  }

  /** The checks in their order: algorithm, signature, payload. */
  function VerifyParts(lib: Library, secret: bytes, issuer: bytes, parts: Parts, now: int): Verdict {
    match HeaderCheck(ParsePart(lib, parts.header))
    case Fail => Rejected
    case Throws => Raised
    case Pass =>
      match Decode(parts.signature)
      case None => Rejected
      case Some(signature) =>
        if lib.hmac(secret, Join(parts.header, parts.payload)) != signature then Rejected
        else PayloadCheck(issuer, ParsePart(lib, parts.payload), now)
  }

  function VerifyAt(lib: Library, secret: bytes, issuer: bytes, token: bytes, now: int): Verdict {
    match Split(token)
    case None => Rejected
    case Some(parts) => VerifyParts(lib, secret, issuer, parts, now)
  }

  // ---- The claims object and the signer ----

  class JwtClaims {
    var userId: int
    var jti: bytes
    var issuer: bytes
    var issuedAt: int
    var expiresAt: int

    function Value(): Claims reads this { Claims(userId, jti, issuer, issuedAt, expiresAt) }
  }

  class Signer {
    const lib: Library
    const secret: bytes
    const issuer: bytes
    const ttlSeconds: int

    constructor (lib: Library, secret: bytes, issuer: bytes, ttlSeconds: int)
      ensures this.lib == lib && this.secret == secret && this.issuer == issuer && this.ttlSeconds == ttlSeconds
    {
      this.lib, this.secret, this.issuer, this.ttlSeconds := lib, secret, issuer, ttlSeconds;
    }

    /** A time that is not positive asks for the clock. */
    method Sign(userId: int, jti: bytes, nowSeconds: int, clock: int) returns (token: bytes)
      ensures token == SignAt(lib, secret, issuer, ttlSeconds, userId, jti,
                              if nowSeconds > 0 then nowSeconds else clock)
    {
      var now := if nowSeconds > 0 then nowSeconds else clock;
      var header := Base64UrlEncode(lib.write(Header()));
      var payload := Base64UrlEncode(lib.write(Payload(issuer, userId, jti, now, ttlSeconds)));
      var signingInput := Join(header, payload);
      var signature := Base64UrlEncode(lib.hmac(secret, signingInput));
      token := Join(signingInput, signature);
    }

    /** Fills `out` exactly when the token is accepted; otherwise `out` is unspecified. */
    method Verify(token: bytes, out: JwtClaims, nowSeconds: int, clock: int) returns (ok: bool, raised: bool)
      modifies out
      ensures var v := VerifyAt(lib, secret, issuer, token, if nowSeconds > 0 then nowSeconds else clock);
        && ok == v.Accepted? && raised == v.Raised?
        && (ok ==> out.Value() == v.claims)
    {
      var p1 := FindDot(token, 0);
      if p1 == |token| {
        return false, false;
      }
      var p2 := FindDot(token, p1 + 1);
      if p2 == |token| || FindDot(token, p2 + 1) != |token| {
        return false, false;
      }
      var parts := Parts(token[..p1], token[p1 + 1..p2], token[p2 + 1..]);
      if parts.header == [] || parts.payload == [] || parts.signature == [] {
        return false, false;
      }
      assert token[..p2] == Join(parts.header, parts.payload);
      ok, raised := CheckParts(token[..p2], parts, out, if nowSeconds > 0 then nowSeconds else clock);
    }

    method CheckParts(signingInput: bytes, parts: Parts, out: JwtClaims, now: int) returns (ok: bool, raised: bool)
      requires signingInput == Join(parts.header, parts.payload)
      modifies out
      ensures var v := VerifyParts(lib, secret, issuer, parts, now);
        && ok == v.Accepted? && raised == v.Raised?
        && (ok ==> out.Value() == v.claims)
    {
      ok, raised := false, false;
      var decoded, headerJson := Base64UrlDecode(parts.header);
      if !decoded {
        return;
      }
      var alg := HeaderCheck(lib.parse(headerJson));
      if !alg.Pass? {
        return false, alg.Throws?;
      }
      var signed, expectedSig := Base64UrlDecode(parts.signature);
      if !signed {
        return;
      }
      var same := Password.ConstantTimeEquals(lib.hmac(secret, signingInput), expectedSig);
      if !same {
        return;
      }
      var readable, payloadJson := Base64UrlDecode(parts.payload);
      if !readable {
        return;
      }
      match PayloadCheck(issuer, lib.parse(payloadJson), now) {
        case Rejected =>
        case Raised => raised := true;
        case Accepted(c) =>
          out.expiresAt, out.issuer, out.jti, out.issuedAt, out.userId := c.expiresAt, c.issuer, c.jti, c.issuedAt, c.userId;
          ok := true;
      }
    }
  }

  // ---- Sign, then verify ----

  predicate Dotless(s: bytes) { forall i :: 0 <= i < |s| ==> s[i] != DOT }

  lemma EncodedIsDotless(raw: bytes)
    ensures Dotless(Encode(raw))
    ensures raw != [] ==> Encode(raw) != []
  {
    EncodeShape(raw);
  }

  lemma {:induction false} FindDotIs(s: bytes, from: nat, p: nat)
    requires from <= p <= |s| && (p < |s| ==> s[p] == DOT) && Dotless(s[from..p])
    ensures FindDot(s, from) == p
    decreases p - from
  {
    if from < p {
      assert s[from..p][0] == s[from] && s[from..p][1..] == s[from + 1..p];
      FindDotIs(s, from + 1, p);
    }
  }

  lemma JoinedSlices(a: bytes, b: bytes, c: bytes)
    ensures var t := Join(Join(a, b), c);
      var n := |a| + 1 + |b|;
      && |t| == n + 1 + |c| && t[|a|] == DOT && t[n] == DOT
      && t[..|a|] == a && t[0..|a|] == a && t[|a| + 1..n] == b && t[n + 1..] == c && t[n + 1..|t|] == c
  {}

  /** Three dotless nonempty parts joined by dots are recovered. */
  lemma SplitJoined(a: bytes, b: bytes, c: bytes)
    requires Dotless(a) && Dotless(b) && Dotless(c) && a != [] && b != [] && c != []
    ensures Split(Join(Join(a, b), c)) == Some(Parts(a, b, c))
  {
    var t := Join(Join(a, b), c);
    var n := |a| + 1 + |b|;
    JoinedSlices(a, b, c);
    FindDotIs(t, 0, |a|);
    FindDotIs(t, |a| + 1, n);
    FindDotIs(t, n + 1, |t|);
  }

  /** Only three dotless parts joined by dots split. */
  lemma SplitMeans(token: bytes)
    requires Split(token).Some?
    ensures var p := Split(token).value;
      && token == Join(Join(p.header, p.payload), p.signature)
      && Dotless(p.header) && Dotless(p.payload) && Dotless(p.signature)
  {}

  lemma PlainDocuments(issuer: bytes, userId: int, jti: bytes, now: int, ttl: int)
    requires Fits(now) && Fits(now + ttl)
    ensures Plain(Header()) && Plain(Payload(issuer, userId, jti, now, ttl))
  {}

  lemma EncodedDocument(lib: Library, m: Members)
    requires Sound(lib) && Plain(m)
    ensures ParsePart(lib, Encode(lib.write(m))) == Some(Object(m))
    ensures Dotless(Encode(lib.write(m))) && Encode(lib.write(m)) != []
  {
    RoundTrip(lib.write(m));
    EncodedIsDotless(lib.write(m));
    assert lib.write(m) != [];
  }

  lemma SignedPayload(issuer: bytes, userId: int, jti: bytes, t: int, ttl: int, now: int)
    requires Fits(userId) && Fits(t) && Fits(t + ttl)
    ensures PayloadCheck(issuer, Some(Object(Payload(issuer, userId, jti, t, ttl))), now)
            == if now < t + ttl then Accepted(Claims(userId, jti, issuer, t, t + ttl)) else Rejected
  {
    TextRoundTrip(userId);
  }

  /** A signed token verifies under the same secret and issuer exactly until it expires, and
      yields exactly the claims it was made from (section 4.1.4 of RFC 7519: not on or after exp). */
  lemma SignVerify(lib: Library, secret: bytes, issuer: bytes, ttl: int, userId: int, jti: bytes, t: int, now: int)
    requires Sound(lib) && Fits(userId) && Fits(t) && Fits(t + ttl)
    ensures VerifyAt(lib, secret, issuer, SignAt(lib, secret, issuer, ttl, userId, jti, t), now)
            == if now < t + ttl then Accepted(Claims(userId, jti, issuer, t, t + ttl)) else Rejected
  {
    var payload := Payload(issuer, userId, jti, t, ttl);
    var a, b := Encode(lib.write(Header())), Encode(lib.write(payload));
    PlainDocuments(issuer, userId, jti, t, ttl);
    EncodedDocument(lib, Header());
    EncodedDocument(lib, payload);
    var digest := lib.hmac(secret, Join(a, b));
    RoundTrip(digest);
    EncodedIsDotless(digest);
    SplitJoined(a, b, Encode(digest));
    SignedPayload(issuer, userId, jti, t, ttl, now);
  }

  /** What an accepted token must be: three parts around two dots, whose third is the digest of
      the first two under the secret, for this issuer and not yet expired. */
  lemma AcceptedIsSigned(lib: Library, secret: bytes, issuer: bytes, token: bytes, now: int)
    requires VerifyAt(lib, secret, issuer, token, now).Accepted?
    ensures exists a, b, c ::
      && token == Join(Join(a, b), c) && Dotless(a) && Dotless(b) && Dotless(c)
      && Decode(c) == Some(lib.hmac(secret, Join(a, b)))
    ensures VerifyAt(lib, secret, issuer, token, now).claims.issuer == issuer
    ensures now < VerifyAt(lib, secret, issuer, token, now).claims.expiresAt
  {
    SplitMeans(token);
    var p := Split(token).value;
    assert token == Join(Join(p.header, p.payload), p.signature);
  }

  // ---- Exactly which tokens are accepted ----

  /** The document of a part: it decodes, and it is an object. */
  ghost predicate ReadsObject(lib: Library, part: bytes, m: Members) {
    Decode(part).Some? && lib.parse(Decode(part).value) == Some(Object(m))
  }

  /** A header that names HS256 as its algorithm, and no other. */
  ghost predicate GoodHeader(lib: Library, part: bytes) {
    exists m :: ReadsObject(lib, part, m) && "alg" in m && AsString(m["alg"]) == Some(Ascii("HS256"))
  }

  /** A payload of this issuer that has not expired and carries these claims. */
  predicate Carries(m: Members, issuer: bytes, now: int, claims: Claims) {
    && "iss" in m && "exp" in m && "sub" in m && "jti" in m
    && AsString(m["iss"]) == Some(issuer) && claims.issuer == issuer
    && AsInt64(m["exp"]) == Some(claims.expiresAt) && now < claims.expiresAt
    && AsString(m["jti"]) == Some(claims.jti)
    && (if "iat" in m then AsInt64(m["iat"]) == Some(claims.issuedAt) else claims.issuedAt == 0)
    && AsString(m["sub"]).Some? && Stoll(AsString(m["sub"]).value) == Some(claims.userId)
  }

  ghost predicate GoodPayload(lib: Library, part: bytes, issuer: bytes, now: int, claims: Claims) {
    exists m :: ReadsObject(lib, part, m) && Carries(m, issuer, now, claims)
  }

  /** Three parts around two dots, none of them empty. */
  predicate ThreeParts(token: bytes, a: bytes, b: bytes, c: bytes) {
    token == Join(Join(a, b), c) && Dotless(a) && Dotless(b) && Dotless(c) && a != [] && b != [] && c != []
  }

  lemma HeaderExact(lib: Library, part: bytes)
    ensures HeaderCheck(ParsePart(lib, part)).Pass? <==> GoodHeader(lib, part)
  {
    if HeaderCheck(ParsePart(lib, part)).Pass? {
      var m := ParsePart(lib, part).value.members;
      assert ReadsObject(lib, part, m);
    }
  }

  lemma PayloadExact(lib: Library, part: bytes, issuer: bytes, now: int, claims: Claims)
    ensures PayloadCheck(issuer, ParsePart(lib, part), now) == Accepted(claims) <==> GoodPayload(lib, part, issuer, now, claims)
  {
    if PayloadCheck(issuer, ParsePart(lib, part), now) == Accepted(claims) {
      var m := ParsePart(lib, part).value.members;
      assert ReadsObject(lib, part, m) && Carries(m, issuer, now, claims);
    }
  }

  /** A token is accepted with these claims if and only if it consists of three parts around two
      dots, its header names HS256, its third part decodes to the digest of the first two, and its
      payload is of this issuer, not expired, and carries the claims. */
  lemma AcceptedExact(lib: Library, secret: bytes, issuer: bytes, token: bytes, now: int, claims: Claims)
    ensures VerifyAt(lib, secret, issuer, token, now) == Accepted(claims) <==>
      exists a, b, c :: ThreeParts(token, a, b, c) && Genuine(lib, secret, issuer, a, b, c, now, claims)
  {
    if VerifyAt(lib, secret, issuer, token, now) == Accepted(claims) {
      SplitMeans(token);
      var p := Split(token).value;
      HeaderExact(lib, p.header);
      PayloadExact(lib, p.payload, issuer, now, claims);
      assert ThreeParts(token, p.header, p.payload, p.signature);
    }
    if a, b, c :| ThreeParts(token, a, b, c) && Genuine(lib, secret, issuer, a, b, c, now, claims) {
      SplitJoined(a, b, c);
      HeaderExact(lib, a);
      PayloadExact(lib, b, issuer, now, claims);
    }
  }

  ghost predicate Genuine(lib: Library, secret: bytes, issuer: bytes, a: bytes, b: bytes, c: bytes, now: int, claims: Claims) {
    GoodHeader(lib, a) && Decode(c) == Some(lib.hmac(secret, Join(a, b))) && GoodPayload(lib, b, issuer, now, claims)
  }

  // ---- Exactly when verification raises ----

  /** A header that is neither an object nor null, or whose algorithm is no text at all. */
  ghost predicate HeaderRaises(lib: Library, part: bytes) {
    Decode(part).Some? &&
    match lib.parse(Decode(part).value)
    case Some(Other) => true
    case Some(Object(m)) => "alg" in m && m["alg"].Nested?
    case _ => false
  }

  /** A payload, all checks before it passed, whose conversions fail. */
  ghost predicate PayloadRaises(lib: Library, part: bytes, issuer: bytes, now: int) {
    Decode(part).Some? &&
    match lib.parse(Decode(part).value)
    case Some(Other) => true
    case Some(Object(m)) =>
      && "iss" in m && "exp" in m && "sub" in m && "jti" in m
      && (m["iss"].Nested?
          || (AsString(m["iss"]) == Some(issuer)
              && (AsInt64(m["exp"]).None?
                  || (now < AsInt64(m["exp"]).value
                      && (m["jti"].Nested? || ("iat" in m && AsInt64(m["iat"]).None?) || m["sub"].Nested?)))))
    case _ => false
  }

  lemma HeaderRaisesExact(lib: Library, part: bytes)
    ensures HeaderCheck(ParsePart(lib, part)).Throws? <==> HeaderRaises(lib, part)
  {}

  lemma PayloadRaisesExact(lib: Library, part: bytes, issuer: bytes, now: int)
    ensures PayloadCheck(issuer, ParsePart(lib, part), now) == Raised <==> PayloadRaises(lib, part, issuer, now)
  {}

  ghost predicate Raises(lib: Library, secret: bytes, issuer: bytes, a: bytes, b: bytes, c: bytes, now: int) {
    || HeaderRaises(lib, a)
    || (GoodHeader(lib, a) && Decode(c) == Some(lib.hmac(secret, Join(a, b))) && PayloadRaises(lib, b, issuer, now))
  }

  lemma PartsRaiseExact(lib: Library, secret: bytes, issuer: bytes, parts: Parts, now: int)
    ensures VerifyParts(lib, secret, issuer, parts, now) == Raised
      <==> Raises(lib, secret, issuer, parts.header, parts.payload, parts.signature, now)
  {
    HeaderExact(lib, parts.header);
    HeaderRaisesExact(lib, parts.header);
    PayloadRaisesExact(lib, parts.payload, issuer, now);
  }

  /** An exception leaves the verification exactly for a token of three parts whose header raises, or
      whose header and signature are right and whose payload raises. All else that is not accepted
      is rejected. */
  lemma RaisedExact(lib: Library, secret: bytes, issuer: bytes, token: bytes, now: int)
    ensures VerifyAt(lib, secret, issuer, token, now) == Raised <==>
      exists a, b, c :: ThreeParts(token, a, b, c) && Raises(lib, secret, issuer, a, b, c, now)
  {
    if VerifyAt(lib, secret, issuer, token, now) == Raised {
      SplitMeans(token);
      var p := Split(token).value;
      PartsRaiseExact(lib, secret, issuer, p, now);
      assert ThreeParts(token, p.header, p.payload, p.signature);
    }
    if a, b, c :| ThreeParts(token, a, b, c) && Raises(lib, secret, issuer, a, b, c, now) {
      SplitJoined(a, b, c);
      PartsRaiseExact(lib, secret, issuer, Parts(a, b, c), now);
    }
  }
}
