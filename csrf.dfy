/**
 * Double-submit CSRF protection (`middleware/csrf.ts`): `GET /api/csrf` hands out a random token
 * as a cookie and in the body, and every other state-changing request must echo the cookie's
 * value in the `x-csrf-token` header.
 */
module Csrf {
  import opened Wrappers
  import opened Text
  import opened Encoding
  import opened Http
  import Jws

  const SafeMethods: set<string> := {"GET", "HEAD", "OPTIONS"}
  const CookieName := "csrf_token"

  /** How the before-handle hook ends. */
  datatype Outcome =
    | Pass           // the hook returns nothing and the route runs
    | Forbidden      // 403 "Forbidden: CSRF token missing or invalid"
    | Fault          // `timingSafeEqual` throws: the UTF-8 encodings differ in length

  /**
   * `tokensMatch`: false when the lengths (in UTF-16 code units) differ; otherwise
   * `timingSafeEqual` on the UTF-8 encodings, which throws (`None`) when those differ in length.
   */
  function TokensMatch(p: Primitives, a: string, b: string): Option<bool> {
    if |a| != |b| then Some(false)
    else
      var ea := p.utf8Encode(a);
      var eb := p.utf8Encode(b);
      if |ea| != |eb| then None else Some(Jws.DiffCount(ea, eb) == 0)
  }

  /** `tokensMatch` is string equality, and never throws on ASCII tokens. */
  lemma TokensMatchIsEquality(p: Primitives, a: string, b: string)
    requires Lawful(p)
    ensures TokensMatch(p, a, b) == Some(true) <==> a == b
    ensures |a| != |b| ==> TokensMatch(p, a, b) == Some(false)
    ensures IsAscii(a) && IsAscii(b) ==> TokensMatch(p, a, b) == Some(a == b)
  {
    Utf8Injective(p, a, b);
  }

  /**
   * The before-handle decision for a request with method `verb`, URL path `path`, `Cookie` header
   * `cookieHeader` and `x-csrf-token` header `csrfHeader`.
   */
  function BeforeHandle(p: Primitives, decode: Decoder, verb: string, path: string,
                        cookieHeader: Option<string>, csrfHeader: Option<string>): (r: Outcome)
    ensures verb in SafeMethods ==> r == Pass
    ensures path == "/api/csrf" || StartsWith(path, "/api/v1/license") ==> r == Pass
  {
    if verb in SafeMethods then Pass
    else if path == "/api/csrf" || StartsWith(path, "/api/v1/license") then Pass
    else
      var cookies := ParseCookies(cookieHeader, decode);
      var cookie := if CookieName in cookies then cookies[CookieName] else "";
      var header := if csrfHeader.Some? then csrfHeader.value else "";
      if cookie == "" || header == "" then Forbidden
      else
        match TokensMatch(p, cookie, header)
        case None => Fault
        case Some(ok) => if ok then Pass else Forbidden
  }

  /**
   * Any other request passes exactly when the cookie is present and non-empty and the header
   * carries the same value; it is never let through otherwise.
   */
  lemma ProtectedRequest(p: Primitives, decode: Decoder, verb: string, path: string,
                         cookieHeader: Option<string>, csrfHeader: Option<string>)
    requires Lawful(p)
    requires verb !in SafeMethods
    requires path != "/api/csrf" && !StartsWith(path, "/api/v1/license")
    ensures var cookies := ParseCookies(cookieHeader, decode);
      BeforeHandle(p, decode, verb, path, cookieHeader, csrfHeader) == Pass <==>
        CookieName in cookies && cookies[CookieName] != "" && csrfHeader == Some(cookies[CookieName])
  {
    var cookies := ParseCookies(cookieHeader, decode);
    if CookieName in cookies && csrfHeader.Some? {
      TokensMatchIsEquality(p, cookies[CookieName], csrfHeader.value);
    }
  }

  /** With ASCII tokens the hook never faults. */
  lemma AsciiNeverFaults(p: Primitives, decode: Decoder, verb: string, path: string,
                         cookieHeader: Option<string>, csrfHeader: Option<string>)
    requires Lawful(p)
    requires forall k :: k in ParseCookies(cookieHeader, decode) ==> IsAscii(ParseCookies(cookieHeader, decode)[k])
    requires csrfHeader.Some? ==> IsAscii(csrfHeader.value)
    ensures BeforeHandle(p, decode, verb, path, cookieHeader, csrfHeader) != Fault
  {
    var cookies := ParseCookies(cookieHeader, decode);
    if CookieName in cookies && csrfHeader.Some? {
      TokensMatchIsEquality(p, cookies[CookieName], csrfHeader.value);
    }
  }

  /** What `GET /api/csrf` answers: the token and the `Set-Cookie` header. */
  datatype Issued = Issued(token: string, setCookie: string)

  /**
   * `GET /api/csrf` with `bytes` for `randomBytes(32)`. `encodeURIComponent` leaves the hex
   * digits of the token unchanged, so the cookie value is the token itself; the cookie
   * attributes are `cookieParts.join("; ")`.
   */
  function IssueToken(bytes: seq<byte>, authUrl: Option<string>, nodeEnv: Option<string>): (r: Issued)
    requires |bytes| == 32
    ensures r.token == Hex(bytes)
    ensures |r.token| == 64 && IsAscii(r.token)
    ensures forall i :: 0 <= i < |r.token| ==> r.token[i] in HexDigits
    ensures EndsWith(r.setCookie, "; Secure") <==> ShouldUseSecureCookies(authUrl, nodeEnv)
    ensures StartsWith(r.setCookie, CookieName + "=" + r.token + "; Path=/; SameSite=Lax; HttpOnly")
  {
    var token := Hex(bytes);
    HexDigitsOnly(bytes);
    HexIsAscii(bytes);
    var first := CookieName + "=" + token;
    var base := first + "; Path=/; SameSite=Lax; HttpOnly";
    var cookie := if ShouldUseSecureCookies(authUrl, nodeEnv) then base + "; Secure" else base;
    assert cookie[..|base|] == base;
    assert base[|base| - 1] == 'y';
    assert "; Secure"[7] == 'e';
    Issued(token, cookie)
  }

  lemma HexIsAscii(bytes: seq<byte>)
    ensures IsAscii(Hex(bytes))
  {
    HexDigitsOnly(bytes);
    forall i | 0 <= i < |Hex(bytes)| ensures Hex(bytes)[i] as int < 128 {
      var c := Hex(bytes)[i];
      assert c in HexDigits;
    }
  }

  /**
   * Round trip: once the browser sends the issued cookie back, a state-changing request whose
   * `x-csrf-token` header is the issued token passes. `decodeURIComponent` of hex digits is the
   * identity, or at worst throws and leaves the raw value.
   */
  lemma IssuedTokenPasses(p: Primitives, decode: Decoder, bytes: seq<byte>, authUrl: Option<string>,
                          nodeEnv: Option<string>, verb: string, path: string)
    requires Lawful(p)
    requires |bytes| == 32
    requires Stored(decode, Hex(bytes)) == Hex(bytes)
    ensures var t := IssueToken(bytes, authUrl, nodeEnv).token;
      BeforeHandle(p, decode, verb, path, Some(CookieName + "=" + t), Some(t)) == Pass
  {
    var t := IssueToken(bytes, authUrl, nodeEnv).token;
    EchoedTokenPasses(p, decode, t, verb, path);
  }

  /** A cookie pair carrying hexadecimal digits has no `;` and no white space at its ends. */
  lemma HexCookiePair(t: string)
    requires t != "" && (forall i :: 0 <= i < |t| ==> t[i] in HexDigits)
    ensures ';' !in t && Trimmed(CookieName + "=" + t)
  {
    var pair := CookieName + "=" + t;
    assert pair[|pair| - 1] == t[|t| - 1];
    assert pair[0] == 'c';
    assert ';' !in t by {
      forall i | 0 <= i < |t| ensures t[i] != ';' { assert t[i] in HexDigits; }
    }
  }

  /** A token of hexadecimal digits that arrives as both the cookie and the header passes. */
  lemma EchoedTokenPasses(p: Primitives, decode: Decoder, t: string, verb: string, path: string)
    requires Lawful(p)
    requires t != "" && (forall i :: 0 <= i < |t| ==> t[i] in HexDigits)
    requires Stored(decode, t) == t
    ensures BeforeHandle(p, decode, verb, path, Some(CookieName + "=" + t), Some(t)) == Pass
  {
    var pair := CookieName + "=" + t;
    HexCookiePair(t);
    SingleCookie(CookieName, t, decode);
    if verb !in SafeMethods && path != "/api/csrf" && !StartsWith(path, "/api/v1/license") {
      ProtectedRequest(p, decode, verb, path, Some(pair), Some(t));
    }
  }
}
