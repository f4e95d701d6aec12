/**
 * The dashboard session token (`lib/jwt.ts`): an HS256 JWT whose body is the session claims
 * followed by `iat` and `exp`, valid for one day, and its verifier.
 */
module SessionToken {
  import opened Wrappers
  import opened Text
  import opened Json
  import opened Encoding
  import Jws

  /** `24 * 60 * 60`: a session token is valid for one day after it is issued. */
  const LifetimeSeconds := 24 * 60 * 60

  /** `SessionTokenPayload`. */
  datatype Claims = Claims(userId: string, email: string, sessionToken: string)

  /** `{...payload, iat, exp}` for a payload that has exactly the three claims. */
  function Body(c: Claims, iat: int): Json {
    JObj([("userId", JStr(c.userId)), ("email", JStr(c.email)), ("sessionToken", JStr(c.sessionToken)),
          ("iat", JNum(iat)), ("exp", JNum(iat + LifetimeSeconds))])
  }

  /** `generateToken`, issued at `nowMs` milliseconds (`iat` is the whole second). */
  function Generate(p: Primitives, secret: string, c: Claims, nowMs: int): string {
    Jws.Sign(p, secret, Body(c, nowMs / 1000))
  }

  /**
   * `verifyToken` at `nowMs`: None for every token that fails one of the checks, in the order
   * shape, header, signature, times, then non-empty `userId`, `email` and `sessionToken`.
   */
  function Verify(p: Primitives, secret: string, token: string, nowMs: int): (r: Option<Json>)
    ensures r.Some? ==> Jws.VerifySignedBody(p, secret, token) == r
    ensures r.Some? ==> Jws.TimesAccepted(r.value, nowMs / 1000)
    ensures r.Some? ==>
      Truthy(Get(r.value, "userId")) && Truthy(Get(r.value, "email")) && Truthy(Get(r.value, "sessionToken"))
  {
    match Jws.VerifySignedBody(p, secret, token)
    case None => None
    case Some(payload) =>
      if !Jws.TimesAccepted(payload, nowMs / 1000) then None
      else if !Truthy(Get(payload, "userId")) || !Truthy(Get(payload, "email"))
        || !Truthy(Get(payload, "sessionToken")) then None
      else Some(payload)
  }

  /** A token that is not three non-empty `.`-separated segments is rejected. */
  lemma MalformedRejected(p: Primitives, secret: string, token: string, nowMs: int)
    requires |Split(token, '.')| != 3 || exists k :: 0 <= k < |Split(token, '.')| && Split(token, '.')[k] == ""
    ensures Verify(p, secret, token, nowMs) == None
  {
    var parts := Split(token, '.');
    if |parts| == 3 {
      var k :| 0 <= k < |parts| && parts[k] == "";
      assert parts[0] == "" || parts[1] == "" || parts[2] == "";
    }
  }

  /** A token whose signature segment is not the HMAC of its first two segments is rejected. */
  lemma ForgedRejected(p: Primitives, secret: string, token: string, nowMs: int)
    requires Lawful(p)
    requires forall h, b :: token != Jws.Compact(h, b, Jws.SignParts(p, secret, h, b))
    ensures Verify(p, secret, token, nowMs) == None
  {
    if Verify(p, secret, token, nowMs).Some? {
      Jws.AcceptedTokensAreSigned(p, secret, token);
    }
  }

  // The body is a JSON object with distinct keys, as `JSON.parse` can return it.
  lemma BodyWellFormed(c: Claims, iat: int)
    ensures WellFormed(Body(c, iat))
  {
    assert DistinctKeys(Body(c, iat).fields);
  }

  // The body fields are read back as the signer wrote them; there is no `typ` claim.
  lemma BodyFields(c: Claims, iat: int)
    ensures WellFormed(Body(c, iat))
    ensures StringField(Body(c, iat), "userId") == Some(c.userId)
    ensures StringField(Body(c, iat), "email") == Some(c.email)
    ensures StringField(Body(c, iat), "sessionToken") == Some(c.sessionToken)
    ensures NumberField(Body(c, iat), "iat") == Some(iat)
    ensures NumberField(Body(c, iat), "exp") == Some(iat + LifetimeSeconds)
    ensures Get(Body(c, iat), "typ") == None
  {
    BodyWellFormed(c, iat);
    var f := Body(c, iat).fields;
    LookupAt(f, 0, "userId");
    LookupAt(f, 1, "email");
    LookupAt(f, 2, "sessionToken");
    LookupAt(f, 3, "iat");
    LookupAt(f, 4, "exp");
    LookupFound(f, "typ");
  }

  /**
   * Round trip: a token generated at `signMs` with non-empty claims verifies, at any time up to
   * 60 seconds before and one day after the second it was issued, to exactly the body signed,
   * which carries the three claims and `exp == iat + 86400`.
   */
  lemma GenerateThenVerify(p: Primitives, secret: string, c: Claims, signMs: int, nowMs: int)
    requires Lawful(p)
    requires c.userId != "" && c.email != "" && c.sessionToken != ""
    requires signMs / 1000 != 0 && signMs / 1000 + LifetimeSeconds != 0
    requires signMs / 1000 <= nowMs / 1000 + Jws.ClockSkewSeconds
    requires nowMs / 1000 <= signMs / 1000 + LifetimeSeconds
    ensures Verify(p, secret, Generate(p, secret, c, signMs), nowMs) == Some(Body(c, signMs / 1000))
    ensures StringField(Body(c, signMs / 1000), "userId") == Some(c.userId)
    ensures StringField(Body(c, signMs / 1000), "email") == Some(c.email)
    ensures StringField(Body(c, signMs / 1000), "sessionToken") == Some(c.sessionToken)
  {
    var iat := signMs / 1000;
    var body := Body(c, iat);
    BodyFields(c, iat);
    Jws.SignThenVerify(p, secret, body);
    assert Jws.VerifySignedBody(p, secret, Generate(p, secret, c, signMs)) == Some(body);
    assert Jws.NonZeroNumber(body, "exp") == Some(iat + LifetimeSeconds);
    assert Jws.NonZeroNumber(body, "iat") == Some(iat);
    assert Jws.TimesAccepted(body, nowMs / 1000);
  }

  /** A generated token is rejected once more than a day has passed since the second it was issued. */
  lemma ExpiresAfterOneDay(p: Primitives, secret: string, c: Claims, signMs: int, nowMs: int)
    requires Lawful(p)
    requires nowMs / 1000 > signMs / 1000 + LifetimeSeconds
    ensures Verify(p, secret, Generate(p, secret, c, signMs), nowMs) == None
  {
    var body := Body(c, signMs / 1000);
    BodyFields(c, signMs / 1000);
    Jws.SignThenVerify(p, secret, body);
  }
}
