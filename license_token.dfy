/**
 * The activation token (`lib/license-token.ts`): an HS256 JWT that binds a licence, an app and
 * a machine until an expiry instant, handed to a client on activation and checked on
 * validation and deactivation.
 */
module LicenseToken {
  import opened Wrappers
  import opened Text
  import opened Json
  import opened Encoding
  import Jws
  import SessionToken

  /** The `typ` claim that marks an activation token. */
  const TokenType := "license_activation"

  /** What `signLicenseActivationToken` is given; the expiry is a `Date` in milliseconds. */
  datatype SignRequest = SignRequest(licenseId: string, appName: string, machineId: string, expiresAtMs: int)

  /**
   * `LicenseActivationTokenPayload` for a request signed at `nowMs` with token id `jti`:
   * `iat` and `exp` are `Math.floor` of the instants' seconds, which Euclidean division by a
   * positive divisor computes for negative instants too.
   */
  function Payload(jti: string, req: SignRequest, nowMs: int): Json {
    JObj([("typ", JStr(TokenType)), ("jti", JStr(jti)), ("licenseId", JStr(req.licenseId)),
          ("appName", JStr(req.appName)), ("machineId", JStr(req.machineId)),
          ("iat", JNum(nowMs / 1000)), ("exp", JNum(req.expiresAtMs / 1000))])
  }

  /** `signLicenseActivationToken`; `nonce` stands for `randomBytes(16)`. */
  function Sign(p: Primitives, secret: string, nonce: seq<byte>, req: SignRequest, nowMs: int): string
    requires |nonce| == 16
  {
    Jws.Sign(p, secret, Payload(Hex(nonce), req, nowMs))
  }

  /**
   * `verifyLicenseActivationToken` at `nowMs`: the shared shape, header and signature checks,
   * then `typ`, then the times. The other claims are not checked.
   */
  function Verify(p: Primitives, secret: string, token: string, nowMs: int): (r: Option<Json>)
    ensures r.Some? ==> Jws.VerifySignedBody(p, secret, token) == r
    ensures r.Some? ==> Get(r.value, "typ") == Some(JStr(TokenType))
    ensures r.Some? ==> Jws.TimesAccepted(r.value, nowMs / 1000)
  {
    match Jws.VerifySignedBody(p, secret, token)
    case None => None
    case Some(payload) =>
      if Get(payload, "typ") != Some(JStr(TokenType)) then None
      else if !Jws.TimesAccepted(payload, nowMs / 1000) then None
      else Some(payload)
  }

  /** A token that is not three non-empty `.`-separated segments is rejected. */
  lemma MalformedRejected(p: Primitives, secret: string, token: string, nowMs: int)
    requires |Split(token, '.')| != 3 || exists k :: 0 <= k < |Split(token, '.')| && Split(token, '.')[k] == ""
    ensures Verify(p, secret, token, nowMs) == None
  {
    var parts := Split(token, '.');
    if |parts| == 3 {
      var k :| 0 <= k < |parts| && parts[k] == "";
      assert parts[0] == "" || parts[1] == "" || parts[2] == "";
    }
  }

  /** A header other than `{alg: "HS256", typ: "JWT"}` is rejected whatever the signature. */
  lemma BadHeaderRejected(p: Primitives, secret: string, token: string, nowMs: int)
    requires |Split(token, '.')| == 3
    requires !Jws.HeaderAccepted(Jws.DecodeSegment(p, Split(token, '.')[0]))
    ensures Verify(p, secret, token, nowMs) == None
  {
  }

  /** A token whose signature segment is not the HMAC of its first two segments is rejected. */
  lemma ForgedRejected(p: Primitives, secret: string, token: string, nowMs: int)
    requires Lawful(p)
    requires forall h, b :: token != Jws.Compact(h, b, Jws.SignParts(p, secret, h, b))
    ensures Verify(p, secret, token, nowMs) == None
  {
    if Verify(p, secret, token, nowMs).Some? {
      Jws.AcceptedTokensAreSigned(p, secret, token);
    }
  }

  // The payload is a JSON object with distinct keys, as `JSON.parse` can return it.
  lemma PayloadWellFormed(jti: string, req: SignRequest, nowMs: int)
    ensures WellFormed(Payload(jti, req, nowMs))
  {
    assert DistinctKeys(Payload(jti, req, nowMs).fields);
  }

  // The claims are read back as the signer wrote them.
  lemma PayloadClaims(jti: string, req: SignRequest, nowMs: int)
    ensures Get(Payload(jti, req, nowMs), "typ") == Some(JStr(TokenType))
    ensures StringField(Payload(jti, req, nowMs), "jti") == Some(jti)
    ensures StringField(Payload(jti, req, nowMs), "licenseId") == Some(req.licenseId)
  {
    var f := Payload(jti, req, nowMs).fields;
    LookupAt(f, 0, "typ");
    LookupAt(f, 1, "jti");
    LookupAt(f, 2, "licenseId");
  }

  lemma PayloadBinding(jti: string, req: SignRequest, nowMs: int)
    ensures StringField(Payload(jti, req, nowMs), "appName") == Some(req.appName)
    ensures StringField(Payload(jti, req, nowMs), "machineId") == Some(req.machineId)
  {
    var f := Payload(jti, req, nowMs).fields;
    LookupAt(f, 3, "appName");
    LookupAt(f, 4, "machineId");
  }

  lemma PayloadTimes(jti: string, req: SignRequest, nowMs: int)
    ensures NumberField(Payload(jti, req, nowMs), "iat") == Some(nowMs / 1000)
    ensures NumberField(Payload(jti, req, nowMs), "exp") == Some(req.expiresAtMs / 1000)
  {
    var f := Payload(jti, req, nowMs).fields;
    LookupAt(f, 5, "iat");
    LookupAt(f, 6, "exp");
  }

  // Every claim at once.
  lemma PayloadFields(jti: string, req: SignRequest, nowMs: int)
    ensures WellFormed(Payload(jti, req, nowMs))
    ensures Get(Payload(jti, req, nowMs), "typ") == Some(JStr(TokenType))
    ensures Get(Payload(jti, req, nowMs), "userId") == None
    ensures StringField(Payload(jti, req, nowMs), "jti") == Some(jti)
    ensures StringField(Payload(jti, req, nowMs), "licenseId") == Some(req.licenseId)
    ensures StringField(Payload(jti, req, nowMs), "appName") == Some(req.appName)
    ensures StringField(Payload(jti, req, nowMs), "machineId") == Some(req.machineId)
    ensures NumberField(Payload(jti, req, nowMs), "iat") == Some(nowMs / 1000)
    ensures NumberField(Payload(jti, req, nowMs), "exp") == Some(req.expiresAtMs / 1000)
  {
    PayloadWellFormed(jti, req, nowMs);
    PayloadClaims(jti, req, nowMs);
    PayloadBinding(jti, req, nowMs);
    PayloadTimes(jti, req, nowMs);
    LookupFound(Payload(jti, req, nowMs).fields, "userId");
  }

  /**
   * Round trip: a token signed at `signMs` verifies at `nowMs` to exactly the payload signed
   * when its `iat` and `exp` are non-zero, `iat` is at most 60 seconds after `nowMs` and `exp`
   * is not before it. The payload names the requested licence, app and machine, and its `jti`
   * is 32 hexadecimal digits.
   */
  lemma SignThenVerify(p: Primitives, secret: string, nonce: seq<byte>, req: SignRequest, signMs: int, nowMs: int)
    requires Lawful(p)
    requires |nonce| == 16
    requires signMs / 1000 != 0 && req.expiresAtMs / 1000 != 0
    requires signMs / 1000 <= nowMs / 1000 + Jws.ClockSkewSeconds
    requires nowMs / 1000 <= req.expiresAtMs / 1000
    ensures Verify(p, secret, Sign(p, secret, nonce, req, signMs), nowMs) == Some(Payload(Hex(nonce), req, signMs))
    ensures StringField(Payload(Hex(nonce), req, signMs), "licenseId") == Some(req.licenseId)
    ensures StringField(Payload(Hex(nonce), req, signMs), "appName") == Some(req.appName)
    ensures StringField(Payload(Hex(nonce), req, signMs), "machineId") == Some(req.machineId)
    ensures |Hex(nonce)| == 32 && forall i :: 0 <= i < 32 ==> Hex(nonce)[i] in HexDigits
  {
    var payload := Payload(Hex(nonce), req, signMs);
    PayloadFields(Hex(nonce), req, signMs);
    HexDigitsOnly(nonce);
    Jws.SignThenVerify(p, secret, payload);
    assert Jws.VerifySignedBody(p, secret, Sign(p, secret, nonce, req, signMs)) == Some(payload);
    assert Jws.NonZeroNumber(payload, "exp") == Some(req.expiresAtMs / 1000);
    assert Jws.NonZeroNumber(payload, "iat") == Some(signMs / 1000);
    assert Jws.TimesAccepted(payload, nowMs / 1000);
  }

  /** A signed token is rejected once its expiry second has passed. */
  lemma RejectedAfterExpiry(p: Primitives, secret: string, nonce: seq<byte>, req: SignRequest, signMs: int, nowMs: int)
    requires Lawful(p)
    requires |nonce| == 16
    requires nowMs / 1000 > req.expiresAtMs / 1000
    ensures Verify(p, secret, Sign(p, secret, nonce, req, signMs), nowMs) == None
  {
    var payload := Payload(Hex(nonce), req, signMs);
    PayloadFields(Hex(nonce), req, signMs);
    Jws.SignThenVerify(p, secret, payload);
    assert Jws.VerifySignedBody(p, secret, Sign(p, secret, nonce, req, signMs)) == Some(payload);
  }

  /**
   * A session token is never accepted as an activation token, even under the same secret:
   * its body has no `typ` claim.
   */
  lemma SessionTokenRejected(p: Primitives, secret: string, c: SessionToken.Claims, signMs: int, nowMs: int)
    requires Lawful(p)
    ensures Verify(p, secret, SessionToken.Generate(p, secret, c, signMs), nowMs) == None
  {
    var body := SessionToken.Body(c, signMs / 1000);
    SessionToken.BodyFields(c, signMs / 1000);
    Jws.SignThenVerify(p, secret, body);
    assert Jws.VerifySignedBody(p, secret, SessionToken.Generate(p, secret, c, signMs)) == Some(body);
    assert Get(body, "typ") == None;
  }

  /**
   * An activation token is never accepted as a session token, even under the same secret:
   * its body has no `userId` claim.
   */
  lemma NotASessionToken(p: Primitives, secret: string, nonce: seq<byte>, req: SignRequest, signMs: int, nowMs: int)
    requires Lawful(p)
    requires |nonce| == 16
    ensures SessionToken.Verify(p, secret, Sign(p, secret, nonce, req, signMs), nowMs) == None
  {
    var payload := Payload(Hex(nonce), req, signMs);
    PayloadFields(Hex(nonce), req, signMs);
    Jws.SignThenVerify(p, secret, payload);
    assert Jws.VerifySignedBody(p, secret, Sign(p, secret, nonce, req, signMs)) == Some(payload);
    assert Get(payload, "userId") == None;
  }
}
