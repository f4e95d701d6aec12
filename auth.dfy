/**
 * The dashboard's authentication gate (`middleware/auth.ts`): public paths pass, a `session`
 * cookie naming an unexpired session passes, and otherwise a `Bearer` session token must verify
 * and name an unexpired session.
 */
module AuthGate {
  import opened Wrappers
  import opened Text
  import opened Json
  import opened Encoding
  import opened Http
  import Jws
  import SessionToken

  /** A row of the `sessions` table, as far as the gate reads it. */
  datatype Session = Session(token: string, expiresAtMs: int)

  /** How the before-handle hook ends: the route runs, or a 401 with this error message. */
  datatype Outcome = Pass | Unauthorized(message: string)

  /** `isPublicPath`. */
  predicate IsPublicPath(path: string) {
    || path == "/api/auth/login" || path == "/api/auth/logout" || path == "/api/auth/me"
    || path == "/api/csrf" || path == "/health" || path == "/"
    || StartsWith(path, "/docs") || StartsWith(path, "/api/v1/license")
  }

  /** The query `token = ? AND expiresAt > now` finds a row. */
  predicate HasActiveSession(sessions: seq<Session>, token: string, nowMs: int) {
    exists i :: 0 <= i < |sessions| && sessions[i].token == token && sessions[i].expiresAtMs > nowMs
  }

  /** The `session` cookie, when it is present and non-empty. */
  function SessionCookie(cookieHeader: Option<string>, decode: Decoder): (r: Option<string>)
    ensures r.Some? ==> r.value != ""
  {
    var cookies := ParseCookies(cookieHeader, decode);
    if "session" in cookies && cookies["session"] != "" then Some(cookies["session"]) else None
  }

  /** The cookie path of the gate lets the request through. */
  predicate CookieAdmits(sessions: seq<Session>, cookieHeader: Option<string>, decode: Decoder, nowMs: int) {
    var cookie := SessionCookie(cookieHeader, decode);
    cookie.Some? && HasActiveSession(sessions, cookie.value, nowMs)
  }

  /** The header carries `Bearer ` and a token (possibly empty). */
  predicate IsBearer(authHeader: Option<string>) {
    authHeader.Some? && StartsWith(authHeader.value, "Bearer ")
  }

  /**
   * The session a verified payload names: `payload.sessionToken` is compared with the stored
   * tokens, and a claim that is not a string names none.
   */
  predicate PayloadAdmits(sessions: seq<Session>, payload: Json, nowMs: int) {
    var claim := StringField(payload, "sessionToken");
    claim.Some? && HasActiveSession(sessions, claim.value, nowMs)
  }

  /**
   * The hook's decision for a request to `path` with the given `Cookie` and `Authorization`
   * headers, at `nowMs`, against `sessions`.
   */
  function Decide(p: Primitives, secret: string, decode: Decoder, sessions: seq<Session>, path: string,
                  cookieHeader: Option<string>, authHeader: Option<string>, nowMs: int): (r: Outcome)
    ensures IsPublicPath(path) ==> r == Pass
    ensures CookieAdmits(sessions, cookieHeader, decode, nowMs) ==> r == Pass
    ensures r.Unauthorized? ==>
      r.message in {"Unauthorized", "Invalid or expired token", "Session expired"}
  {
    if IsPublicPath(path) then Pass
    else if CookieAdmits(sessions, cookieHeader, decode, nowMs) then Pass
    else if !IsBearer(authHeader) then Unauthorized("Unauthorized")
    else
      match SessionToken.Verify(p, secret, authHeader.value[7..], nowMs)
      case None => Unauthorized("Invalid or expired token")
      case Some(payload) =>
        if PayloadAdmits(sessions, payload, nowMs) then Pass else Unauthorized("Session expired")
  }

  /**
   * A request passes exactly when its path is public, its cookie names an active session, or it
   * carries a bearer token that verifies and names an active session.
   */
  lemma PassesExactly(p: Primitives, secret: string, decode: Decoder, sessions: seq<Session>, path: string,
                      cookieHeader: Option<string>, authHeader: Option<string>, nowMs: int)
    ensures Decide(p, secret, decode, sessions, path, cookieHeader, authHeader, nowMs) == Pass <==>
      || IsPublicPath(path)
      || CookieAdmits(sessions, cookieHeader, decode, nowMs)
      || (IsBearer(authHeader)
          && SessionToken.Verify(p, secret, authHeader.value[7..], nowMs).Some?
          && PayloadAdmits(sessions, SessionToken.Verify(p, secret, authHeader.value[7..], nowMs).value, nowMs))
  {
  }

  /** Each refusal names the first check that failed. */
  lemma RefusalReasons(p: Primitives, secret: string, decode: Decoder, sessions: seq<Session>, path: string,
                       cookieHeader: Option<string>, authHeader: Option<string>, nowMs: int)
    requires !IsPublicPath(path) && !CookieAdmits(sessions, cookieHeader, decode, nowMs)
    ensures var r := Decide(p, secret, decode, sessions, path, cookieHeader, authHeader, nowMs);
      && (!IsBearer(authHeader) ==> r == Unauthorized("Unauthorized"))
      && (IsBearer(authHeader) && SessionToken.Verify(p, secret, authHeader.value[7..], nowMs) == None ==>
            r == Unauthorized("Invalid or expired token"))
      && (IsBearer(authHeader) && SessionToken.Verify(p, secret, authHeader.value[7..], nowMs).Some?
          && !PayloadAdmits(sessions, SessionToken.Verify(p, secret, authHeader.value[7..], nowMs).value, nowMs) ==>
            r == Unauthorized("Session expired"))
  {
  }

  /**
   * A session token generated for a session that is still active passes the gate as a bearer
   * token within its validity window, on any path.
   */
  lemma GeneratedBearerPasses(p: Primitives, secret: string, decode: Decoder, sessions: seq<Session>, path: string,
                              cookieHeader: Option<string>, c: SessionToken.Claims, signMs: int, nowMs: int)
    requires Lawful(p)
    requires c.userId != "" && c.email != "" && c.sessionToken != ""
    requires signMs / 1000 != 0 && signMs / 1000 + SessionToken.LifetimeSeconds != 0
    requires signMs / 1000 <= nowMs / 1000 + Jws.ClockSkewSeconds
    requires nowMs / 1000 <= signMs / 1000 + SessionToken.LifetimeSeconds
    requires HasActiveSession(sessions, c.sessionToken, nowMs)
    ensures Decide(p, secret, decode, sessions, path, cookieHeader,
                   Some("Bearer " + SessionToken.Generate(p, secret, c, signMs)), nowMs) == Pass
  {
    var token := SessionToken.Generate(p, secret, c, signMs);
    var header := "Bearer " + token;
    assert header[..7] == "Bearer " && header[7..] == token;
    SessionToken.GenerateThenVerify(p, secret, c, signMs, nowMs);
  }

  /** A verified token whose session has expired or was deleted is refused with "Session expired". */
  lemma EndedSessionRefused(p: Primitives, secret: string, decode: Decoder, sessions: seq<Session>, path: string,
                            c: SessionToken.Claims, signMs: int, nowMs: int)
    requires Lawful(p)
    requires !IsPublicPath(path)
    requires c.userId != "" && c.email != "" && c.sessionToken != ""
    requires signMs / 1000 != 0 && signMs / 1000 + SessionToken.LifetimeSeconds != 0
    requires signMs / 1000 <= nowMs / 1000 + Jws.ClockSkewSeconds
    requires nowMs / 1000 <= signMs / 1000 + SessionToken.LifetimeSeconds
    requires !HasActiveSession(sessions, c.sessionToken, nowMs)
    ensures Decide(p, secret, decode, sessions, path, None,
                   Some("Bearer " + SessionToken.Generate(p, secret, c, signMs)), nowMs) == Unauthorized("Session expired")
  {
    var token := SessionToken.Generate(p, secret, c, signMs);
    var header := "Bearer " + token;
    assert header[..7] == "Bearer " && header[7..] == token;
    SessionToken.GenerateThenVerify(p, secret, c, signMs, nowMs);
    var body := SessionToken.Body(c, signMs / 1000);
    assert !PayloadAdmits(sessions, body, nowMs);
    assert SessionCookie(None, decode) == None;
    RefusalReasons(p, secret, decode, sessions, path, None, Some(header), nowMs);
  }
}
