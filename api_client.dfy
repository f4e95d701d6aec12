/**
 * The request side of the dashboard's `lib/api-client.ts`: the configured base URL, the URL of
 * an API path, which methods change state, the headers `apiRequest` sends, and the path
 * `fetchLicenses` asks for. The `fetch` calls themselves are not modelled.
 */
module ApiClient {
  import opened Wrappers
  import opened Text

  // ---- the base URL ----

  /** `s.replace(/\/+$/, "")`: the longest prefix of `s` that does not end with `/` once only slashes are cut. */
  function StripTrailingSlashes(s: string): (r: string)
    ensures |r| <= |s| && r == s[..|r|]
    ensures r == [] || r[|r| - 1] != '/'
    ensures forall i :: |r| <= i < |s| ==> s[i] == '/'
  {
    if |s| > 0 && s[|s| - 1] == '/' then StripTrailingSlashes(s[..|s| - 1]) else s
  }

  /** `(VITE_API_BASE_URL || "").trim().replace(/\/+$/, "")`; an unset variable is `None`. */
  function BaseUrl(configured: Option<string>): (r: string)
    ensures var t := Trim(if configured.Some? then configured.value else "");
      && |r| <= |t| && r == t[..|r|]
      && (forall i :: |r| <= i < |t| ==> t[i] == '/')
    ensures r == [] || r[|r| - 1] != '/'
  {
    StripTrailingSlashes(Trim(if configured.Some? then configured.value else ""))
  }

  /** A base URL that is already trimmed and has no trailing slash is used as it is. */
  lemma NormalBaseUrlKept(configured: string)
    requires Trimmed(configured) && (configured == [] || configured[|configured| - 1] != '/')
    ensures BaseUrl(Some(configured)) == configured
  {
    TrimOfTrimmed(configured);
  }

  /** An unset or empty variable leaves every path relative to the page. */
  lemma UnsetBaseUrl()
    ensures BaseUrl(None) == "" && BaseUrl(Some("")) == ""
  {
  }

  /** `apiUrl(path)`: the path under `/api` of the base URL, without doubling a base that ends in `/api`. */
  function ApiUrl(base: string, path: string): (r: string)
    ensures StartsWith(r, if EndsWith(base, "/api") then base[..|base| - 4] else base)
    ensures EndsWith(r, "/api" + path)
  {
    if base == "" then "/api" + path
    else if EndsWith(base, "/api") then base + path
    else base + "/api" + path
  }

  /** The base without a trailing `/api`. */
  function Stem(base: string): (s: string)
    ensures |s| <= |base| && s == base[..|s|]
  {
    if EndsWith(base, "/api") then base[..|base| - 4] else base
  }

  /** Every API URL is the base's stem, then `/api` exactly once, then the path. */
  lemma ApiUrlShape(base: string, path: string)
    ensures ApiUrl(base, path) == Stem(base) + "/api" + path
  {
    if EndsWith(base, "/api") {
      assert base == base[..|base| - 4] + "/api";
    }
  }

  // ---- methods ----

  /** The two strings agree once ASCII letters are lower-cased. */
  predicate SameIgnoringCase(a: string, b: string) {
    |a| == |b| && forall i :: 0 <= i < |a| ==> LowerChar(a[i]) == LowerChar(b[i])
  }

  /** `method || "GET"`: an absent or empty method is GET. */
  function MethodOrGet(verb: Option<string>): string {
    if verb.Some? && verb.value != "" then verb.value else "GET"
  }

  /** `isStateChangingMethod(method)`: the upper-cased method is POST, PUT, PATCH or DELETE. */
  function IsStateChangingMethod(verb: Option<string>): bool {
    var normalized := ToUpper(MethodOrGet(verb));
    normalized == "POST" || normalized == "PUT" || normalized == "PATCH" || normalized == "DELETE"
  }

  /** Upper-casing gives a word of capital letters exactly when the string is that word in any case. */
  lemma UpperIffSameIgnoringCase(a: string, b: string)
    requires forall i :: 0 <= i < |b| ==> 'A' <= b[i] <= 'Z'
    ensures ToUpper(a) == b <==> SameIgnoringCase(a, b)
  {
    if |a| == |b| {
      forall i | 0 <= i < |a| ensures UpperChar(a[i]) == b[i] <==> LowerChar(a[i]) == LowerChar(b[i]) {
      }
      if SameIgnoringCase(a, b) {
        assert forall i :: 0 <= i < |a| ==> ToUpper(a)[i] == b[i];
      }
    }
  }

  /** The state-changing methods are POST, PUT, PATCH and DELETE in any mix of cases, and nothing else. */
  lemma StateChangingIff(verb: Option<string>)
    ensures IsStateChangingMethod(verb) <==>
      verb.Some? && (SameIgnoringCase(verb.value, "POST") || SameIgnoringCase(verb.value, "PUT") ||
       SameIgnoringCase(verb.value, "PATCH") || SameIgnoringCase(verb.value, "DELETE"))
  {
    var m := MethodOrGet(verb);
    UpperIffSameIgnoringCase(m, "POST");
    UpperIffSameIgnoringCase(m, "PUT");
    UpperIffSameIgnoringCase(m, "PATCH");
    UpperIffSameIgnoringCase(m, "DELETE");
    if m == "GET" {
      assert !SameIgnoringCase(m, "PUT") by {
        assert LowerChar(m[0]) == 'g' && LowerChar("PUT"[0]) == 'p';
      }
    }
  }

  // ---- apiRequest ----

  const ContentType := "Content-Type"
  const JsonType := "application/json"
  const CsrfHeader := "x-csrf-token"

  /** What `apiRequest` hands to `fetch`. */
  datatype Request = Request(url: string, verb: string, headers: map<string, string>)

  /**
   * `apiRequest(path, init)`: the method upper-cased; a CSRF token asked for only when the method
   * changes state (`fetched` is what `authClient.getCsrfToken()` gives); the JSON content type for
   * everything but GET, then the token when there is one, then the caller's headers over both.
   */
  function ApiRequest(base: string, path: string, verb: Option<string>, fetched: Option<string>,
                      caller: map<string, string>): (r: Request)
    ensures r.url == ApiUrl(base, path) && r.verb == ToUpper(MethodOrGet(verb))
    ensures forall k :: k in caller ==> k in r.headers && r.headers[k] == caller[k]
    ensures forall k :: k in r.headers ==> k in caller || k == ContentType || k == CsrfHeader
    ensures ContentType !in caller ==>
      (ContentType in r.headers <==> r.verb != "GET") && (ContentType in r.headers ==> r.headers[ContentType] == JsonType)
  {
    var normalized := ToUpper(MethodOrGet(verb));
    var token := if IsStateChangingMethod(Some(normalized)) then fetched else None;
    var json: map<string, string> := if normalized != "GET" then map[ContentType := JsonType] else map[];
    var csrf: map<string, string> := if token.Some? && token.value != "" then map[CsrfHeader := token.value] else map[];
    Request(ApiUrl(base, path), normalized, json + csrf + caller)
  }

  /** Upper-casing twice changes nothing more. */
  lemma UpperIdempotent(s: string)
    ensures ToUpper(ToUpper(s)) == ToUpper(s)
  {
  }

  /**
   * The CSRF header, unless the caller sets it, is sent exactly for a state-changing method that
   * obtained a non-empty token, and it carries that token.
   */
  lemma CsrfHeaderRule(base: string, path: string, verb: Option<string>, fetched: Option<string>, caller: map<string, string>)
    requires CsrfHeader !in caller
    ensures var r := ApiRequest(base, path, verb, fetched, caller);
      && (CsrfHeader in r.headers <==> IsStateChangingMethod(verb) && fetched.Some? && fetched.value != "")
      && (CsrfHeader in r.headers ==> r.headers[CsrfHeader] == fetched.value)
  {
    var m := MethodOrGet(verb);
    UpperIdempotent(m);
    if verb.Some? && verb.value == "" {
      assert ToUpper(m) == "GET";
    }
  }

  // ---- fetchLicenses ----

  /**
   * The path `fetchLicenses(appName)` asks for: the `appName` parameter only when the trimmed
   * filter is not empty; `encode` is the form encoding of `URLSearchParams`.
   */
  function LicensesPath(appName: Option<string>, encode: string -> string): (r: string)
    ensures StartsWith(r, "/licenses")
    ensures r == "/licenses" <==> appName.None? || Trim(appName.value) == ""
    ensures r != "/licenses" ==> r == "/licenses?appName=" + encode(Trim(appName.value))
  {
    if appName.Some? && Trim(appName.value) != "" then "/licenses?appName=" + encode(Trim(appName.value))
    else "/licenses"
  }

  /** `fetchLicenses` sends a GET: no content type, and no CSRF token is asked for. */
  lemma FetchLicensesRequest(base: string, appName: Option<string>, encode: string -> string, fetched: Option<string>)
    ensures var r := ApiRequest(base, LicensesPath(appName, encode), None, fetched, map[]);
      && r.verb == "GET" && r.headers == map[]
      && r.url == Stem(base) + "/api" + LicensesPath(appName, encode)
  {
    ApiUrlShape(base, LicensesPath(appName, encode));
    assert ToUpper("GET") == "GET";
  }
}
