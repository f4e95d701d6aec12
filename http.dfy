/**
 * Cookie handling shared by the middleware (`lib/http.ts`): a tolerant reading of a `Cookie`
 * request header (after section 4.2.1 of RFC 6265) and the rule for the `Secure` attribute.
 */
module Http {
  import opened Wrappers
  import opened Text

  /** `decodeURIComponent`; `None` where it throws on a malformed escape. */
  type Decoder = string -> Option<string>

  /** What a raw value is stored as: its decoding, or the raw text when decoding throws. */
  function Stored(decode: Decoder, raw: string): string {
    match decode(raw)
    case Some(v) => v
    case None => raw
  }

  /** `[rawKey, ...rest] = part.trim().split("=")`. */
  function RawKey(part: string): (k: string)
    ensures '=' !in k
  {
    Split(Trim(part), '=')[0]
  }

  /** `rest.join("=")`. */
  function RawValue(part: string): string {
    Join(Split(Trim(part), '=')[1..], '=')
  }

  /** One step of the `reduce`: a part with an empty key is skipped, otherwise its key is (re)set. */
  function AddPart(acc: map<string, string>, part: string, decode: Decoder): map<string, string> {
    var key := RawKey(part);
    if key == "" then acc else acc[key := Stored(decode, RawValue(part))]
  }

  /** The `reduce` over the `;`-separated parts, from the first part to the last. */
  function Fold(parts: seq<string>, decode: Decoder): (r: map<string, string>)
    ensures forall k :: k in r ==> k != "" && '=' !in k
  {
    if |parts| == 0 then map[]
    else AddPart(Fold(parts[..|parts| - 1], decode), parts[|parts| - 1], decode)
  }

  /** `parseCookies`: a missing or empty header is the empty record. */
  function ParseCookies(header: Option<string>, decode: Decoder): (r: map<string, string>)
    ensures header == None || header == Some("") ==> r == map[]
    ensures forall k :: k in r ==> k != "" && '=' !in k
  {
    if header == None || header.value == "" then map[] else Fold(Split(header.value, ';'), decode)
  }

  /**
   * The key of a part is its trimmed text up to the first `=`; the value is everything after
   * that `=`, further `=` included, and empty when there is none.
   */
  lemma KeyAndValue(part: string)
    ensures var t := Trim(part); var i := FirstIndex(t, '=');
      RawKey(part) == t[..i] && RawValue(part) == if i < |t| then t[i + 1..] else ""
  {
    SplitFirst(Trim(part), '=');
  }

  /** An empty header part has an empty key. */
  lemma EmptyPartSkipped(acc: map<string, string>, decode: Decoder)
    ensures AddPart(acc, "", decode) == acc
  {
    assert Trim("") == "";
    assert Split("", '=')[0] == "";
  }

  /**
   * Reading `h; part` is reading `h` and then applying `part`: a later part overrides an earlier
   * one with the same key, and a part with an empty key changes nothing.
   */
  lemma ParseCookiesAppend(h: string, part: string, decode: Decoder)
    requires ';' !in part
    ensures ParseCookies(Some(h + ";" + part), decode) == AddPart(ParseCookies(Some(h), decode), part, decode)
  {
    assert h + ";" + part == h + [';'] + part;
    SplitAppend(h, ';', part);
    if h == "" {
      AppendToEmpty(part, decode);
    } else {
      FoldSnoc(Split(h, ';'), part, decode);
    }
  }

  lemma AppendToEmpty(part: string, decode: Decoder)
    ensures Fold(Split("", ';') + [part], decode) == AddPart(map[], part, decode)
  {
    assert Split("", ';') == [""];
    FoldSnoc([""], part, decode);
    FoldSnoc([], "", decode);
    EmptyPartSkipped(map[], decode);
  }

  lemma FoldSnoc(parts: seq<string>, part: string, decode: Decoder)
    ensures Fold(parts + [part], decode) == AddPart(Fold(parts, decode), part, decode)
  {
    assert (parts + [part])[..|parts|] == parts;
  }

  /** The last part that sets a key decides its value. */
  lemma LaterDuplicateWins(h: string, part: string, decode: Decoder)
    requires ';' !in part && RawKey(part) != ""
    ensures var r := ParseCookies(Some(h + ";" + part), decode);
      RawKey(part) in r && r[RawKey(part)] == Stored(decode, RawValue(part))
    ensures forall k :: k != RawKey(part) ==>
      (k in ParseCookies(Some(h + ";" + part), decode) <==> k in ParseCookies(Some(h), decode))
  {
    ParseCookiesAppend(h, part, decode);
  }

  /** A header of one `key=value` pair, with no white space at its ends, reads as that pair. */
  lemma SingleCookie(key: string, value: string, decode: Decoder)
    requires key != "" && '=' !in key && ';' !in key && ';' !in value
    requires Trimmed(key + "=" + value)
    ensures ParseCookies(Some(key + "=" + value), decode) == map[key := Stored(decode, value)]
  {
    var pair := key + "=" + value;
    assert pair == key + ['='] + value;
    FirstIndexPast(pair, ';', "");
    TrimOfTrimmed(pair);
    FirstIndexPast(key, '=', value);
    KeyAndValue(pair);
    assert pair[..|key|] == key && pair[|key| + 1..] == value;
    assert Split(pair, ';') == [pair];
    FoldSnoc([], pair, decode);
  }

  /** `shouldUseSecureCookies`, from the `BETTER_AUTH_URL` and `NODE_ENV` variables. */
  predicate ShouldUseSecureCookies(authUrl: Option<string>, nodeEnv: Option<string>) {
    authUrl.Some? && StartsWith(authUrl.value, "https://") && nodeEnv == Some("production")
  }
}
