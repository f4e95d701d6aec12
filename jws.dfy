/**
 * The part the two token codecs share: JWS Compact Serialization (section 7.1 of RFC 7515)
 * with a fixed HS256 header (section 3.2 of RFC 7518). A token is
 * `base64url(header) "." base64url(body) "." base64url(HMAC(secret, header "." body))`.
 * Both codec files carry an identical copy of `signJwtParts`, `safeSignatureEquals`, the
 * split/header/signature checks and the `exp`/`iat` checks; they are modelled once, here.
 */
module Jws {
  import opened Wrappers
  import opened Text
  import opened Json
  import opened Encoding

  /** `{ alg: "HS256", typ: "JWT" }`, the only header either codec writes or accepts. */
  const Header: Json := JObj([("alg", JStr("HS256")), ("typ", JStr("JWT"))])

  /** Seconds a token's `iat` may lie in the future before it is rejected. */
  const ClockSkewSeconds := 60

  /** `Buffer.from(JSON.stringify(j)).toString("base64url")`. */
  function EncodeSegment(p: Primitives, j: Json): string {
    p.base64UrlEncode(p.utf8Encode(p.stringify(j)))
  }

  /** `JSON.parse(Buffer.from(segment, "base64url").toString())`; None when the parse throws. */
  function DecodeSegment(p: Primitives, segment: string): Option<Json> {
    p.parse(p.utf8Decode(p.base64UrlDecode(segment)))
  }

  /** `signJwtParts`: the base64url HMAC-SHA256 digest of `header "." body`. */
  function SignParts(p: Primitives, secret: string, header: string, body: string): string {
    p.base64UrlEncode(p.hmacSha256(secret, header + "." + body))
  }

  /** `${header}.${body}.${signature}`. */
  function Compact(header: string, body: string, signature: string): string {
    header + "." + body + "." + signature
  }

  lemma SegmentRoundTrip(p: Primitives, j: Json)
    requires Lawful(p)
    requires WellFormed(j)
    ensures DecodeSegment(p, EncodeSegment(p, j)) == Some(j)
    ensures EncodeSegment(p, j) != [] && '.' !in EncodeSegment(p, j)
  {
    assert |p.utf8Encode(p.stringify(j))| > 0;
  }

  lemma SignatureShape(p: Primitives, secret: string, header: string, body: string)
    requires Lawful(p)
    ensures SignParts(p, secret, header, body) != [] && '.' !in SignParts(p, secret, header, body)
  {
    assert |p.hmacSha256(secret, header + "." + body)| == 32;
  }

  /** The number of positions at which two equally long byte strings differ. */
  function DiffCount(a: seq<byte>, b: seq<byte>): (n: nat)
    requires |a| == |b|
    ensures n == 0 <==> a == b
  {
    if |a| == 0 then 0
    else
      var n := |a| - 1;
      var rest := DiffCount(a[..n], b[..n]);
      assert a == a[..n] + [a[n]] && b == b[..n] + [b[n]];
      rest + (if a[n] == b[n] then 0 else 1)
  }

  /**
   * `safeSignatureEquals`: false when the UTF-8 encodings differ in length, otherwise
   * `timingSafeEqual`, which looks at every byte (the fold over `DiffCount`) before answering.
   */
  function SafeSignatureEquals(p: Primitives, expected: string, received: string): bool {
    var e := p.utf8Encode(expected);
    var r := p.utf8Encode(received);
    if |e| != |r| then false else DiffCount(e, r) == 0
  }

  lemma SafeSignatureEqualsIsEquality(p: Primitives, expected: string, received: string)
    requires Lawful(p)
    ensures SafeSignatureEquals(p, expected, received) <==> expected == received
  {
    Utf8Injective(p, expected, received);
  }

  /** The decoded header is an object whose `alg` is "HS256" and whose `typ` is "JWT". */
  predicate HeaderAccepted(header: Option<Json>) {
    && header.Some?
    && Get(header.value, "alg") == Some(JStr("HS256"))
    && Get(header.value, "typ") == Some(JStr("JWT"))
  }

  /**
   * The checks both verifiers run before they look at the claims: exactly three segments,
   * none empty, the HS256/JWT header, the recomputed signature; then the body is parsed.
   */
  function VerifySignedBody(p: Primitives, secret: string, token: string): Option<Json> {
    var parts := Split(token, '.');
    if |parts| != 3 then None
    else if parts[0] == "" || parts[1] == "" || parts[2] == "" then None
    else if !HeaderAccepted(DecodeSegment(p, parts[0])) then None
    else if !SafeSignatureEquals(p, SignParts(p, secret, parts[0], parts[1]), parts[2]) then None
    else DecodeSegment(p, parts[1])
  }

  /** A JavaScript number claim that is present and not 0 (`!payload.exp` rejects 0). */
  function NonZeroNumber(payload: Json, key: string): Option<int> {
    match NumberField(payload, key)
    case Some(n) => if n != 0 then Some(n) else None
    case None => None
  }

  /** `exp` is present and not before `now`, and `iat` is present and at most 60 s after `now`. */
  predicate TimesAccepted(payload: Json, now: int) {
    && NonZeroNumber(payload, "exp").Some? && NonZeroNumber(payload, "exp").value >= now
    && NonZeroNumber(payload, "iat").Some? && NonZeroNumber(payload, "iat").value <= now + ClockSkewSeconds
  }

  /** The token the signers build for `body`. */
  function Sign(p: Primitives, secret: string, body: Json): string {
    var h := EncodeSegment(p, Header);
    var b := EncodeSegment(p, body);
    Compact(h, b, SignParts(p, secret, h, b))
  }

  lemma {:induction false} CompactSplit(h: string, b: string, s: string)
    requires h != [] && b != [] && s != []
    requires '.' !in h && '.' !in b && '.' !in s
    ensures Split(Compact(h, b, s), '.') == [h, b, s]
  {
    JoinThree(h, b, s);
    SplitJoin([h, b, s], '.');
  }

  lemma JoinThree(h: string, b: string, s: string)
    ensures Join([h, b, s], '.') == Compact(h, b, s)
  {
    assert [b, s][1..] == [s];
    assert Join([b, s], '.') == b + "." + s;
    assert [h, b, s][1..] == [b, s];
  }

  /** Whatever the verifier accepts carries the signature the secret gives its first two segments. */
  lemma AcceptedTokensAreSigned(p: Primitives, secret: string, token: string)
    requires Lawful(p)
    requires VerifySignedBody(p, secret, token).Some?
    ensures exists h, b :: token == Compact(h, b, SignParts(p, secret, h, b))
  {
    var parts := Split(token, '.');
    SafeSignatureEqualsIsEquality(p, SignParts(p, secret, parts[0], parts[1]), parts[2]);
    JoinSplit(token, '.');
    assert parts == [parts[0], parts[1], parts[2]];
    JoinThree(parts[0], parts[1], parts[2]);
  }

  /** Verifying an unmodified signed token gives back the signed body. */
  lemma SignThenVerify(p: Primitives, secret: string, body: Json)
    requires Lawful(p)
    requires WellFormed(body)
    ensures VerifySignedBody(p, secret, Sign(p, secret, body)) == Some(body)
  {
    var h := EncodeSegment(p, Header);
    var b := EncodeSegment(p, body);
    var s := SignParts(p, secret, h, b);
    assert WellFormed(Header);
    SegmentRoundTrip(p, Header);
    SegmentRoundTrip(p, body);
    SignatureShape(p, secret, h, b);
    CompactSplit(h, b, s);
    SafeSignatureEqualsIsEquality(p, s, s);
  }

  /** Replacing the signature segment of a signed token by any other segment makes it invalid. */
  lemma TamperedSignatureRejected(p: Primitives, secret: string, body: Json, forged: string)
    requires Lawful(p)
    requires WellFormed(body)
    requires '.' !in forged
    requires forged != SignParts(p, secret, EncodeSegment(p, Header), EncodeSegment(p, body))
    ensures VerifySignedBody(p, secret,
      Compact(EncodeSegment(p, Header), EncodeSegment(p, body), forged)) == None
  {
    var h := EncodeSegment(p, Header);
    var b := EncodeSegment(p, body);
    SegmentRoundTrip(p, Header);
    SegmentRoundTrip(p, body);
    if forged != [] {
      CompactSplit(h, b, forged);
      SafeSignatureEqualsIsEquality(p, SignParts(p, secret, h, b), forged);
    } else {
      JoinThree(h, b, forged);
      SplitJoin([h, b, forged], '.');
    }
  }
}
