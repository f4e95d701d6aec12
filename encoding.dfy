/**
 * The encodings and the keyed hash that the two token codecs are built from, taken as given:
 * UTF-8 (`Buffer.from(s)` / `buffer.toString()`), base64url (section 5 of RFC 4648),
 * `JSON.stringify` / `JSON.parse`, and HMAC-SHA256 (RFC 2104 over SHA-256). They are fields of
 * `Primitives`; the properties the code relies on are the laws collected in `Lawful`.
 */
module Encoding {
  import opened Wrappers
  import opened Text
  import opened Json

  datatype Primitives = Primitives(
    utf8Encode: string -> seq<byte>,
    utf8Decode: seq<byte> -> string,
    base64UrlEncode: seq<byte> -> string,
    base64UrlDecode: string -> seq<byte>,
    stringify: Json -> string,
    parse: string -> Option<Json>,     // None: `JSON.parse` throws
    hmacSha256: (string, string) -> seq<byte>)   // (key, message) to digest

  /** The alphabet of section 5 of RFC 4648 (no padding is written). */
  predicate IsBase64UrlChar(c: char) {
    ('A' <= c <= 'Z') || ('a' <= c <= 'z') || ('0' <= c <= '9') || c == '-' || c == '_'
  }

  /** The laws of the primitives that the proofs use. */
  ghost predicate Lawful(p: Primitives) {
    && (forall s :: p.utf8Decode(p.utf8Encode(s)) == s)
    && (forall s :: |p.utf8Encode(s)| >= |s|)
    && (forall s :: IsAscii(s) ==> |p.utf8Encode(s)| == |s|)
    && (forall b :: p.base64UrlDecode(p.base64UrlEncode(b)) == b)
    && (forall b :: |b| > 0 ==> |p.base64UrlEncode(b)| > 0)
    && (forall b, i :: 0 <= i < |p.base64UrlEncode(b)| ==> IsBase64UrlChar(p.base64UrlEncode(b)[i]))
    && (forall j :: WellFormed(j) ==> p.parse(p.stringify(j)) == Some(j))
    && (forall j :: |p.stringify(j)| > 0)
    && (forall key, msg :: |p.hmacSha256(key, msg)| == 32)
  }

  /** UTF-8 is injective: equal encodings come from equal strings. */
  lemma Utf8Injective(p: Primitives, a: string, b: string)
    requires Lawful(p)
    ensures p.utf8Encode(a) == p.utf8Encode(b) ==> a == b
  {
    if p.utf8Encode(a) == p.utf8Encode(b) {
      assert a == p.utf8Decode(p.utf8Encode(a));
    }
  }
}
