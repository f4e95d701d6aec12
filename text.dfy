/**
 * String primitives of the JavaScript runtime that the licensing code relies on:
 * `trim`, ASCII `toLowerCase`/`toUpperCase`, `startsWith`/`endsWith`, `split`/`join`
 * on a one-character separator, substring search and hexadecimal encoding of bytes.
 */
module Text {

  /** An octet, as in a Node.js `Buffer`. */
  type byte = x: int | 0 <= x < 256

  /** Every character is in the 7-bit ASCII range. */
  predicate IsAscii(s: string) {
    forall i :: 0 <= i < |s| ==> s[i] as int < 128
  }

  /** The characters `String.prototype.trim` removes: white space and line terminators. */
  predicate IsWhitespace(c: char) {
    || c == ' ' || c == '\t' || c == '\n' || c == '\r'
    || c == '\U{000B}' || c == '\U{000C}' || c == '\U{00A0}' || c == '\U{FEFF}'
    || c == '\U{1680}' || ('\U{2000}' <= c <= '\U{200A}')
    || c == '\U{2028}' || c == '\U{2029}' || c == '\U{202F}' || c == '\U{205F}' || c == '\U{3000}'
  }

  /** The string has no white space at either end. */
  predicate Trimmed(s: string) {
    s == [] || (!IsWhitespace(s[0]) && !IsWhitespace(s[|s| - 1]))
  }

  function TrimStart(s: string): (r: string)
    ensures |r| <= |s| && r == s[|s| - |r|..]
    ensures r == [] || !IsWhitespace(r[0])
    ensures forall i :: 0 <= i < |s| - |r| ==> IsWhitespace(s[i])
  {
    if |s| > 0 && IsWhitespace(s[0]) then TrimStart(s[1..]) else s
  }

  function TrimEnd(s: string): (r: string)
    ensures |r| <= |s| && r == s[..|r|]
    ensures r == [] || !IsWhitespace(r[|r| - 1])
    ensures forall i :: |r| <= i < |s| ==> IsWhitespace(s[i])
  {
    if |s| > 0 && IsWhitespace(s[|s| - 1]) then TrimEnd(s[..|s| - 1]) else s
  }

  /** `s.trim()`: the longest infix of `s` that neither starts nor ends with white space. */
  function Trim(s: string): (r: string)
    ensures Trimmed(r) && |r| <= |s|
  {
    TrimEnd(TrimStart(s))
  }

  /** `!s.trim()`: the string is empty once trimmed. */
  predicate IsBlank(s: string) {
    Trim(s) == ""
  }

  lemma TrimOfTrimmed(s: string)
    requires Trimmed(s)
    ensures Trim(s) == s
  {
  }

  lemma TrimIdempotent(s: string)
    ensures Trim(Trim(s)) == Trim(s)
  {
    TrimOfTrimmed(Trim(s));
  }

  function LowerChar(c: char): char {
    if 'A' <= c <= 'Z' then (c as int + 32) as char else c
  }

  function UpperChar(c: char): char {
    if 'a' <= c <= 'z' then (c as int - 32) as char else c
  }

  /** `s.toLowerCase()`, restricted to the ASCII letters. */
  function ToLower(s: string): (r: string)
    ensures |r| == |s| && forall i :: 0 <= i < |s| ==> r[i] == LowerChar(s[i])
  {
    seq(|s|, i requires 0 <= i < |s| => LowerChar(s[i]))
  }

  /** `s.toUpperCase()`, restricted to the ASCII letters. */
  function ToUpper(s: string): (r: string)
    ensures |r| == |s| && forall i :: 0 <= i < |s| ==> r[i] == UpperChar(s[i])
  {
    seq(|s|, i requires 0 <= i < |s| => UpperChar(s[i]))
  }

  predicate StartsWith(s: string, prefix: string) {
    |prefix| <= |s| && s[..|prefix|] == prefix
  }

  predicate EndsWith(s: string, suffix: string) {
    |suffix| <= |s| && s[|s| - |suffix|..] == suffix
  }

  /** `s.includes(sub)`. */
  predicate Contains(s: string, sub: string)
    decreases |s|
  {
    StartsWith(s, sub) || (|s| > 0 && Contains(s[1..], sub))
  }

  /** The index of the first `c` in `s`, or `|s|` when there is none. */
  function FirstIndex(s: string, c: char): (i: nat)
    ensures i <= |s|
    ensures i < |s| ==> s[i] == c
    ensures c !in s[..i]
  {
    if |s| == 0 || s[0] == c then 0
    else
      var j := FirstIndex(s[1..], c);
      assert s[..1 + j] == [s[0]] + s[1..][..j];
      1 + j
  }

  /** `s.split(sep)` for a one-character separator: never empty, and no part holds `sep`. */
  function Split(s: string, sep: char): (parts: seq<string>)
    ensures |parts| >= 1
    ensures forall k :: 0 <= k < |parts| ==> sep !in parts[k]
    decreases |s|
  {
    var i := FirstIndex(s, sep);
    if i == |s| then [s] else [s[..i]] + Split(s[i + 1..], sep)
  }

  /** `parts.join(sep)` for a one-character separator. */
  function Join(parts: seq<string>, sep: char): string {
    if |parts| == 0 then ""
    else if |parts| == 1 then parts[0]
    else parts[0] + [sep] + Join(parts[1..], sep)
  }

  /** Joining a part in front of at least one more part puts the separator between them. */
  lemma JoinCons(x: string, parts: seq<string>, sep: char)
    requires |parts| >= 1
    ensures Join([x] + parts, sep) == x + [sep] + Join(parts, sep)
  {
    assert ([x] + parts)[0] == x && ([x] + parts)[1..] == parts;
  }

  lemma {:induction false} JoinSplit(s: string, sep: char)
    ensures Join(Split(s, sep), sep) == s
    decreases |s|
  {
    var i := FirstIndex(s, sep);
    if i < |s| {
      var tail := s[i + 1..];
      JoinSplit(tail, sep);
      SplitAtFirst(s, sep, i);
      JoinCons(s[..i], Split(tail, sep), sep);
      assert s == s[..i] + [sep] + tail;
    } else {
      assert Split(s, sep) == [s];
    }
  }

  lemma FirstIndexPast(a: string, sep: char, rest: string)
    requires sep !in a
    ensures FirstIndex(a, sep) == |a|
    ensures FirstIndex(a + [sep] + rest, sep) == |a|
  {
    var s := a + [sep] + rest;
    assert forall k :: 0 <= k < |a| ==> s[k] == a[k] && a[k] in a;
    assert s[|a|] == sep;
    assert sep in s[..|a| + 1];
  }

  /** Text appended after the first `c` does not move it. */
  lemma {:induction false} FirstIndexPrefix(a: string, rest: string, c: char)
    requires FirstIndex(a, c) < |a|
    ensures FirstIndex(a + rest, c) == FirstIndex(a, c)
  {
    if a[0] != c {
      assert (a + rest)[1..] == a[1..] + rest;
      FirstIndexPrefix(a[1..], rest, c);
    }
  }

  /** A separator at `i`, the first one, ends the first part. */
  lemma SplitAtFirst(s: string, sep: char, i: nat)
    requires i == FirstIndex(s, sep) && i < |s|
    ensures Split(s, sep) == [s[..i]] + Split(s[i + 1..], sep)
  {
  }

  /** Without a separator in `a`, `a` is the first part and `b` splits on its own. */
  lemma SplitConcatBase(a: string, sep: char, b: string)
    requires FirstIndex(a, sep) == |a|
    ensures Split(a + [sep] + b, sep) == Split(a, sep) + Split(b, sep)
  {
    var s := a + [sep] + b;
    FirstIndexPast(a, sep, b);
    assert s[..|a|] == a && s[|a| + 1..] == b;
    SplitAtFirst(s, sep, |a|);
  }

  /** A first separator at `i` in `a` is the first separator of `a + [sep] + b` too. */
  lemma SplitConcatFirst(a: string, sep: char, b: string, i: nat)
    requires i == FirstIndex(a, sep) && i < |a|
    ensures Split(a + [sep] + b, sep) == [a[..i]] + Split(a[i + 1..] + [sep] + b, sep)
  {
    var s := a + [sep] + b;
    assert FirstIndex(s, sep) == i by {
      assert s == a + ([sep] + b);
      FirstIndexPrefix(a, [sep] + b, sep);
    }
    assert s[..i] == a[..i];
    var rest, expected := s[i + 1..], a[i + 1..] + [sep] + b;
    assert rest == expected by {
      assert |rest| == |expected|;
      forall k | 0 <= k < |rest| ensures rest[k] == expected[k] {
        assert rest[k] == s[i + 1 + k];
      }
    }
    SplitAtFirst(s, sep, i);
  }

  /** With a first separator at `i` in `a`, the claim for `a` follows from the claim for the text after it. */
  lemma SplitConcatStep(a: string, sep: char, b: string, i: nat)
    requires i == FirstIndex(a, sep) && i < |a|
    requires Split(a[i + 1..] + [sep] + b, sep) == Split(a[i + 1..], sep) + Split(b, sep)
    ensures Split(a + [sep] + b, sep) == Split(a, sep) + Split(b, sep)
  {
    var head, left, right := a[..i], Split(a[i + 1..], sep), Split(b, sep);
    calc {
      Split(a + [sep] + b, sep);
      { SplitConcatFirst(a, sep, b, i); }
      [head] + Split(a[i + 1..] + [sep] + b, sep);
      [head] + (left + right);
      ([head] + left) + right;
      { SplitAtFirst(a, sep, i); }
      Split(a, sep) + right;
    }
  }

  /** Splitting at a separator splits the two sides independently. */
  lemma {:induction false} SplitConcat(a: string, sep: char, b: string)
    ensures Split(a + [sep] + b, sep) == Split(a, sep) + Split(b, sep)
    decreases |a|
  {
    var i := FirstIndex(a, sep);
    if i == |a| {
      SplitConcatBase(a, sep, b);
    } else {
      SplitConcat(a[i + 1..], sep, b);
      SplitConcatStep(a, sep, b, i);
    }
  }

  /** The first part ends at the first separator; the others join back to the rest after it. */
  lemma SplitFirst(t: string, sep: char)
    ensures var i := FirstIndex(t, sep);
      Split(t, sep)[0] == t[..i] && Join(Split(t, sep)[1..], sep) == if i < |t| then t[i + 1..] else ""
  {
    var i := FirstIndex(t, sep);
    if i < |t| {
      assert Split(t, sep)[1..] == Split(t[i + 1..], sep);
      JoinSplit(t[i + 1..], sep);
    } else {
      assert t[..i] == t;
    }
  }

  /** A separator-free tail is one more part. */
  lemma SplitAppend(h: string, sep: char, part: string)
    requires sep !in part
    ensures Split(h + [sep] + part, sep) == Split(h, sep) + [part]
  {
    SplitConcat(h, sep, part);
    FirstIndexPast(part, sep, "");
  }

  /** Splitting the join of separator-free parts gives the parts back. */
  lemma {:induction false} SplitJoin(parts: seq<string>, sep: char)
    requires |parts| >= 1
    requires forall k :: 0 <= k < |parts| ==> sep !in parts[k]
    ensures Split(Join(parts, sep), sep) == parts
  {
    if |parts| == 1 {
      FirstIndexPast(parts[0], sep, "");
      assert Split(parts[0], sep) == [parts[0]];
    } else {
      var head, tail := parts[0], parts[1..];
      var rest := Join(tail, sep);
      var s := head + [sep] + rest;
      assert parts == [head] + tail;
      JoinCons(head, tail, sep);
      FirstIndexPast(head, sep, rest);
      assert s[..|head|] == head && s[|head| + 1..] == rest;
      SplitAtFirst(s, sep, |head|);
      SplitJoin(tail, sep);
    }
  }

  const HexDigits := "0123456789abcdef"

  /** The decimal digits of a natural number, as `String(n)` writes them. */
  function Decimal(n: nat): (r: string)
    ensures |r| > 0
  {
    if n < 10 then [HexDigits[n]] else Decimal(n / 10) + [HexDigits[n % 10]]
  }

  /** `Buffer.toString("hex")`: two lower-case hexadecimal digits per byte, high nibble first. */
  function Hex(bytes: seq<byte>): (r: string)
    ensures |r| == 2 * |bytes|
    ensures forall k :: 0 <= k < |bytes| ==>
      r[2 * k] == HexDigits[bytes[k] / 16] && r[2 * k + 1] == HexDigits[bytes[k] % 16]
  {
    if |bytes| == 0 then ""
    else
      var tail := Hex(bytes[1..]);
      var r := [HexDigits[bytes[0] / 16], HexDigits[bytes[0] % 16]] + tail;
      assert forall k :: 1 <= k < |bytes| ==> r[2 * k] == HexDigits[bytes[k] / 16] && r[2 * k + 1] == HexDigits[bytes[k] % 16] by {
        forall k | 1 <= k < |bytes| ensures r[2 * k] == HexDigits[bytes[k] / 16] && r[2 * k + 1] == HexDigits[bytes[k] % 16] {
          var j := k - 1;
          assert bytes[1..][j] == bytes[k];
          assert r[2 * k] == tail[2 * j] && r[2 * k + 1] == tail[2 * j + 1];
        }
      }
      r
  }

  /** Every character of a hexadecimal encoding is a hexadecimal digit. */
  lemma HexDigitsOnly(bytes: seq<byte>)
    ensures forall i :: 0 <= i < |Hex(bytes)| ==> Hex(bytes)[i] in HexDigits
  {
    var r := Hex(bytes);
    forall i | 0 <= i < |r| ensures r[i] in HexDigits {
      var k := i / 2;
      assert i == 2 * k || i == 2 * k + 1;
    }
  }
}
