/**
 * License keys (`randomGroup`, `generateLicenseKey`, `createUniqueLicenseKey` in
 * `services/licensing.ts`): five groups of five symbols from a 32-symbol alphabet, joined by `-`,
 * retried against the app's existing keys. The draws of `randomInt(32)` and the bytes of
 * `randomBytes(2)` are parameters.
 */
module LicenseKeys {
  import opened Wrappers
  import opened Text
  import opened Tables
  import opened Schema

  /** The key alphabet: the upper-case letters and digits without `0`, `1`, `I` and `O`. */
  const Alphabet := "ABCDEFGHJKLMNPQRSTUVWXYZ23456789"

  /** The alphabet is exactly the 32 symbols that cannot be misread as one another. */
  lemma AlphabetIsUnambiguous()
    ensures |Alphabet| == 32
    ensures forall c :: c in Alphabet <==> Readable(c)
    ensures '0' !in Alphabet && '1' !in Alphabet && 'I' !in Alphabet && 'O' !in Alphabet && '-' !in Alphabet
  {
    assert forall i :: 0 <= i < |Alphabet| ==> Readable(Alphabet[i]);
    forall c | Readable(c) ensures c in Alphabet {
      var n := c as int;
      var i := if n <= '9' as int then 24 + n - '2' as int
        else if n <= 'H' as int then n - 'A' as int
        else if n <= 'N' as int then n - 'A' as int - 1
        else n - 'A' as int - 2;
      assert Alphabet[i] == c;
    }
  }

  /** An upper-case letter other than `I` and `O`, or a digit from 2 to 9. */
  predicate Readable(c: char) {
    (('A' <= c <= 'Z') && c != 'I' && c != 'O') || ('2' <= c <= '9')
  }

  /** `alphabet[draw] || "X"`: a draw outside the alphabet gives `X`. */
  function KeyChar(draw: int): (c: char)
    ensures c in Alphabet
  {
    if 0 <= draw < |Alphabet| then Alphabet[draw] else 'X'
  }

  /** The group that `randomGroup` builds from its draws. */
  function Group(draws: seq<int>): (r: string)
    ensures |r| == |draws|
    ensures forall i :: 0 <= i < |r| ==> r[i] in Alphabet
  {
    seq(|draws|, i requires 0 <= i < |draws| => KeyChar(draws[i]))
  }

  /** `randomGroup(draws.length)`, one symbol appended per draw. */
  method RandomGroup(draws: seq<int>) returns (output: string)
    ensures output == Group(draws)
  {
    output := "";
    var i := 0;
    while i < |draws|
      invariant 0 <= i <= |draws|
      invariant output == Group(draws[..i])
    {
      assert Group(draws[..i + 1]) == Group(draws[..i]) + [KeyChar(draws[i])];
      output := output + [KeyChar(draws[i])];
      i := i + 1;
    }
    assert draws[..i] == draws;
  }

  /** A key's five groups. */
  function KeyGroups(draws: seq<int>): (r: seq<string>)
    requires |draws| == 25
    ensures |r| == 5 && forall k :: 0 <= k < 5 ==> |r[k]| == 5 && forall i :: 0 <= i < 5 ==> r[k][i] in Alphabet
  {
    [Group(draws[0..5]), Group(draws[5..10]), Group(draws[10..15]), Group(draws[15..20]), Group(draws[20..25])]
  }

  /** The key `generateLicenseKey` builds from its 25 draws: the five groups joined by `-`. */
  function LicenseKey(draws: seq<int>): string
    requires |draws| == 25
  {
    Join(KeyGroups(draws), '-')
  }

  /** Joining `m` parts of `n` characters gives `m * (n + 1) - 1` characters. */
  lemma {:induction false} JoinUniform(parts: seq<string>, sep: char, n: nat)
    requires |parts| >= 1 && forall k :: 0 <= k < |parts| ==> |parts[k]| == n
    ensures |Join(parts, sep)| == |parts| * (n + 1) - 1
  {
    if |parts| > 1 {
      JoinUniform(parts[1..], sep, n);
    }
  }

  /** Every character of a join is the separator or a character of a part. */
  lemma {:induction false} JoinChars(parts: seq<string>, sep: char, alpha: string)
    requires forall k, i :: 0 <= k < |parts| && 0 <= i < |parts[k]| ==> parts[k][i] in alpha
    ensures forall i :: 0 <= i < |Join(parts, sep)| ==> Join(parts, sep)[i] == sep || Join(parts, sep)[i] in alpha
  {
    if |parts| > 1 {
      JoinChars(parts[1..], sep, alpha);
      var head := parts[0];
      var rest := Join(parts[1..], sep);
      var r := head + [sep] + rest;
      forall i | 0 <= i < |r| ensures r[i] == sep || r[i] in alpha {
        if i < |head| {
          assert r[i] == head[i];
        } else if i > |head| {
          assert r[i] == rest[i - |head| - 1];
        }
      }
    }
  }

  /** A generated key is 29 characters: five groups of five alphabet symbols, joined by `-`. */
  lemma LicenseKeyFormat(draws: seq<int>)
    requires |draws| == 25
    ensures |LicenseKey(draws)| == 29
    ensures Split(LicenseKey(draws), '-') == KeyGroups(draws)
    ensures forall i :: 0 <= i < 29 ==> LicenseKey(draws)[i] == '-' || LicenseKey(draws)[i] in Alphabet
  {
    var g := KeyGroups(draws);
    AlphabetIsUnambiguous();
    JoinUniform(g, '-', 5);
    JoinChars(g, '-', Alphabet);
    SplitJoin(g, '-');
  }

  /** `generateLicenseKey()`. */
  method GenerateLicenseKey(draws: seq<int>) returns (key: string)
    requires |draws| == 25
    ensures key == LicenseKey(draws)
  {
    var g0 := RandomGroup(draws[0..5]);
    var g1 := RandomGroup(draws[5..10]);
    var g2 := RandomGroup(draws[10..15]);
    var g3 := RandomGroup(draws[15..20]);
    var g4 := RandomGroup(draws[20..25]);
    key := Join([g0, g1, g2, g3, g4], '-');
  }

  /** The upper-case hexadecimal digits. */
  const UpperHexDigits := "0123456789ABCDEF"

  /** The key used once five candidates have collided: a sixth key, `-`, and four upper-case hex digits. */
  function FallbackKey(draws: seq<int>, suffix: seq<byte>): string
    requires |draws| == 25
  {
    LicenseKey(draws) + "-" + ToUpper(Hex(suffix))
  }

  /** The fallback key is 34 characters: a generated key, `-`, and four upper-case hexadecimal digits. */
  lemma FallbackKeyFormat(draws: seq<int>, suffix: seq<byte>)
    requires |draws| == 25 && |suffix| == 2
    ensures |FallbackKey(draws, suffix)| == 34
    ensures FallbackKey(draws, suffix)[..29] == LicenseKey(draws) && FallbackKey(draws, suffix)[29] == '-'
    ensures forall i :: 30 <= i < 34 ==> FallbackKey(draws, suffix)[i] in UpperHexDigits
  {
    LicenseKeyFormat(draws);
    HexDigitsOnly(suffix);
    UpperHex(Hex(suffix));
    Suffixed(LicenseKey(draws), ToUpper(Hex(suffix)));
  }

  lemma UpperHex(h: string)
    requires forall i :: 0 <= i < |h| ==> h[i] in HexDigits
    ensures forall i :: 0 <= i < |ToUpper(h)| ==> ToUpper(h)[i] in UpperHexDigits
  {
    var u := ToUpper(h);
    forall i | 0 <= i < |u| ensures u[i] in UpperHexDigits {
      assert u[i] == UpperChar(h[i]);
    }
  }

  lemma Suffixed(base: string, u: string)
    requires |base| == 29 && |u| == 4
    requires forall i :: 0 <= i < |u| ==> u[i] in UpperHexDigits
    ensures var key := base + "-" + u;
      |key| == 34 && key[..29] == base && key[29] == '-' && forall i :: 30 <= i < 34 ==> key[i] in UpperHexDigits
  {
    var key := base + "-" + u;
    assert forall i :: 30 <= i < 34 ==> key[i] == u[i - 30];
  }

  /** An `(appName, licenseKey)` test on licenses. */
  function KeyTest(appName: string, key: string): License -> bool {
    (l: License) => l.appName == appName && l.licenseKey == key
  }

  /** The app already has a license with this key. */
  predicate KeyTaken(licenses: seq<License>, appName: string, key: string) {
    First(licenses, KeyTest(appName, key)).Some?
  }

  /** A key not taken is carried by no license of the app. */
  lemma NotTakenMeansFresh(licenses: seq<License>, appName: string, key: string)
    requires !KeyTaken(licenses, appName, key)
    ensures forall i :: 0 <= i < |licenses| ==> LicenseAppKey(licenses[i]) != (appName, key)
  {
    forall i | 0 <= i < |licenses| ensures LicenseAppKey(licenses[i]) != (appName, key) {
      assert !KeyTest(appName, key)(licenses[i]);
    }
  }

  /** Draws for five candidates and the fallback: six keys' worth. */
  predicate KeyDraws(attempts: seq<seq<int>>) {
    |attempts| == 6 && forall k :: 0 <= k < 6 ==> |attempts[k]| == 25
  }

  /** The candidate keys of the five attempts. */
  function Candidates(attempts: seq<seq<int>>): (r: seq<string>)
    requires KeyDraws(attempts)
    ensures |r| == 5
  {
    seq(5, k requires 0 <= k < 5 => LicenseKey(attempts[k]))
  }

  /** The first candidate from `from` on that the app does not hold, else `fallback`. */
  function ChooseKey(licenses: seq<License>, appName: string, candidates: seq<string>, fallback: string, from: nat): string
    requires from <= |candidates|
    decreases |candidates| - from
  {
    if from == |candidates| then fallback
    else if !KeyTaken(licenses, appName, candidates[from]) then candidates[from]
    else ChooseKey(licenses, appName, candidates, fallback, from + 1)
  }

  /** `createUniqueLicenseKey(appName)`. */
  function UniqueKey(licenses: seq<License>, appName: string, attempts: seq<seq<int>>, suffix: seq<byte>): string
    requires KeyDraws(attempts)
  {
    ChooseKey(licenses, appName, Candidates(attempts), FallbackKey(attempts[5], suffix), 0)
  }

  /**
   * The key chosen is the first candidate the app does not already hold; when all are taken it
   * is the fallback, which is not checked.
   */
  lemma {:induction false} ChooseKeyIsFirstFree(licenses: seq<License>, appName: string, candidates: seq<string>, fallback: string, from: nat)
    requires from <= |candidates|
    ensures var key := ChooseKey(licenses, appName, candidates, fallback, from);
      || (exists k :: from <= k < |candidates| && key == candidates[k] && !KeyTaken(licenses, appName, key)
            && forall j :: from <= j < k ==> KeyTaken(licenses, appName, candidates[j]))
      || (key == fallback && forall j :: from <= j < |candidates| ==> KeyTaken(licenses, appName, candidates[j]))
    decreases |candidates| - from
  {
    var key := ChooseKey(licenses, appName, candidates, fallback, from);
    if from < |candidates| && KeyTaken(licenses, appName, candidates[from]) {
      ChooseKeyIsFirstFree(licenses, appName, candidates, fallback, from + 1);
      assert key == ChooseKey(licenses, appName, candidates, fallback, from + 1);
      if exists k :: from + 1 <= k < |candidates| && key == candidates[k] && !KeyTaken(licenses, appName, key)
           && forall j :: from + 1 <= j < k ==> KeyTaken(licenses, appName, candidates[j]) {
        var k :| from + 1 <= k < |candidates| && key == candidates[k] && !KeyTaken(licenses, appName, key)
           && forall j :: from + 1 <= j < k ==> KeyTaken(licenses, appName, candidates[j]);
        assert forall j :: from <= j < k ==> KeyTaken(licenses, appName, candidates[j]);
      }
    }
  }

  /** A key other than the fallback is fresh for the app, and 29 characters long. */
  lemma UniqueKeyChoice(licenses: seq<License>, appName: string, attempts: seq<seq<int>>, suffix: seq<byte>)
    requires KeyDraws(attempts)
    ensures var key := UniqueKey(licenses, appName, attempts, suffix);
      key == FallbackKey(attempts[5], suffix) || !KeyTaken(licenses, appName, key)
    ensures var key := UniqueKey(licenses, appName, attempts, suffix);
      key != FallbackKey(attempts[5], suffix) ==> |key| == 29
  {
    var c := Candidates(attempts);
    var fallback := FallbackKey(attempts[5], suffix);
    ChooseKeyIsFirstFree(licenses, appName, c, fallback, 0);
    var key := ChooseKey(licenses, appName, c, fallback, 0);
    if key != fallback {
      var k :| 0 <= k < 5 && key == c[k];
      LicenseKeyFormat(attempts[k]);
    }
  }

  /** The retry loop of `createUniqueLicenseKey`: five candidates checked against the licenses, then the fallback. */
  method CreateUniqueLicenseKey(licenses: seq<License>, appName: string, attempts: seq<seq<int>>, suffix: seq<byte>)
    returns (key: string)
    requires KeyDraws(attempts)
    ensures key == UniqueKey(licenses, appName, attempts, suffix)
  {
    var attempt := 0;
    while attempt < 5
      invariant 0 <= attempt <= 5
      invariant UniqueKey(licenses, appName, attempts, suffix)
        == ChooseKey(licenses, appName, Candidates(attempts), FallbackKey(attempts[5], suffix), attempt)
    {
      var candidate := GenerateLicenseKey(attempts[attempt]);
      assert candidate == Candidates(attempts)[attempt];
      var existing := First(licenses, KeyTest(appName, candidate));
      if existing.None? {
        return candidate;
      }
      attempt := attempt + 1;
    }
    var last := GenerateLicenseKey(attempts[5]);
    key := last + "-" + ToUpper(Hex(suffix));
  }
}
