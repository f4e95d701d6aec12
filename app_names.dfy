/**
 * How `services/apps.ts` turns app names into slugs and finds an app from a loosely written
 * identifier: `slugify`, `compactIdentifier`, `getAppByName` and `getAppByIdentifier`.
 * Lower-casing is ASCII-only.
 */
module AppNames {
  import opened Wrappers
  import opened Text
  import opened Tables
  import opened Schema

  /** The characters `[a-z0-9]`. */
  predicate IsSlugChar(c: char) {
    ('a' <= c <= 'z') || ('0' <= c <= '9')
  }

  /** A slug's shape: `[a-z0-9-]` only, and never two `-` in a row. */
  predicate SlugShaped(s: string) {
    && (forall i :: 0 <= i < |s| ==> IsSlugChar(s[i]) || s[i] == '-')
    && (forall i :: 0 <= i < |s| - 1 ==> !(s[i] == '-' && s[i + 1] == '-'))
  }

  /** No character of `s` is in `[a-z0-9]`. */
  predicate NoSlugChar(s: string) {
    forall i :: 0 <= i < |s| ==> !IsSlugChar(s[i])
  }

  /**
   * `.replace(/[^a-z0-9]+/g, "-")`: every maximal run of other characters becomes one `-`;
   * `inRun` says a run has just been replaced.
   */
  function Dashes(s: string, inRun: bool): string
    decreases |s|
  {
    if |s| == 0 then ""
    else if IsSlugChar(s[0]) then [s[0]] + Dashes(s[1..], false)
    else if inRun then Dashes(s[1..], true)
    else "-" + Dashes(s[1..], true)
  }

  /** Replacing runs gives a slug-shaped string, which does not start with `-` inside a run. */
  lemma {:induction false} DashesShape(s: string, inRun: bool)
    ensures SlugShaped(Dashes(s, inRun))
    ensures inRun && |Dashes(s, inRun)| > 0 ==> Dashes(s, inRun)[0] != '-'
    decreases |s|
  {
    if |s| > 0 {
      var rest := Dashes(s[1..], !IsSlugChar(s[0]));
      DashesShape(s[1..], !IsSlugChar(s[0]));
      if IsSlugChar(s[0]) || !inRun {
        var r := Dashes(s, inRun);
        assert r == [r[0]] + rest;
        assert forall i :: 1 <= i < |r| ==> r[i] == rest[i - 1];
      }
    }
  }

  /** Replacing runs keeps the `[a-z0-9]` characters: there are some after it iff there were some before. */
  lemma {:induction false} DashesNoSlugChar(s: string, inRun: bool)
    ensures NoSlugChar(Dashes(s, inRun)) <==> NoSlugChar(s)
    decreases |s|
  {
    if |s| > 0 {
      var rest := Dashes(s[1..], !IsSlugChar(s[0]));
      DashesNoSlugChar(s[1..], !IsSlugChar(s[0]));
      assert NoSlugChar(s) <==> !IsSlugChar(s[0]) && NoSlugChar(s[1..]) by {
        assert forall i :: 1 <= i < |s| ==> s[1..][i - 1] == s[i];
      }
      if IsSlugChar(s[0]) {
        assert Dashes(s, inRun)[0] == s[0];
      } else if !inRun {
        var r := "-" + rest;
        assert NoSlugChar(r) <==> NoSlugChar(rest) by {
          assert forall i :: 1 <= i < |r| ==> r[i] == rest[i - 1];
          assert forall i :: 0 <= i < |rest| ==> rest[i] == r[i + 1];
        }
      }
    }
  }

  /** `.replace(/^-+/, "")`. */
  function DropLeadingDashes(s: string): string {
    if |s| > 0 && s[0] == '-' then DropLeadingDashes(s[1..]) else s
  }

  /** What is left is a suffix that does not start with `-`, and only dashes were cut. */
  lemma {:induction false} DropLeadingFacts(s: string)
    ensures var r := DropLeadingDashes(s);
      && |r| <= |s| && r == s[|s| - |r|..]
      && (|r| == 0 || r[0] != '-')
      && forall i :: 0 <= i < |s| - |r| ==> s[i] == '-'
  {
    if |s| > 0 && s[0] == '-' {
      DropLeadingFacts(s[1..]);
      assert forall i :: 1 <= i < |s| ==> s[1..][i - 1] == s[i];
    }
  }

  /** `.replace(/-+$/, "")`. */
  function DropTrailingDashes(s: string): string {
    if |s| > 0 && s[|s| - 1] == '-' then DropTrailingDashes(s[..|s| - 1]) else s
  }

  /** What is left is a prefix that does not end with `-`, and only dashes were cut. */
  lemma {:induction false} DropTrailingFacts(s: string)
    ensures var r := DropTrailingDashes(s);
      && |r| <= |s| && r == s[..|r|]
      && (|r| == 0 || r[|r| - 1] != '-')
      && forall i :: |r| <= i < |s| ==> s[i] == '-'
  {
    if |s| > 0 && s[|s| - 1] == '-' {
      DropTrailingFacts(s[..|s| - 1]);
    }
  }

  /** Any infix of a slug-shaped string is slug-shaped. */
  lemma InfixShaped(s: string, i: nat, j: nat)
    requires i <= j <= |s|
    ensures SlugShaped(s) ==> SlugShaped(s[i..j])
  {
    var t := s[i..j];
    assert forall k :: 0 <= k < |t| ==> t[k] == s[i + k];
  }

  /** Cutting only dashes keeps the `[a-z0-9]` characters. */
  lemma StripKeeps(s: string, k: nat, m: nat)
    requires k <= m <= |s|
    requires forall i :: 0 <= i < k ==> s[i] == '-'
    requires forall i :: m <= i < |s| ==> s[i] == '-'
    ensures NoSlugChar(s[k..m]) <==> NoSlugChar(s)
  {
    var t := s[k..m];
    assert forall i :: k <= i < m ==> t[i - k] == s[i];
  }

  /** The maximum length of a slug. */
  const MaxSlugLength := 120

  /** `.replace(/^-+|-+$/g, "")`. */
  function StripDashes(s: string): string {
    DropTrailingDashes(DropLeadingDashes(s))
  }

  /** Stripping keeps a slug shape and the `[a-z0-9]` characters, and leaves no `-` at the start. */
  lemma StripFacts(s: string)
    ensures SlugShaped(s) ==> SlugShaped(StripDashes(s))
    ensures NoSlugChar(StripDashes(s)) <==> NoSlugChar(s)
    ensures |StripDashes(s)| == 0 || StripDashes(s)[0] != '-'
  {
    var lead := DropLeadingDashes(s);
    var r := DropTrailingDashes(lead);
    DropLeadingFacts(s);
    DropTrailingFacts(lead);
    var k := |s| - |lead|;
    var m := k + |r|;
    assert r == s[k..m];
    InfixShaped(s, k, m);
    assert forall i :: m <= i < |s| ==> s[i] == '-' by {
      assert forall i :: m <= i < |s| ==> s[i] == lead[i - k];
    }
    StripKeeps(s, k, m);
    if |r| > 0 {
      assert r[0] == lead[0];
    }
  }

  /** `slugify`: lower-cased and trimmed, runs of other characters made one `-`, no `-` at either end, cut to 120 characters. */
  function Slugify(input: string): string {
    var stripped := StripDashes(Dashes(ToLower(Trim(input)), false));
    stripped[..if |stripped| < MaxSlugLength then |stripped| else MaxSlugLength]
  }

  /** A slug is at most 120 characters of `[a-z0-9-]`, with no leading `-` and no `--`. */
  lemma SlugifyShape(input: string)
    ensures |Slugify(input)| <= MaxSlugLength
    ensures SlugShaped(Slugify(input))
    ensures |Slugify(input)| == 0 || Slugify(input)[0] != '-'
  {
    var dashed := Dashes(ToLower(Trim(input)), false);
    DashesShape(ToLower(Trim(input)), false);
    StripFacts(dashed);
    var stripped := StripDashes(dashed);
    var n := if |stripped| < MaxSlugLength then |stripped| else MaxSlugLength;
    InfixShaped(stripped, 0, n);
    if n > 0 {
      assert Slugify(input)[0] == stripped[0];
    }
  }

  /** A slug is empty exactly when the lower-cased, trimmed input has no `[a-z0-9]` character. */
  lemma SlugEmptyIff(input: string)
    ensures Slugify(input) == "" <==> NoSlugChar(ToLower(Trim(input)))
  {
    var dashed := Dashes(ToLower(Trim(input)), false);
    var stripped := StripDashes(dashed);
    DashesNoSlugChar(ToLower(Trim(input)), false);
    DashesShape(ToLower(Trim(input)), false);
    StripFacts(dashed);
    if stripped != "" {
      assert Slugify(input)[0] == stripped[0];
    }
  }

  /** `.replace(/[^a-z0-9]/g, "")`. */
  function KeepSlugChars(s: string): string {
    if |s| == 0 then ""
    else if IsSlugChar(s[0]) then [s[0]] + KeepSlugChars(s[1..])
    else KeepSlugChars(s[1..])
  }

  /** Only `[a-z0-9]` is kept, and a string of nothing else is kept whole. */
  lemma {:induction false} KeepSlugCharsFacts(s: string)
    ensures forall i :: 0 <= i < |KeepSlugChars(s)| ==> IsSlugChar(KeepSlugChars(s)[i])
    ensures (forall i :: 0 <= i < |s| ==> IsSlugChar(s[i])) ==> KeepSlugChars(s) == s
  {
    if |s| > 0 {
      KeepSlugCharsFacts(s[1..]);
      assert forall i :: 1 <= i < |s| ==> s[1..][i - 1] == s[i];
      if IsSlugChar(s[0]) {
        var r := KeepSlugChars(s);
        assert forall i :: 1 <= i < |r| ==> r[i] == KeepSlugChars(s[1..])[i - 1];
        assert s == [s[0]] + s[1..];
      }
    }
  }

  /** `compactIdentifier`. */
  function CompactIdentifier(input: string): string {
    KeepSlugChars(ToLower(Trim(input)))
  }

  /** A compact identifier holds only `[a-z0-9]`. */
  lemma CompactShape(input: string)
    ensures forall i :: 0 <= i < |CompactIdentifier(input)| ==> IsSlugChar(CompactIdentifier(input)[i])
  {
    KeepSlugCharsFacts(ToLower(Trim(input)));
  }

  lemma SlugCharFixed(c: char)
    requires IsSlugChar(c)
    ensures !IsWhitespace(c) && LowerChar(c) == c
  {
  }

  /** A string of `[a-z0-9]` is unchanged by trimming and lower-casing. */
  lemma SlugStringFixed(c: string)
    requires forall i :: 0 <= i < |c| ==> IsSlugChar(c[i])
    ensures Trim(c) == c && ToLower(c) == c
  {
    if |c| > 0 {
      SlugCharFixed(c[0]);
      SlugCharFixed(c[|c| - 1]);
    }
    TrimOfTrimmed(c);
    var l := ToLower(c);
    forall i | 0 <= i < |c| ensures l[i] == c[i] {
      SlugCharFixed(c[i]);
    }
  }

  /** Compacting is idempotent: a compacted identifier is its own compact form. */
  lemma CompactIdempotent(input: string)
    ensures CompactIdentifier(CompactIdentifier(input)) == CompactIdentifier(input)
  {
    var c := CompactIdentifier(input);
    CompactShape(input);
    SlugStringFixed(c);
    KeepSlugCharsFacts(c);
  }

  /** The test inside `getAppByIdentifier`'s `find`, for a trimmed, non-empty identifier. */
  predicate MatchesIdentifier(app: App, normalized: string) {
    var appName := Trim(app.name);
    var appSlug := Trim(app.slug);
    || appName == normalized
    || ToLower(appName) == ToLower(normalized)
    || appSlug == normalized
    || appSlug == Slugify(normalized)
    || CompactIdentifier(appName) == CompactIdentifier(normalized)
  }

  function IdentifierTest(normalized: string): App -> bool {
    (a: App) => MatchesIdentifier(a, normalized)
  }

  /**
   * `getAppByIdentifier`: nothing for a blank identifier; otherwise the first app, in table
   * order, that the identifier matches, and nothing exactly when no app matches.
   */
  function FindByIdentifier(apps: seq<App>, identifier: string): (r: Option<App>)
    ensures Trim(identifier) == "" ==> r == None
    ensures r.None? && Trim(identifier) != "" ==>
      forall j :: 0 <= j < |apps| ==> !MatchesIdentifier(apps[j], Trim(identifier))
    ensures r.Some? ==>
      exists i :: 0 <= i < |apps| && apps[i] == r.value
        && MatchesIdentifier(apps[i], Trim(identifier))
        && forall j :: 0 <= j < i ==> !MatchesIdentifier(apps[j], Trim(identifier))
  {
    var normalized := Trim(identifier);
    if normalized == "" then None
    else match First(apps, IdentifierTest(normalized))
      case None => None
      case Some(i) => Some(apps[i])
  }

  function NameTest(name: string): App -> bool {
    (a: App) => a.name == name
  }

  /** `getAppByName`: the app whose name is exactly the trimmed `name`. */
  function FindByName(apps: seq<App>, name: string): (r: Option<App>)
    ensures r.Some? ==> r.value in apps && r.value.name == Trim(name)
    ensures r.None? <==> forall j :: 0 <= j < |apps| ==> apps[j].name != Trim(name)
  {
    match First(apps, NameTest(Trim(name)))
    case None => None
    case Some(i) => Some(apps[i])
  }

  /** Appending an app whose name no earlier app has makes that app the one found. */
  lemma FindByNameAppend(apps: seq<App>, name: string, a: App)
    requires a.name == Trim(name)
    requires forall j :: 0 <= j < |apps| ==> apps[j].name != Trim(name)
    ensures FindByName(apps + [a], name) == Some(a)
  {
    var rows := apps + [a];
    assert rows[|apps|] == a;
    var k := First(rows, NameTest(Trim(name)));
    assert k.Some?;
    assert forall j :: 0 <= j < |apps| ==> rows[j] == apps[j];
  }

  /** An app whose trimmed name is the identifier is always matched, by itself or an earlier app. */
  lemma ExactNameFound(apps: seq<App>, identifier: string, i: nat)
    requires i < |apps| && Trim(identifier) != "" && Trim(apps[i].name) == Trim(identifier)
    ensures FindByIdentifier(apps, identifier).Some?
  {
    assert MatchesIdentifier(apps[i], Trim(identifier));
  }
}
