/**
 * Reading the server's configuration (`lib/env.ts`): comma-separated lists, required secrets
 * and positive whole numbers, and the activation-token lifetime derived from them.
 * An environment variable is `None` when unset.
 */
module Env {
  import opened Wrappers
  import opened Text

  /** One item of the list: its trimmed text, or nothing when that is empty. */
  function Item(part: string): (r: seq<string>)
    ensures |r| <= 1 && forall i :: 0 <= i < |r| ==> r[i] != "" && Trimmed(r[i])
  {
    var t := Trim(part);
    if t == "" then [] else [t]
  }

  /** The trimmed, non-blank items of `parts`, in order. */
  function TrimmedItems(parts: seq<string>): (r: seq<string>)
    ensures |r| <= |parts|
    ensures forall i :: 0 <= i < |r| ==> r[i] != "" && Trimmed(r[i])
  {
    if |parts| == 0 then [] else Item(parts[0]) + TrimmedItems(parts[1..])
  }

  lemma {:induction false} TrimmedItemsConcat(a: seq<string>, b: seq<string>)
    ensures TrimmedItems(a + b) == TrimmedItems(a) + TrimmedItems(b)
  {
    if |a| == 0 {
      assert a + b == b;
    } else {
      assert (a + b)[0] == a[0];
      assert (a + b)[1..] == a[1..] + b;
      TrimmedItemsConcat(a[1..], b);
    }
  }

  /** `parseList`: an unset or empty variable is the empty list. */
  function ParseList(value: Option<string>): (r: seq<string>)
    ensures value == None || value == Some("") ==> r == []
    ensures forall i :: 0 <= i < |r| ==> r[i] != "" && Trimmed(r[i])
  {
    if value == None || value.value == "" then [] else TrimmedItems(Split(value.value, ','))
  }

  /** An item without a comma is kept, trimmed, unless it is blank. */
  lemma ParseListItem(item: string)
    requires ',' !in item
    ensures ParseList(Some(item)) == if Trim(item) == "" then [] else [Trim(item)]
  {
    FirstIndexPast(item, ',', "");
  }

  /**
   * Order is kept: the list of `a,b` is the list of `a` followed by the list of `b`.
   * Together with `ParseListItem` this determines `ParseList` on every input.
   */
  lemma ParseListConcat(a: string, b: string)
    ensures ParseList(Some(a + "," + b)) == ParseList(Some(a)) + ParseList(Some(b))
  {
    var s := a + "," + b;
    assert s != "" && s == a + [','] + b;
    SplitConcat(a, ',', b);
    TrimmedItemsConcat(Split(a, ','), Split(b, ','));
    BlankItems(a);
    BlankItems(b);
  }

  /** An empty variable and its one empty item give the same list. */
  lemma BlankItems(a: string)
    ensures ParseList(Some(a)) == TrimmedItems(Split(a, ','))
  {
    if a == "" {
      assert Split(a, ',') == [""];
      assert Trim("") == "";
      assert TrimmedItems([""]) == [] + TrimmedItems([]);
    }
  }

  /** `requireSecret`: the trimmed value, or the start-up error when it is missing or too short. */
  function RequireSecret(name: string, value: Option<string>, minLength: nat): (r: Result<string, string>)
    ensures r.Ok? <==> value.Some? && Trim(value.value) != "" && |Trim(value.value)| >= minLength
    ensures r.Ok? ==> |r.value| >= minLength && r.value != "" && Trimmed(r.value)
    ensures r.Ok? ==> r.value == Trim(value.value)
  {
    if value == None || Trim(value.value) == "" || |Trim(value.value)| < minLength then
      Err(name + " must be set and at least " + Decimal(minLength) + " characters long")
    else Ok(Trim(value.value))
  }

  /**
   * `parsePositiveInt`; `parsed` is `Number(value)`, `None` when that is not finite (NaN for an
   * unset or non-numeric variable, or an infinity).
   */
  function ParsePositiveInt(parsed: Option<real>, fallback: int): (r: int)
    ensures parsed == None || parsed.value <= 0.0 ==> r == fallback
    ensures parsed.Some? && parsed.value > 0.0 ==> 0 <= r && r as real <= parsed.value < r as real + 1.0
  {
    if parsed == None || parsed.value <= 0.0 then fallback else parsed.value.Floor
  }

  /** Days an activation token lives when its licence has no expiry. */
  const DefaultTokenTtlDays := 30
  const MaxTokenTtlDays := 365

  /** `activationTokenTtlDays` from `Number(ACTIVATION_TOKEN_TTL_DAYS)`. */
  function ActivationTokenTtlDays(parsed: Option<real>): (r: int)
    ensures r <= MaxTokenTtlDays
    ensures parsed == None ==> r == DefaultTokenTtlDays
    ensures parsed.Some? && parsed.value >= 1.0 && parsed.value == parsed.value.Floor as real ==>
      r == if parsed.value.Floor < MaxTokenTtlDays then parsed.value.Floor else MaxTokenTtlDays
    ensures 0 <= r
  {
    var days := ParsePositiveInt(parsed, DefaultTokenTtlDays);
    if days < MaxTokenTtlDays then days else MaxTokenTtlDays
  }
}
