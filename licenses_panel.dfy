/**
 * The logic of the dashboard's licences panel (`components/dashboard/LicensesPanel.tsx`): the
 * per-app usage summary `buildAppSummaries` folds out of the listed licences, and the guards the
 * form handlers check before they submit anything. Rendering and the network are not modelled.
 */
module LicensesPanel {
  import opened Wrappers
  import opened Text
  import opened Tables

  /** The fields of a listed licence the summary reads. */
  datatype LicenseItem = LicenseItem(appName: string, activeActivations: int, maxActivations: int)

  /** One row of the summary: an app, its number of licences, and the sums of their seats. */
  datatype AppSummary = AppSummary(appName: string, licenses: nat, activeActivations: int, maxActivations: int)

  // ---- the order of `localeCompare`, on code units ----

  /** `a` sorts strictly before `b`: at the first differing code unit, or as a proper prefix. */
  predicate Before(a: string, b: string)
    decreases |a|
  {
    if a == [] then b != []
    else if b == [] then false
    else if a[0] != b[0] then a[0] < b[0]
    else Before(a[1..], b[1..])
  }

  lemma {:induction false} BeforeIrreflexive(a: string)
    ensures !Before(a, a)
    decreases |a|
  {
    if a != [] {
      BeforeIrreflexive(a[1..]);
    }
  }

  lemma {:induction false} BeforeTotal(a: string, b: string)
    ensures a == b || Before(a, b) || Before(b, a)
    decreases |a|
  {
    if a != [] && b != [] && a[0] == b[0] {
      BeforeTotal(a[1..], b[1..]);
      if a[1..] == b[1..] {
        assert a == [a[0]] + a[1..] && b == [b[0]] + b[1..];
      }
    }
  }

  lemma {:induction false} BeforeTransitive(a: string, b: string, c: string)
    requires Before(a, b) && Before(b, c)
    ensures Before(a, c)
    decreases |a|
  {
    if a != [] && a[0] == b[0] && b[0] == c[0] {
      BeforeTransitive(a[1..], b[1..], c[1..]);
    }
  }

  // ---- the summary of one app ----

  function OfApp(name: string): LicenseItem -> bool {
    (l: LicenseItem) => l.appName == name
  }

  /** The active seats of the app's licences. */
  function SumActive(items: seq<LicenseItem>, name: string): int {
    if |items| == 0 then 0
    else SumActive(items[..|items| - 1], name) + (if items[|items| - 1].appName == name then items[|items| - 1].activeActivations else 0)
  }

  /** The seats of the app's licences. */
  function SumMax(items: seq<LicenseItem>, name: string): int {
    if |items| == 0 then 0
    else SumMax(items[..|items| - 1], name) + (if items[|items| - 1].appName == name then items[|items| - 1].maxActivations else 0)
  }

  /** What the summary of the app `name` states about `items`. */
  function SummaryOf(items: seq<LicenseItem>, name: string): AppSummary {
    AppSummary(name, Count(items, OfApp(name)), SumActive(items, name), SumMax(items, name))
  }

  /** A licence added to an app's summary. */
  function Bump(s: AppSummary, l: LicenseItem): AppSummary {
    s.(licenses := s.licenses + 1, activeActivations := s.activeActivations + l.activeActivations,
       maxActivations := s.maxActivations + l.maxActivations)
  }

  /** One more licence: its app's summary grows by it, every other summary stays. */
  lemma SummaryStep(items: seq<LicenseItem>, l: LicenseItem, name: string)
    ensures SummaryOf(items + [l], name) ==
      if l.appName == name then Bump(SummaryOf(items, name), l) else SummaryOf(items, name)
  {
    assert (items + [l])[..|items|] == items;
  }

  /** An app with no licence has an empty summary. */
  lemma {:induction false} SummaryOfAbsent(items: seq<LicenseItem>, name: string)
    requires forall t :: 0 <= t < |items| ==> items[t].appName != name
    ensures SummaryOf(items, name) == AppSummary(name, 0, 0, 0)
  {
    if |items| > 0 {
      SummaryOfAbsent(items[..|items| - 1], name);
    }
  }

  // ---- summaries as a sequence ----

  const SummaryName: AppSummary -> string := (s: AppSummary) => s.appName

  function NameIs(name: string): AppSummary -> bool {
    (s: AppSummary) => s.appName == name
  }

  function Names(s: seq<AppSummary>): set<string> {
    set j | 0 <= j < |s| :: s[j].appName
  }

  /** The licences the summaries count together. */
  function TotalLicenses(s: seq<AppSummary>): int {
    if |s| == 0 then 0 else s[0].licenses + TotalLicenses(s[1..])
  }

  lemma {:induction false} TotalSet(s: seq<AppSummary>, k: nat, x: AppSummary)
    requires k < |s|
    ensures TotalLicenses(s[k := x]) == TotalLicenses(s) - s[k].licenses + x.licenses
  {
    if k > 0 {
      assert s[k := x][1..] == s[1..][k - 1 := x];
      TotalSet(s[1..], k - 1, x);
    }
  }

  lemma {:induction false} TotalAppend(s: seq<AppSummary>, x: AppSummary)
    ensures TotalLicenses(s + [x]) == TotalLicenses(s) + x.licenses
  {
    if |s| > 0 {
      assert (s + [x])[1..] == s[1..] + [x];
      TotalAppend(s[1..], x);
    }
  }

  /** Ascending by app name, so at most one summary per name. */
  predicate SortedByName(s: seq<AppSummary>) {
    forall i, j :: 0 <= i < j < |s| ==> Before(s[i].appName, s[j].appName)
  }

  /** The summary `x` put into place in sorted `s`. */
  function Insert(s: seq<AppSummary>, x: AppSummary): (r: seq<AppSummary>)
    ensures multiset(r) == multiset(s) + multiset{x}
  {
    if |s| == 0 then [x]
    else if Before(x.appName, s[0].appName) then [x] + s
    else
      assert s == [s[0]] + s[1..];
      [s[0]] + Insert(s[1..], x)
  }

  /** `.sort((a, b) => a.appName.localeCompare(b.appName))`, as an insertion sort. */
  function SortByName(s: seq<AppSummary>): (r: seq<AppSummary>)
    ensures multiset(r) == multiset(s)
  {
    if |s| == 0 then []
    else
      assert s == [s[0]] + s[1..];
      Insert(SortByName(s[1..]), s[0])
  }

  lemma {:induction false} InsertSorted(s: seq<AppSummary>, x: AppSummary)
    requires SortedByName(s)
    requires forall j :: 0 <= j < |s| ==> s[j].appName != x.appName
    ensures SortedByName(Insert(s, x))
  {
    if |s| > 0 {
      if Before(x.appName, s[0].appName) {
        forall j | 0 < j < |s| ensures Before(x.appName, s[j].appName) {
          BeforeTransitive(x.appName, s[0].appName, s[j].appName);
        }
      } else {
        BeforeTotal(x.appName, s[0].appName);
        var tail := s[1..];
        InsertSorted(tail, x);
        var rest := Insert(tail, x);
        forall j | 0 <= j < |rest| ensures Before(s[0].appName, rest[j].appName) {
          assert rest[j] in multiset(tail) + multiset{x};
          if rest[j] != x {
            var k :| 0 <= k < |tail| && tail[k] == rest[j];
            assert tail[k] == s[k + 1];
          }
        }
      }
    }
  }

  lemma {:induction false} SortSorted(s: seq<AppSummary>)
    requires Unique(s, SummaryName)
    ensures SortedByName(SortByName(s))
  {
    if |s| > 0 {
      var tail := s[1..];
      UniqueTail(s, SummaryName);
      SortSorted(tail);
      var sorted := SortByName(tail);
      forall j | 0 <= j < |sorted| ensures sorted[j].appName != s[0].appName {
        assert sorted[j] in multiset(tail);
        var k :| 0 <= k < |tail| && tail[k] == sorted[j];
        assert tail[k] == s[k + 1];
      }
      InsertSorted(sorted, s[0]);
    }
  }

  lemma {:induction false} TotalInsert(s: seq<AppSummary>, x: AppSummary)
    ensures TotalLicenses(Insert(s, x)) == TotalLicenses(s) + x.licenses
  {
    if |s| > 0 && !Before(x.appName, s[0].appName) {
      TotalInsert(s[1..], x);
      assert ([s[0]] + Insert(s[1..], x))[1..] == Insert(s[1..], x);
    } else if |s| > 0 {
      assert ([x] + s)[1..] == s;
    }
  }

  lemma {:induction false} TotalSort(s: seq<AppSummary>)
    ensures TotalLicenses(SortByName(s)) == TotalLicenses(s)
  {
    if |s| > 0 {
      TotalSort(s[1..]);
      TotalInsert(SortByName(s[1..]), s[0]);
    }
  }

  // ---- buildAppSummaries ----

  /**
   * The summaries after the licences `items` have been folded in: one per app seen, each stating
   * that app's licences, and the counts adding up to the number of licences.
   */
  predicate Tally(items: seq<LicenseItem>, acc: seq<AppSummary>) {
    && Unique(acc, SummaryName)
    && (forall j :: 0 <= j < |acc| ==> acc[j] == SummaryOf(items, acc[j].appName) && acc[j].licenses >= 1)
    && (forall t :: 0 <= t < |items| ==> items[t].appName in Names(acc))
    && TotalLicenses(acc) == |items|
  }

  /** A licence of an app already summarised bumps that summary in place. */
  lemma TallyExisting(items: seq<LicenseItem>, l: LicenseItem, acc: seq<AppSummary>, k: nat)
    requires Tally(items, acc) && k < |acc| && acc[k].appName == l.appName
    ensures Tally(items + [l], acc[k := Bump(acc[k], l)])
  {
    var next := acc[k := Bump(acc[k], l)];
    TotalSet(acc, k, Bump(acc[k], l));
    UniqueSet(acc, k, Bump(acc[k], l), SummaryName);
    forall j | 0 <= j < |next| ensures next[j] == SummaryOf(items + [l], next[j].appName) {
      SummaryStep(items, l, next[j].appName);
      if j != k {
        assert acc[j].appName != l.appName by {
          assert SummaryName(acc[j]) != SummaryName(acc[k]);
        }
      }
    }
    forall t | 0 <= t < |items + [l]| ensures (items + [l])[t].appName in Names(next) {
      if t < |items| {
        var j :| 0 <= j < |acc| && acc[j].appName == items[t].appName;
        assert next[j].appName == items[t].appName;
      } else {
        assert next[k].appName == l.appName;
      }
    }
  }

  /** A licence of a new app starts a summary of its own at the end. */
  lemma TallyNew(items: seq<LicenseItem>, l: LicenseItem, acc: seq<AppSummary>)
    requires Tally(items, acc) && l.appName !in Names(acc)
    ensures Tally(items + [l], acc + [Bump(AppSummary(l.appName, 0, 0, 0), l)])
  {
    var x := Bump(AppSummary(l.appName, 0, 0, 0), l);
    var next := acc + [x];
    forall t | 0 <= t < |items| ensures items[t].appName != l.appName {
    }
    SummaryOfAbsent(items, l.appName);
    TotalAppend(acc, x);
    forall j | 0 <= j < |acc| ensures acc[j].appName != x.appName {
    }
    UniqueAppend(acc, x, SummaryName);
    forall j | 0 <= j < |next| ensures next[j] == SummaryOf(items + [l], next[j].appName) {
      SummaryStep(items, l, next[j].appName);
    }
    forall t | 0 <= t < |items + [l]| ensures (items + [l])[t].appName in Names(next) {
      if t < |items| {
        var j :| 0 <= j < |acc| && acc[j].appName == items[t].appName;
        assert next[j].appName == items[t].appName;
      } else {
        assert next[|acc|].appName == l.appName;
      }
    }
  }

  /** Sorting a tally keeps every summary and orders them by name. */
  lemma SortedTally(items: seq<LicenseItem>, acc: seq<AppSummary>, r: seq<AppSummary>)
    requires Tally(items, acc) && r == SortByName(acc)
    ensures && SortedByName(r)
      && (forall j :: 0 <= j < |r| ==> r[j] == SummaryOf(items, r[j].appName) && r[j].licenses >= 1)
      && (forall t :: 0 <= t < |items| ==> items[t].appName in Names(r))
      && TotalLicenses(r) == |items|
  {
    SortSorted(acc);
    TotalSort(acc);
    forall j | 0 <= j < |r| ensures r[j] == SummaryOf(items, r[j].appName) && r[j].licenses >= 1 {
      assert r[j] in multiset(acc);
    }
    forall t | 0 <= t < |items| ensures items[t].appName in Names(r) {
      var j :| 0 <= j < |acc| && acc[j].appName == items[t].appName;
      assert acc[j] in multiset(r);
      var k :| 0 <= k < |r| && r[k] == acc[j];
    }
  }

  /**
   * `buildAppSummaries(licenses)`: one pass that finds or starts each licence's app summary and
   * adds the licence to it, then the sort by app name. The result has exactly one summary per app
   * that has a licence, in ascending name order, each counting that app's licences and summing
   * their seats; the counts add up to the number of licences.
   */
  method BuildAppSummaries(items: seq<LicenseItem>) returns (r: seq<AppSummary>)
    ensures SortedByName(r)
    ensures forall j :: 0 <= j < |r| ==> r[j] == SummaryOf(items, r[j].appName) && r[j].licenses >= 1
    ensures forall t :: 0 <= t < |items| ==> items[t].appName in Names(r)
    ensures TotalLicenses(r) == |items|
  {
    var acc := TallyLicenses(items);
    TallyOfIsTally(items);
    r := SortByName(acc);
    SortedTally(items, acc, r);
  }

  /** One licence folded in: `map.get(appName) || {...}`, the additions, then `map.set`. */
  function AddLicense(acc: seq<AppSummary>, l: LicenseItem): seq<AppSummary> {
    match First(acc, NameIs(l.appName))
    case Some(k) => acc[k := Bump(acc[k], l)]
    case None => acc + [Bump(AppSummary(l.appName, 0, 0, 0), l)]
  }

  /** The summaries, in first-seen order, after folding in every licence of `items`. */
  function TallyOf(items: seq<LicenseItem>): seq<AppSummary> {
    if |items| == 0 then [] else AddLicense(TallyOf(items[..|items| - 1]), items[|items| - 1])
  }

  /** The fold states what a tally must. */
  lemma {:induction false} TallyOfIsTally(items: seq<LicenseItem>)
    ensures Tally(items, TallyOf(items))
  {
    if |items| > 0 {
      var prefix := items[..|items| - 1];
      var l := items[|items| - 1];
      assert items == prefix + [l];
      TallyOfIsTally(prefix);
      var acc := TallyOf(prefix);
      match First(acc, NameIs(l.appName))
      case Some(k) =>
        TallyExisting(prefix, l, acc, k);
      case None =>
        TallyNew(prefix, l, acc);
    }
  }

  /** The loop of `buildAppSummaries`: each licence added to its app's summary, found or started. */
  method TallyLicenses(items: seq<LicenseItem>) returns (acc: seq<AppSummary>)
    ensures acc == TallyOf(items)
  {
    acc := [];
    var i := 0;
    while i < |items|
      invariant 0 <= i <= |items|
      invariant acc == TallyOf(items[..i])
    {
      var license := items[i];
      assert items[..i + 1][..i] == items[..i];
      var found := First(acc, NameIs(license.appName));
      var current := if found.Some? then acc[found.value] else AppSummary(license.appName, 0, 0, 0);
      current := current.(licenses := current.licenses + 1,
                          activeActivations := current.activeActivations + license.activeActivations,
                          maxActivations := current.maxActivations + license.maxActivations);
      if found.Some? {
        acc := acc[found.value := current];
      } else {
        acc := acc + [current];
      }
      i := i + 1;
    }
    assert items[..i] == items;
  }

  // ---- the submit guards ----

  /** An app of the app list: its id and name. */
  datatype AppRef = AppRef(id: string, name: string)

  /** What `onCreateLicense` is called with. */
  datatype LicenseDraft = LicenseDraft(appName: string, maxActivations: real, lockedMachineId: Option<string>)

  /** `handleCreateApp`: the trimmed name, unless it is empty. */
  function CreateAppGuard(newAppName: string): (r: Option<string>)
    ensures r.Some? <==> Trim(newAppName) != ""
    ensures r.Some? ==> r.value == Trim(newAppName) && Trimmed(r.value)
  {
    var name := Trim(newAppName);
    if name == "" then None else Some(name)
  }

  function WithId(id: string): AppRef -> bool {
    (a: AppRef) => a.id == id
  }

  /**
   * `handleCreateLicense`: the selected app must exist and the seat count (`Number(...)`, with
   * `None` for NaN) must be at least 1; the first app with the id gives the name.
   */
  function CreateLicenseGuard(apps: seq<AppRef>, selectedId: string, seats: Option<real>): (r: Option<LicenseDraft>)
    ensures r.Some? <==> (exists j :: 0 <= j < |apps| && apps[j].id == selectedId) && seats.Some? && seats.value >= 1.0
    ensures r.Some? ==> r.value.maxActivations == seats.value && r.value.lockedMachineId.None?
    ensures r.Some? ==> exists j :: 0 <= j < |apps| && apps[j].id == selectedId && apps[j].name == r.value.appName
  {
    match First(apps, WithId(selectedId))
    case None => None
    case Some(k) =>
      if seats.None? || seats.value < 1.0 then None
      else Some(LicenseDraft(apps[k].name, seats.value, None))
  }

  /**
   * `handleCreateLockedLicense`: as for a plain licence, and the trimmed machine id must have at
   * least six characters; the licence is locked to the trimmed id.
   */
  function CreateLockedGuard(apps: seq<AppRef>, selectedId: string, seats: Option<real>, machineId: string)
    : (r: Option<LicenseDraft>)
    ensures r.Some? <==> CreateLicenseGuard(apps, selectedId, seats).Some? && |Trim(machineId)| >= 6
    ensures r.Some? ==> r.value == CreateLicenseGuard(apps, selectedId, seats).value.(lockedMachineId := Some(Trim(machineId)))
  {
    match First(apps, WithId(selectedId))
    case None => None
    case Some(k) =>
      var id := Trim(machineId);
      if seats.None? || seats.value < 1.0 || |id| < 6 then None
      else Some(LicenseDraft(apps[k].name, seats.value, Some(id)))
  }

  /** The app being edited: its id, the name typed, and the status chosen. */
  datatype EditApp = EditApp(id: string, name: string, active: bool)

  /** `handleSubmitEditApp`: nothing without an app being edited or with a blank name; else the trimmed name. */
  function EditAppGuard(editing: Option<EditApp>): (r: Option<EditApp>)
    ensures r.Some? <==> editing.Some? && Trim(editing.value.name) != ""
    ensures r.Some? ==> r.value == editing.value.(name := Trim(editing.value.name))
  {
    match editing
    case None => None
    case Some(e) =>
      var name := Trim(e.name);
      if name == "" then None else Some(e.(name := name))
  }

  /** The licence being edited: its id, the seat count typed (`None` for NaN), and the status chosen. */
  datatype EditLicense = EditLicense(id: string, maxActivations: Option<real>, active: bool)

  /** `handleSubmitEditLicense`: nothing without a licence being edited, or with a seat count below 1. */
  function EditLicenseGuard(editing: Option<EditLicense>): (r: Option<EditLicense>)
    ensures r.Some? <==> editing.Some? && editing.value.maxActivations.Some? && editing.value.maxActivations.value >= 1.0
    ensures r.Some? ==> r == editing
  {
    match editing
    case None => None
    case Some(e) =>
      if e.maxActivations.None? || e.maxActivations.value < 1.0 then None else editing
  }
}
