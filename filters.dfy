/** The category filter: entries `-prefix` and `+prefix`, the decision they
    take for a category, and the validation of new entries. */
module Filters {
  import opened Text
  import opened Diagnostics

  /** An entry `-p` switches reporting off for every category starting with `p`. */
  predicate Excludes(f: string, category: string) {
    StartsWith(f, "-") && StartsWith(category, f[1..])
  }

  /** An entry `+p` switches reporting on for every category starting with `p`. */
  predicate Includes(f: string, category: string) {
    StartsWith(f, "+") && StartsWith(category, f[1..])
  }

  predicate Matches(f: string, category: string) {
    Excludes(f, category) || Includes(f, category)
  }

  /** Whether a report of `category` is printed under `filters`: the walk over
      the list in order, one entry at a time, as `ShouldPrintError` does it;
      written here from the end of the list so that its last step is the
      entry added last. */
  function Decision(filters: seq<string>, category: string): bool {
    if |filters| == 0 then true
    else
      var f := filters[|filters| - 1];
      if Excludes(f, category) then false
      else if Includes(f, category) then true
      else Decision(filters[..|filters| - 1], category)
  }

  /** Last match wins: with no matching entry a category is reported, and
      otherwise the sign of the last matching entry decides. */
  lemma {:induction false} DecisionIsLastMatch(filters: seq<string>, category: string)
    ensures (forall k :: 0 <= k < |filters| ==> !Matches(filters[k], category)) ==>
              Decision(filters, category)
    ensures forall k :: 0 <= k < |filters| && Matches(filters[k], category) &&
                        (forall j :: k < j < |filters| ==> !Matches(filters[j], category)) ==>
              Decision(filters, category) == Includes(filters[k], category)
  {
    if |filters| > 0 {
      var init := filters[..|filters| - 1];
      DecisionIsLastMatch(init, category);
      assert forall k :: 0 <= k < |init| ==> init[k] == filters[k];
    }
  }

  /** An entry added at the end decides for every category it matches and
      leaves the decision for all other categories as it was. */
  lemma DecisionAppend(filters: seq<string>, f: string, category: string)
    ensures Decision(filters + [f], category) ==
              if Matches(f, category) then Includes(f, category) else Decision(filters, category)
  {
    assert (filters + [f])[..|filters|] == filters;
  }

  /** The blanket entry `-` switches every category off. */
  lemma BlanketExclude(filters: seq<string>, category: string)
    ensures !Decision(filters + ["-"], category)
  {
    DecisionAppend(filters, "-", category);
    assert "-"[1..] == "";
  }

  /** An entry is accepted when it starts with `-` or `+` and the rest is a
      prefix of an allowed category (so `-` and `+` alone are accepted). */
  predicate ValidFilter(f: string) {
    (StartsWith(f, "-") || StartsWith(f, "+")) && CategoryAllowed(f[1..])
  }

  /** Some allowed category starts with `prefix`. */
  predicate CategoryAllowed(prefix: string) {
    exists k :: 0 <= k < |AllowedCategories| && StartsWith(AllowedCategories[k], prefix)
  }

  /** The `ValueError` raised by `SetFilters`. */
  datatype FilterError = NotAllowed(filter: string) | MissingSign

  function FilterErrorMessage(e: FilterError): string {
    match e
    case NotAllowed(f) => "Filter not allowed: " + f
    case MissingSign => "Filter should start with - or +"
  }

  function ErrorFor(f: string): FilterError {
    if StartsWith(f, "-") || StartsWith(f, "+") then NotAllowed(f) else MissingSign
  }

  /** The error for the first rejected entry at or after position `i`. */
  function FirstInvalidFrom(filters: seq<string>, i: nat): Option<FilterError>
    decreases |filters| - i
  {
    if i >= |filters| then None
    else if !ValidFilter(filters[i]) then Some(ErrorFor(filters[i]))
    else FirstInvalidFrom(filters, i + 1)
  }

  /** `FirstInvalidFrom` finds nothing exactly when every entry from `i` on
      is accepted, and otherwise the error for the first rejected one. */
  lemma {:induction false} FirstInvalidFromMeans(filters: seq<string>, i: nat)
    ensures var r := FirstInvalidFrom(filters, i);
            (r.None? <==> forall k :: i <= k < |filters| ==> ValidFilter(filters[k])) &&
            (r.Some? ==> exists k :: i <= k < |filters| && !ValidFilter(filters[k]) &&
                                     r.value == ErrorFor(filters[k]) &&
                                     forall j :: i <= j < k ==> ValidFilter(filters[j]))
    decreases |filters| - i
  {
    if i < |filters| && ValidFilter(filters[i]) {
      FirstInvalidFromMeans(filters, i + 1);
      var r := FirstInvalidFrom(filters, i + 1);
      assert FirstInvalidFrom(filters, i) == r;
      if r.Some? {
        var k :| i + 1 <= k < |filters| && !ValidFilter(filters[k]) && r.value == ErrorFor(filters[k]) &&
                 forall j :: i + 1 <= j < k ==> ValidFilter(filters[j]);
        assert forall j :: i <= j < k ==> ValidFilter(filters[j]);
      }
    }
  }

  function FirstInvalid(filters: seq<string>): Option<FilterError> {
    FirstInvalidFrom(filters, 0)
  }

  lemma FirstInvalidAppend(filters: seq<string>, more: seq<string>)
    requires FirstInvalid(filters).None?
    requires forall k :: 0 <= k < |more| ==> more[k] in filters
    ensures FirstInvalid(filters + more).None?
  {
    var all := filters + more;
    FirstInvalidFromMeans(filters, 0);
    FirstInvalidFromMeans(all, 0);
    forall k | 0 <= k < |all| ensures ValidFilter(all[k]) {
      if k >= |filters| {
        assert more[k - |filters|] in filters;
      }
    }
  }

  /** The argument of `SetFilters`: None, a list of entries, or a
      comma-separated string. */
  datatype FilterArg = NoFilters | FilterList(items: seq<string>) | FilterText(text: string)

  /** `if not filters: return` — None, the empty list and the empty string. */
  predicate IsEmptyArg(arg: FilterArg) {
    match arg
    case NoFilters => true
    case FilterList(items) => |items| == 0
    case FilterText(text) => |text| == 0
  }

  /** `[f.strip() for f in parts if f]`: empty pieces are dropped before
      stripping, so a piece of blanks survives as an empty entry. */
  function StripNonEmpty(parts: seq<string>): (r: seq<string>)
    ensures |r| <= |parts|
  {
    if |parts| == 0 then []
    else (if |parts[0]| == 0 then [] else [Strip(parts[0])]) + StripNonEmpty(parts[1..])
  }

  /** An entry is kept exactly when it is the stripped form of a non-empty
      piece. */
  lemma {:induction false} StripNonEmptyMeans(parts: seq<string>, e: string)
    ensures e in StripNonEmpty(parts) <==> exists k :: 0 <= k < |parts| && |parts[k]| > 0 && e == Strip(parts[k])
    decreases |parts|
  {
    if |parts| > 0 {
      var rest := parts[1..];
      StripNonEmptyMeans(rest, e);
      if exists k :: 0 <= k < |parts| && |parts[k]| > 0 && e == Strip(parts[k]) {
        var k :| 0 <= k < |parts| && |parts[k]| > 0 && e == Strip(parts[k]);
        if k > 0 {
          assert rest[k - 1] == parts[k];
        }
      }
      if exists k :: 0 <= k < |rest| && |rest[k]| > 0 && e == Strip(rest[k]) {
        var k :| 0 <= k < |rest| && |rest[k]| > 0 && e == Strip(rest[k]);
        assert parts[k + 1] == rest[k];
      }
    }
  }

  /** With no empty piece, every piece is kept, stripped, in order. */
  lemma {:induction false} StripNonEmptyAll(parts: seq<string>)
    requires forall k :: 0 <= k < |parts| ==> |parts[k]| > 0
    ensures |StripNonEmpty(parts)| == |parts|
    ensures forall k :: 0 <= k < |parts| ==> StripNonEmpty(parts)[k] == Strip(parts[k])
    decreases |parts|
  {
    if |parts| > 0 {
      var rest := parts[1..];
      assert forall k :: 0 <= k < |rest| ==> rest[k] == parts[k + 1];
      StripNonEmptyAll(rest);
      assert StripNonEmpty(parts) == [Strip(parts[0])] + StripNonEmpty(rest);
    }
  }

  /** The entries `SetFilters` appends for its argument. */
  function NewEntries(arg: FilterArg): (r: seq<string>)
    ensures IsEmptyArg(arg) ==> r == []
  {
    match arg
    case NoFilters => []
    case FilterList(items) => items
    case FilterText(text) =>
      if |text| == 0 then [] else StripNonEmpty(Split(text, ','))
  }
}
