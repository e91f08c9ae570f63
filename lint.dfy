/** The run-wide linter state (`_CMakeLintState`): the filter list, the
    error counter, the indentation unit, and the printed violations. */
module Lint {
  import opened Text
  import opened Diagnostics
  import opened Filters

  /** The reports of `reports` that pass `filters`, as printed for `file`,
      in order; written from the end so that its last step is the report
      passed last. */
  function Printed(file: string, reports: seq<Report>, filters: seq<string>): (r: seq<Violation>)
    ensures |r| <= |reports|
    ensures forall k :: 0 <= k < |r| ==> r[k].file == file
  {
    if |reports| == 0 then []
    else
      var n := |reports| - 1;
      Printed(file, reports[..n], filters) + PrintedOne(file, reports[n], filters)
  }

  function PrintedOne(file: string, p: Report, filters: seq<string>): seq<Violation> {
    if Decision(filters, p.category) then [Violation(file, p.line, p.category, p.message)] else []
  }

  /** Printing two batches of reports prints the first batch, then the second. */
  lemma {:induction false} PrintedAppend(file: string, a: seq<Report>, b: seq<Report>, filters: seq<string>)
    ensures Printed(file, a + b, filters) == Printed(file, a, filters) + Printed(file, b, filters)
    decreases |b|
  {
    if |b| > 0 {
      var n := |b| - 1;
      assert (a + b)[..|a| + n] == a + b[..n];
      assert (a + b)[|a| + n] == b[n];
      PrintedAppend(file, a, b[..n], filters);
    } else {
      assert a + b == a;
    }
  }

  /** A violation is printed exactly when some report passes the filters
      and carries its line, category and message. */
  lemma {:induction false} PrintedMeans(file: string, reports: seq<Report>, filters: seq<string>, v: Violation)
    ensures v in Printed(file, reports, filters) <==>
            exists k :: 0 <= k < |reports| && Decision(filters, reports[k].category) &&
                        v == Violation(file, reports[k].line, reports[k].category, reports[k].message)
    decreases |reports|
  {
    if |reports| > 0 {
      var n := |reports| - 1;
      PrintedMeans(file, reports[..n], filters, v);
      if v in Printed(file, reports, filters) && v !in Printed(file, reports[..n], filters) {
        assert v in PrintedOne(file, reports[n], filters);
      }
      if exists k :: 0 <= k < |reports| && Decision(filters, reports[k].category) &&
                     v == Violation(file, reports[k].line, reports[k].category, reports[k].message) {
        var k :| 0 <= k < |reports| && Decision(filters, reports[k].category) &&
                 v == Violation(file, reports[k].line, reports[k].category, reports[k].message);
        if k < n {
          assert reports[..n][k] == reports[k];
        } else {
          assert v in PrintedOne(file, reports[n], filters);
        }
      }
    }
  }

  /** The marker that opens an inline filter pragma. */
  const PragmaMarker := "# lint_cmake: "

  predicate IsPragma(line: string) {
    StartsWith(line, PragmaMarker)
  }

  /** What a pragma line hands to `SetFilters`: the rest of the line. */
  function PragmaArg(line: string): FilterArg
    requires IsPragma(line)
  {
    FilterText(line[|PragmaMarker|..])
  }

  /** A pragma whose argument is not empty, so that `SetFilters` validates. */
  predicate ValidatingPragma(line: string) {
    IsPragma(line) && !IsEmptyArg(PragmaArg(line))
  }

  /** The filter list after the pragma check of `line` has appended its entries. */
  function AfterPragma(filters: seq<string>, line: string): (r: seq<string>)
    ensures |filters| <= |r| && r[..|filters|] == filters
    ensures IsPragma(line) ==> forall e :: e in NewEntries(PragmaArg(line)) ==> e in r
  {
    if IsPragma(line) then filters + NewEntries(PragmaArg(line)) else filters
  }

  /** A rejected pragma: where it was and what `SetFilters` raised. */
  datatype PragmaError = PragmaError(file: string, line: nat, error: FilterError)

  class LintState {
    var filters: seq<string>
    var errors: nat
    var spaces: int
    var output: seq<Violation>

    constructor ()
      ensures filters == [] && errors == 0 && spaces == 2 && output == []
    {
      filters := [];
      errors := 0;
      spaces := 2;
      output := [];
    }

    /** Appends the new entries, then checks every entry of the list, old and
        new; a rejection leaves the appended entries in place. */
    method SetFilters(arg: FilterArg) returns (err: Option<FilterError>)
      modifies this`filters
      ensures filters == old(filters) + NewEntries(arg)
      ensures err == if IsEmptyArg(arg) then None else FirstInvalid(filters)
    {
      if IsEmptyArg(arg) {
        return None;
      }
      filters := filters + NewEntries(arg);
      var all := filters;
      var i := 0;
      while i < |all|
        invariant 0 <= i <= |all|
        invariant filters == all
        invariant FirstInvalid(all) == FirstInvalidFrom(all, i)
      {
        var f := all[i];
        if StartsWith(f, "-") || StartsWith(f, "+") {
          var allowed := IsAllowed(f[1..]);
          if !allowed {
            assert FirstInvalidFrom(all, i) == Some(ErrorFor(f));
            return Some(NotAllowed(f));
          }
        } else {
          assert FirstInvalidFrom(all, i) == Some(ErrorFor(f));
          return Some(MissingSign);
        }
        assert FirstInvalidFrom(all, i) == FirstInvalidFrom(all, i + 1);
        i := i + 1;
      }
      return None;
    }

    /** The inner loop of `SetFilters` over the allowed categories. */
    static method IsAllowed(prefix: string) returns (allowed: bool)
      ensures allowed == CategoryAllowed(prefix)
    {
      allowed := false;
      var j := 0;
      while j < |AllowedCategories|
        invariant 0 <= j <= |AllowedCategories|
        invariant allowed <==> exists k :: 0 <= k < j && StartsWith(AllowedCategories[k], prefix)
      {
        if StartsWith(AllowedCategories[j], prefix) {
          allowed := true;
        }
        j := j + 1;
      }
    }

    /** `int(spaces.strip())` for plain decimal numerals; anything else is
        the `ValueError` case and leaves the unit as it was. */
    method SetSpaces(text: string) returns (ok: bool)
      modifies this`spaces
      ensures ok == IsNumeral(Strip(text))
      ensures ok ==> spaces == DecimalValue(Strip(text))
      ensures !ok ==> spaces == old(spaces)
    {
      var t := Strip(text);
      if IsNumeral(t) {
        spaces := DecimalValue(t);
        ok := true;
      } else {
        ok := false;
      }
    }

    /** Walks the whole filter list; each matching entry overrides the
        decision taken so far. */
    method ShouldPrintError(category: string) returns (shouldPrint: bool)
      ensures shouldPrint == Decision(filters, category)
    {
      shouldPrint := true;
      var i := 0;
      while i < |filters|
        invariant 0 <= i <= |filters|
        invariant shouldPrint == Decision(filters[..i], category)
      {
        var f := filters[i];
        assert filters[..i + 1][..i] == filters[..i];
        if StartsWith(f, "-") && StartsWith(category, f[1..]) {
          shouldPrint := false;
        } else if StartsWith(f, "+") && StartsWith(category, f[1..]) {
          shouldPrint := true;
        }
        i := i + 1;
      }
      assert filters[..i] == filters;
    }

    /** The counting sink: a report that passes the filters is printed and
        counted once; any other report leaves the state unchanged. */
    method Error(file: string, line: nat, category: string, message: string)
      modifies this`errors, this`output
      ensures Decision(filters, category) ==>
                errors == old(errors) + 1 &&
                output == old(output) + [Violation(file, line, category, message)]
      ensures !Decision(filters, category) ==>
                errors == old(errors) && output == old(output)
    {
      var p := ShouldPrintError(category);
      if p {
        errors := errors + 1;
        output := output + [Violation(file, line, category, message)];
      }
    }

    /** Passes each report of a check to the sink, in order. */
    method Emit(file: string, reports: seq<Report>)
      modifies this`errors, this`output
      ensures output == old(output) + Printed(file, reports, filters)
      ensures errors == old(errors) + |Printed(file, reports, filters)|
    {
      var i := 0;
      while i < |reports|
        invariant 0 <= i <= |reports|
        invariant output == old(output) + Printed(file, reports[..i], filters)
        invariant errors == old(errors) + |Printed(file, reports[..i], filters)|
      {
        var p := reports[i];
        assert reports[..i + 1][..i] == reports[..i];
        ghost var before := output;
        Error(file, p.line, p.category, p.message);
        assert output == before + PrintedOne(file, p, filters);
        i := i + 1;
      }
      assert reports[..i] == reports;
    }

    /** A line starting with the pragma marker hands the rest of the line to
        `SetFilters`; a rejection is reported with the given position. */
    method CheckLintPragma(file: string, line: nat, text: string) returns (err: Option<PragmaError>)
      modifies this`filters
      ensures filters == AfterPragma(old(filters), text)
      ensures !ValidatingPragma(text) ==> err.None?
      ensures ValidatingPragma(text) ==>
                err == match FirstInvalid(filters)
                       case None => None
                       case Some(e) => Some(PragmaError(file, line, e))
    {
      err := None;
      if StartsWith(text, PragmaMarker) {
        var e := SetFilters(PragmaArg(text));
        if e.Some? {
          err := Some(PragmaError(file, line, e.value));
        }
      }
    }
  }
}
