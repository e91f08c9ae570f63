/** Linting one file: loading its lines, the checks of each line in order,
    the end of the file, the restoring of the filters, and the option file. */
module Driver {
  import opened Text
  import opened Diagnostics
  import opened Filters
  import opened Lint
  import opened Lines
  import opened Rules
  import opened Package

  /** Why the linting of a file stopped with an exception. */
  datatype Abort =
    | PragmaRejected(error: PragmaError)   // `SetFilters` raised inside a pragma
    | ArgumentMissing(line: nat)           // `GetCommandArgument` ran past the last line
    | ZeroIndent(line: nat)                // `CheckIndent` divided by a zero unit

  datatype Outcome = Skipped | Finished | Aborted(reason: Abort)

  // ---------------------------------------------------------------------
  // One line

  /** A pragma whose `SetFilters` call raises: it validates, and the list
      it leaves behind holds a rejected entry. */
  predicate PragmaFails(filters: seq<string>, line: string) {
    ValidatingPragma(line) && FirstInvalid(filters).Some?
  }

  /** The result of the checks of one line once the pragma has passed: the
      exception that stopped them, if any, the reports handed to the sink
      until then, and the new case style and package flags. */
  datatype LineResult = LineResult(abort: Option<Abort>, reports: seq<Report>, seen: Option<bool>, flags: PackageFlags)

  function LineChecks(filename: string, clean: CleansedLines, ln: nat, spaces: int,
                      seen: Option<bool>, flags: PackageFlags): (r: LineResult)
    requires ln < |clean.rawLines| == |clean.lines|
    ensures r.abort == Some(ZeroIndent(ln)) <==> spaces == 0
    ensures r.abort.Some? ==> r.abort == Some(ZeroIndent(ln)) || r.abort == Some(ArgumentMissing(ln))
    ensures r.abort == Some(ArgumentMissing(ln)) ==> IsFindPackage(filename)
    ensures !IsFindPackage(filename) ==> r.flags == flags
    ensures r.seen == CaseStep(clean.lines[ln], ln, seen).seen
    ensures OnLine(r.reports, ln)
  {
    var length := CheckLineLength(clean, ln);
    var caseStep := CaseStep(clean.lines[ln], ln, seen);
    OnLineConcat(length, caseStep.reports, ln);
    var before := length + caseStep.reports;
    match StyleReports(clean, ln, spaces)
    case None => LineResult(Some(ZeroIndent(ln)), before, caseStep.seen, flags)
    case Some(style) =>
      OnLineConcat(before, style, ln);
      if !IsFindPackage(filename) then LineResult(None, before + style, caseStep.seen, flags)
      else
        match FindPackageStep(filename, clean.lines, ln, flags)
        case None => LineResult(Some(ArgumentMissing(ln)), before + style, caseStep.seen, flags)
        case Some((found, flags')) =>
          OnLineConcat(before + style, found, ln);
          LineResult(None, before + style + found, caseStep.seen, flags')
  }

  /** The checks of `ProcessLine` after the pragma, in their order, up to
      the first that raises. */
  method RunLineChecks(filename: string, clean: CleansedLines, pkg: PackageState, ln: nat, spaces: int)
    returns (r: LineResult)
    requires ln < |clean.rawLines| == |clean.lines|
    modifies clean`haveSeenUppercase, pkg
    ensures r == LineChecks(filename, clean, ln, spaces, old(clean.haveSeenUppercase),
                            PackageFlags(old(pkg.haveIncludedStdargs), old(pkg.haveUsedStdargs)))
    ensures clean.haveSeenUppercase == r.seen
    ensures PackageFlags(pkg.haveIncludedStdargs, pkg.haveUsedStdargs) == r.flags
  {
    ghost var seen := clean.haveSeenUppercase;
    var flags := PackageFlags(pkg.haveIncludedStdargs, pkg.haveUsedStdargs);
    ghost var expected := LineChecks(filename, clean, ln, spaces, seen, flags);
    ghost var caseStep := CaseStep(clean.lines[ln], ln, seen);
    var length := CheckLineLength(clean, ln);
    var caseReports := CheckUpperLowerCase(clean, ln);
    assert caseReports == caseStep.reports && clean.haveSeenUppercase == caseStep.seen;
    var reports := length + caseReports;
    var style := CheckStyle(clean, ln, spaces);
    if style.None? {
      assert expected == LineResult(Some(ZeroIndent(ln)), reports, caseStep.seen, flags);
      return LineResult(Some(ZeroIndent(ln)), reports, clean.haveSeenUppercase, flags);
    }
    reports := reports + style.value;
    if !IsFindPackage(filename) {
      assert expected == LineResult(None, reports, caseStep.seen, flags);
      return LineResult(None, reports, clean.haveSeenUppercase, flags);
    }
    var found := CheckFindPackage(filename, clean, ln, pkg);
    ghost var step := FindPackageStep(filename, clean.lines, ln, flags);
    if found.None? {
      assert step.None?;
      assert expected == LineResult(Some(ArgumentMissing(ln)), reports, caseStep.seen, flags);
      return LineResult(Some(ArgumentMissing(ln)), reports, clean.haveSeenUppercase, flags);
    }
    assert step.Some? && step.value.0 == found.value &&
           step.value.1 == PackageFlags(pkg.haveIncludedStdargs, pkg.haveUsedStdargs);
    reports := reports + found.value;
    assert expected == LineResult(None, reports, caseStep.seen, step.value.1);
    r := LineResult(None, reports, clean.haveSeenUppercase, PackageFlags(pkg.haveIncludedStdargs, pkg.haveUsedStdargs));
  }

  /** `ProcessLine`: the pragma first, then the checks in order, each report
      going to the sink under the filters the pragma left. */
  method ProcessLine(lint: LintState, filename: string, clean: CleansedLines, pkg: PackageState, ln: nat)
    returns (abort: Option<Abort>, reports: seq<Report>)
    requires ln < |clean.rawLines| == |clean.lines|
    modifies lint`filters, lint`errors, lint`output, clean`haveSeenUppercase, pkg
    ensures lint.filters == AfterPragma(old(lint.filters), clean.rawLines[ln])
    ensures PragmaFails(lint.filters, clean.rawLines[ln]) ==>
              abort == Some(PragmaRejected(PragmaError(filename, ln, FirstInvalid(lint.filters).value))) &&
              reports == [] && lint.output == old(lint.output) && lint.errors == old(lint.errors)
    ensures !PragmaFails(lint.filters, clean.rawLines[ln]) ==>
              var r := LineChecks(filename, clean, ln, lint.spaces, old(clean.haveSeenUppercase),
                                  PackageFlags(old(pkg.haveIncludedStdargs), old(pkg.haveUsedStdargs)));
              abort == r.abort && reports == r.reports && clean.haveSeenUppercase == r.seen &&
              PackageFlags(pkg.haveIncludedStdargs, pkg.haveUsedStdargs) == r.flags &&
              lint.output == old(lint.output) + Printed(filename, reports, lint.filters) &&
              lint.errors == old(lint.errors) + |Printed(filename, reports, lint.filters)|
  {
    var err := lint.CheckLintPragma(filename, ln, clean.rawLines[ln]);
    if err.Some? {
      return Some(PragmaRejected(err.value)), [];
    }
    var r := RunLineChecks(filename, clean, pkg, ln, lint.spaces);
    abort, reports := r.abort, r.reports;
    lint.Emit(filename, reports);
  }

  // ---------------------------------------------------------------------
  // Loading

  /** The lines of the file with their line ends removed. */
  function StrippedLines(contents: seq<string>): (r: seq<string>)
    ensures |r| == |contents|
    decreases |contents|
  {
    if |contents| == 0 then []
    else StrippedLines(contents[..|contents| - 1]) + [StripLineEnd(contents[|contents| - 1]).0]
  }

  lemma {:induction false} StrippedLinesAt(contents: seq<string>, i: nat)
    requires i < |contents|
    ensures StrippedLines(contents)[i] == StripLineEnd(contents[i]).0
    decreases |contents|
  {
    var n := |contents| - 1;
    if i < n {
      StrippedLinesAt(contents[..n], i);
    }
  }

  lemma StrippedLinesStep(contents: seq<string>, i: nat)
    requires i < |contents|
    ensures StrippedLines(contents[..i + 1]) == StrippedLines(contents[..i]) + [StripLineEnd(contents[i]).0]
  {
    assert contents[..i + 1][..i] == contents[..i];
  }

  /** Some line of `contents` ended in a carriage return. */
  predicate HasCarriageReturn(contents: seq<string>) {
    |contents| > 0 &&
    (HasCarriageReturn(contents[..|contents| - 1]) || StripLineEnd(contents[|contents| - 1]).1)
  }

  lemma {:induction false} HasCarriageReturnMeans(contents: seq<string>)
    ensures HasCarriageReturn(contents) <==> exists i :: 0 <= i < |contents| && StripLineEnd(contents[i]).1
  {
    if |contents| > 0 {
      var n := |contents| - 1;
      var front := contents[..n];
      HasCarriageReturnMeans(front);
      if exists i :: 0 <= i < |contents| && StripLineEnd(contents[i]).1 {
        var i :| 0 <= i < |contents| && StripLineEnd(contents[i]).1;
        if i < n {
          assert front[i] == contents[i];
        }
      }
      if exists i :: 0 <= i < n && StripLineEnd(front[i]).1 {
        var i :| 0 <= i < n && StripLineEnd(front[i]).1;
        assert contents[i] == front[i];
      }
    }
  }

  lemma CarriageReturnStep(contents: seq<string>, i: nat)
    requires i < |contents|
    ensures HasCarriageReturn(contents[..i + 1]) <==> HasCarriageReturn(contents[..i]) || StripLineEnd(contents[i]).1
  {
    assert contents[..i + 1][..i] == contents[..i];
  }

  /** What the pragma checks of loading leave: the filter list, and the
      position in the stripped lines of the pragma that raised, if one did. */
  datatype LoadResult = Loaded(filters: seq<string>) | Rejected(index: nat, filters: seq<string>)

  lemma LoadFromStep(filters: seq<string>, s: seq<string>, i: nat)
    requires i < |s|
    ensures var next := AfterPragma(filters, s[i]);
            LoadFrom(filters, s, i) == if PragmaFails(next, s[i]) then Rejected(i, next) else LoadFrom(next, s, i + 1)
  {
  }

  /** The filter list after the pragma checks of `s[i..j]`, starting from
      `filters`, when none of them raises. */
  function PragmaFold(filters: seq<string>, s: seq<string>, i: nat, j: nat): (r: seq<string>)
    requires i <= j <= |s|
    ensures |filters| <= |r| && r[..|filters|] == filters
    decreases j - i
  {
    if i == j then filters else PragmaFold(AfterPragma(filters, s[i]), s, i + 1, j)
  }

  /** The loading stops at the first pragma that raises under the list the
      pragmas before it have left, with that list; it completes when none
      raises, with the list all of them leave. */
  lemma {:induction false} LoadFromMeans(filters: seq<string>, s: seq<string>, i: nat)
    requires i <= |s|
    ensures var r := LoadFrom(filters, s, i);
            (r.Rejected? ==>
               i <= r.index < |s| && r.filters == PragmaFold(filters, s, i, r.index + 1) &&
               PragmaFails(r.filters, s[r.index]) &&
               forall j :: i <= j < r.index ==> !PragmaFails(PragmaFold(filters, s, i, j + 1), s[j])) &&
            (r.Loaded? <==> forall j :: i <= j < |s| ==> !PragmaFails(PragmaFold(filters, s, i, j + 1), s[j])) &&
            (r.Loaded? ==> r.filters == PragmaFold(filters, s, i, |s|))
    decreases |s| - i
  {
    if i < |s| {
      var next := AfterPragma(filters, s[i]);
      assert PragmaFold(filters, s, i, i + 1) == next;
      if !PragmaFails(next, s[i]) {
        LoadFromMeans(next, s, i + 1);
        assert forall j :: i < j <= |s| ==> PragmaFold(filters, s, i, j) == PragmaFold(next, s, i + 1, j);
      }
    }
  }

  /** The pragma checks of the stripped lines from position `i` on, starting
      from `filters`; the first pragma that raises stops them. */
  function LoadFrom(filters: seq<string>, s: seq<string>, i: nat): (r: LoadResult)
    requires i <= |s|
    ensures r.Rejected? ==> i <= r.index < |s| && PragmaFails(r.filters, s[r.index])
    decreases |s| - i
  {
    if i == |s| then Loaded(filters)
    else
      var next := AfterPragma(filters, s[i]);
      if PragmaFails(next, s[i]) then Rejected(i, next) else LoadFrom(next, s, i + 1)
  }

  /** One step of the loading loop: strip the line's end and run the pragma
      check on the stripped line, at position `ln`. */
  method LoadLine(lint: LintState, filename: string, raw: string, ln: nat)
    returns (l: string, cr: bool, err: Option<PragmaError>)
    modifies lint`filters
    ensures l == StripLineEnd(raw).0 && cr == StripLineEnd(raw).1
    ensures lint.filters == AfterPragma(old(lint.filters), l)
    ensures err.Some? <==> PragmaFails(lint.filters, l)
    ensures err.Some? ==> err.value == PragmaError(filename, ln, FirstInvalid(lint.filters).value)
  {
    l := StripTrailing(raw, '\n');
    cr := EndsWith(l, "\r");
    if cr {
      l := StripTrailing(l, '\r');
    }
    err := lint.CheckLintPragma(filename, ln, l);
  }

  /** The loading loop of `_ProcessFile`: strips each line's end, notes a
      carriage return, appends the line after the first sentinel and runs
      the pragma check on it. The position it gives the pragma check is the
      length of the list after the append, so a rejected pragma on the
      file's line `k + 1` is reported at `k + 2`. */
  method LoadLines(lint: LintState, filename: string, contents: seq<string>)
    returns (lines: seq<string>, haveCR: bool, err: Option<PragmaError>)
    modifies lint`filters
    ensures var result := LoadFrom(old(lint.filters), StrippedLines(contents), 0);
            lint.filters == result.filters &&
            (err.None? <==> result.Loaded?) &&
            (err.Some? ==> err.value == PragmaError(filename, result.index + 2, FirstInvalid(result.filters).value))
    ensures err.None? ==>
              lines == [FirstSentinel] + StrippedLines(contents) + [LastSentinel] &&
              haveCR == HasCarriageReturn(contents)
  {
    ghost var s := StrippedLines(contents);
    ghost var result := LoadFrom(lint.filters, s, 0);
    lines := [FirstSentinel];
    haveCR := false;
    err := None;
    var i := 0;
    while i < |contents|
      invariant 0 <= i <= |contents|
      invariant lines == [FirstSentinel] + StrippedLines(contents[..i])
      invariant haveCR == HasCarriageReturn(contents[..i])
      invariant result == LoadFrom(lint.filters, s, i)
      invariant err.None?
    {
      ghost var before := lint.filters;
      var l, cr;
      l, cr, err := LoadLine(lint, filename, contents[i], |lines| + 1);
      LoadLinesStep(contents, i, lines, l);
      CarriageReturnStep(contents, i);
      StrippedLinesAt(contents, i);
      haveCR := haveCR || cr;
      lines := lines + [l];
      LoadFromStep(before, s, i);
      if err.Some? {
        return;
      }
      i := i + 1;
    }
    assert contents[..i] == contents;
    lines := lines + [LastSentinel];
  }

  /** One turn of the loading loop keeps the lines in step with the lines
      read so far. */
  lemma LoadLinesStep(contents: seq<string>, i: nat, lines: seq<string>, l: string)
    requires i < |contents|
    requires lines == [FirstSentinel] + StrippedLines(contents[..i])
    requires l == StripLineEnd(contents[i]).0
    ensures lines + [l] == [FirstSentinel] + StrippedLines(contents[..i + 1])
  {
    StrippedLinesStep(contents, i);
    var prefix := StrippedLines(contents[..i]);
    assert lines + [l] == [FirstSentinel] + (prefix + [l]);
  }

  /** Every entry a pragma argument adds is in `filters`. */
  predicate EntriesIn(arg: FilterArg, filters: seq<string>) {
    forall e :: e in NewEntries(arg) ==> e in filters
  }

  /** Some line before position `n` is a validating pragma. */
  predicate SomeValidating(s: seq<string>, n: nat)
    requires n <= |s|
  {
    exists k :: 0 <= k < n && ValidatingPragma(s[k])
  }

  /** `filters` holds the entries of every pragma from position `lo` up to
      position `hi`. */
  predicate PragmaEntriesIn(s: seq<string>, lo: nat, hi: nat, filters: seq<string>)
    requires lo <= hi <= |s|
  {
    forall k :: lo <= k < hi && IsPragma(s[k]) ==> EntriesIn(PragmaArg(s[k]), filters)
  }

  /** The pragma check keeps every entry already in the list, and leaves the
      list as it was unless the line validates. */
  lemma AfterPragmaKeeps(filters: seq<string>, line: string)
    ensures forall e :: e in filters ==> e in AfterPragma(filters, line)
    ensures !ValidatingPragma(line) ==> AfterPragma(filters, line) == filters
  {
    var next := AfterPragma(filters, line);
    assert forall e :: e in filters ==> e in next by {
      assert next[..|filters|] == filters;
    }
    if IsPragma(line) && !ValidatingPragma(line) {
      assert NewEntries(PragmaArg(line)) == [];
      assert next == filters + [];
    }
  }

  /** One pragma check that does not raise keeps the list valid once some
      pragma has validated. */
  lemma LoadedStepValid(filters: seq<string>, s: seq<string>, i: nat)
    requires i < |s| && !PragmaFails(AfterPragma(filters, s[i]), s[i])
    requires SomeValidating(s, i) ==> FirstInvalid(filters).None?
    ensures SomeValidating(s, i + 1) ==> FirstInvalid(AfterPragma(filters, s[i])).None?
  {
    AfterPragmaKeeps(filters, s[i]);
    if !ValidatingPragma(s[i]) && SomeValidating(s, i + 1) {
      var k :| 0 <= k < i + 1 && ValidatingPragma(s[k]);
      assert k < i;
    }
  }

  /** One pragma check keeps the entries of the earlier pragmas and adds its own. */
  lemma LoadedStepEntries(filters: seq<string>, s: seq<string>, i: nat)
    requires i < |s|
    requires PragmaEntriesIn(s, 0, i, filters)
    ensures PragmaEntriesIn(s, 0, i + 1, AfterPragma(filters, s[i]))
  {
    var next := AfterPragma(filters, s[i]);
    AfterPragmaKeeps(filters, s[i]);
    forall k | 0 <= k < i + 1 && IsPragma(s[k])
      ensures EntriesIn(PragmaArg(s[k]), next)
    {
      if k < i {
        EntriesInGrows(PragmaArg(s[k]), filters, next);
      } else {
        assert k == i;
        assert next == filters + NewEntries(PragmaArg(s[i]));
      }
    }
  }

  lemma EntriesInGrows(arg: FilterArg, a: seq<string>, b: seq<string>)
    requires EntriesIn(arg, a)
    requires forall e :: e in a ==> e in b
    ensures EntriesIn(arg, b)
  {
  }

  /** When loading succeeds, the filter list it leaves is valid as soon as
      some pragma was validated, and it holds every entry of every pragma. */
  lemma {:induction false} LoadedFiltersValid(filters: seq<string>, s: seq<string>, i: nat)
    requires i <= |s| && LoadFrom(filters, s, i).Loaded?
    requires SomeValidating(s, i) ==> FirstInvalid(filters).None?
    requires PragmaEntriesIn(s, 0, i, filters)
    ensures SomeValidating(s, |s|) ==> FirstInvalid(LoadFrom(filters, s, i).filters).None?
    ensures PragmaEntriesIn(s, 0, |s|, LoadFrom(filters, s, i).filters)
    decreases |s| - i
  {
    if i == |s| {
      assert LoadFrom(filters, s, i).filters == filters;
    } else {
      var next := AfterPragma(filters, s[i]);
      assert LoadFrom(filters, s, i) == LoadFrom(next, s, i + 1);
      LoadedStepValid(filters, s, i);
      LoadedStepEntries(filters, s, i);
      LoadedFiltersValid(next, s, i + 1);
    }
  }

  /** The sentinels are not pragmas, so the list of lines with them around
      keeps both facts. */
  lemma WithSentinels(s: seq<string>, filters: seq<string>)
    requires SomeValidating(s, |s|) ==> FirstInvalid(filters).None?
    requires PragmaEntriesIn(s, 0, |s|, filters)
    ensures var raw := [FirstSentinel] + s + [LastSentinel];
            (SomeValidating(raw, |raw|) ==> FirstInvalid(filters).None?) &&
            PragmaEntriesIn(raw, 0, |raw|, filters)
  {
    var raw := [FirstSentinel] + s + [LastSentinel];
    assert !IsPragma(FirstSentinel) && !IsPragma(LastSentinel) by {
      assert FirstSentinel[2] != PragmaMarker[2];
      assert LastSentinel[2] != PragmaMarker[2];
    }
    assert forall k :: 1 <= k <= |s| ==> raw[k] == s[k - 1];
    if SomeValidating(raw, |raw|) {
      var k :| 0 <= k < |raw| && ValidatingPragma(raw[k]);
      assert ValidatingPragma(s[k - 1]);
    }
    forall k | 0 <= k < |raw| && IsPragma(raw[k])
      ensures EntriesIn(PragmaArg(raw[k]), filters)
    {
      assert raw[k] == s[k - 1];
    }
  }

  /** After a loading that raised no error, the list of lines with its
      sentinels is ready for the second run of its pragmas. */
  lemma LoadedLinesReady(filters: seq<string>, contents: seq<string>)
    requires LoadFrom(filters, StrippedLines(contents), 0).Loaded?
    ensures var raw := [FirstSentinel] + StrippedLines(contents) + [LastSentinel];
            var loaded := LoadFrom(filters, StrippedLines(contents), 0).filters;
            (SomeValidating(raw, |raw|) ==> FirstInvalid(loaded).None?) &&
            PragmaEntriesIn(raw, 0, |raw|, loaded)
  {
    var s := StrippedLines(contents);
    LoadedFiltersValid(filters, s, 0);
    WithSentinels(s, LoadFrom(filters, s, 0).filters);
  }

  /** The second run of a pragma whose entries are all in a valid list cannot
      raise, and keeps both facts for the lines after it. */
  lemma ReplayStep(filters: seq<string>, raw: seq<string>, ln: nat)
    requires ln < |raw|
    requires SomeValidating(raw, |raw|) ==> FirstInvalid(filters).None?
    requires PragmaEntriesIn(raw, ln, |raw|, filters)
    ensures !PragmaFails(AfterPragma(filters, raw[ln]), raw[ln])
    ensures SomeValidating(raw, |raw|) ==> FirstInvalid(AfterPragma(filters, raw[ln])).None?
    ensures PragmaEntriesIn(raw, ln + 1, |raw|, AfterPragma(filters, raw[ln]))
  {
    var line := raw[ln];
    var next := AfterPragma(filters, line);
    AfterPragmaKeeps(filters, line);
    if ValidatingPragma(line) {
      assert SomeValidating(raw, |raw|);
      assert EntriesIn(PragmaArg(line), filters);
      var more := NewEntries(PragmaArg(line));
      assert forall k :: 0 <= k < |more| ==> more[k] in filters;
      FirstInvalidAppend(filters, more);
    }
    forall k | ln + 1 <= k < |raw| && IsPragma(raw[k])
      ensures EntriesIn(PragmaArg(raw[k]), next)
    {
      assert EntriesIn(PragmaArg(raw[k]), filters);
    }
  }

  // ---------------------------------------------------------------------
  // One file

  /** `b` is `a` with only violations of `file` appended. */
  predicate Grows(a: seq<Violation>, b: seq<Violation>, file: string) {
    |a| <= |b| && b[..|a|] == a && forall k :: |a| <= k < |b| ==> b[k].file == file
  }

  lemma GrowsAppend(a: seq<Violation>, b: seq<Violation>, more: seq<Violation>, file: string)
    requires Grows(a, b, file)
    requires forall k :: 0 <= k < |more| ==> more[k].file == file
    ensures Grows(a, b + more, file)
  {
    assert (b + more)[..|a|] == b[..|a|];
    forall k | |a| <= k < |b + more| ensures (b + more)[k].file == file {
      if k >= |b| {
        assert (b + more)[k] == more[k - |b|];
      }
    }
  }

  lemma GrowsTrans(a: seq<Violation>, b: seq<Violation>, c: seq<Violation>, file: string)
    requires Grows(a, b, file) && Grows(b, c, file)
    ensures Grows(a, c, file)
  {
    assert c[..|a|] == c[..|b|][..|a|];
  }

  /** The line loop of `_ProcessFile`, given the list the loading left.
      Every pragma has run once already, so none raises now. */
  method ProcessLines(lint: LintState, filename: string, clean: CleansedLines, pkg: PackageState)
    returns (abort: Option<Abort>)
    requires |clean.rawLines| == |clean.lines|
    requires ReadyToReplay(clean.rawLines, lint.filters)
    modifies lint`filters, lint`errors, lint`output, clean`haveSeenUppercase, pkg
    ensures abort.Some? ==> !abort.value.PragmaRejected?
    ensures lint.spaces == old(lint.spaces)
    ensures Grows(old(lint.output), lint.output, filename)
    ensures lint.errors == old(lint.errors) + (|lint.output| - |old(lint.output)|)
    ensures abort.None? ==> clean.haveSeenUppercase == CaseFold(clean.lines, old(clean.haveSeenUppercase))
    ensures abort.Some? ==>
              abort.value.line < |clean.lines| &&
              clean.haveSeenUppercase == CaseFold(clean.lines[..abort.value.line + 1], old(clean.haveSeenUppercase))
  {
    var ln := 0;
    while ln < |clean.rawLines|
      invariant 0 <= ln <= |clean.rawLines|
      invariant clean.haveSeenUppercase == CaseFold(clean.lines[..ln], old(clean.haveSeenUppercase))
      invariant lint.spaces == old(lint.spaces)
      invariant Grows(old(lint.output), lint.output, filename)
      invariant lint.errors == old(lint.errors) + (|lint.output| - |old(lint.output)|)
      invariant SomeValidating(clean.rawLines, |clean.rawLines|) ==> FirstInvalid(lint.filters).None?
      invariant PragmaEntriesIn(clean.rawLines, ln, |clean.rawLines|, lint.filters)
    {
      ReplayStep(lint.filters, clean.rawLines, ln);
      ghost var before := lint.output;
      var lineReports;
      abort, lineReports := ProcessLine(lint, filename, clean, pkg, ln);
      GrowsAppend(old(lint.output), before, Printed(filename, lineReports, lint.filters), filename);
      CaseFoldStep(clean.lines, ln, old(clean.haveSeenUppercase));
      if abort.Some? {
        return;
      }
      ln := ln + 1;
    }
    assert clean.lines[..ln] == clean.lines;
    abort := None;
  }

  /** The checks of `_ProcessFile` between loading and the line loop: the
      file name, then a carriage return on a host whose line separator is
      not CR LF. Both go to the sink in that order, as if by `Error`. */
  method FileChecks(lint: LintState, filename: string, haveCR: bool, hostLinesepIsCRLF: bool)
    modifies lint`errors, lint`output
    ensures var newline := if haveCR && !hostLinesepIsCRLF
                           then [Report(0, WhitespaceNewline, NewlineMessage)] else [];
            lint.output == old(lint.output) + Printed(filename, CheckFileName(filename) + newline, lint.filters)
    ensures Grows(old(lint.output), lint.output, filename)
    ensures lint.errors == old(lint.errors) + (|lint.output| - |old(lint.output)|)
  {
    var reports := CheckFileName(filename);
    if haveCR && !hostLinesepIsCRLF {
      reports := reports + [Report(0, WhitespaceNewline, NewlineMessage)];
    }
    ghost var before := lint.output;
    lint.Emit(filename, reports);
    GrowsAppend(before, before, Printed(filename, reports, lint.filters), filename);
  }

  /** The end of `_ProcessFile`: the package check's verdict on the file. */
  method FinishFile(lint: LintState, filename: string, pkg: PackageState)
    modifies lint`errors, lint`output, pkg
    ensures lint.output == old(lint.output) +
              Printed(filename, DoneReports(filename, old(pkg.haveIncludedStdargs), old(pkg.haveUsedStdargs)), lint.filters)
    ensures lint.spaces == old(lint.spaces)
    ensures Grows(old(lint.output), lint.output, filename)
    ensures lint.errors == old(lint.errors) + (|lint.output| - |old(lint.output)|)
  {
    var done := pkg.Done(filename);
    ghost var before := lint.output;
    lint.Emit(filename, done);
    GrowsAppend(before, before, Printed(filename, done, lint.filters), filename);
  }

  /** The pragma facts the line loop needs about the sentinel-wrapped lines
      `raw` and the list the loading left. */
  predicate ReadyToReplay(raw: seq<string>, filters: seq<string>) {
    (SomeValidating(raw, |raw|) ==> FirstInvalid(filters).None?) &&
    PragmaEntriesIn(raw, 0, |raw|, filters)
  }

  /** The loading phase of `_ProcessFile`: when no pragma is rejected, the
      lines are wrapped in sentinels and ready for the line loop. */
  method LoadFile(lint: LintState, filename: string, contents: seq<string>)
    returns (lines: seq<string>, haveCR: bool, err: Option<PragmaError>)
    modifies lint`filters
    ensures err.Some? ==> err.value.file == filename && err.value.line >= 2
    ensures err.None? ==>
              lines == [FirstSentinel] + StrippedLines(contents) + [LastSentinel] &&
              haveCR == HasCarriageReturn(contents) && ReadyToReplay(lines, lint.filters)
  {
    ghost var original := lint.filters;
    lines, haveCR, err := LoadLines(lint, filename, contents);
    if err.None? {
      LoadedLinesReady(original, contents);
    }
  }

  /** `_ProcessFile`, with the file's lines as `contents` and the host's line
      separator as a flag. Only a rejected pragma while loading can stop it
      with a pragma error: the second run of each pragma, in `ProcessLine`,
      appends entries that are already in the list and has been validated. */
  method ProcessFileBody(lint: LintState, filename: string, contents: seq<string>, hostLinesepIsCRLF: bool)
    returns (outcome: Outcome)
    modifies lint`filters, lint`errors, lint`output
    ensures outcome == Skipped <==> !IsValidFile(filename)
    ensures outcome == Skipped ==>
              lint.filters == old(lint.filters) && lint.output == old(lint.output) && lint.errors == old(lint.errors)
    ensures outcome.Aborted? && outcome.reason.PragmaRejected? ==>
              lint.output == old(lint.output) && lint.errors == old(lint.errors) &&
              outcome.reason.error.file == filename && outcome.reason.error.line >= 2
    ensures Grows(old(lint.output), lint.output, filename)
    ensures lint.errors == old(lint.errors) + (|lint.output| - |old(lint.output)|)
  {
    if !IsValidFile(filename) {
      return Skipped;
    }
    ghost var out0 := lint.output;
    var pkg := new PackageState();
    var lines, haveCR, err := LoadFile(lint, filename, contents);
    if err.Some? {
      return Aborted(PragmaRejected(err.value));
    }
    FileChecks(lint, filename, haveCR, hostLinesepIsCRLF);
    var clean := new CleansedLines(lines);
    ghost var before := lint.output;
    var abort := ProcessLines(lint, filename, clean, pkg);
    GrowsTrans(out0, before, lint.output, filename);
    if abort.Some? {
      return Aborted(abort.value);
    }
    before := lint.output;
    FinishFile(lint, filename, pkg);
    GrowsTrans(out0, before, lint.output, filename);
    return Finished;
  }

  /** `ProcessFile`: the pragmas of a file do not outlive it. */
  method ProcessFile(lint: LintState, filename: string, contents: seq<string>, hostLinesepIsCRLF: bool)
    returns (outcome: Outcome)
    modifies lint`filters, lint`errors, lint`output
    ensures lint.filters == old(lint.filters)
    ensures lint.spaces == old(lint.spaces)
    ensures outcome == Skipped <==> !IsValidFile(filename)
    ensures outcome == Skipped ==> lint.output == old(lint.output) && lint.errors == old(lint.errors)
    ensures Grows(old(lint.output), lint.output, filename)
    ensures lint.errors == old(lint.errors) + (|lint.output| - |old(lint.output)|)
  {
    var originalFilters := lint.filters;
    outcome := ProcessFileBody(lint, filename, contents, hostLinesepIsCRLF);
    lint.filters := originalFilters;
  }

  // ---------------------------------------------------------------------
  // The option file

  const FilterKey := "filter="
  const SpacesKey := "spaces="

  /** The value a stripped option-file line gives `key`: the line must start
      with the key, and every occurrence of the key is removed. */
  function OptionValue(l: string, key: string): Option<string>
    requires |key| > 0
  {
    if StartsWith(l, key) then Some(RemoveAll(l, key)) else None
  }

  /** A line `key` + `v`, with the key nowhere in `v`, sets the option to
      `v`; a line not starting with the key sets nothing. */
  lemma OptionValueOf(key: string, v: string, l: string)
    requires |key| > 0
    requires forall i: nat :: !OccursAt(v, key, i)
    ensures OptionValue(key + v, key) == Some(v)
    ensures !StartsWith(l, key) ==> OptionValue(l, key).None?
  {
    assert (key + v)[..|key|] == key;
    RemoveAllLeading(key, v);
  }

  /** Every line of the option file, stripped. */
  function StripAll(contents: seq<string>): (r: seq<string>)
    ensures |r| == |contents|
    ensures forall i :: 0 <= i < |contents| ==> r[i] == Strip(contents[i])
  {
    seq(|contents|, i requires 0 <= i < |contents| => Strip(contents[i]))
  }

  /** The value of `key` in the stripped lines: the last line that sets it. */
  function LastOption(lines: seq<string>, key: string): Option<string>
    requires |key| > 0
  {
    if |lines| == 0 then None
    else
      var n := |lines| - 1;
      match OptionValue(lines[n], key)
      case Some(v) => Some(v)
      case None => LastOption(lines[..n], key)
  }

  /** One more line: it sets `key` or leaves the value seen so far. */
  lemma LastOptionStep(lines: seq<string>, key: string, i: nat)
    requires |key| > 0 && i < |lines|
    ensures LastOption(lines[..i + 1], key) ==
              if OptionValue(lines[i], key).Some? then OptionValue(lines[i], key) else LastOption(lines[..i], key)
  {
    assert lines[..i + 1][..i] == lines[..i];
  }

  /** With no line setting `key`, the key keeps its default. */
  lemma {:induction false} LastOptionNone(lines: seq<string>, key: string)
    requires |key| > 0
    ensures LastOption(lines, key).None? <==> forall k :: 0 <= k < |lines| ==> OptionValue(lines[k], key).None?
  {
    if |lines| > 0 {
      var n := |lines| - 1;
      var init := lines[..n];
      assert forall k :: 0 <= k < n ==> init[k] == lines[k];
      LastOptionNone(init, key);
    }
  }

  /** Last one wins: the line that sets `key` with no later line setting it
      gives the value. */
  lemma {:induction false} LastOptionWins(lines: seq<string>, key: string, k: nat)
    requires |key| > 0
    requires k < |lines| && OptionValue(lines[k], key).Some?
    requires forall j :: k < j < |lines| ==> OptionValue(lines[j], key).None?
    ensures LastOption(lines, key) == OptionValue(lines[k], key)
  {
    var n := |lines| - 1;
    if k < n {
      var init := lines[..n];
      assert forall j :: k < j < n ==> init[j] == lines[j];
      assert init[k] == lines[k];
      assert OptionValue(lines[n], key).None?;
      LastOptionWins(init, key, k);
    }
  }

  /** The exception `ParseOptionFile` lets through. */
  datatype OptionError = BadFilter(error: FilterError) | BadSpaces(text: string)

  /** The loop of `ParseOptionFile`: blank lines and comments are skipped,
      and each `filter=` or `spaces=` line replaces the value seen so far. */
  method ScanOptions(contents: seq<string>) returns (filters: Option<string>, spaces: Option<string>)
    ensures filters == LastOption(StripAll(contents), FilterKey)
    ensures spaces == LastOption(StripAll(contents), SpacesKey)
  {
    ghost var stripped := StripAll(contents);
    filters := None;
    spaces := None;
    for i := 0 to |contents|
      invariant filters == LastOption(stripped[..i], FilterKey)
      invariant spaces == LastOption(stripped[..i], SpacesKey)
    {
      LastOptionStep(stripped, FilterKey, i);
      LastOptionStep(stripped, SpacesKey, i);
      var line := Strip(contents[i]);
      assert line == stripped[i];
      if |line| == 0 || StartsWith(line, "#") {
        if |line| > 0 {
          StartsWithExclusive(line, "#", FilterKey);
          StartsWithExclusive(line, "#", SpacesKey);
        }
        continue;
      }
      if StartsWith(line, FilterKey) {
        filters := Some(RemoveAll(line, FilterKey));
      }
      if StartsWith(line, SpacesKey) {
        spaces := Some(RemoveAll(line, SpacesKey));
      }
    }
    assert stripped[..|contents|] == stripped;
  }
  /** The end of `ParseOptionFile`: the filters (none when no line set them),
      then the indentation unit when one was given and is not ignored. */
  method ApplyOptions(lint: LintState, filters: Option<string>, spaces: Option<string>, ignoreSpace: bool)
    returns (err: Option<OptionError>)
    modifies lint`filters, lint`spaces
    ensures var arg := if filters.None? then NoFilters else FilterText(filters.value);
            lint.filters == old(lint.filters) + NewEntries(arg)
    ensures var arg := if filters.None? then NoFilters else FilterText(filters.value);
            var rejected := if IsEmptyArg(arg) then None else FirstInvalid(lint.filters);
            var applySpaces := spaces.Some? && |spaces.value| > 0 && !ignoreSpace;
            (rejected.Some? ==> err == Some(BadFilter(rejected.value)) && lint.spaces == old(lint.spaces)) &&
            (rejected.None? && !applySpaces ==> err.None? && lint.spaces == old(lint.spaces)) &&
            (rejected.None? && applySpaces && IsNumeral(Strip(spaces.value)) ==>
               err.None? && lint.spaces == DecimalValue(Strip(spaces.value))) &&
            (rejected.None? && applySpaces && !IsNumeral(Strip(spaces.value)) ==>
               err == Some(BadSpaces(spaces.value)) && lint.spaces == old(lint.spaces))
  {
    var e := lint.SetFilters(if filters.None? then NoFilters else FilterText(filters.value));
    if e.Some? {
      return Some(BadFilter(e.value));
    }
    err := None;
    if spaces.Some? && |spaces.value| > 0 && !ignoreSpace {
      var ok := lint.SetSpaces(spaces.value);
      if !ok {
        err := Some(BadSpaces(spaces.value));
      }
    }
  }
  /** `ParseOptionFile`: the last `filter=` line and the last `spaces=` line
      are applied, the filters first; a value that `SetFilters` rejects
      stops it before the indentation unit is touched. */
  method ParseOptionFile(lint: LintState, contents: seq<string>, ignoreSpace: bool)
    returns (err: Option<OptionError>)
    modifies lint`filters, lint`spaces
    ensures var f := LastOption(StripAll(contents), FilterKey);
            var arg := if f.None? then NoFilters else FilterText(f.value);
            lint.filters == old(lint.filters) + NewEntries(arg)
    ensures var f := LastOption(StripAll(contents), FilterKey);
            var arg := if f.None? then NoFilters else FilterText(f.value);
            var sp := LastOption(StripAll(contents), SpacesKey);
            var rejected := if IsEmptyArg(arg) then None else FirstInvalid(lint.filters);
            var applySpaces := sp.Some? && |sp.value| > 0 && !ignoreSpace;
            (rejected.Some? ==> err == Some(BadFilter(rejected.value)) && lint.spaces == old(lint.spaces)) &&
            (rejected.None? && !applySpaces ==> err.None? && lint.spaces == old(lint.spaces)) &&
            (rejected.None? && applySpaces && IsNumeral(Strip(sp.value)) ==>
               err.None? && lint.spaces == DecimalValue(Strip(sp.value))) &&
            (rejected.None? && applySpaces && !IsNumeral(Strip(sp.value)) ==>
               err == Some(BadSpaces(sp.value)) && lint.spaces == old(lint.spaces))
  {
    var filters, spaces := ScanOptions(contents);
    err := ApplyOptions(lint, filters, spaces, ignoreSpace);
  }
}
