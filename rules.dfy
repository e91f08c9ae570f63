/** The per-line rules. Each check returns the reports it hands to the
    `errors` sink, in the order it hands them over. */
module Rules {
  import opened Text
  import opened Diagnostics
  import opened Commands
  import opened Lines

  /** `CheckLineLength`: the raw line is longer than 80 characters. */
  function CheckLineLength(clean: CleansedLines, ln: nat): (r: seq<Report>)
    requires ln < |clean.rawLines|
    ensures r != [] <==> |clean.rawLines[ln]| > 80
    ensures r == [] || r == [Report(ln, LineLength, LineLengthMessage)]
  {
    if |clean.rawLines[ln]| > 80 then [Report(ln, LineLength, LineLengthMessage)] else []
  }

  // ---------------------------------------------------------------------
  // Case consistency

  /** The reports and the case style after the case check of one clean line,
      given the style fixed so far. */
  datatype CaseOutcome = CaseOutcome(reports: seq<Report>, seen: Option<bool>)

  function CaseStep(line: string, ln: nat, seen: Option<bool>): (r: CaseOutcome)
    ensures OnLine(r.reports, ln)
    // a line without a command neither reports nor changes the style
    ensures !ContainsCommand(line) ==> r == CaseOutcome([], seen)
    // a mixed-case command is reported as wonky and leaves the style alone
    ensures ContainsCommand(line) && IsCommandMixedCase(GetCommand(line)) ==>
              r == CaseOutcome([Report(ln, ReadabilityWonkycase, WonkycaseMessage)], seen)
    // once fixed, the style never changes again
    ensures seen.Some? ==> r.seen == seen
    // the first single-case command fixes the style to its own
    ensures seen.None? && ContainsCommand(line) && !IsCommandMixedCase(GetCommand(line)) ==>
              r == CaseOutcome([], Some(IsCommandUpperCase(GetCommand(line))))
    // a later single-case command of the other style is reported
    ensures seen.Some? && ContainsCommand(line) && !IsCommandMixedCase(GetCommand(line)) ==>
              (r.reports != [] <==> IsCommandUpperCase(GetCommand(line)) != seen.value) &&
              (r.reports == [] || r.reports == [Report(ln, ReadabilityMixedcase, MixedcaseMessage)])
  {
    if !ContainsCommand(line) then CaseOutcome([], seen)
    else
      var command := GetCommand(line);
      if IsCommandMixedCase(command) then
        CaseOutcome([Report(ln, ReadabilityWonkycase, WonkycaseMessage)], seen)
      else if seen.None? then CaseOutcome([], Some(IsCommandUpperCase(command)))
      else if IsCommandUpperCase(command) != seen.value then
        CaseOutcome([Report(ln, ReadabilityMixedcase, MixedcaseMessage)], seen)
      else CaseOutcome([], seen)
  }

  /** `CheckUpperLowerCase`, updating the per-file style in place. */
  method CheckUpperLowerCase(clean: CleansedLines, ln: nat) returns (r: seq<Report>)
    requires ln < |clean.lines|
    modifies clean`haveSeenUppercase
    ensures CaseOutcome(r, clean.haveSeenUppercase) == CaseStep(clean.lines[ln], ln, old(clean.haveSeenUppercase))
  {
    r := [];
    var line := clean.lines[ln];
    if ContainsCommand(line) {
      var command := GetCommand(line);
      if IsCommandMixedCase(command) {
        return [Report(ln, ReadabilityWonkycase, WonkycaseMessage)];
      }
      if clean.haveSeenUppercase.None? {
        clean.haveSeenUppercase := Some(IsCommandUpperCase(command));
      } else {
        var isUpper := IsCommandUpperCase(command);
        if isUpper != clean.haveSeenUppercase.value {
          return [Report(ln, ReadabilityMixedcase, MixedcaseMessage)];
        }
      }
    }
  }

  /** The case style after the case check of every line of `lines` in order. */
  function CaseFold(lines: seq<string>, seen: Option<bool>): Option<bool> {
    if |lines| == 0 then seen else CaseFold(lines[1..], CaseStep(lines[0], 0, seen).seen)
  }

  /** The case style after one more line is that line's case step applied
      to the style before it, whatever its line number. */
  lemma CaseFoldStep(lines: seq<string>, ln: nat, seen: Option<bool>)
    requires ln < |lines|
    ensures CaseFold(lines[..ln + 1], seen) == CaseStep(lines[ln], ln, CaseFold(lines[..ln], seen)).seen
  {
    assert lines[..ln + 1] == lines[..ln] + [lines[ln]];
    CaseFoldSnoc(lines[..ln], lines[ln], seen);
  }

  lemma {:induction false} CaseFoldSnoc(lines: seq<string>, line: string, seen: Option<bool>)
    ensures CaseFold(lines + [line], seen) == CaseStep(line, 0, CaseFold(lines, seen)).seen
    decreases |lines|
  {
    if |lines| == 0 {
      assert (lines + [line])[1..] == [];
    } else {
      assert (lines + [line])[0] == lines[0];
      assert (lines + [line])[1..] == lines[1..] + [line];
      CaseFoldSnoc(lines[1..], line, CaseStep(lines[0], 0, seen).seen);
    }
  }

  /** A line holding a command that is all upper or all lower case. */
  predicate SingleCaseCommand(line: string) {
    ContainsCommand(line) && !IsCommandMixedCase(GetCommand(line))
  }

  /** Over a whole file without a single-case command the style stays unknown. */
  lemma {:induction false} CaseFoldNone(lines: seq<string>)
    requires forall k :: 0 <= k < |lines| ==> !SingleCaseCommand(lines[k])
    ensures CaseFold(lines, None).None?
  {
    if |lines| > 0 {
      assert !SingleCaseCommand(lines[0]);
      assert CaseStep(lines[0], 0, None).seen.None?;
      assert forall k :: 0 <= k < |lines| - 1 ==> lines[1..][k] == lines[k + 1];
      CaseFoldNone(lines[1..]);
    }
  }

  /** Over a whole file the style is that of the first single-case command. */
  lemma {:induction false} CaseFoldFirst(lines: seq<string>, k: nat)
    requires k < |lines| && SingleCaseCommand(lines[k])
    requires forall j :: 0 <= j < k ==> !SingleCaseCommand(lines[j])
    ensures CaseFold(lines, None) == Some(IsCommandUpperCase(GetCommand(lines[k])))
  {
    CaseFoldFirstFrom(lines, 0, k);
    assert lines[0..] == lines;
  }

  /** `CaseFoldFirst` for the suffix of `lines` from `i`. */
  lemma {:induction false} CaseFoldFirstFrom(lines: seq<string>, i: nat, k: nat)
    requires i <= k < |lines| && SingleCaseCommand(lines[k])
    requires forall j :: i <= j < k ==> !SingleCaseCommand(lines[j])
    ensures CaseFold(lines[i..], None) == Some(IsCommandUpperCase(GetCommand(lines[k])))
    decreases k - i
  {
    var suffix := lines[i..];
    assert suffix[0] == lines[i];
    assert suffix[1..] == lines[i + 1..];
    if i == k {
      CaseFoldFixes(suffix);
      CaseFoldKeeps(lines[i + 1..], Some(IsCommandUpperCase(GetCommand(lines[k]))));
    } else {
      CaseFoldSkips(suffix);
      CaseFoldFirstFrom(lines, i + 1, k);
    }
  }

  /** The first line of a file fixes the style when it is single-case. */
  lemma CaseFoldFixes(lines: seq<string>)
    requires |lines| > 0 && SingleCaseCommand(lines[0])
    ensures CaseFold(lines, None) == CaseFold(lines[1..], Some(IsCommandUpperCase(GetCommand(lines[0]))))
  {
  }

  /** Any other first line leaves the style unknown. */
  lemma CaseFoldSkips(lines: seq<string>)
    requires |lines| > 0 && !SingleCaseCommand(lines[0])
    ensures CaseFold(lines, None) == CaseFold(lines[1..], None)
  {
  }

  lemma {:induction false} CaseFoldKeeps(lines: seq<string>, seen: Option<bool>)
    requires seen.Some?
    ensures CaseFold(lines, seen) == seen
  {
    if |lines| > 0 {
      CaseFoldKeeps(lines[1..], seen);
    }
  }

  // ---------------------------------------------------------------------
  // Spaces around the parentheses of a command

  /** The first line at or after `i` that holds a `)`. */
  function FirstCloseLine(lines: seq<string>, i: nat): (r: Option<nat>)
    requires i <= |lines|
    ensures r.None? <==> forall k :: i <= k < |lines| ==> ')' !in lines[k]
    ensures r.Some? ==> i <= r.value < |lines| && ')' in lines[r.value] &&
                        forall k :: i <= k < r.value ==> ')' !in lines[k]
    decreases |lines| - i
  {
    if i == |lines| then None
    else if ')' in lines[i] then Some(i)
    else FirstCloseLine(lines, i + 1)
  }

  /** What `CheckCommandSpaces` reports for the command on clean line `ln`:
      whitespace before `(`, then either the missing `)` or a difference
      between the spaces after `(` and those before the first `)` found. */
  function CommandSpacesReports(lines: seq<string>, ln: nat): (r: seq<Report>)
    requires ln < |lines|
    ensures !ContainsCommand(lines[ln]) ==> r == []
    ensures |r| <= 2
    ensures OnLine(r, ln)
  {
    MatchCommandSound(lines[ln]);
    match MatchCommand(lines[ln])
    case None => []
    case Some(m) => GapReports(ln, m) + CloseReports(lines, ln, m)
  }

  /** Whitespace between the command's name and `(`. */
  function GapReports(ln: nat, m: CommandMatch): seq<Report> {
    if m.gap > 0 then [Report(ln, WhitespaceExtra, ExtraSpacesMessage(m.name))] else []
  }

  /** No `)` on this line or after it, or spaces after `(` that differ from
      those before the first `)`. */
  function CloseReports(lines: seq<string>, ln: nat, m: CommandMatch): seq<Report>
    requires ln < |lines| && m.open < |lines[ln]|
  {
    match FirstCloseLine(lines, ln)
    case None => [Report(ln, Syntax, SyntaxMessage)]
    case Some(k) =>
      var after := SpaceRun(lines[ln], m.open + 1);
      var before := SpacesBeforeClose(lines[k]).value;
      if after != before then [Report(ln, WhitespaceMismatch, MismatchMessage)] else []
  }

  /** `CheckCommandSpaces`: scans forward from the command's line for the
      first line holding a `)`. */
  method CheckCommandSpaces(clean: CleansedLines, ln: nat) returns (r: seq<Report>)
    requires ln < |clean.lines|
    ensures r == CommandSpacesReports(clean.lines, ln)
  {
    r := [];
    var lines := clean.lines;
    var line := lines[ln];
    var m := MatchCommand(line);
    MatchCommandSound(line);
    if m.Some? && m.value.gap > 0 {
      r := r + [Report(ln, WhitespaceExtra, ExtraSpacesMessage(m.value.name))];
    }
    if m.Some? {
      assert r == GapReports(ln, m.value);
      ghost var gap := r;
      var spacesAfterOpen := SpaceRun(line, m.value.open + 1);
      var initialLine := ln;
      var lineNumber, end := ScanForClose(lines, ln);
      CloseReportsOf(lines, ln, m.value, lineNumber, end);
      if lineNumber == |lines| && end.None? {
        r := r + [Report(initialLine, Syntax, SyntaxMessage)];
      }
      if end.Some? {
        if spacesAfterOpen != end.value {
          r := r + [Report(initialLine, WhitespaceMismatch, MismatchMessage)];
        }
      }
    }
  }

  /** `CloseReports` in terms of where the scan for `)` stopped. */
  lemma CloseReportsOf(lines: seq<string>, ln: nat, m: CommandMatch, lineNumber: nat, end: Option<nat>)
    requires ln < |lines| && m.open < |lines[ln]|
    requires end.None? ==> lineNumber == |lines| && FirstCloseLine(lines, ln).None?
    requires end.Some? ==> 0 < lineNumber && FirstCloseLine(lines, ln) == Some(lineNumber - 1) &&
                           end == SpacesBeforeClose(lines[lineNumber - 1])
    ensures CloseReports(lines, ln, m) ==
              if end.None? then [Report(ln, Syntax, SyntaxMessage)]
              else if SpaceRun(lines[ln], m.open + 1) != end.value then [Report(ln, WhitespaceMismatch, MismatchMessage)]
              else []
  {
  }

  /** The `while` loop of `CheckCommandSpaces`: it stops after the first line
      holding a `)`, or after the last line. */
  method ScanForClose(lines: seq<string>, ln: nat) returns (lineNumber: nat, end: Option<nat>)
    requires ln < |lines|
    ensures end.None? ==> lineNumber == |lines| && FirstCloseLine(lines, ln).None?
    ensures end.Some? ==> 0 < lineNumber && FirstCloseLine(lines, ln) == Some(lineNumber - 1) &&
                          end == SpacesBeforeClose(lines[lineNumber - 1])
  {
    lineNumber := ln;
    end := None;
    while true
      invariant ln <= lineNumber < |lines|
      invariant forall j :: ln <= j < lineNumber ==> ')' !in lines[j]
      decreases |lines| - lineNumber
    {
      end := SpacesBeforeClose(lines[lineNumber]);
      lineNumber := lineNumber + 1;
      if end.Some? || lineNumber >= |lines| {
        break;
      }
    }
  }

  // ---------------------------------------------------------------------
  // Repeated logic in commands that take no argument

  const LogicCommands: seq<string> := ["else", "endforeach", "endfunction", "endif", "endmacro", "endwhile"]

  /** The first command of the list, in list order, that is a whole word of `text`. */
  function FirstLogicCommand(text: string, i: nat): (r: Option<nat>)
    requires i <= |LogicCommands|
    ensures r.None? <==> forall k :: i <= k < |LogicCommands| ==> !ContainsWholeWord(text, LogicCommands[k])
    ensures r.Some? ==> i <= r.value < |LogicCommands| && ContainsWholeWord(text, LogicCommands[r.value]) &&
                        forall k :: i <= k < r.value ==> !ContainsWholeWord(text, LogicCommands[k])
    decreases |LogicCommands| - i
  {
    if i == |LogicCommands| then None
    else if ContainsWholeWord(text, LogicCommands[i]) then Some(i)
    else FirstLogicCommand(text, i + 1)
  }

  /** What `CheckRepeatLogic` reports for clean line `ln`: only the first
      logic command found decides, and the message names both that command
      and the word the logic pattern captured. */
  function RepeatLogicReports(line: string, ln: nat): (r: seq<Report>)
    ensures r != [] <==> FirstLogicCommand(Lower(line), 0).Some? && LogicCheck(line).Some?
    ensures r != [] ==>
              r == [Report(ln, ReadabilityLogic,
                           RepeatLogicMessage(LogicCommands[FirstLogicCommand(Lower(line), 0).value],
                                              LogicCheck(line).value))]
  {
    match FirstLogicCommand(Lower(line), 0)
    case None => []
    case Some(i) =>
      match LogicCheck(line)
      case None => []
      case Some(word) => [Report(ln, ReadabilityLogic, RepeatLogicMessage(LogicCommands[i], word))]
  }

  /** `CheckRepeatLogic`: tries the logic commands in order and stops at the
      first one found in the lower-cased line. */
  method CheckRepeatLogic(clean: CleansedLines, ln: nat) returns (r: seq<Report>)
    requires ln < |clean.lines|
    ensures r == RepeatLogicReports(clean.lines[ln], ln)
  {
    r := [];
    var line := clean.lines[ln];
    var lowered := Lower(line);
    var i := 0;
    while i < |LogicCommands|
      invariant 0 <= i <= |LogicCommands|
      invariant FirstLogicCommand(lowered, 0) == FirstLogicCommand(lowered, i)
    {
      var command := LogicCommands[i];
      if ContainsWholeWord(lowered, command) {
        var m := LogicCheck(line);
        if m.Some? {
          r := [Report(ln, ReadabilityLogic, RepeatLogicMessage(command, m.value))];
        }
        break;
      }
      i := i + 1;
    }
  }

  // ---------------------------------------------------------------------
  // Indentation, tabs and trailing whitespace

  /** The number of space characters (and only spaces) the line starts with. */
  function LeadingSpaces(line: string): (n: nat)
    ensures n <= |line|
    ensures forall k :: 0 <= k < n ==> line[k] == ' '
    ensures n == |line| || line[n] != ' '
  {
    if |line| > 0 && line[0] == ' ' then
      var rest := LeadingSpaces(line[1..]);
      assert forall k :: 1 <= k < 1 + rest ==> line[k] == line[1..][k - 1];
      1 + rest
    else 0
  }

  /** What `CheckIndent` reports for raw line `ln` and indentation unit
      `spaces`; `None` is the division by a zero unit, which raises. */
  function IndentReports(line: string, ln: nat, spaces: int): (r: Option<seq<Report>>)
    ensures r.None? <==> spaces == 0
    ensures r.Some? ==> (r.value != [] <==> LeadingSpaces(line) % spaces != 0)
    ensures r.Some? ==> r.value == [] || r.value == [Report(ln, WhitespaceIndent, IndentMessage(IntText(spaces)))]
  {
    if spaces == 0 then None
    else if LeadingSpaces(line) % spaces != 0 then Some([Report(ln, WhitespaceIndent, IndentMessage(IntText(spaces)))])
    else Some([])
  }

  /** `CheckIndent`: counts the leading spaces in a loop. */
  method CheckIndent(clean: CleansedLines, ln: nat, spaces: int) returns (r: Option<seq<Report>>)
    requires ln < |clean.rawLines|
    ensures r == IndentReports(clean.rawLines[ln], ln, spaces)
  {
    var initialSpaces := 0;
    var line := clean.rawLines[ln];
    while initialSpaces < |line| && line[initialSpaces] == ' '
      invariant 0 <= initialSpaces <= |line|
      invariant forall k :: 0 <= k < initialSpaces ==> line[k] == ' '
    {
      initialSpaces := initialSpaces + 1;
    }
    assert initialSpaces == LeadingSpaces(line);
    if spaces == 0 {
      return None;
    }
    r := Some([]);
    if initialSpaces % spaces != 0 {
      r := Some([Report(ln, WhitespaceIndent, IndentMessage(IntText(spaces)))]);
    }
  }

  /** The raw line holds a tab. */
  function TabReports(line: string, ln: nat): (r: seq<Report>)
    ensures r != [] <==> '\t' in line
    ensures r == [] || r == [Report(ln, WhitespaceTabs, TabsMessage)]
  {
    if '\t' in line then [Report(ln, WhitespaceTabs, TabsMessage)] else []
  }

  /** The raw line is not empty and ends in whitespace. */
  function EolReports(line: string, ln: nat): (r: seq<Report>)
    ensures r != [] <==> |line| > 0 && IsSpace(line[|line| - 1])
    ensures r == [] || r == [Report(ln, WhitespaceEol, EolMessage)]
  {
    if |line| > 0 && IsSpace(line[|line| - 1]) then [Report(ln, WhitespaceEol, EolMessage)] else []
  }

  /** What `CheckStyle` reports, in its order: indentation, command spaces,
      tabs, trailing whitespace, repeated logic; `None` when the indentation
      check raises, before anything else is reported. */
  function StyleReports(clean: CleansedLines, ln: nat, spaces: int): (r: Option<seq<Report>>)
    requires ln < |clean.rawLines| == |clean.lines|
    ensures r.None? <==> spaces == 0
    ensures r.Some? ==> OnLine(r.value, ln)
  {
    match IndentReports(clean.rawLines[ln], ln, spaces)
    case None => None
    case Some(indent) =>
      var commandSpaces := CommandSpacesReports(clean.lines, ln);
      var tabs := TabReports(clean.rawLines[ln], ln);
      var eol := EolReports(clean.rawLines[ln], ln);
      var logic := RepeatLogicReports(clean.lines[ln], ln);
      OnLineConcat(indent, commandSpaces, ln);
      OnLineConcat(indent + commandSpaces, tabs, ln);
      OnLineConcat(indent + commandSpaces + tabs, eol, ln);
      OnLineConcat(indent + commandSpaces + tabs + eol, logic, ln);
      Some(indent + commandSpaces + tabs + eol + logic)
  }

  method CheckStyle(clean: CleansedLines, ln: nat, spaces: int) returns (r: Option<seq<Report>>)
    requires ln < |clean.rawLines| == |clean.lines|
    ensures r == StyleReports(clean, ln, spaces)
  {
    var indent := CheckIndent(clean, ln, spaces);
    if indent.None? {
      return None;
    }
    var commandSpaces := CheckCommandSpaces(clean, ln);
    var reports := indent.value + commandSpaces;
    var line := clean.rawLines[ln];
    if '\t' in line {
      reports := reports + [Report(ln, WhitespaceTabs, TabsMessage)];
    }
    assert reports == indent.value + commandSpaces + TabReports(line, ln);
    if |line| > 0 && IsSpace(line[|line| - 1]) {
      reports := reports + [Report(ln, WhitespaceEol, EolMessage)];
    }
    assert reports == indent.value + commandSpaces + TabReports(line, ln) + EolReports(line, ln);
    var logic := CheckRepeatLogic(clean, ln);
    assert StyleReports(clean, ln, spaces) == Some(reports + logic);
    r := Some(reports + logic);
  }
}
