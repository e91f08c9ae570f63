/** What a check reports, the closed list of categories a filter may name,
    and the fixed messages of the rules. */
module Diagnostics {

  /** A report handed to the `errors` sink: line number (0 for file-level
      reports), category and message. The file name is added by the sink. */
  datatype Report = Report(line: nat, category: string, message: string)

  /** A report that passed the filters and was printed as
      `file:line: message [category]`. */
  datatype Violation = Violation(file: string, line: nat, category: string, message: string)

  /** The categories a filter entry may be a prefix of (cmakelint/main.py:57-71).
      `package/stdargs` is reported by the package check but is not in this list. */
  const AllowedCategories: seq<string> := [
    "convention/filename",
    "linelength",
    "package/consistency",
    "readability/logic",
    "readability/mixedcase",
    "readability/wonkycase",
    "syntax",
    "whitespace/eol",
    "whitespace/extra",
    "whitespace/indent",
    "whitespace/mismatch",
    "whitespace/newline",
    "whitespace/tabs"
  ]

  const ConventionFilename := "convention/filename"
  const LineLength := "linelength"
  const PackageConsistency := "package/consistency"
  const PackageStdargs := "package/stdargs"
  const ReadabilityLogic := "readability/logic"
  const ReadabilityMixedcase := "readability/mixedcase"
  const ReadabilityWonkycase := "readability/wonkycase"
  const Syntax := "syntax"
  const WhitespaceEol := "whitespace/eol"
  const WhitespaceExtra := "whitespace/extra"
  const WhitespaceIndent := "whitespace/indent"
  const WhitespaceMismatch := "whitespace/mismatch"
  const WhitespaceNewline := "whitespace/newline"
  const WhitespaceTabs := "whitespace/tabs"

  const LineLengthMessage := "Lines should be <= 80 characters long"
  const WonkycaseMessage := "Do not use mixed case commands"
  const MixedcaseMessage := "Do not mix upper and lower case commands"
  const SyntaxMessage := "Unable to find the end of this command"
  const MismatchMessage := "Mismatching spaces inside () after command"
  const TabsMessage := "Tab found; please use spaces"
  const EolMessage := "Line ends in whitespace"
  const NewlineMessage := "Unexpected carriage return found; better to use only \\n"
  const IncludeMissingMessage := "Package should include FindPackageHandleStandardArgs"
  const StdargsMissingMessage := "Package should use FIND_PACKAGE_HANDLE_STANDARD_ARGS"
  const CMakeListsMessage := "File should be called CMakeLists.txt"

  function ExtraSpacesMessage(command: string): string {
    "Extra spaces between '" + command + "' and its ()"
  }

  function RepeatLogicMessage(command: string, written: string): string {
    "Expression repeated inside " + command + "; better to use only " + written + "()"
  }

  function IndentMessage(spacesText: string): string {
    "Weird indentation; use " + spacesText + " spaces"
  }

  function StdargsMessage(expected: string, actual: string): string {
    "Weird variable passed to std args, should be " + expected + " not " + actual
  }

  function FindNameMessage(upperPackage: string): string {
    "Find modules should use uppercase names; consider using Find" + upperPackage + ".cmake"
  }

  /** Every report of `reports` names line `ln`. */
  predicate OnLine(reports: seq<Report>, ln: nat) {
    forall k :: 0 <= k < |reports| ==> reports[k].line == ln
  }

  lemma OnLineConcat(a: seq<Report>, b: seq<Report>, ln: nat)
    requires OnLine(a, ln) && OnLine(b, ln)
    ensures OnLine(a + b, ln)
  {
  }
}
