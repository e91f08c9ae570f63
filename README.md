# cmakelint rule engine in Dafny

This project models the rule engine of cmakelint (`cmakelint/main.py`), a
line-oriented style checker for CMake scripts, and proves properties of it.

The model covers:

- **The line store.** `CleanComments` removes comments with the pattern
  `\s*#.*`. `CleansedLines` keeps the raw lines and their clean view side by side,
  together with the per-file case style. The loading loop of `_ProcessFile` adds
  the two sentinel lines, strips `\n` and then `\r` from each line, notes whether a
  carriage return was seen, and runs the pragma check on each line.
- **The filter policy of `_CMakeLintState`.** `SetFilters` appends entries and
  then validates the whole list against the closed category list.
  `ShouldPrintError` is the last-match-wins fold. `Error` is the counting sink, and
  `SetSpaces` sets the indentation unit.
- **Inline pragmas.** `# lint_cmake: ` pragmas run once while the file is loaded
  and once more in `ProcessLine`. `ProcessFile` saves the filter list and restores
  it afterwards.
- **Every per-line rule.** Line length, command case and its sticky per-file
  style, spaces around a command's parentheses with the forward scan for `)`,
  repeated logic, indentation, tabs and trailing whitespace.
- **The file-level rules.** The file-name convention and the carriage-return
  check.
- **The package state of a Find module (`_CMakePackageState`).** Its feeder
  `CheckFindPackage`, and `GetCommandArgument`.
- **`ParseOptionFile`.**

Modules follow the structure of the program:

| module | contents |
|---|---|
| `Text` | ASCII character classes, plus the string built-ins the code uses (`upper`, `lower`, `strip`, `rstrip`, `split`, `replace`, `basename`, `%d`) |
| `Diagnostics` | reports, categories and messages |
| `Filters` | the filter fold and the validation of entries |
| `Lines` | comment stripping, `CleansedLines` and line ends |
| `Commands` | hand-written scanners for the regular expressions |
| `Rules` | the per-line checks |
| `Package` | file names and the package state |
| `Lint` | the `LintState` class |
| `Driver` | `ProcessLine`, `_ProcessFile`, `ProcessFile` and `ParseOptionFile` |

How the code is represented:

- **Global state.** The globals `_lint_state` and `_package_state` become
  objects passed explicitly:
  - `Lint.LintState` has fields `filters`, `errors`, `spaces` and `output`;
  - `Package.PackageState` holds the two flags;
  - `Lines.CleansedLines` holds `haveSeenUppercase`, updated in place.
- **Reports.** Each check is a function returning the list of
  `(line, category, message)` reports it hands to the `errors` callback, in
  order. A method with the source's loop is proved equal to that function. The
  sink, `LintState.Emit`, passes each report to `LintState.Error`. A printed
  violation is kept in `output` in place of being printed.
- **Exceptions.** Exceptions become values:
  - `SetFilters`' `ValueError` is `Option<FilterError>`;
  - `GetCommandArgument` running past the last line (an `IndexError`) is `None`;
  - `CheckIndent` with a unit of 0 (a `ZeroDivisionError`) is `None`.
  
  When one of these stops a file, `ProcessFile` reports `Aborted(reason)` and
  still restores the filter list, as the `finally` does.
- **Character classes.** The classes `\s` and `\w`, `isspace`, `isupper`,
  `upper` and `lower` are modelled on ASCII. Whitespace is tab, line feed,
  vertical tab, form feed, carriage return, the separators 0x1C to 0x1F, and
  space.

Behaviour kept as the code has it:

- **A rejected batch is not rolled back.** `SetFilters` appends first and
  validates afterwards, so the entries stay in place when it raises.
- **`-` and `+` alone pass validation.** This is not a special case: their empty
  remainder is a prefix of every category.
- **`package/stdargs` is not an allowed category.** It is missing from
  `_ERROR_CATEGORIES`, so a filter naming it is rejected, even though the
  package check reports it.
- **Comment stripping removes the whitespace before `#`.** The pattern `\s*#.*`
  takes that whitespace too, so `project() # x` becomes `project()`. Removal
  starts at the first `#`, with no string awareness.
- **Pragmas run twice.** At load time the line number passed to the pragma check
  is the length of the line list after the append. That is the file's 1-based
  line number plus one. The second run in `ProcessLine` passes the list index,
  which is the 1-based line number.
- **`CheckFileName` uses the whole path for `CMakeLists.txt`.** It compares the whole
  path, not the base name, with `cmakelists.txt`.

## Model

| member | source | states |
|---|---|---|
| Text.Upper | cmakelint/main.py:224-225 | `str.upper()` keeps the length and maps each character through the ASCII case map |
| Text.Lower | cmakelint/main.py:224 | `str.lower()` keeps the length and maps each character through the ASCII case map |
| Text.UpperFixed | cmakelint/main.py:225-230 | a text equals its upper-case form exactly when it has no lower-case letter |
| Text.LowerFixed | cmakelint/main.py:224-226 | a text equals its lower-case form exactly when it has no upper-case letter |
| Text.SpaceRun | cmakelint/main.py:26-27 | the greedy `\s*` run: all whitespace, stops at a non-space or the end |
| Text.WordRun | cmakelint/main.py:26 | the greedy `\w+` run: all word characters, stops at a non-word character or the end |
| Text.SpaceRunExact | cmakelint/main.py:26 | a whitespace stretch that ends at a non-space is exactly the greedy run |
| Text.WordRunExact | cmakelint/main.py:26 | a word stretch that ends at a non-word character is exactly the greedy run |
| Text.SpacesBefore | cmakelint/main.py:28 | the whitespace run ending just before a position, taken whole |
| Text.Basename | cmakelint/main.py:340 | `os.path.basename` on a POSIX host (`posixpath`): a suffix of the path with no `/`, cut right after the last `/`; the whole path when it has no `/` |
| Text.Strip | cmakelint/main.py:446 | `strip()`: an infix of the text with only whitespace before and after it, and no whitespace at either end of its own; text with none at its ends is unchanged |
| Text.StripTrailingMeans | cmakelint/main.py:411-414 | `rstrip(c)` keeps a prefix of the line, removes only copies of `c`, and leaves no `c` at the end |
| Text.Split | cmakelint/main.py:102 | `split(',')` gives at least one piece and no piece holds the separator |
| Text.SplitJoin | cmakelint/main.py:102 | joining the pieces of `split` with the separator gives back the text |
| Text.RemoveAllAbsent | cmakelint/main.py:450-452 | `replace(key, '')` leaves text without the key unchanged |
| Text.RemoveAll | cmakelint/main.py:450 | `replace(key, '')` never lengthens the text |
| Text.RemoveAllLeading | cmakelint/main.py:450-452 | a text that is the key followed by text without the key becomes that rest |
| Text.NatTextRoundTrip | cmakelint/main.py:117 | the `%d` numeral of a count reads back, as `int` reads it, to the same count |
| Text.StartsWithExclusive | cmakelint/main.py:447-451 | a line starting with `#` starts with neither option key; a proof step for `ScanOptions`, not a property of its own |
| Commands.MatchCommandSound | cmakelint/main.py:26 | what the `_RE_COMMAND` scanner finds has the shape `^\s*(\w+)(\s*)\(`, with the name as group 1 and the gap as group 2 |
| Commands.MatchCommandComplete | cmakelint/main.py:26 | every line of that shape is matched, at exactly that shape, so no command is missed |
| Commands.MatchCommand | cmakelint/main.py:26 | a match has a non-empty name, and the name and group 2 end at the `(` that was found |
| Commands.ContainsCommandMeans | cmakelint/main.py:214-215 | `ContainsCommand` holds exactly when the line has the shape `^\s*(\w+)(\s*)\(` |
| Commands.GetCommand | cmakelint/main.py:214-221 | the empty string exactly when `ContainsCommand` fails; otherwise the matched name, made of word characters |
| Commands.UpperCaseMeans | cmakelint/main.py:228-230 | a command is upper case exactly when it has no lower-case letter |
| Commands.MixedCaseMeans | cmakelint/main.py:223-226 | a command is mixed case exactly when it has both an upper-case and a lower-case letter |
| Commands.SpacesBeforeClose | cmakelint/main.py:28 | `_RE_COMMAND_END_SPACES.search`: no match exactly when the line has no `)`; otherwise the whole whitespace run directly before the first `)` |
| Commands.BodyMatchesIffShape | cmakelint/main.py:29 | the scanner for the tail `\s*\S+[^)]+` accepts a text exactly when the pattern can match all of it |
| Commands.TailMatchesFromMeans | cmakelint/main.py:29 | the search for the closing `)` succeeds exactly when some `)` closes a body the tail scanner accepts |
| Commands.LogicSearch | cmakelint/main.py:29 | `_RE_LOGIC_CHECK.search`: the leftmost position where the pattern matches; none when no position matches |
| Commands.LogicMatchesIffShape | cmakelint/main.py:29 | the scanner accepts at a position exactly when `(\w+)\s*\(\s*\S+[^)]+\)` can match there, and every such match has the whole word run as group 1 |
| Commands.LogicCheck | cmakelint/main.py:291-295 | no match exactly when the scanner matches nowhere; group 1 is a non-empty word |
| Commands.LogicCheckNone | cmakelint/main.py:291-295 | no group exactly when the pattern matches at no position |
| Commands.LogicCheckLeftmost | cmakelint/main.py:291-295 | otherwise group 1 of a match of the pattern, with no match starting further left |
| Commands.Words | cmakelint/main.py:30 | `_RE_COMMAND_ARG.finditer`: every element is a non-empty run of word characters |
| Commands.WordsSkip | cmakelint/main.py:347 | characters before the first word character give no word |
| Commands.WordsFirst | cmakelint/main.py:347 | the first word is the maximal word run at the first word character, and the rest are the words after that run |
| Commands.WordsNone | cmakelint/main.py:347 | no words exactly when the line has no word character |
| Rules.CheckLineLength | cmakelint/main.py:202-212 | a `linelength` report exactly when the raw line is longer than 80 characters |
| Rules.CaseStep | cmakelint/main.py:232-254 | no command: nothing. Mixed case: `readability/wonkycase` with the style untouched. First single-case command: fixes the style. Later: `readability/mixedcase` exactly when its style differs, the style never changing once fixed |
| Rules.CheckUpperLowerCase | cmakelint/main.py:232-254 | the reports and the new `haveSeenUppercase` field are those of `CaseStep` on the old field |
| Rules.CaseFoldNone | cmakelint/main.py:245-246 | a file with no single-case command leaves the style unknown |
| Rules.CaseFoldFirst | cmakelint/main.py:245-249 | over a whole file the style is that of the first single-case command |
| Rules.CaseFoldKeeps | cmakelint/main.py:247-249 | once the style is fixed no line changes it |
| Rules.CaseFoldStep | cmakelint/main.py:245-249 | one more line applies its case check to the style the lines before it left, whatever its line number |
| Rules.FirstCloseLine | cmakelint/main.py:269-274 | the first line at or after the command's line that holds `)`; none exactly when no such line exists |
| Rules.CommandSpacesReports | cmakelint/main.py:256-282 | nothing without a command, at most two reports, all at the command's line |
| Rules.CloseReportsOf | cmakelint/main.py:275-282 | `syntax` exactly when the scan found no `)`; otherwise `whitespace/mismatch` exactly when spaces after `(` and before that `)` differ |
| Rules.ScanForClose | cmakelint/main.py:269-274 | the `while True` loop stops just after the first line holding `)`, or at the end of the file when there is none, with the match of that line |
| Rules.CheckCommandSpaces | cmakelint/main.py:256-282 | `whitespace/extra` exactly when the gap before `(` is non-empty, then the reports of `CloseReports` |
| Rules.FirstLogicCommand | cmakelint/main.py:289-290 | the first logic command, in list order, that is a whole word of the text; none exactly when none is |
| Rules.RepeatLogicReports | cmakelint/main.py:284-296 | a `readability/logic` report exactly when some logic command is a whole word of the lowered line and the logic pattern matches; the message names the first such command and the captured word |
| Rules.CheckRepeatLogic | cmakelint/main.py:284-296 | the loop with its `break` gives the reports of `RepeatLogicReports` |
| Rules.LeadingSpaces | cmakelint/main.py:299-302 | the number of space characters the line starts with, stopping at the first other character |
| Rules.IndentReports | cmakelint/main.py:303-306 | raises exactly when the unit is 0; otherwise `whitespace/indent` exactly when the leading-space count is not a multiple of the unit |
| Rules.CheckIndent | cmakelint/main.py:298-306 | the counting loop gives the result of `IndentReports` |
| Rules.TabReports | cmakelint/main.py:318-319 | `whitespace/tabs` exactly when the raw line holds a tab |
| Rules.EolReports | cmakelint/main.py:321-322 | `whitespace/eol` exactly when the raw line is non-empty and ends in whitespace |
| Rules.StyleReports | cmakelint/main.py:308-324 | raises exactly when the unit is 0, before any report; otherwise every report is at the checked line |
| Rules.CheckStyle | cmakelint/main.py:308-324 | indentation, command spaces, tabs, trailing whitespace and repeated logic, in that order, as `StyleReports` |
| Package.FindModuleMatchFromLast | cmakelint/main.py:327 | the downward scan stops at the last place where group 1 of `Find(.*)\.cmake` can end |
| Package.FindModuleMatchLast | cmakelint/main.py:327 | `re.match('Find(.*)\.cmake', name)` succeeds exactly when group 1 can end somewhere, and the greedy group ends at the last such place |
| Package.FindModuleMatchOf | cmakelint/main.py:327-329 | in `Find<X>.cmake`, with `X` on one line, group 1 is exactly `X` |
| Package.IsFindPackage | cmakelint/main.py:339-340 | a Find module is always a file that gets linted |
| Package.ValidFileIn | cmakelint/main.py:380-381 | the base name of `dir/name` is `name`, so a `CMakeLists.txt` in any case is linted wherever it lies, and otherwise only the `.cmake` ending counts |
| Package.GetExpected | cmakelint/main.py:128-131 | the expected name has no lower-case letter; a base name that does not match is upper-cased whole |
| Package.CheckFileName | cmakelint/main.py:326-337 | a base name matching `Find(.*)\.cmake` is reported exactly when group 1 is not upper case, suggesting its upper-cased form; any other name exactly when the whole path lower-cased is `cmakelists.txt` but is not spelt `CMakeLists.txt`; at most one report, at line 0, in `convention/filename` |
| Package.FindModuleName | cmakelint/main.py:128-131 | for `Find<X>.cmake` the expected name is `X` upper-cased, and the file is reported exactly when `X` is not upper case |
| Package.MisspeltCMakeLists | cmakelint/main.py:334-337 | a `CMakeLists.txt` spelt in another case is reported, and is a file that gets linted |
| Package.StdargsReports | cmakelint/main.py:155-164 | a `package/stdargs` report exactly when the argument differs from `GetExpected` |
| Package.DoneReports | cmakelint/main.py:133-153 | nothing for a non-Find file or when both flags are set; otherwise one `package/consistency` report at line 0 per unset flag, the include message first and the call message last |
| Package.DoneReportsMissing | cmakelint/main.py:139-150 | each missing-message is reported exactly when the file is a Find module and its flag is unset |
| Package.PackageState.constructor | cmakelint/main.py:120-123 | both flags start unset |
| Package.PackageState.HaveIncluded | cmakelint/main.py:166-168 | only `FindPackageHandleStandardArgs` sets the include flag; nothing clears it |
| Package.PackageState.HaveUsedStandardArgs | cmakelint/main.py:155-164 | sets the call flag and returns the reports of `StdargsReports` |
| Package.PackageState.Done | cmakelint/main.py:133-153 | returns `DoneReports` of the old flags and clears both flags on every path |
| Package.FirstOther | cmakelint/main.py:348-351 | none exactly when every word equals the command; otherwise a word that differs from it |
| Package.FirstOtherWord | cmakelint/main.py:348-351 | the `for ... continue` loop over one line's words gives `FirstOther` |
| Package.FirstArgument | cmakelint/main.py:342-353 | a non-empty word other than the command; none exactly when no line from the command's on has one |
| Package.FirstArgumentLine | cmakelint/main.py:342-353 | the argument is the first other word of the first line, from the command's on, that has one |
| Package.GetCommandArgument | cmakelint/main.py:342-353 | the `while True` loop gives `FirstArgument` from the command's line, with the command's name as the word to skip |
| Package.FindPackageStep | cmakelint/main.py:355-363 | `include` sets the include flag exactly when its argument is the standard-arguments module, and `find_package_handle_standard_args` sets the call flag. It raises exactly when one of these two has no argument. The call's reports are `StdargsReports` of its argument, at this line; every other command reports nothing |
| Package.CheckFindPackage | cmakelint/main.py:355-363 | updates the package state in place as `FindPackageStep` says, and leaves it alone when it raises |
| Lines.CleanComments | cmakelint/main.py:176-177 | no `#` is left, never longer, unchanged without `#`, and a prefix of a line without a line feed |
| Lines.CleanCommentsIdempotent | cmakelint/main.py:176-177 | stripping comments twice is the same as once |
| Lines.CleanCommentsRemovesTail | cmakelint/main.py:25 | on one line, what goes is the first `#`, all the whitespace directly before it, and the rest |
| Lines.CleanAll | cmakelint/main.py:183 | one clean line per raw line |
| Lines.CleansedLines.constructor | cmakelint/main.py:179-183 | raw lines as given, clean lines their comment-stripped view, the style unknown |
| Lines.StripLineEndMeans | cmakelint/main.py:411-414 | a prefix of the line is kept, only `\n` and `\r` go, and the flag says whether a `\r` was found after stripping `\n` |
| Filters.DecisionIsLastMatch | cmakelint/main.py:188-195 | with no matching entry a category is printed; otherwise the sign of the last matching entry decides |
| Filters.DecisionAppend | cmakelint/main.py:188-195 | an entry added at the end decides every category it matches and leaves the others alone |
| Filters.BlanketExclude | cmakelint/main.py:191-192 | the entry `-` switches every category off |
| Filters.FirstInvalidFromMeans | cmakelint/main.py:105-114 | no error exactly when every entry is valid; otherwise the error for the first rejected entry, by its sign |
| Filters.FirstInvalidAppend | cmakelint/main.py:105-114 | a valid list stays valid when entries it already holds are appended again |
| Filters.StripNonEmpty | cmakelint/main.py:102 | the comprehension never keeps more entries than there are pieces |
| Filters.StripNonEmptyMeans | cmakelint/main.py:102 | an entry is kept exactly when it is the stripped form of a non-empty piece |
| Filters.StripNonEmptyAll | cmakelint/main.py:102 | with no empty piece every piece is kept, stripped, in order |
| Filters.NewEntries | cmakelint/main.py:96-102 | None, an empty list and an empty string add nothing |
| Lint.Printed | cmakelint/main.py:197-200 | never more printed violations than reports, all for the file being linted |
| Lint.PrintedAppend | cmakelint/main.py:197-200 | printing two batches of reports prints the first batch, then the second |
| Lint.PrintedMeans | cmakelint/main.py:188-200 | a violation is printed exactly when some report passes the filters and carries its line, category and message |
| Lint.AfterPragma | cmakelint/main.py:391-396 | a pragma keeps the old list as a prefix and adds all its entries |
| Lint.LintState.constructor | cmakelint/main.py:88-93 | no filters, no errors, an indentation unit of 2 |
| Lint.LintState.SetFilters | cmakelint/main.py:95-114 | appends the argument's entries. Raises exactly when the argument is not empty and some entry of the whole list is rejected, with the error of the first one; the entries stay appended |
| Lint.LintState.IsAllowed | cmakelint/main.py:107-110 | the inner loop: some allowed category starts with the prefix |
| Lint.LintState.SetSpaces | cmakelint/main.py:116-117 | a plain numeral, once stripped, sets the unit to its value; anything else raises and leaves the unit |
| Lint.LintState.ShouldPrintError | cmakelint/main.py:188-195 | the loop over the whole list gives the last-match decision |
| Lint.LintState.Error | cmakelint/main.py:197-200 | a category that passes the filters is counted and printed once; any other changes nothing |
| Lint.LintState.Emit | cmakelint/main.py:197-200 | the sink for a list of reports: prints and counts exactly those that pass |
| Lint.LintState.CheckLintPragma | cmakelint/main.py:391-400 | a pragma line hands the rest of the line to `SetFilters`; a rejected pragma is raised with the given position |
| Driver.LineChecks | cmakelint/main.py:374-378 | raises for a zero unit at this line, or for a missing argument in a Find module only; the package flags change only in a Find module; all reports at this line |
| Driver.RunLineChecks | cmakelint/main.py:374-378 | the checks, in order, give `LineChecks` and leave the case style and flags it names |
| Driver.ProcessLine | cmakelint/main.py:365-378 | the pragma first: a rejection prints nothing. Else the reports of `LineChecks` pass the filters the pragma left, and are printed and counted |
| Driver.StrippedLines | cmakelint/main.py:410-415 | one stripped line per line read |
| Driver.StrippedLinesAt | cmakelint/main.py:410-415 | the stripped line at each position is that line with its end removed |
| Driver.HasCarriageReturnMeans | cmakelint/main.py:412-413 | `have_cr` is set exactly when some line had a carriage return before its line feeds |
| Driver.LoadFrom | cmakelint/main.py:410-416 | a rejection is at a line whose pragma raises under the list it is given |
| Driver.PragmaFold | cmakelint/main.py:391-396 | the pragmas of a stretch of lines keep the list they start from as a prefix |
| Driver.LoadFromMeans | cmakelint/main.py:410-416 | the loading stops at the first pragma that raises under the list the earlier pragmas left, and returns that list; it completes exactly when none raises, with the list all of them leave |
| Driver.LoadLine | cmakelint/main.py:411-416 | strips the line's end and runs the pragma check on the stripped line |
| Driver.LoadLines | cmakelint/main.py:403-417 | the filters are those the pragmas left; a rejected pragma at file line `k + 1` is reported at `k + 2`; otherwise the sentinel-wrapped stripped lines and the carriage-return flag |
| Driver.AfterPragmaKeeps | cmakelint/main.py:391-396 | a pragma check never drops an entry, and one that does not validate adds none |
| Driver.LoadedFiltersValid | cmakelint/main.py:410-416 | after a loading that did not raise, the list is valid once any pragma validated, and holds every pragma's entries |
| Driver.WithSentinels | cmakelint/main.py:403-417 | the sentinel lines are not pragmas |
| Driver.LoadedLinesReady | cmakelint/main.py:403-417 | the loaded lines and the list are ready for the second run of the pragmas |
| Driver.ReplayStep | cmakelint/main.py:391-396 | the second run of a pragma cannot raise, and keeps the list valid and holding the later pragmas' entries |
| Driver.ProcessLines | cmakelint/main.py:424-425 | no pragma raises in the line loop; only this file's violations are printed, each counted once; the case style left is the fold of the case check over the lines run, up to and including a line that raised |
| Driver.FileChecks | cmakelint/main.py:419-422 | the file-name reports, then `whitespace/newline` when a carriage return was seen on a host whose separator is not CR LF |
| Driver.FinishFile | cmakelint/main.py:426 | prints the package state's verdict under the current filters |
| Driver.LoadFile | cmakelint/main.py:403-417 | a rejected pragma is reported for this file at line 2 or later; otherwise the lines are ready for the line loop |
| Driver.ProcessFileBody | cmakelint/main.py:402-426 | skips exactly the files that are not linted, changing nothing; a pragma rejection prints nothing; only this file's violations are printed, each counted once |
| Driver.ProcessFile | cmakelint/main.py:383-389 | the filter list and the unit are as on entry, whether the file finished or raised |
| Driver.StripAll | cmakelint/main.py:446 | every line of the option file stripped |
| Driver.OptionValueOf | cmakelint/main.py:449-452 | a line that is the key followed by text without the key sets the option to that text; a line not starting with the key sets nothing |
| Driver.LastOptionNone | cmakelint/main.py:449-452 | a key keeps its default exactly when no line sets it |
| Driver.LastOptionWins | cmakelint/main.py:449-452 | the last line that sets a key gives its value |
| Driver.ScanOptions | cmakelint/main.py:445-452 | the loop skips blank and `#` lines, and gives the last `filter=` and the last `spaces=` value |
| Driver.ApplyOptions | cmakelint/main.py:453-455 | the filters first and a rejection stops there; then a non-empty unit that is not ignored is set or raises |
| Driver.ParseOptionFile | cmakelint/main.py:442-455 | the last `filter=` value is applied, then the last `spaces=` value unless ignored, with the error cases of `ApplyOptions` |

## Left out

- `ParseArgs`, `PrintUsage`, `PrintVersion`, `PrintCategories` and `main` are left out (cmakelint/main.py:428-507). They are command-line parsing, `sys.exit` and stderr output. An exception that escapes `ProcessFile` ends the run in `main`. The model's `ProcessFile` only reports it as `Aborted`.
- `DefaultRC` and `_DEFAULT_CMAKELINTRC` are left out: environment variables and file-system checks.
- Opening and reading files is left out. `_ProcessFile` and `ParseOptionFile` take the lines read as a sequence.
- `os.linesep` is the parameter `hostLinesepIsCRLF` of `ProcessFile`.
- Text.Basename: `os.path.basename` is taken as on a POSIX host (`posixpath`): only `/` separates. On Windows, `ntpath` also splits at `\` and after a drive letter (`C:\src\FindFoo.cmake` has the base name `FindFoo.cmake`). That is left out. So `IsFindPackage`, `IsValidFile`, `CheckFileName` and `FindModuleName` state what the linter does on a POSIX host only.
- The `print` calls are left out:
  - the `print` in `Error` is replaced by appending a `Violation` to `output`;
  - the "Ignoring file" message is `Skipped`;
  - the "Exception occurred" message is the position carried by `PragmaError`.
- Python's universal-newline reading is left out. The lines are taken as read, each ending in its own line feed.
- Only ASCII is modelled. Unicode case mapping and Unicode whitespace in `\s`, `isspace`, `isupper`, `upper` and `lower` are left out.
- Only plain digits are read. `SetSpaces` accepts a run of decimal digits after stripping. `int()`'s signs, underscores and non-ASCII digits are left out, and such a value is treated like any other `ValueError`.
- `SetFilters`' third branch, "Filters should be a list or a comma separated string", is left out. An argument of another type cannot be built, because `FilterArg` has only the three forms the callers pass.
- `_CMakePackageState.Check`, `Set` and `sets` are left out: dead code, never called to any effect.
- The Python 2 `xrange` shim and `setup.py` are left out.
- The general regular-expression engine is left out. Only the patterns the code uses are modelled, each by a scanner: the six compiled patterns at cmakelint/main.py:25-30, `Find(.*)\.cmake` and `\b%s\b`. `_RE_COMMAND`, the tail of `_RE_LOGIC_CHECK`, `_RE_LOGIC_CHECK` itself, `_RE_CLEAN_COMMENT`, `Find(.*)\.cmake` and `_RE_COMMAND_ARG` have a lemma tying the scanner to the pattern read as a shape. `_RE_COMMAND_START_SPACES` shares its head with `_RE_COMMAND` and is the greedy whitespace run after the `(` that `_RE_COMMAND` found. `_RE_COMMAND_END_SPACES` and `\b%s\b` are stated directly as shapes.
- Driver.ProcessFileBody: states that only this file's violations are added, each counted once, and which paths add none. It does not state the exact list of violations of the whole file, because that list is the composition of `LineChecks` over every line. Each step of that composition is stated exactly by `ProcessLine`, `FileChecks` and `FinishFile`.
- Driver.ProcessLines: states the same growth facts as `ProcessFileBody` for the line loop, and the case style the loop leaves, but not the exact list of violations. The exact list of one line is in `ProcessLine`.
- Driver.LoadFile: states only the file and a lower bound of the position of a rejected pragma. The exact position and filter list are stated by `LoadLines`, which it calls.
- Filters.StripNonEmpty: its own contract states only the length bound. What it keeps is stated by `StripNonEmptyMeans` and `StripNonEmptyAll`.
- Commands.LogicCheck: its own contract states when there is a match and that group 1 is a word. That group 1 is the whole word of the leftmost match is stated by `LogicCheckLeftmost`.
