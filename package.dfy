/** File names and Find modules: which files are linted, the naming rule,
    and the per-file package state (`_CMakePackageState`). */
module Package {
  import opened Text
  import opened Diagnostics
  import opened Commands
  import opened Lines

  // ---------------------------------------------------------------------
  // File names

  /** `re.match('Find(.*)\.cmake', name)` can succeed with group 1 ending at
      `j`: the name starts with `Find`, `.cmake` occurs at `j`, and no line
      feed lies in between (`.` does not match one). */
  predicate FindModuleAt(name: string, j: nat) {
    StartsWith(name, "Find") && 4 <= j && OccursAt(name, ".cmake", j) &&
    forall k :: 4 <= k < j ==> name[k] != '\n'
  }

  function FindModuleMatchFrom(name: string, j: nat): (r: Option<nat>)
    ensures r.Some? ==> 4 <= r.value && r.value + 6 <= |name|
  {
    if FindModuleAt(name, j) then Some(j)
    else if j == 0 then None
    else FindModuleMatchFrom(name, j - 1)
  }

  /** The scan down from `j` stops at the last place where group 1 can end. */
  lemma {:induction false} FindModuleMatchFromLast(name: string, j: nat)
    ensures var r := FindModuleMatchFrom(name, j);
            (r.Some? ==> r.value <= j && FindModuleAt(name, r.value) &&
                         forall i :: r.value < i <= j ==> !FindModuleAt(name, i)) &&
            (r.None? ==> forall i :: 0 <= i <= j ==> !FindModuleAt(name, i))
  {
    if !FindModuleAt(name, j) && j > 0 {
      FindModuleMatchFromLast(name, j - 1);
    }
  }

  /** The greedy `(.*)` takes the last possible end: where group 1 ends. */
  function FindModuleMatch(name: string): (r: Option<nat>)
    ensures r.Some? ==> 4 <= r.value && r.value + 6 <= |name|
  {
    FindModuleMatchFrom(name, |name|)
  }

  /** `FindModuleMatch` is the last end of group 1, if there is one. */
  lemma FindModuleMatchLast(name: string)
    ensures var r := FindModuleMatch(name);
            (r.Some? ==> FindModuleAt(name, r.value) && forall i :: r.value < i ==> !FindModuleAt(name, i)) &&
            (r.None? ==> forall i :: !FindModuleAt(name, i))
  {
    FindModuleMatchFromLast(name, |name|);
  }

  /** `IsFindPackage`: the base name starts with `Find` and the whole name
      ends with `.cmake`. */
  predicate IsFindPackage(filename: string)
    ensures IsFindPackage(filename) ==> IsValidFile(filename)
  {
    StartsWith(Basename(filename), "Find") && EndsWith(filename, ".cmake")
  }

  /** `IsValidFile`: a `.cmake` file or a `CMakeLists.txt` in any case. */
  predicate IsValidFile(filename: string) {
    EndsWith(filename, ".cmake") || Lower(Basename(filename)) == "cmakelists.txt"
  }

  /** The base name of `dir/name` is `name`, so whether such a file is linted
      depends on the directory only through the `.cmake` ending. */
  lemma ValidFileIn(dir: string, name: string)
    requires '/' !in name
    ensures Basename(dir + "/" + name) == name
    ensures IsValidFile(dir + "/" + name) <==>
              EndsWith(dir + "/" + name, ".cmake") || Lower(name) == "cmakelists.txt"
  {
    var path := dir + "/" + name;
    var r := Basename(path);
    assert path[|dir|] == '/';
    assert path[|path| - |name|..] == name;
  }

  /** `_GetExpected`: the name the standard-arguments call should be given,
      the upper-cased package name of a Find module. When the base name
      does not match, it is upper-cased whole. */
  function GetExpected(filename: string): (r: string)
    ensures forall i :: 0 <= i < |r| ==> !IsLowerChar(r[i])
    ensures FindModuleMatch(Basename(filename)).None? ==> r == Upper(Basename(filename))
  {
    var name := Basename(filename);
    match FindModuleMatch(name)
    case None => Upper(name)
    case Some(j) => Upper(name[4..j] + name[j + 6..])
  }

  /** `CheckFileName`: a Find module's package name must be upper case, and
      a `CMakeLists.txt` must be spelt exactly so. */
  function CheckFileName(filename: string): (r: seq<Report>)
    ensures |r| <= 1
    ensures forall k :: 0 <= k < |r| ==> r[k].line == 0 && r[k].category == ConventionFilename
    ensures var name := Basename(filename);
            match FindModuleMatch(name)
            case Some(j) =>
              (r != [] <==> !IsUpperText(name[4..j])) &&
              (r != [] ==> r[0].message == FindNameMessage(Upper(name[4..j])))
            case None =>
              (r != [] <==> Lower(filename) == "cmakelists.txt" && filename != "CMakeLists.txt") &&
              (r != [] ==> r[0].message == CMakeListsMessage)
  {
    var name := Basename(filename);
    match FindModuleMatch(name)
    case Some(j) =>
      var package := name[4..j];
      if !IsUpperText(package) then [Report(0, ConventionFilename, FindNameMessage(Upper(package)))] else []
    case None =>
      if Lower(filename) == "cmakelists.txt" && filename != "CMakeLists.txt" then
        [Report(0, ConventionFilename, CMakeListsMessage)]
      else []
  }

  /** For a base name `Find<X>.cmake` with `X` on one line, the package name
      is `X`: it must be upper case, and it is what the standard-arguments
      call expects, upper-cased. */
  lemma FindModuleName(filename: string, x: string)
    requires Basename(filename) == "Find" + x + ".cmake"
    requires forall k :: 0 <= k < |x| ==> x[k] != '\n'
    ensures GetExpected(filename) == Upper(x)
    ensures CheckFileName(filename) ==
              if IsUpperText(x) then [] else [Report(0, ConventionFilename, FindNameMessage(Upper(x)))]
  {
    var name := Basename(filename);
    FindModuleMatchOf(name, x);
    assert name[4..4 + |x|] + name[4 + |x| + 6..] == x;
  }

  /** Where group 1 ends in `Find<X>.cmake`. */
  lemma FindModuleMatchOf(name: string, x: string)
    requires name == "Find" + x + ".cmake"
    requires forall k :: 0 <= k < |x| ==> x[k] != '\n'
    ensures FindModuleMatch(name) == Some(4 + |x|)
    ensures name[4..4 + |x|] == x && name[4 + |x| + 6..] == ""
  {
    var j := 4 + |x|;
    FindModuleMatchLast(name);
    assert name[4..j] == x;
    assert name[j..j + 6] == ".cmake";
    assert forall k :: 4 <= k < j ==> name[k] == x[k - 4];
    assert FindModuleAt(name, j);
  }

  /** A file named like `CMakeLists.txt` in another case is reported. */
  lemma MisspeltCMakeLists(filename: string)
    requires Lower(filename) == "cmakelists.txt" && filename != "CMakeLists.txt"
    ensures CheckFileName(filename) == [Report(0, ConventionFilename, CMakeListsMessage)]
    ensures IsValidFile(filename)
  {
    assert '/' !in filename;
    assert Basename(filename) == filename;
    assert !StartsWith(filename, "Find") by {
      assert Lower(filename)[0] == 'c';
    }
    FindModuleMatchLast(filename);
  }

  // ---------------------------------------------------------------------
  // The package state of one file

  const StandardArgsModule := "FindPackageHandleStandardArgs"

  /** What `HaveUsedStandardArgs` reports for argument `name`. */
  function StdargsReports(filename: string, ln: nat, name: string): (r: seq<Report>)
    ensures r != [] <==> name != GetExpected(filename)
    ensures r == [] || r == [Report(ln, PackageStdargs, StdargsMessage(GetExpected(filename), name))]
  {
    var expected := GetExpected(filename);
    if expected != name then [Report(ln, PackageStdargs, StdargsMessage(expected, name))] else []
  }

  /** What `Done` reports at the end of a file, given the two flags. */
  function DoneReports(filename: string, included: bool, used: bool): (r: seq<Report>)
    ensures !IsFindPackage(filename) || (included && used) ==> r == []
    ensures |r| == if !IsFindPackage(filename) then 0 else (if included then 0 else 1) + (if used then 0 else 1)
    ensures forall k :: 0 <= k < |r| ==> r[k].line == 0 && r[k].category == PackageConsistency
    ensures IsFindPackage(filename) && !included ==> r[0].message == IncludeMissingMessage
    ensures IsFindPackage(filename) && !used ==> r[|r| - 1].message == StdargsMissingMessage
  {
    if !IsFindPackage(filename) || (included && used) then []
    else if !included && !used then
      [Report(0, PackageConsistency, IncludeMissingMessage), Report(0, PackageConsistency, StdargsMissingMessage)]
    else if !included then [Report(0, PackageConsistency, IncludeMissingMessage)]
    else [Report(0, PackageConsistency, StdargsMissingMessage)]
  }

  /** Each of the two messages is in the reports exactly when its flag is
      still unset at the end of a Find module. */
  lemma DoneReportsMissing(filename: string, included: bool, used: bool)
    ensures var r := DoneReports(filename, included, used);
            (Report(0, PackageConsistency, IncludeMissingMessage) in r <==> IsFindPackage(filename) && !included) &&
            (Report(0, PackageConsistency, StdargsMissingMessage) in r <==> IsFindPackage(filename) && !used)
  {
    assert IncludeMissingMessage[15] != StdargsMissingMessage[15];
  }

  /** `_CMakePackageState`: whether the file has included the
      standard-arguments module and whether it has called it. */
  class PackageState {
    var haveIncludedStdargs: bool
    var haveUsedStdargs: bool

    constructor ()
      ensures !haveIncludedStdargs && !haveUsedStdargs
    {
      haveIncludedStdargs := false;
      haveUsedStdargs := false;
    }

    /** Only the standard-arguments module sets the flag; nothing clears it. */
    method HaveIncluded(name: string)
      modifies this`haveIncludedStdargs
      ensures haveIncludedStdargs == (old(haveIncludedStdargs) || name == StandardArgsModule)
    {
      if name == StandardArgsModule {
        haveIncludedStdargs := true;
      }
    }

    /** Records the call and reports an argument other than the expected name. */
    method HaveUsedStandardArgs(filename: string, ln: nat, name: string) returns (r: seq<Report>)
      modifies this`haveUsedStdargs
      ensures haveUsedStdargs
      ensures r == StdargsReports(filename, ln, name)
    {
      var expected := GetExpected(filename);
      haveUsedStdargs := true;
      r := [];
      if expected != name {
        r := [Report(ln, PackageStdargs, StdargsMessage(expected, name))];
      }
    }

    /** Reports what a Find module has missed, and clears both flags always. */
    method Done(filename: string) returns (r: seq<Report>)
      modifies this
      ensures !haveIncludedStdargs && !haveUsedStdargs
      ensures r == DoneReports(filename, old(haveIncludedStdargs), old(haveUsedStdargs))
    {
      r := [];
      if IsFindPackage(filename) && !(haveIncludedStdargs && haveUsedStdargs) {
        if !haveIncludedStdargs {
          r := r + [Report(0, PackageConsistency, IncludeMissingMessage)];
        }
        if !haveUsedStdargs {
          r := r + [Report(0, PackageConsistency, StdargsMissingMessage)];
        }
      }
      haveUsedStdargs := false;
      haveIncludedStdargs := false;
    }
  }

  // ---------------------------------------------------------------------
  // Command arguments

  /** The first word of `words` other than `skip`. */
  function FirstOther(words: seq<string>, skip: string): (r: Option<string>)
    ensures r.None? <==> forall k :: 0 <= k < |words| ==> words[k] == skip
    ensures r.Some? ==> r.value != skip && r.value in words
  {
    if |words| == 0 then None
    else if words[0] != skip then Some(words[0])
    else
      assert forall k :: 1 <= k < |words| ==> words[k] == words[1..][k - 1];
      FirstOther(words[1..], skip)
  }

  /** The first word other than `skip` on clean line `ln` or a later one;
      `None` when there is none and the scan runs past the last line. */
  function FirstArgument(lines: seq<string>, ln: nat, skip: string): (r: Option<string>)
    requires ln <= |lines|
    ensures r.Some? ==> r.value != skip && |r.value| > 0 && AllWord(r.value)
    ensures r.None? <==> forall k :: ln <= k < |lines| ==> FirstOther(Words(lines[k]), skip).None?
    decreases |lines| - ln
  {
    if ln == |lines| then None
    else
      match FirstOther(Words(lines[ln]), skip)
      case Some(w) => Some(w)
      case None => FirstArgument(lines, ln + 1, skip)
  }

  /** The argument found comes from the first line, from `ln` on, that has a
      word other than `skip`. */
  lemma {:induction false} FirstArgumentLine(lines: seq<string>, ln: nat, skip: string)
    requires ln <= |lines|
    ensures var r := FirstArgument(lines, ln, skip);
            r.Some? ==> exists k :: ln <= k < |lines| && r == FirstOther(Words(lines[k]), skip) &&
                                   forall j :: ln <= j < k ==> FirstOther(Words(lines[j]), skip).None?
    decreases |lines| - ln
  {
    if ln < |lines| && FirstOther(Words(lines[ln]), skip).None? {
      FirstArgumentLine(lines, ln + 1, skip);
    }
  }

  /** `GetCommandArgument`: the first word after the command, skipping every
      word equal to the command's name, on this line or the following ones.
      Running past the last line is the `IndexError`, here `None`. */
  method GetCommandArgument(clean: CleansedLines, ln: nat) returns (r: Option<string>)
    requires ln < |clean.lines|
    ensures r == FirstArgument(clean.lines, ln, GetCommand(clean.lines[ln]))
  {
    var lines := clean.lines;
    var skip := GetCommand(lines[ln]);
    var lineNumber := ln;
    while true
      invariant ln <= lineNumber <= |lines|
      invariant FirstArgument(lines, ln, skip) == FirstArgument(lines, lineNumber, skip)
      decreases |lines| - lineNumber
    {
      if lineNumber >= |lines| {
        return None;
      }
      var word := FirstOtherWord(Words(lines[lineNumber]), skip);
      if word.Some? {
        return word;
      }
      assert FirstArgument(lines, lineNumber, skip) == FirstArgument(lines, lineNumber + 1, skip);
      lineNumber := lineNumber + 1;
    }
  }

  /** The `for` loop of `GetCommandArgument` over the words of one line. */
  method FirstOtherWord(words: seq<string>, skip: string) returns (r: Option<string>)
    ensures r == FirstOther(words, skip)
  {
    var i := 0;
    while i < |words|
      invariant 0 <= i <= |words|
      invariant forall k :: 0 <= k < i ==> words[k] == skip
    {
      if words[i] != skip {
        FirstOtherAt(words, skip, i);
        return Some(words[i]);
      }
      i := i + 1;
    }
    return None;
  }

  lemma FirstOtherAt(words: seq<string>, skip: string, i: nat)
    requires i < |words| && words[i] != skip
    requires forall k :: 0 <= k < i ==> words[k] == skip
    ensures FirstOther(words, skip) == Some(words[i])
  {
    if i > 0 {
      FirstOtherAt(words[1..], skip, i - 1);
    }
  }

  /** The flags of the package state, as values. */
  datatype PackageFlags = PackageFlags(included: bool, used: bool)

  /** What `CheckFindPackage` does on clean line `ln`: the reports and the new
      flags, or `None` when looking for the argument raises. */
  function FindPackageStep(filename: string, lines: seq<string>, ln: nat, flags: PackageFlags):
    (r: Option<(seq<Report>, PackageFlags)>)
    requires ln < |lines|
    ensures r.Some? ==>
              var cmd := GetCommand(lines[ln]);
              var included := Lower(cmd) == "include" && FirstArgument(lines, ln, cmd) == Some(StandardArgsModule);
              var used := Lower(cmd) == "find_package_handle_standard_args";
              r.value.1 == PackageFlags(flags.included || included, flags.used || used)
    ensures var cmd := GetCommand(lines[ln]);
            r.None? <==> (Lower(cmd) == "include" || Lower(cmd) == "find_package_handle_standard_args") &&
                         FirstArgument(lines, ln, cmd).None?
    ensures var cmd := GetCommand(lines[ln]);
            r.Some? && Lower(cmd) == "find_package_handle_standard_args" ==>
              FirstArgument(lines, ln, cmd).Some? &&
              r.value.0 == StdargsReports(filename, ln, FirstArgument(lines, ln, cmd).value)
    ensures r.Some? && Lower(GetCommand(lines[ln])) != "find_package_handle_standard_args" ==> r.value.0 == []
    ensures r.Some? ==> OnLine(r.value.0, ln)
  {
    var cmd := GetCommand(lines[ln]);
    if cmd == "" then Some(([], flags))
    else if Lower(cmd) == "include" then
      match FirstArgument(lines, ln, cmd)
      case None => None
      case Some(name) => Some(([], flags.(included := flags.included || name == StandardArgsModule)))
    else if Lower(cmd) == "find_package_handle_standard_args" then
      match FirstArgument(lines, ln, cmd)
      case None => None
      case Some(name) => Some((StdargsReports(filename, ln, name), flags.(used := true)))
    else Some(([], flags))
  }

  /** `CheckFindPackage`, updating the package state in place. */
  method CheckFindPackage(filename: string, clean: CleansedLines, ln: nat, state: PackageState)
    returns (r: Option<seq<Report>>)
    requires ln < |clean.lines|
    modifies state
    ensures var expected := FindPackageStep(filename, clean.lines, ln,
                                           PackageFlags(old(state.haveIncludedStdargs), old(state.haveUsedStdargs)));
            match expected
            case None =>
              r.None? && state.haveIncludedStdargs == old(state.haveIncludedStdargs) &&
              state.haveUsedStdargs == old(state.haveUsedStdargs)
            case Some((reports, flags)) =>
              r == Some(reports) &&
              flags == PackageFlags(state.haveIncludedStdargs, state.haveUsedStdargs)
  {
    var cmd := GetCommand(clean.lines[ln]);
    r := Some([]);
    if cmd != "" {
      if Lower(cmd) == "include" {
        var name := GetCommandArgument(clean, ln);
        if name.None? {
          return None;
        }
        state.HaveIncluded(name.value);
      } else if Lower(cmd) == "find_package_handle_standard_args" {
        var name := GetCommandArgument(clean, ln);
        if name.None? {
          return None;
        }
        var reports := state.HaveUsedStandardArgs(filename, ln, name.value);
        r := Some(reports);
      }
    }
  }
}
