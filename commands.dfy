/** Hand-written scanners for the regular expressions the rules use to
    recognise a command, its parentheses and its arguments. */
module Commands {
  import opened Text

  /** Where `^\s*(\w+)(\s*)\(` matched: where the name starts, the name
      (group 1), the length of the whitespace between the name and `(`
      (group 2), and the position of `(`. */
  datatype CommandMatch = CommandMatch(start: nat, name: string, gap: nat, open: nat)

  /** The text `line` has the shape of a command: whitespace up to `a`, a word
      from `a` to `b`, whitespace from `b` to `c`, and `(` at `c`. */
  ghost predicate CommandShape(line: string, a: nat, b: nat, c: nat) {
    a < b <= c < |line| &&
    SpaceBetween(line, 0, a) && WordBetween(line, a, b) && SpaceBetween(line, b, c) &&
    line[c] == '('
  }

  /** `_RE_COMMAND.match(line)`. Each part of the pattern is greedy and the
      classes `\s`, `\w` and `(` are disjoint, so no backtracking is needed. */
  function MatchCommand(line: string): (r: Option<CommandMatch>)
    ensures r.Some? ==> |r.value.name| > 0 && r.value.start + |r.value.name| + r.value.gap == r.value.open &&
                        r.value.open < |line| && line[r.value.open] == '('
  {
    var a := SpaceRun(line, 0);
    var b := a + WordRun(line, a);
    var c := b + SpaceRun(line, b);
    if a < b && c < |line| && line[c] == '(' then Some(CommandMatch(a, line[a..b], c - b, c)) else None
  }

  /** What `MatchCommand` finds has the shape of a command. */
  lemma MatchCommandSound(line: string)
    ensures var r := MatchCommand(line);
            r.Some? ==>
              var m := r.value;
              m.start + |m.name| + m.gap == m.open &&
              CommandShape(line, m.start, m.start + |m.name|, m.open) &&
              m.name == line[m.start..m.start + |m.name|]
  {
  }

  /** Every command-shaped line is matched, and at exactly its shape. */
  lemma MatchCommandComplete(line: string, a: nat, b: nat, c: nat)
    requires CommandShape(line, a, b, c)
    ensures MatchCommand(line) == Some(CommandMatch(a, line[a..b], c - b, c))
  {
    SpaceRunExact(line, 0, a);
    WordRunExact(line, a, b);
    SpaceRunExact(line, b, c);
    MatchCommandOf(line, a, b, c);
  }

  /** `MatchCommand` once the three runs are known. */
  lemma MatchCommandOf(line: string, a: nat, b: nat, c: nat)
    requires a < b <= c < |line| && line[c] == '('
    requires SpaceRun(line, 0) == a && WordRun(line, a) == b - a && SpaceRun(line, b) == c - b
    ensures MatchCommand(line) == Some(CommandMatch(a, line[a..b], c - b, c))
  {
  }

  /** `ContainsCommand`: the line starts with a command. */
  predicate ContainsCommand(line: string) {
    MatchCommand(line).Some?
  }

  /** A line contains a command exactly when it has the shape of one. */
  lemma ContainsCommandMeans(line: string)
    ensures ContainsCommand(line) <==> exists a, b, c :: CommandShape(line, a, b, c)
  {
    MatchCommandSound(line);
    if exists a, b, c :: CommandShape(line, a, b, c) {
      var a, b, c :| CommandShape(line, a, b, c);
      MatchCommandComplete(line, a, b, c);
    }
  }

  /** `GetCommand`: the command name, or the empty string. */
  function GetCommand(line: string): (r: string)
    ensures r == "" <==> !ContainsCommand(line)
    ensures ContainsCommand(line) ==> r == MatchCommand(line).value.name && AllWord(r)
  {
    MatchCommandSound(line);
    match MatchCommand(line)
    case None => ""
    case Some(m) =>
      assert forall i :: 0 <= i < |m.name| ==> IsWordChar(m.name[i]) by {
        assert forall i :: 0 <= i < |m.name| ==> m.name[i] == line[m.start + i];
      }
      m.name
  }

  /** Neither all lower case nor all upper case. */
  predicate IsCommandMixedCase(command: string) {
    !(command == Lower(command) || command == Upper(command))
  }

  /** `command == command.upper()`. */
  predicate IsCommandUpperCase(command: string) {
    command == Upper(command)
  }

  /** A command is upper case exactly when it has no lower-case letter. */
  lemma UpperCaseMeans(command: string)
    ensures IsCommandUpperCase(command) <==> forall i :: 0 <= i < |command| ==> !IsLowerChar(command[i])
  {
    UpperFixed(command);
  }

  /** A command is mixed case exactly when it has both an upper-case and a
      lower-case letter. */
  lemma MixedCaseMeans(command: string)
    ensures IsCommandMixedCase(command) <==>
              (exists i :: 0 <= i < |command| && IsUpperChar(command[i])) &&
              (exists j :: 0 <= j < |command| && IsLowerChar(command[j]))
  {
    UpperFixed(command);
    LowerFixed(command);
  }

  /** `_RE_COMMAND_END_SPACES.search(line)`, pattern `(\s*)\)`: the length of
      the whitespace directly before the first `)`, if there is a `)`. */
  function SpacesBeforeClose(line: string): (r: Option<nat>)
    ensures r.None? <==> ')' !in line
    ensures r.Some? ==>
              var k := IndexOf(line, ')').value;
              r.value <= k && SpaceBetween(line, k - r.value, k) &&
              (r.value == k || !IsSpace(line[k - r.value - 1]))
  {
    match IndexOf(line, ')')
    case None => None
    case Some(k) => Some(SpacesBefore(line, k))
  }

  /** The tail `\s*\S+[^)]+` matches all of `u` exactly: leading whitespace,
      then at least one non-whitespace character, then at least one more
      character, none of the latter being `)`. */
  ghost predicate BodyShape(u: string) {
    exists w: nat, m: nat :: w < m < |u| && SpaceBetween(u, 0, w) && NonSpaceBetween(u, w, m) &&
                             ')' !in u[m..]
  }

  /** The scanner for `BodyShape`: the `\s*` run must be taken whole, and the
      `\S+` run should be as long as possible but leave one character. */
  predicate BodyMatches(u: string) {
    var lead := SpaceRun(u, 0);
    var stop := lead + NonSpaceRun(u, lead);
    var m := if stop < |u| then stop else |u| - 1;
    lead < m && ')' !in u[m..]
  }

  lemma {:induction false} BodyMatchesIffShape(u: string)
    ensures BodyMatches(u) <==> BodyShape(u)
  {
    var lead := SpaceRun(u, 0);
    var stop := lead + NonSpaceRun(u, lead);
    var m := if stop < |u| then stop else |u| - 1;
    if BodyMatches(u) {
      assert SpaceBetween(u, 0, lead) && NonSpaceBetween(u, lead, m);
      assert lead < m < |u|;
    }
    if BodyShape(u) {
      var w: nat, m': nat :| w < m' < |u| && SpaceBetween(u, 0, w) && NonSpaceBetween(u, w, m') &&
                             ')' !in u[m'..];
      SpaceRunCovers(u, 0, w);
      assert !IsSpace(u[w]);
      assert lead == w;
      NonSpaceRunCovers(u, w, m');
      assert m' <= m;
      assert u[m..] == u[m'..][m - m'..];
    }
  }

  lemma NonSpaceRunCovers(s: string, i: nat, j: nat)
    requires i <= j <= |s| && NonSpaceBetween(s, i, j)
    ensures i + NonSpaceRun(s, i) >= j
    decreases j - i
  {
    if i < j {
      NonSpaceRunCovers(s, i + 1, j);
    }
  }

  /** `\(\s*\S+[^)]+\)` matches at the start of `t` once the `(` is consumed:
      some `)` closes a body that matches. */
  predicate TailMatches(t: string) {
    TailMatchesFrom(t, 0)
  }

  /** The search for that `)` from position `p` on. */
  predicate TailMatchesFrom(t: string, p: nat)
    decreases |t| - p
  {
    p < |t| && ((t[p] == ')' && BodyMatches(t[..p])) || TailMatchesFrom(t, p + 1))
  }

  /** The search succeeds exactly when some `)` from `p` on closes a body
      that matches. */
  lemma {:induction false} TailMatchesFromMeans(t: string, p: nat)
    ensures TailMatchesFrom(t, p) <==> exists q :: p <= q < |t| && t[q] == ')' && BodyMatches(t[..q])
    decreases |t| - p
  {
    if p < |t| {
      TailMatchesFromMeans(t, p + 1);
    }
  }

  /** `_RE_LOGIC_CHECK` (`(\w+)\s*\(\s*\S+[^)]+\)`) matches at position `i`.
      The `\w+` must take the whole word, since neither `\s` nor `(` is a word
      character. */
  predicate LogicMatchesAt(line: string, i: nat) {
    i <= |line| &&
    var b := i + WordRun(line, i);
    LogicParts(line, i, b, b + SpaceRun(line, b))
  }

  /** Group 1 is `line[i..b]` and the `(` is at `c`, followed by the tail. */
  predicate LogicParts(line: string, i: nat, b: nat, c: nat) {
    i < b && c < |line| && line[c] == '(' && TailMatches(line[c + 1..])
  }

  /** `_RE_LOGIC_CHECK` read as a pattern: it matches at `i` with group 1
      being `line[i..b]`, the `\s*` being `line[b..c]`, the `(` at `c`, and
      the `)` at `p` closing a body of the shape `\s*\S+[^)]+`. */
  ghost predicate LogicShapeAt(line: string, i: nat, b: nat, c: nat, p: nat) {
    i < b <= c < p < |line| && WordBetween(line, i, b) && SpaceBetween(line, b, c) &&
    line[c] == '(' && line[p] == ')' && BodyShape(line[c + 1..p])
  }

  /** The scanner `LogicMatchesAt` accepts exactly where the pattern can
      match, and every match at `i` has the same group 1: the whole word run. */
  lemma LogicMatchesIffShape(line: string, i: nat)
    requires i <= |line|
    ensures LogicMatchesAt(line, i) <==> exists b, c, p :: LogicShapeAt(line, i, b, c, p)
    ensures forall b, c, p :: LogicShapeAt(line, i, b, c, p) ==> b == i + WordRun(line, i)
  {
    if LogicMatchesAt(line, i) {
      var b, c, p := LogicMatchesShape(line, i);
    }
    forall b, c, p | LogicShapeAt(line, i, b, c, p)
      ensures b == i + WordRun(line, i) && LogicMatchesAt(line, i)
    {
      LogicShapeMatches(line, i, b, c, p);
    }
  }

  /** A match of the scanner, as a match of the pattern. */
  lemma LogicMatchesShape(line: string, i: nat) returns (b: nat, c: nat, p: nat)
    requires LogicMatchesAt(line, i)
    ensures b == i + WordRun(line, i) && LogicShapeAt(line, i, b, c, p)
  {
    b := i + WordRun(line, i);
    c := b + SpaceRun(line, b);
    p := TailMatchesShape(line, c);
  }

  lemma TailMatchesShape(line: string, c: nat) returns (p: nat)
    requires c < |line| && TailMatches(line[c + 1..])
    ensures c < p < |line| && line[p] == ')' && BodyShape(line[c + 1..p])
  {
    var t := line[c + 1..];
    TailMatchesFromMeans(t, 0);
    var q :| 0 <= q < |t| && t[q] == ')' && BodyMatches(t[..q]);
    BodyMatchesIffShape(t[..q]);
    assert t[..q] == line[c + 1..c + 1 + q];
    p := c + 1 + q;
  }

  /** A match of the pattern, as a match of the scanner. */
  lemma LogicShapeMatches(line: string, i: nat, b: nat, c: nat, p: nat)
    requires LogicShapeAt(line, i, b, c, p)
    ensures b == i + WordRun(line, i) && c == b + SpaceRun(line, b)
    ensures LogicMatchesAt(line, i)
  {
    assert !IsWordChar(line[b]) by {
      if b < c {
        assert IsSpace(line[b]);
      }
    }
    WordRunExact(line, i, b);
    SpaceRunExact(line, b, c);
    TailShapeMatches(line, c, p);
    LogicMatchesIntro(line, i, b, c);
  }

  lemma TailShapeMatches(line: string, c: nat, p: nat)
    requires c < p < |line| && line[p] == ')' && BodyShape(line[c + 1..p])
    ensures TailMatches(line[c + 1..])
  {
    var t := line[c + 1..];
    var q := p - c - 1;
    assert t[..q] == line[c + 1..p];
    BodyMatchesIffShape(t[..q]);
    assert t[q] == ')' && BodyMatches(t[..q]);
    TailMatchesFromMeans(t, 0);
  }

  lemma LogicMatchesIntro(line: string, i: nat, b: nat, c: nat)
    requires i <= |line| && b == i + WordRun(line, i) && c == b + SpaceRun(line, b)
    requires LogicParts(line, i, b, c)
    ensures LogicMatchesAt(line, i)
  {
  }

  /** `_RE_LOGIC_CHECK.search(line)` from position `i`: where the leftmost
      match starts. */
  function LogicSearch(line: string, i: nat): (r: Option<nat>)
    requires i <= |line|
    ensures r.Some? ==> i <= r.value < |line| && LogicMatchesAt(line, r.value)
    ensures r.Some? ==> forall k :: i <= k < r.value ==> !LogicMatchesAt(line, k)
    ensures r.None? ==> forall k :: i <= k <= |line| ==> !LogicMatchesAt(line, k)
    decreases |line| - i
  {
    if i == |line| then None
    else if LogicMatchesAt(line, i) then Some(i)
    else LogicSearch(line, i + 1)
  }

  /** The first group (the command word) of `_RE_LOGIC_CHECK.search(line)`. */
  function LogicCheck(line: string): (r: Option<string>)
    ensures r.None? <==> forall k :: 0 <= k <= |line| ==> !LogicMatchesAt(line, k)
    ensures r.Some? ==> |r.value| > 0 && AllWord(r.value)
  {
    match LogicSearch(line, 0)
    case None => None
    case Some(j) =>
      var n := WordRun(line, j);
      var word := line[j..j + n];
      assert forall i :: 0 <= i < n ==> word[i] == line[j + i];
      Some(word)
  }

  /** `LogicCheck` read against the pattern: `None` exactly when the pattern
      matches nowhere. */
  lemma LogicCheckNone(line: string)
    ensures LogicCheck(line).None? <==> forall k: nat, b: nat, c: nat, p: nat :: !LogicShapeAt(line, k, b, c, p)
  {
    match LogicSearch(line, 0)
    case None =>
      forall k: nat, b: nat, c: nat, p: nat | LogicShapeAt(line, k, b, c, p)
        ensures false
      {
        LogicShapeMatches(line, k, b, c, p);
      }
    case Some(j) =>
      var b, c, p := LogicMatchesShape(line, j);
  }

  /** Otherwise `LogicCheck` is group 1 of the leftmost match. */
  lemma LogicCheckLeftmost(line: string)
    requires LogicCheck(line).Some?
    ensures exists j: nat, b: nat, c: nat, p: nat ::
              LogicShapeAt(line, j, b, c, p) && LogicCheck(line).value == line[j..b] &&
              forall k: nat, b': nat, c': nat, p': nat :: k < j ==> !LogicShapeAt(line, k, b', c', p')
  {
    var j := LogicCheckAt(line);
    var b, c, p := LogicMatchesShape(line, j);
    LogicShapeNoneBefore(line, j);
  }

  /** Where `LogicCheck` takes its word from. */
  lemma LogicCheckAt(line: string) returns (j: nat)
    requires LogicCheck(line).Some?
    ensures j <= |line| && LogicMatchesAt(line, j) && forall k :: 0 <= k < j ==> !LogicMatchesAt(line, k)
    ensures LogicCheck(line).value == line[j..j + WordRun(line, j)]
  {
    j := LogicSearch(line, 0).value;
  }

  lemma LogicShapeNoneBefore(line: string, j: nat)
    requires forall k :: 0 <= k < j ==> !LogicMatchesAt(line, k)
    ensures forall k: nat, b: nat, c: nat, p: nat :: k < j ==> !LogicShapeAt(line, k, b, c, p)
  {
    forall k: nat, b: nat, c: nat, p: nat | k < j && LogicShapeAt(line, k, b, c, p)
      ensures false
    {
      LogicShapeMatches(line, k, b, c, p);
    }
  }

  /** `re.search(r'\bWORD\b', text)` for a word made of word characters. */
  predicate ContainsWholeWord(text: string, word: string) {
    exists i :: 0 <= i <= |text| && WholeWordAt(text, word, i)
  }

  /** `word` occurs at `i` with a word boundary on each side. */
  predicate WholeWordAt(text: string, word: string, i: nat) {
    i + |word| <= |text| && text[i..i + |word|] == word &&
    (i == 0 || !IsWordChar(text[i - 1])) &&
    (i + |word| == |text| || !IsWordChar(text[i + |word|]))
  }

  /** `_RE_COMMAND_ARG.finditer(line)`: the maximal runs of word characters,
      left to right. */
  function Words(line: string): (r: seq<string>)
    ensures forall k :: 0 <= k < |r| ==> |r[k]| > 0 && AllWord(r[k])
    decreases |line|
  {
    if |line| == 0 then []
    else if !IsWordChar(line[0]) then Words(line[1..])
    else
      var n := WordRun(line, 0);
      assert forall i :: 0 <= i < n ==> line[..n][i] == line[i];
      [line[..n]] + Words(line[n..])
  }

  /** Characters before the first word character are skipped. */
  lemma {:induction false} WordsSkip(line: string, i: nat)
    requires i <= |line| && forall k :: 0 <= k < i ==> !IsWordChar(line[k])
    ensures Words(line) == Words(line[i..])
  {
    if i > 0 {
      assert line[1..][i - 1..] == line[i..];
      WordsSkip(line[1..], i - 1);
    }
  }

  /** Past leading non-word characters, the first word is the maximal run of
      word characters at the first word character, and the rest of the words
      are those after that run. */
  lemma WordsFirst(line: string, i: nat)
    requires i < |line| && IsWordChar(line[i]) && forall k :: 0 <= k < i ==> !IsWordChar(line[k])
    ensures Words(line) == [line[i..i + WordRun(line, i)]] + Words(line[i + WordRun(line, i)..])
  {
    WordsSkip(line, i);
    var t := line[i..];
    var n := WordRun(line, i);
    WordRunSuffix(line, i);
    WordsAtWord(t);
    assert t[..n] == line[i..i + n];
    assert t[n..] == line[i + n..];
  }

  lemma WordsAtWord(t: string)
    requires |t| > 0 && IsWordChar(t[0])
    ensures Words(t) == [t[..WordRun(t, 0)]] + Words(t[WordRun(t, 0)..])
  {
  }

  /** The word run at `i` is the word run at the start of the suffix from `i`. */
  lemma WordRunSuffix(line: string, i: nat)
    requires i <= |line|
    ensures WordRun(line[i..], 0) == WordRun(line, i)
  {
    var t := line[i..];
    var n := WordRun(line, i);
    assert WordBetween(t, 0, n) by {
      assert forall k :: 0 <= k < n ==> t[k] == line[i + k];
    }
    assert n == |t| || !IsWordChar(t[n]) by {
      if n < |t| {
        assert t[n] == line[i + n];
      }
    }
    WordRunExact(t, 0, n);
  }

  /** A line has no words exactly when it has no word character. */
  lemma {:induction false} WordsNone(line: string)
    ensures Words(line) == [] <==> forall k :: 0 <= k < |line| ==> !IsWordChar(line[k])
    decreases |line|
  {
    if |line| > 0 && !IsWordChar(line[0]) {
      WordsNone(line[1..]);
      assert forall k :: 1 <= k < |line| ==> line[k] == line[1..][k - 1];
    }
  }
}
