/** ASCII character classes and the small string operations the linter
    builds its hand-written pattern scanners from. */
module Text {

  datatype Option<T> = None | Some(value: T)

  /** Python's `\s` and `str.isspace` restricted to ASCII:
      tab, line feed, vertical tab, form feed, carriage return,
      the four separator controls 0x1C-0x1F, and the space. */
  predicate IsSpace(c: char) {
    c == ' ' || (9 <= c as int <= 13) || (28 <= c as int <= 31)
  }

  /** Python's `\w` restricted to ASCII. */
  predicate IsWordChar(c: char) {
    ('a' <= c <= 'z') || ('A' <= c <= 'Z') || ('0' <= c <= '9') || c == '_'
  }

  predicate IsUpperChar(c: char) { 'A' <= c <= 'Z' }

  predicate IsLowerChar(c: char) { 'a' <= c <= 'z' }

  predicate IsDigit(c: char) { '0' <= c <= '9' }

  function ToUpper(c: char): (r: char)
    ensures !IsLowerChar(r)
    ensures IsLowerChar(c) <==> r != c
  {
    if IsLowerChar(c) then (c as int - 32) as char else c
  }

  function ToLower(c: char): (r: char)
    ensures !IsUpperChar(r)
    ensures IsUpperChar(c) <==> r != c
  {
    if IsUpperChar(c) then (c as int + 32) as char else c
  }

  /** `str.upper()` on ASCII text. */
  function Upper(s: string): (r: string)
    ensures |r| == |s|
    ensures forall i :: 0 <= i < |s| ==> r[i] == ToUpper(s[i])
  {
    seq(|s|, i requires 0 <= i < |s| => ToUpper(s[i]))
  }

  /** `str.lower()` on ASCII text. */
  function Lower(s: string): (r: string)
    ensures |r| == |s|
    ensures forall i :: 0 <= i < |s| ==> r[i] == ToLower(s[i])
  {
    seq(|s|, i requires 0 <= i < |s| => ToLower(s[i]))
  }

  /** Text is its own upper-case form exactly when it has no lower-case letter. */
  lemma UpperFixed(s: string)
    ensures Upper(s) == s <==> forall i :: 0 <= i < |s| ==> !IsLowerChar(s[i])
  {
    if forall i :: 0 <= i < |s| ==> !IsLowerChar(s[i]) {
      assert forall i :: 0 <= i < |s| ==> Upper(s)[i] == s[i];
    } else {
      var i :| 0 <= i < |s| && IsLowerChar(s[i]);
      assert Upper(s)[i] != s[i];
    }
  }

  /** Text is its own lower-case form exactly when it has no upper-case letter. */
  lemma LowerFixed(s: string)
    ensures Lower(s) == s <==> forall i :: 0 <= i < |s| ==> !IsUpperChar(s[i])
  {
    if forall i :: 0 <= i < |s| ==> !IsUpperChar(s[i]) {
      assert forall i :: 0 <= i < |s| ==> Lower(s)[i] == s[i];
    } else {
      var i :| 0 <= i < |s| && IsUpperChar(s[i]);
      assert Lower(s)[i] != s[i];
    }
  }

  /** Python's `str.isupper()` on ASCII text: at least one cased character
      and no lower-case one. */
  predicate IsUpperText(s: string) {
    (exists i :: 0 <= i < |s| && IsUpperChar(s[i])) &&
    (forall i :: 0 <= i < |s| ==> !IsLowerChar(s[i]))
  }

  predicate StartsWith(s: string, prefix: string) {
    |prefix| <= |s| && s[..|prefix|] == prefix
  }

  /** Two prefixes that start differently cannot both begin `s`. */
  lemma StartsWithExclusive(s: string, p: string, q: string)
    requires |p| > 0 && |q| > 0 && p[0] != q[0]
    requires StartsWith(s, p)
    ensures !StartsWith(s, q)
  {
    assert s[0] == s[..|p|][0];
  }

  predicate EndsWith(s: string, suffix: string) {
    |suffix| <= |s| && s[|s| - |suffix|..] == suffix
  }

  predicate AllSpace(s: string) {
    forall i :: 0 <= i < |s| ==> IsSpace(s[i])
  }

  predicate AllWord(s: string) {
    forall i :: 0 <= i < |s| ==> IsWordChar(s[i])
  }

  predicate AllNonSpace(s: string) {
    forall i :: 0 <= i < |s| ==> !IsSpace(s[i])
  }

  /** Every character of `s` at positions `lo` up to `hi` is whitespace. */
  predicate SpaceBetween(s: string, lo: nat, hi: nat) {
    forall k :: lo <= k < hi && k < |s| ==> IsSpace(s[k])
  }

  predicate WordBetween(s: string, lo: nat, hi: nat) {
    forall k :: lo <= k < hi && k < |s| ==> IsWordChar(s[k])
  }

  predicate NonSpaceBetween(s: string, lo: nat, hi: nat) {
    forall k :: lo <= k < hi && k < |s| ==> !IsSpace(s[k])
  }

  /** Length of the run of whitespace that starts at `i` (greedy `\s*`). */
  function SpaceRun(s: string, i: nat): (n: nat)
    requires i <= |s|
    ensures i + n <= |s|
    ensures SpaceBetween(s, i, i + n)
    ensures i + n == |s| || !IsSpace(s[i + n])
    decreases |s| - i
  {
    if i < |s| && IsSpace(s[i]) then 1 + SpaceRun(s, i + 1) else 0
  }

  /** Length of the run of word characters that starts at `i` (greedy `\w*`). */
  function WordRun(s: string, i: nat): (n: nat)
    requires i <= |s|
    ensures i + n <= |s|
    ensures WordBetween(s, i, i + n)
    ensures i + n == |s| || !IsWordChar(s[i + n])
    decreases |s| - i
  {
    if i < |s| && IsWordChar(s[i]) then 1 + WordRun(s, i + 1) else 0
  }

  /** Length of the run of non-whitespace that starts at `i` (greedy `\S*`). */
  function NonSpaceRun(s: string, i: nat): (n: nat)
    requires i <= |s|
    ensures i + n <= |s|
    ensures NonSpaceBetween(s, i, i + n)
    ensures i + n == |s| || IsSpace(s[i + n])
    decreases |s| - i
  {
    if i < |s| && !IsSpace(s[i]) then 1 + NonSpaceRun(s, i + 1) else 0
  }

  /** Length of the run of whitespace that ends just before position `k`. */
  function SpacesBefore(s: string, k: nat): (n: nat)
    requires k <= |s|
    ensures n <= k
    ensures SpaceBetween(s, k - n, k)
    ensures n == k || !IsSpace(s[k - n - 1])
  {
    if k > 0 && IsSpace(s[k - 1]) then 1 + SpacesBefore(s, k - 1) else 0
  }

  /** A greedy run is at least as long as any all-space stretch it starts. */
  lemma SpaceRunCovers(s: string, i: nat, j: nat)
    requires i <= j <= |s| && SpaceBetween(s, i, j)
    ensures i + SpaceRun(s, i) >= j
    decreases j - i
  {
    if i < j {
      SpaceRunCovers(s, i + 1, j);
    }
  }

  /** A whitespace run from `i` that stops at `j` is exactly `SpaceRun`. */
  lemma SpaceRunExact(s: string, i: nat, j: nat)
    requires i <= j <= |s| && SpaceBetween(s, i, j) && (j == |s| || !IsSpace(s[j]))
    ensures SpaceRun(s, i) == j - i
  {
    SpaceRunCovers(s, i, j);
  }

  /** A word run from `i` that stops at `j` is exactly `WordRun`. */
  lemma WordRunExact(s: string, i: nat, j: nat)
    requires i <= j <= |s| && WordBetween(s, i, j) && (j == |s| || !IsWordChar(s[j]))
    ensures WordRun(s, i) == j - i
  {
    WordRunCovers(s, i, j);
  }

  lemma WordRunCovers(s: string, i: nat, j: nat)
    requires i <= j <= |s| && WordBetween(s, i, j)
    ensures i + WordRun(s, i) >= j
    decreases j - i
  {
    if i < j {
      WordRunCovers(s, i + 1, j);
    }
  }

  /** The first position of `c` in `s`. */
  function IndexOf(s: string, c: char): (r: Option<nat>)
    ensures r.None? <==> c !in s
    ensures r.Some? ==> r.value < |s| && s[r.value] == c && c !in s[..r.value]
  {
    if |s| == 0 then None
    else if s[0] == c then Some(0)
    else
      match IndexOf(s[1..], c)
      case None => None
      case Some(k) =>
        assert s[..k + 1] == [s[0]] + s[1..][..k];
        Some(k + 1)
  }

  /** The last position of `c` in `s`. */
  function LastIndexOf(s: string, c: char): (r: Option<nat>)
    ensures r.None? <==> c !in s
    ensures r.Some? ==> r.value < |s| && s[r.value] == c && c !in s[r.value + 1..]
  {
    if |s| == 0 then None
    else if s[|s| - 1] == c then Some(|s| - 1)
    else
      match LastIndexOf(s[..|s| - 1], c)
      case None => None
      case Some(k) =>
        assert s[k + 1..] == s[..|s| - 1][k + 1..] + [s[|s| - 1]];
        Some(k)
  }

  /** `os.path.basename` for POSIX paths: everything after the last `/`. */
  function Basename(path: string): (r: string)
    ensures '/' !in r
    ensures EndsWith(path, r)
    ensures '/' in path ==> path[|path| - |r| - 1] == '/'
    ensures '/' !in path ==> r == path
  {
    match LastIndexOf(path, '/')
    case None => path
    case Some(k) => path[k + 1..]
  }

  /** Python's `str.strip()` (whitespace at both ends) on ASCII text. */
  function Strip(s: string): (r: string)
    ensures |r| <= |s|
    ensures |r| == 0 || (!IsSpace(r[0]) && !IsSpace(r[|r| - 1]))
    ensures |s| == 0 || (!IsSpace(s[0]) && !IsSpace(s[|s| - 1])) ==> r == s
    ensures exists a: nat, b: nat :: a <= b <= |s| && r == s[a..b] && SpaceBetween(s, 0, a) && SpaceBetween(s, b, |s|)
  {
    var a := SpaceRun(s, 0);
    if a == |s| then
      assert "" == s[|s|..|s|] && SpaceBetween(s, |s|, |s|);
      ""
    else
      var n := SpacesBefore(s, |s|);
      assert !IsSpace(s[a]);
      assert |s| - n > a;
      assert SpaceBetween(s, 0, a) && SpaceBetween(s, |s| - n, |s|);
      s[a..|s| - n]
  }

  /** Python's `str.rstrip(c)` for a single character `c`. */
  function StripTrailing(s: string, c: char): (r: string)
    ensures |r| <= |s|
  {
    if |s| > 0 && s[|s| - 1] == c then StripTrailing(s[..|s| - 1], c) else s
  }

  /** `rstrip` keeps a prefix, removes only copies of `c`, and leaves no `c`
      at the end. */
  lemma {:induction false} StripTrailingMeans(s: string, c: char)
    ensures var r := StripTrailing(s, c);
            StartsWith(s, r) && (|r| == 0 || r[|r| - 1] != c) &&
            forall i :: |r| <= i < |s| ==> s[i] == c
    decreases |s|
  {
    if |s| > 0 && s[|s| - 1] == c {
      var front := s[..|s| - 1];
      StripTrailingMeans(front, c);
      var r := StripTrailing(front, c);
      assert s[..|r|] == front[..|r|];
      forall i | |r| <= i < |s| ensures s[i] == c {
        if i < |front| {
          assert s[i] == front[i];
        }
      }
    }
  }

  /** Python's `str.split(sep)` for a one-character separator. */
  function Split(s: string, sep: char): (parts: seq<string>)
    ensures |parts| >= 1
    ensures forall k :: 0 <= k < |parts| ==> sep !in parts[k]
    decreases |s|
  {
    match IndexOf(s, sep)
    case None => [s]
    case Some(k) => [s[..k]] + Split(s[k + 1..], sep)
  }

  /** `sep.join(parts)`. */
  function Join(parts: seq<string>, sep: char): string {
    if |parts| == 0 then ""
    else if |parts| == 1 then parts[0]
    else parts[0] + [sep] + Join(parts[1..], sep)
  }

  /** Splitting and joining again gives back the original text. */
  lemma {:induction false} SplitJoin(s: string, sep: char)
    ensures Join(Split(s, sep), sep) == s
    decreases |s|
  {
    match IndexOf(s, sep)
    case None =>
    case Some(k) =>
      var rest := Split(s[k + 1..], sep);
      var parts := [s[..k]] + rest;
      assert parts[1..] == rest;
      assert Join(parts, sep) == s[..k] + [sep] + Join(rest, sep);
      SplitJoin(s[k + 1..], sep);
      assert s == s[..k] + [sep] + s[k + 1..];
  }

  /** Python's `s.replace(pattern, '')`: every non-overlapping occurrence
      of `pattern`, scanned left to right, is deleted. */
  function RemoveAll(s: string, pattern: string): (r: string)
    requires |pattern| > 0
    ensures |r| <= |s|
    decreases |s|
  {
    if |s| < |pattern| then s
    else if s[..|pattern|] == pattern then RemoveAll(s[|pattern|..], pattern)
    else [s[0]] + RemoveAll(s[1..], pattern)
  }

  /** `pattern` occurs in `s` starting at position `i`. */
  predicate OccursAt(s: string, pattern: string, i: nat) {
    i + |pattern| <= |s| && s[i..i + |pattern|] == pattern
  }

  /** Text with no occurrence of the pattern is left unchanged. */
  lemma {:induction false} RemoveAllAbsent(s: string, pattern: string)
    requires |pattern| > 0
    requires forall i: nat :: !OccursAt(s, pattern, i)
    ensures RemoveAll(s, pattern) == s
    decreases |s|
  {
    if |s| >= |pattern| {
      assert !OccursAt(s, pattern, 0);
      assert forall i: nat :: OccursAt(s[1..], pattern, i) ==> OccursAt(s, pattern, i + 1);
      RemoveAllAbsent(s[1..], pattern);
    }
  }

  /** Removing a key from a text that starts with it and holds it nowhere
      else leaves the rest of the text. */
  lemma RemoveAllLeading(pattern: string, v: string)
    requires |pattern| > 0
    requires forall i: nat :: !OccursAt(v, pattern, i)
    ensures RemoveAll(pattern + v, pattern) == v
  {
    var s := pattern + v;
    assert s[..|pattern|] == pattern;
    assert s[|pattern|..] == v;
    RemoveAllAbsent(v, pattern);
  }

  /** A plain decimal numeral: one digit or more, nothing else. */
  predicate IsNumeral(s: string) {
    |s| > 0 && forall i :: 0 <= i < |s| ==> IsDigit(s[i])
  }

  /** The value of a plain decimal numeral (digits only). */
  function DecimalValue(s: string): nat
    requires forall i :: 0 <= i < |s| ==> IsDigit(s[i])
  {
    if |s| == 0 then 0
    else
      assert IsDigit(s[|s| - 1]);
      10 * DecimalValue(s[..|s| - 1]) + (s[|s| - 1] as int - '0' as int)
  }

  /** The decimal numeral of `n`, as `'%d' % n` writes it. */
  function NatText(n: nat): (r: string)
    ensures |r| > 0
    ensures forall i :: 0 <= i < |r| ==> IsDigit(r[i])
  {
    var last := [('0' as int + n % 10) as char];
    if n < 10 then last else NatText(n / 10) + last
  }

  function IntText(n: int): string {
    if n < 0 then "-" + NatText(-n) else NatText(n)
  }

  /** Reading back the numeral of `n` gives `n`. */
  lemma {:induction false} NatTextRoundTrip(n: nat)
    ensures DecimalValue(NatText(n)) == n
  {
    var r := NatText(n);
    if n >= 10 {
      NatTextRoundTrip(n / 10);
      assert r[..|r| - 1] == NatText(n / 10);
    }
  }
}
