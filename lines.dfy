/** The line store: the comment-stripped view of each line, the raw and
    clean lines side by side, and the end-of-line handling of loading. */
module Lines {
  import opened Text

  /** `_RE_CLEAN_COMMENT.sub('', line)` with the pattern `\s*#.*`: each match
      runs from the start of the whitespace directly before a `#` up to the
      next line feed (`.` does not match one), and scanning resumes there. */
  function CleanComments(line: string): (r: string)
    ensures '#' !in r
    ensures |r| <= |line|
    ensures '#' !in line ==> r == line
    ensures '\n' !in line ==> StartsWith(line, r)
    decreases |line|
  {
    match IndexOf(line, '#')
    case None => line
    case Some(k) =>
      var start := k - SpacesBefore(line, k);
      var stop := match IndexOf(line[k..], '\n') case None => |line| case Some(j) => k + j;
      assert line[..start] == line[..k][..start];
      assert '\n' !in line ==> stop == |line|;
      line[..start] + CleanComments(line[stop..])
  }

  /** Stripping comments twice is the same as stripping them once. */
  lemma CleanCommentsIdempotent(line: string)
    ensures CleanComments(CleanComments(line)) == CleanComments(line)
  {
  }

  /** On a line without line feeds, what is removed is exactly the first `#`,
      the whitespace directly before it, and everything after it; what is
      kept does not end in whitespace when something was removed. */
  lemma {:induction false} CleanCommentsRemovesTail(line: string, k: nat)
    requires '\n' !in line
    requires k < |line| && line[k] == '#' && '#' !in line[..k]
    ensures var r := CleanComments(line);
            SpaceBetween(line, |r|, k) &&
            (|r| == 0 || !IsSpace(line[|r| - 1]))
  {
    var n := SpacesBefore(line, k);
    assert IndexOf(line, '#') == Some(k);
    assert IndexOf(line[k..], '\n').None?;
    assert line[|line|..] == [];
    assert CleanComments(line) == line[..k - n];
  }

  /** The comment-stripped view of every line. */
  function CleanAll(raw: seq<string>): (clean: seq<string>)
    ensures |clean| == |raw|
  {
    seq(|raw|, i requires 0 <= i < |raw| => CleanComments(raw[i]))
  }

  /** `CleansedLines`: the raw lines, their clean view, and the per-file case
      style, unknown until the first single-case command. */
  class CleansedLines {
    const rawLines: seq<string>
    const lines: seq<string>
    var haveSeenUppercase: Option<bool>

    constructor (raw: seq<string>)
      ensures rawLines == raw && lines == CleanAll(raw)
      ensures haveSeenUppercase.None?
    {
      rawLines := raw;
      lines := CleanAll(raw);
      haveSeenUppercase := None;
    }
  }

  /** The first and last sentinel lines `_ProcessFile` adds, so that list
      positions are 1-based line numbers. */
  const FirstSentinel := "# Lines start at 1"
  const LastSentinel := "# Lines end here"

  /** `l.rstrip('\n')`, then, when the result ends in a carriage return,
      `rstrip('\r')`; the flag says whether one was removed. */
  function StripLineEnd(l: string): (string, bool) {
    var t := StripTrailing(l, '\n');
    if EndsWith(t, "\r") then (StripTrailing(t, '\r'), true) else (t, false)
  }

  /** What is left is a prefix of the line, only line-end characters were
      removed, the flag says whether a carriage return followed the last
      non-newline character, and the result ends in neither character that
      was being stripped at that point. */
  lemma StripLineEndMeans(l: string)
    ensures StartsWith(l, StripLineEnd(l).0)
    ensures forall i :: |StripLineEnd(l).0| <= i < |l| ==> l[i] == '\n' || l[i] == '\r'
    ensures StripLineEnd(l).1 <==> EndsWith(StripTrailing(l, '\n'), "\r")
    ensures var r := StripLineEnd(l).0;
            |r| == 0 || r[|r| - 1] != if StripLineEnd(l).1 then '\r' else '\n'
  {
    var t := StripTrailing(l, '\n');
    StripTrailingMeans(l, '\n');
    if EndsWith(t, "\r") {
      var r := StripTrailing(t, '\r');
      StripTrailingMeans(t, '\r');
      assert StripLineEnd(l) == (r, true);
      PrefixOfPrefix(l, t, r);
      forall i | |r| <= i < |l| ensures l[i] == '\n' || l[i] == '\r' {
        if i < |t| {
          assert l[i] == l[..|t|][i] == t[i];
        }
      }
    } else {
      assert StripLineEnd(l) == (t, false);
    }
  }

  lemma PrefixOfPrefix(a: string, b: string, c: string)
    requires StartsWith(a, b) && StartsWith(b, c)
    ensures StartsWith(a, c)
  {
    assert a[..|c|] == a[..|b|][..|c|];
  }
}
