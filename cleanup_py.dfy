/**
 * The markdown cleanup passes of lib/cleanup.py.
 *
 * The heading-hierarchy, collapse and final-newline passes are the same
 * scans as the JavaScript ones and reuse their definitions; typography and
 * list markers reuse them with Python's `\s` class. `fix_broken_headings` and
 * the appending loop of `fix_heading_hierarchy` are methods proved against
 * specification functions.
 */
module CleanupPy {
  import opened Strings
  import opened Cleanup

  // ---------------------------------------------------------------------------
  // Heading hierarchy
  // ---------------------------------------------------------------------------

  /**
   * `fix_heading_hierarchy`: without an H1 the text is returned; otherwise
   * each line is appended, demoted when it is a heading of level 1-5. The
   * result is the JavaScript pass's, so `Cleanup.HierarchyIdentity` and
   * `Cleanup.HierarchyLines` describe it.
   */
  method FixHeadingHierarchy(md: string) returns (r: string)
    ensures r == Cleanup.FixHeadingHierarchy(md)
  {
    if !HasH1(md) {
      return md;
    }
    var lines := Split(md, '\n');
    var result: seq<string> := [];
    var k := 0;
    while k < |lines|
      invariant 0 <= k <= |lines|
      invariant |result| == k
      invariant forall i :: 0 <= i < k ==> result[i] == Demote(lines[i])
    {
      result := result + [Demote(lines[k])];
      k := k + 1;
    }
    MapSeqEqual(lines, Demote, result);
    r := Join(result, "\n");
  }

  lemma MapSeqEqual(ls: seq<string>, f: string -> string, result: seq<string>)
    requires |result| == |ls| && forall i :: 0 <= i < |ls| ==> result[i] == f(ls[i])
    ensures result == MapSeq(ls, f)
  {
  }

  // ---------------------------------------------------------------------------
  // Typography and list markers with Python's `\s`
  // ---------------------------------------------------------------------------

  /** `fix_czech_typography`. */
  function FixCzechTypography(md: string): (r: string)
    ensures NoneOf(r, IsTypographic)
    ensures NoneOf(md, IsTypographic) ==> r == md
  {
    TypographyClean(md, IsPySpace);
    if NoneOf(md, IsTypographic) then TypographyIdentity(md, IsPySpace); Typography(md, IsPySpace)
    else Typography(md, IsPySpace)
  }

  function ListLinePy(line: string): string
  {
    ListLine(line, IsPySpace)
  }

  /** `fix_list_formatting`. */
  function FixListFormatting(md: string): string
  {
    MapLines(md, ListLinePy)
  }

  /**
   * The line count is kept, and a line changes only in its bullet: a '*' or
   * '+' preceded by Python whitespace alone and followed by a space becomes '-'.
   */
  lemma ListLines(md: string)
    ensures |Split(FixListFormatting(md), '\n')| == |Split(md, '\n')|
    ensures forall i :: 0 <= i < |Split(md, '\n')| ==>
      Split(FixListFormatting(md), '\n')[i] == ListLine(Split(md, '\n')[i], IsPySpace)
  {
    var ls := Split(md, '\n');
    LinesHaveNoNewline(md);
    forall i | 0 <= i < |ls|
      ensures '\n' !in ListLinePy(ls[i])
    {
      var r := ListLinePy(ls[i]);
      assert forall k :: 0 <= k < |r| ==> r[k] == ls[i][k] || r[k] == '-';
    }
    LinesOfMapped(md, ListLinePy);
  }

  // ---------------------------------------------------------------------------
  // Broken headings
  // ---------------------------------------------------------------------------

  /** `line.strip() == ''`. */
  predicate IsBlankPy(line: string)
  {
    forall k :: 0 <= k < |line| ==> IsPySpace(line[k])
  }

  /** Lines `a` up to (not including) `b` are all blank. */
  predicate BlanksBetween(lines: seq<string>, a: nat, b: nat)
    requires b <= |lines|
  {
    forall k :: a <= k < b ==> IsBlankPy(lines[k])
  }

  /** The first non-blank line at or after `j`, or `|lines|`: the inner look-ahead loop. */
  function NextNonBlank(lines: seq<string>, j: nat): (r: nat)
    requires j <= |lines|
    ensures j <= r <= |lines|
    ensures forall k :: j <= k < r ==> IsBlankPy(lines[k])
    ensures r == |lines| || !IsBlankPy(lines[r])
    decreases |lines| - j
  {
    if j < |lines| && IsBlankPy(lines[j]) then NextNonBlank(lines, j + 1) else j
  }

  /** The `(.+)` group of `^(#{2,6}) (.+)$`. */
  function HeadingText(line: string): string
    requires IsHeading(line, 2, 6)
  {
    line[Level(line) + 1..]
  }

  /** `_looks_like_continuation(first, second)`. */
  function LooksLikeContinuation(first: string, second: string): (r: bool)
    ensures second == "" ==> !r
    ensures second != "" && (IsLowerChar(second[0]) || second[0] in ",:;%)-") ==> r
    ensures second != "" && first != "" && IsDigit(first[|first| - 1]) ==> r
    ensures r ==> (second != "" && (IsLowerChar(second[0]) || second[0] in ",:;%)-"
                    || (first != "" && IsDigit(first[|first| - 1]))))
  {
    if second == "" then false
    else if IsLowerChar(second[0]) || second[0] in ",:;%)-" then true
    else if first != "" && IsDigit(first[|first| - 1]) then true
    else false
  }

  /** Heading `i` absorbs heading `j`: same level, and `j` reads as its continuation. */
  predicate MergeAt(lines: seq<string>, i: nat, j: nat)
    requires i < |lines| && j < |lines|
  {
    IsHeading(lines[i], 2, 6) && IsHeading(lines[j], 2, 6) && Level(lines[i]) == Level(lines[j])
    && LooksLikeContinuation(HeadingText(lines[i]), HeadingText(lines[j]))
  }

  /** One iteration of the outer loop: the line it appends and the next `i`. */
  datatype Step = Step(out: string, next: nat)

  /**
   * The iteration at `i`. The merged line `f'{level} {text}{next_text}'` is
   * line `i` followed by the next heading's text, since line `i` is exactly
   * `level + ' ' + text`. An iteration either appends line `i` unchanged, or
   * consumes only headings and blank lines and appends a heading.
   */
  function StepAt(lines: seq<string>, i: nat): (s: Step)
    requires i < |lines|
    ensures i < s.next <= |lines|
    ensures (s.next == i + 1 && s.out == lines[i])
      || (IsHeading(s.out, 2, 6) && NonePlain(lines, i, s.next))
  {
    if IsHeading(lines[i], 2, 6) then
      var j := NextNonBlank(lines, i + 1);
      if j < |lines| && MergeAt(lines, i, j) then
        MergedIsHeading(lines[i], HeadingText(lines[j]));
        Step(lines[i] + HeadingText(lines[j]), j + 1)
      else Step(lines[i], i + 1)
    else Step(lines[i], i + 1)
  }

  /** The lines `fix_broken_headings` appends from index `i` on. */
  function BrokenFrom(lines: seq<string>, i: nat): seq<string>
    requires i <= |lines|
    decreases |lines| - i
  {
    if i == |lines| then [] else [StepAt(lines, i).out] + BrokenFrom(lines, StepAt(lines, i).next)
  }

  /** `fix_broken_headings` as a function of the text. */
  function BrokenHeadingsFixed(md: string): string
  {
    Join(BrokenFrom(Split(md, '\n'), 0), "\n")
  }

  /** The body of the outer loop at `i`, look-ahead loop included. */
  method NextOutput(lines: seq<string>, i: nat) returns (out: string, next: nat)
    requires i < |lines|
    ensures Step(out, next) == StepAt(lines, i)
  {
    var line := lines[i];
    if IsHeading(line, 2, 6) {
      var j := i + 1;
      while j < |lines| && IsBlankPy(lines[j])
        invariant i + 1 <= j <= |lines|
        invariant NextNonBlank(lines, j) == NextNonBlank(lines, i + 1)
        decreases |lines| - j
      {
        j := j + 1;
      }
      if j < |lines| && MergeAt(lines, i, j) {
        return line + HeadingText(lines[j]), j + 1;
      }
    }
    return line, i + 1;
  }

  /** `fix_broken_headings`: the while loop over `i` appending to `result`. */
  method FixBrokenHeadings(md: string) returns (r: string)
    ensures r == BrokenHeadingsFixed(md)
  {
    var lines := Split(md, '\n');
    var result: seq<string> := [];
    var i := 0;
    while i < |lines|
      invariant 0 <= i <= |lines|
      invariant result + BrokenFrom(lines, i) == BrokenFrom(lines, 0)
      decreases |lines| - i
    {
      var out, next := NextOutput(lines, i);
      Regroup(result, [out], BrokenFrom(lines, i), BrokenFrom(lines, next), BrokenFrom(lines, 0));
      result := result + [out];
      i := next;
    }
    assert result + [] == result;
    r := Join(result, "\n");
  }

  /** A heading keeps its level, and stays a heading, when text is appended to it. */
  lemma {:induction false} LevelAppend(line: string, t: string)
    requires Level(line) < |line|
    ensures Level(line + t) == Level(line)
  {
    if line[0] == '#' {
      assert (line + t)[1..] == line[1..] + t;
      LevelAppend(line[1..], t);
    }
  }

  lemma MergedIsHeading(line: string, t: string)
    requires IsHeading(line, 2, 6)
    ensures IsHeading(line + t, 2, 6) && Level(line + t) == Level(line)
  {
    LevelAppend(line, t);
  }

  /**
   * A heading of level 2-6 followed, after blank lines only, by a heading of
   * the same level that reads as its continuation is merged with it: the
   * output line is the first heading followed by the second heading's text,
   * and the blank lines in between are dropped.
   */
  lemma MergeAcrossBlanks(lines: seq<string>, i: nat, j: nat)
    requires i < j < |lines|
    requires BlanksBetween(lines, i + 1, j)
    requires MergeAt(lines, i, j)
    ensures BrokenFrom(lines, i) == [lines[i] + HeadingText(lines[j])] + BrokenFrom(lines, j + 1)
  {
    var s := StepAt(lines, i);
    MergeStep(lines, i, j);
    assert s.out == lines[i] + HeadingText(lines[j]);
    assert s.next == j + 1;
    BrokenUnfold(lines, i, s);
  }

  lemma BrokenUnfold(lines: seq<string>, i: nat, s: Step)
    requires i < |lines| && s == StepAt(lines, i)
    ensures BrokenFrom(lines, i) == [s.out] + BrokenFrom(lines, s.next)
  {
  }

  /**
   * Otherwise the line is appended unchanged: it is not a heading of level
   * 2-6, or no continuation of the same level follows it after blank lines.
   */
  lemma KeptWithoutContinuation(lines: seq<string>, i: nat)
    requires i < |lines|
    requires !IsHeading(lines[i], 2, 6) || NextNonBlank(lines, i + 1) == |lines|
      || !MergeAt(lines, i, NextNonBlank(lines, i + 1))
    ensures BrokenFrom(lines, i) == [lines[i]] + BrokenFrom(lines, i + 1)
  {
    assert StepAt(lines, i) == Step(lines[i], i + 1);
  }

  lemma MergeStep(lines: seq<string>, i: nat, j: nat)
    requires i < j < |lines|
    requires BlanksBetween(lines, i + 1, j)
    requires MergeAt(lines, i, j)
    ensures StepAt(lines, i) == Step(lines[i] + HeadingText(lines[j]), j + 1)
  {
    HeadingNotBlank(lines[j]);
    NextNonBlankSkips(lines, i + 1, j);
  }

  lemma {:induction false} NextNonBlankSkips(lines: seq<string>, a: nat, b: nat)
    requires a <= b < |lines|
    requires forall k :: a <= k < b ==> IsBlankPy(lines[k])
    requires !IsBlankPy(lines[b])
    ensures NextNonBlank(lines, a) == b
    decreases b - a
  {
    if a < b {
      NextNonBlankSkips(lines, a + 1, b);
    }
  }

  /** A heading is never blank. */
  lemma HeadingNotBlank(line: string)
    requires IsHeading(line, 2, 6)
    ensures !IsBlankPy(line)
  {
    assert line[0] == '#';
  }

  /** The output never has more lines than the input. */
  lemma {:induction false} BrokenNeverLonger(lines: seq<string>, i: nat)
    requires i <= |lines|
    ensures |BrokenFrom(lines, i)| <= |lines| - i
    decreases |lines| - i
  {
    if i < |lines| {
      BrokenNeverLonger(lines, StepAt(lines, i).next);
    }
  }

  /** A non-blank line that is not a heading of level 2-6. */
  predicate IsPlain(line: string)
  {
    !IsHeading(line, 2, 6) && !IsBlankPy(line)
  }

  /** No line from `a` up to (not including) `b` is plain. */
  predicate NonePlain(lines: seq<string>, a: nat, b: nat)
    requires b <= |lines|
  {
    forall k :: a <= k < b ==> !IsPlain(lines[k])
  }

  /** The plain lines of `ls`, in order. */
  function Plain(ls: seq<string>): seq<string>
  {
    if ls == [] then [] else (if IsPlain(ls[0]) then [ls[0]] else []) + Plain(ls[1..])
  }

  lemma PlainCons(x: string, rest: seq<string>)
    ensures Plain([x] + rest) == (if IsPlain(x) then [x] else []) + Plain(rest)
  {
    assert ([x] + rest)[1..] == rest;
  }

  /** Lines that are not plain contribute nothing. */
  lemma {:induction false} PlainSkips(lines: seq<string>, a: nat, b: nat)
    requires a <= b <= |lines|
    requires NonePlain(lines, a, b)
    ensures Plain(lines[a..]) == Plain(lines[b..])
    decreases b - a
  {
    if a < b {
      assert lines[a..] == [lines[a]] + lines[a + 1..];
      PlainCons(lines[a], lines[a + 1..]);
      PlainSkips(lines, a + 1, b);
    }
  }

  /** Merging keeps every non-blank, non-heading line, in order. */
  lemma {:induction false} BrokenKeepsPlainLines(lines: seq<string>, i: nat)
    requires i <= |lines|
    ensures Plain(BrokenFrom(lines, i)) == Plain(lines[i..])
    decreases |lines| - i
  {
    if i < |lines| {
      var s := StepAt(lines, i);
      BrokenKeepsPlainLines(lines, s.next);
      PlainCons(s.out, BrokenFrom(lines, s.next));
      if s.next == i + 1 && s.out == lines[i] {
        assert lines[i..] == [lines[i]] + lines[i + 1..];
        PlainCons(lines[i], lines[i + 1..]);
      } else {
        PlainSkips(lines, i, s.next);
      }
    }
  }

  /**
   * On the whole text: the line count never grows and the plain lines come
   * out unchanged and in order.
   */
  lemma BrokenHeadingsLines(md: string)
    ensures |BrokenFrom(Split(md, '\n'), 0)| <= |Split(md, '\n')|
    ensures Plain(BrokenFrom(Split(md, '\n'), 0)) == Plain(Split(md, '\n'))
  {
    var lines := Split(md, '\n');
    BrokenNeverLonger(lines, 0);
    BrokenKeepsPlainLines(lines, 0);
    assert lines[0..] == lines;
  }

  // ---------------------------------------------------------------------------
  // Trailing whitespace and the pipeline
  // ---------------------------------------------------------------------------

  /** `strip_trailing_whitespace`: `rstrip()` on every line. */
  function StripTrailingWhitespace(md: string): string
  {
    MapLines(md, PyRStrip)
  }

  /**
   * The line count is kept; each line loses exactly its trailing Python
   * whitespace, so no line ends in whitespace.
   */
  lemma StripLines(md: string)
    ensures |Split(StripTrailingWhitespace(md), '\n')| == |Split(md, '\n')|
    ensures forall i :: 0 <= i < |Split(md, '\n')| ==>
      var line := Split(md, '\n')[i];
      var out := Split(StripTrailingWhitespace(md), '\n')[i];
      out == PyRStrip(line) && |out| <= |line| && out == line[..|out|]
      && (out == [] || !IsPySpace(out[|out| - 1]))
      && forall k :: |out| <= k < |line| ==> IsPySpace(line[k])
  {
    var ls := Split(md, '\n');
    LinesHaveNoNewline(md);
    forall i | 0 <= i < |ls|
      ensures '\n' !in PyRStrip(ls[i])
    {
      var t := PyRStrip(ls[i]);
      assert forall k :: 0 <= k < |t| ==> t[k] == ls[i][k];
    }
    LinesOfMapped(md, PyRStrip);
  }

  /**
   * `cleanup_markdown`: heading hierarchy, typography, broken headings, list
   * markers, blank-line collapse, trailing whitespace, final newline.
   */
  function CleanupMarkdown(md: string): (r: string)
    ensures EndsWithOneNewline(r)
  {
    EnsureFinalNewline(StripTrailingWhitespace(CollapseBlankLines(FixListFormatting(
      BrokenHeadingsFixed(FixCzechTypography(Cleanup.FixHeadingHierarchy(md)))))))
  }
}
