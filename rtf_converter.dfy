/**
 * The plain-text half of lib/rtf_converter.py: the title taken from the text,
 * and the heuristic that turns the lines of an RTF document's text into
 * markdown (list items, numbered items, headings, paragraphs).
 *
 * `_format_as_markdown` is a while loop over the lines that appends to a
 * result list and keeps a `title_removed` flag; it is modelled by the method
 * `FormatAsMarkdown`, proved against the step function `Step` and its
 * iteration `Run`, about which the lemmas below are stated.
 */
module RtfConverter {
  import opened Strings
  import opened ConverterText

  // ---------------------------------------------------------------------------
  // Stripped lines
  // ---------------------------------------------------------------------------

  /** A line after `strip()`: no line break, no whitespace at either end. */
  predicate Stripped(s: string)
  {
    '\n' !in s && (s == [] || (!IsPySpace(s[0]) && !IsPySpace(s[|s| - 1])))
  }

  lemma StripIsStripped(line: string)
    requires '\n' !in line
    ensures Stripped(PyStrip(line))
  {
    var l := PyLStrip(line);
    var r := PyRStrip(l);
    if r != [] {
      assert r[0] == l[0];
    }
  }

  /** Stripping the front of a line that ends in a non-space leaves a stripped, non-empty line. */
  lemma {:induction false} LStripStripped(x: string)
    requires '\n' !in x && x != [] && !IsPySpace(x[|x| - 1])
    ensures PyLStrip(x) != [] && Stripped(PyLStrip(x))
  {
    if IsPySpace(x[0]) {
      assert |x| > 1;
      LStripStripped(x[1..]);
    }
  }

  /** The lines of `text`, as `text.split('\n')` gives them, hold no line break. */
  lemma LinesHaveNoBreak(text: string)
    ensures forall i :: 0 <= i < |Split(text, '\n')| ==> '\n' !in Split(text, '\n')[i]
  {
    SplitNoSep(text, '\n');
  }

  // ---------------------------------------------------------------------------
  // _extract_title
  // ---------------------------------------------------------------------------

  /** A line whose stripped text has at most three characters. */
  predicate Short(line: string)
  {
    |PyStrip(line)| <= 3
  }

  /** Line `j` is the first whose stripped text is longer than three characters. */
  predicate IsFirstLong(lines: seq<string>, j: int)
  {
    0 <= j < |lines| && !Short(lines[j]) && forall i :: 0 <= i < j ==> Short(lines[i])
  }

  /** The first line at or after `k` whose stripped text is longer than three characters. */
  function FirstLongLine(lines: seq<string>, k: nat): (r: Option<nat>)
    requires k <= |lines|
    requires forall i :: 0 <= i < k ==> Short(lines[i])
    ensures r.Some? ==> IsFirstLong(lines, r.value)
    ensures r.None? ==> forall j :: 0 <= j < |lines| ==> Short(lines[j])
    decreases |lines| - k
  {
    if k == |lines| then None
    else if !Short(lines[k]) then Some(k)
    else
      ShortUpTo(lines, k);
      FirstLongLine(lines, k + 1)
  }

  lemma ShortUpTo(lines: seq<string>, k: nat)
    requires k < |lines| && Short(lines[k])
    requires forall i :: 0 <= i < k ==> Short(lines[i])
    ensures forall i :: 0 <= i < k + 1 ==> Short(lines[i])
  {
    forall i | 0 <= i < k + 1
      ensures Short(lines[i])
    {
      if i == k {
        assert lines[i] == lines[k];
      }
    }
  }

  /**
   * `_extract_title(text, filepath)`: the first stripped line longer than three
   * characters, or else the title derived from the file name.
   */
  function ExtractTitle(text: string, filepath: string): (r: string)
    ensures TitleOf(Split(text, '\n'), filepath, r)
  {
    var lines := Split(text, '\n');
    match FirstLongLine(lines, 0)
    case Some(j) =>
      TitleFromLine(lines, filepath, j);
      PyStrip(lines[j])
    case None =>
      TitleFromName(lines, filepath);
      FilenameTitle(filepath)
  }

  /** `r` is the stripped first long line, or the file-name title when every line is short. */
  ghost predicate TitleOf(lines: seq<string>, filepath: string, r: string)
  {
    (exists j :: IsFirstLong(lines, j) && r == PyStrip(lines[j]))
    || ((forall j :: 0 <= j < |lines| ==> Short(lines[j])) && r == FilenameTitle(filepath))
  }

  lemma TitleFromLine(lines: seq<string>, filepath: string, j: nat)
    requires IsFirstLong(lines, j)
    ensures TitleOf(lines, filepath, PyStrip(lines[j]))
  {
  }

  lemma TitleFromName(lines: seq<string>, filepath: string)
    requires forall j :: 0 <= j < |lines| ==> Short(lines[j])
    ensures TitleOf(lines, filepath, FilenameTitle(filepath))
  {
  }

  // ---------------------------------------------------------------------------
  // Line patterns
  // ---------------------------------------------------------------------------

  /** The bullet characters of the list pattern: '•', '‣', '◦', '-' and '*'. */
  predicate IsBullet(c: char)
  {
    c == '\U{2022}' || c == '\U{2023}' || c == '\U{25E6}' || c == '-' || c == '*'
  }

  /** `re.match(r'^[•‣◦\-*]\s+(.+)', s)` on a stripped line, giving group 1. */
  function BulletItem(s: string): (r: Option<string>)
    requires Stripped(s)
    ensures r.Some? ==> r.value != [] && Stripped(r.value)
  {
    if |s| >= 2 && IsBullet(s[0]) && IsPySpace(s[1]) then
      LStripStripped(s[1..]);
      Some(PyLStrip(s[1..]))
    else None
  }

  predicate AllDigits(x: string)
  {
    forall i :: 0 <= i < |x| ==> IsDigit(x[i])
  }

  /** The length of the run of digits at the start of `s`. */
  function DigitRun(s: string): (n: nat)
    ensures n <= |s|
    ensures forall i :: 0 <= i < n ==> IsDigit(s[i])
    ensures n == |s| || !IsDigit(s[n])
  {
    if |s| > 0 && IsDigit(s[0]) then 1 + DigitRun(s[1..]) else 0
  }

  /** `re.match(r'^(\d+)[.)]\s+(.+)', s)` on a stripped line, giving groups 1 and 2. */
  function NumberedItem(s: string): (r: Option<(string, string)>)
    requires Stripped(s)
    ensures r.Some? ==> r.value.0 != [] && AllDigits(r.value.0)
    ensures r.Some? ==> r.value.1 != [] && Stripped(r.value.1)
  {
    var n := DigitRun(s);
    if 1 <= n && n + 1 < |s| && (s[n] == '.' || s[n] == ')') && IsPySpace(s[n + 1]) then
      assert AllDigits(s[..n]) by {
        forall i | 0 <= i < n
          ensures IsDigit(s[..n][i])
        {
          assert s[..n][i] == s[i];
        }
      }
      LStripStripped(s[n + 1..]);
      Some((s[..n], PyLStrip(s[n + 1..])))
    else None
  }

  /** One leading space before a stripped text is all `lstrip` removes. */
  lemma LStripOneSpace(item: string)
    requires item != [] && Stripped(item)
    ensures PyLStrip(" " + item) == item
  {
    assert (" " + item)[1..] == item;
  }

  /** A prefix without line breaks or trailing concerns, glued to a stripped text, is stripped. */
  lemma PrefixedStripped(p: string, item: string)
    requires p != [] && !IsPySpace(p[0]) && '\n' !in p
    requires item != [] && Stripped(item)
    ensures Stripped(p + item)
  {
    var s := p + item;
    assert s[|s| - 1] == item[|item| - 1];
    assert forall k :: 0 <= k < |s| ==> s[k] == (if k < |p| then p[k] else item[k - |p|]);
  }

  /** The list line written for an item is read back as a list line for the same item. */
  lemma BulletRoundTrip(item: string)
    requires item != [] && Stripped(item)
    ensures Stripped("- " + item) && BulletItem("- " + item) == Some(item)
  {
    var s := "- " + item;
    PrefixedStripped("- ", item);
    assert s[1..] == " " + item;
    LStripOneSpace(item);
  }

  /** The numbered line written for an item is read back with the same number and item. */
  lemma NumberedRoundTrip(n: string, item: string)
    requires n != [] && AllDigits(n)
    requires item != [] && Stripped(item)
    ensures Stripped(n + ". " + item) && NumberedItem(n + ". " + item) == Some((n, item))
  {
    var p := n + ". ";
    var s := p + item;
    assert '\n' !in p by {
      assert forall k :: 0 <= k < |p| ==> p[k] == (if k < |n| then n[k] else ". "[k - |n|]);
    }
    PrefixedStripped(p, item);
    NumberedParts(n, item, s);
    LStripOneSpace(item);
  }

  lemma NumberedParts(n: string, item: string, s: string)
    requires n != [] && AllDigits(n)
    requires item != [] && s == n + ". " + item
    ensures DigitRun(s) == |n| && |n| + 1 < |s| && s[|n|] == '.' && s[|n| + 1] == ' '
    ensures s[..|n|] == n && s[|n| + 1..] == " " + item
  {
    var t := ". " + item;
    assert s == n + t;
    assert s[..|n|] == n;
    assert s[|n|..] == t;
    assert s[|n| + 1..] == t[1..] == " " + item;
    DigitRunOf(n, t);
  }

  lemma {:induction false} DigitRunOf(n: string, t: string)
    requires AllDigits(n)
    requires t != [] && !IsDigit(t[0])
    ensures DigitRun(n + t) == |n|
  {
    if n != [] {
      assert (n + t)[1..] == n[1..] + t;
      DigitRunOf(n[1..], t);
    } else {
      assert n + t == t;
    }
  }

  // ---------------------------------------------------------------------------
  // Headings
  // ---------------------------------------------------------------------------

  /** The characters that end a sentence and so keep a short line from being a heading. */
  predicate EndsSentence(c: char)
  {
    c == '.' || c == ',' || c == ':' || c == ';' || c == '!' || c == '?' || c == ')'
  }

  /** `_is_heading_candidate(text, lines, index)`. */
  predicate IsHeadingCandidate(text: string, lines: seq<string>, index: nat)
    requires text != []
  {
    if |text| > 80 then false
    else if PyIsUpper(text) && |text| > 3 then true
    else
      var next := if index + 1 < |lines| then PyStrip(lines[index + 1]) else "";
      next == "" && |text| < 60 && !EndsSentence(text[|text| - 1])
  }

  /** The heading written for a candidate line: title-cased when it is all capitals. */
  function HeadingLine(s: string): (r: string)
  {
    if PyIsUpper(s) && |s| < 80 then "## " + PyTitle(s) else "## " + s
  }

  /** What `Emit` gives: a non-empty first line without line break, then at most an empty line. */
  predicate WellEmitted(r: seq<string>)
  {
    1 <= |r| <= 2 && r[0] != [] && '\n' !in r[0] && (|r| == 2 ==> r[1] == [])
  }

  /** The lines one non-blank line of the text contributes to the result. */
  function Emit(s: string, lines: seq<string>, i: nat): (r: seq<string>)
    requires s != [] && Stripped(s)
    ensures WellEmitted(r)
  {
    match BulletItem(s)
    case Some(item) =>
      NoBreakJoined("- ", item);
      ["- " + item]
    case None =>
      match NumberedItem(s)
      case Some((n, item)) =>
        DigitsNoBreak(n);
        NoBreakJoined(n, ". ");
        NoBreakJoined(n + ". ", item);
        [n + ". " + item]
      case None =>
        if IsHeadingCandidate(s, lines, i) then
          HeadingNoBreak(s);
          [HeadingLine(s), ""]
        else [s]
  }

  lemma NoBreakJoined(a: string, b: string)
    requires '\n' !in a && '\n' !in b
    ensures '\n' !in a + b && (a + b != [] <==> a != [] || b != [])
  {
    assert forall k :: 0 <= k < |a + b| ==> (a + b)[k] == (if k < |a| then a[k] else b[k - |a|]);
  }

  lemma DigitsNoBreak(n: string)
    requires AllDigits(n)
    ensures '\n' !in n
  {
    assert forall k :: 0 <= k < |n| ==> IsDigit(n[k]);
  }

  lemma HeadingNoBreak(s: string)
    requires '\n' !in s
    ensures '\n' !in HeadingLine(s)
  {
    var t := PyTitle(s);
    forall i | 0 <= i < |t|
      ensures t[i] != '\n'
    {
      TitleKeepsAscii(s, i, '\n');
    }
  }

  /**
   * The rules of `_is_heading_candidate` as they show in the result: a line
   * longer than 80 characters is never a heading; an all-capitals line of 4 to 79
   * characters becomes a title-cased '## ' heading; any other line becomes a
   * heading exactly when the next line is blank, it is shorter than 60
   * characters and it does not end a sentence. Headings are followed by an empty
   * line. (List and numbered items are recognised first.)
   */
  lemma HeadingRules(s: string, lines: seq<string>, i: nat)
    requires s != [] && Stripped(s)
    requires BulletItem(s).None? && NumberedItem(s).None?
    ensures |s| > 80 ==> Emit(s, lines, i) == [s]
    ensures PyIsUpper(s) && 3 < |s| < 80 ==> Emit(s, lines, i) == ["## " + PyTitle(s), ""]
    ensures |s| <= 80 && !(PyIsUpper(s) && |s| > 3) ==>
      (Emit(s, lines, i) == [HeadingLine(s), ""] <==> NextBlankShort(s, lines, i))
    ensures |s| <= 80 && !(PyIsUpper(s) && |s| > 3) ==>
      (Emit(s, lines, i) == [s] <==> !NextBlankShort(s, lines, i))
  {
  }

  /** The next line is blank (or there is none), and `s` is short and does not end a sentence. */
  predicate NextBlankShort(s: string, lines: seq<string>, i: nat)
    requires s != []
  {
    (i + 1 >= |lines| || PyStrip(lines[i + 1]) == []) && |s| < 60 && !EndsSentence(s[|s| - 1])
  }

  // ---------------------------------------------------------------------------
  // _format_as_markdown
  // ---------------------------------------------------------------------------

  predicate NoBreaks(lines: seq<string>)
  {
    forall i :: 0 <= i < |lines| ==> '\n' !in lines[i]
  }

  /** A line of the text as the loop sees it: blank, or its stripped text with the lines it would emit. */
  datatype Line = Blank | Text(s: string, emit: seq<string>)

  /** Line `i` of the text, classified. */
  function Classify(lines: seq<string>, i: nat): (r: Line)
    requires i < |lines| && '\n' !in lines[i]
    ensures r.Blank? <==> PyStrip(lines[i]) == []
    ensures r.Text? ==> r.s == PyStrip(lines[i]) && WellEmitted(r.emit)
  {
    var s := PyStrip(lines[i]);
    if s == [] then Blank
    else
      StripIsStripped(lines[i]);
      Text(s, Emit(s, lines, i))
  }

  function Classes(lines: seq<string>): (r: seq<Line>)
    requires NoBreaks(lines)
    ensures |r| == |lines|
    ensures forall i :: 0 <= i < |lines| ==> r[i] == Classify(lines, i)
  {
    seq(|lines|, i requires 0 <= i < |lines| => Classify(lines, i))
  }

  /** The loop's state: the result lines and the `title_removed` flag. */
  datatype State = State(out: seq<string>, removed: bool)

  /** One iteration of the loop, on a line classified as `ln`. */
  function Step(title: string, ln: Line, st: State): State
  {
    match ln
    case Blank =>
      if st.out != [] && st.out[|st.out| - 1] != [] then State(st.out + [[]], st.removed) else st
    case Text(s, emit) =>
      if !st.removed && s == title then State(st.out, true)
      else State(st.out + emit, st.removed)
  }

  /** The state after the first `n` lines. */
  function Run(cls: seq<Line>, title: string, n: nat): State
    requires n <= |cls|
  {
    if n == 0 then State([], false) else Step(title, cls[n - 1], Run(cls, title, n - 1))
  }

  /** The markdown `_format_as_markdown(text, title)` returns. */
  function Formatted(text: string, title: string): string
  {
    var lines := Split(text, '\n');
    LinesHaveNoBreak(text);
    Join(Run(Classes(lines), title, |lines|).out, "\n")
  }

  /** `_format_as_markdown(text, title)`: split, run the loop over the lines, join. */
  method FormatAsMarkdown(text: string, title: string) returns (md: string)
    ensures md == Formatted(text, title)
  {
    var lines := Split(text, '\n');
    LinesHaveNoBreak(text);
    var result := FormatLines(lines, title);
    md := Join(result, "\n");
  }

  /** The while loop of `_format_as_markdown` over the lines of the text. */
  method FormatLines(lines: seq<string>, title: string) returns (result: seq<string>)
    requires NoBreaks(lines)
    ensures result == Run(Classes(lines), title, |lines|).out
  {
    ghost var cls := Classes(lines);
    result := [];
    var titleRemoved := false;
    var i := 0;
    while i < |lines|
      invariant |cls| == |lines| && cls == Classes(lines)
      invariant FormatInv(cls, title, i, result, titleRemoved)
    {
      ClassAt(lines, cls, i);
      var result', titleRemoved' := FormatLine(lines, title, i, cls[i], result, titleRemoved);
      FormatAdvance(cls, title, i, result, titleRemoved, result', titleRemoved');
      result, titleRemoved, i := result', titleRemoved', i + 1;
    }
  }

  lemma ClassAt(lines: seq<string>, cls: seq<Line>, i: nat)
    requires NoBreaks(lines) && i < |lines| && cls == Classes(lines)
    ensures cls[i] == Classify(lines, i)
  {
  }

  /** The loop invariant: the state is the one after the first `i` lines. */
  predicate FormatInv(cls: seq<Line>, title: string, i: nat, result: seq<string>, titleRemoved: bool)
  {
    i <= |cls| && State(result, titleRemoved) == Run(cls, title, i)
  }

  lemma FormatAdvance(cls: seq<Line>, title: string, i: nat, result: seq<string>, titleRemoved: bool,
                      result': seq<string>, titleRemoved': bool)
    requires FormatInv(cls, title, i, result, titleRemoved) && i < |cls|
    requires State(result', titleRemoved') == Step(title, cls[i], State(result, titleRemoved))
    ensures FormatInv(cls, title, i + 1, result', titleRemoved')
  {
  }

  /** The body of the loop of `_format_as_markdown`, on line `i`. */
  method FormatLine(lines: seq<string>, title: string, i: nat, ghost ln: Line, result: seq<string>, titleRemoved: bool)
    returns (result': seq<string>, titleRemoved': bool)
    requires i < |lines| && '\n' !in lines[i] && ln == Classify(lines, i)
    ensures State(result', titleRemoved') == Step(title, ln, State(result, titleRemoved))
  {
    result', titleRemoved' := result, titleRemoved;
    var stripped := PyStrip(lines[i]);
    StripIsStripped(lines[i]);
    if stripped == [] {
      if result != [] && result[|result| - 1] != [] {
        result' := result + [[]];
      }
      return;
    }
    assert ln == Text(stripped, Emit(stripped, lines, i));
    if !titleRemoved && stripped == title {
      titleRemoved' := true;
      return;
    }
    var emitted := EmitLines(stripped, lines, i);
    result' := result + emitted;
  }

  /** The list, numbered, heading and plain-text branches of the loop body for one stripped line. */
  method EmitLines(stripped: string, lines: seq<string>, i: nat) returns (emitted: seq<string>)
    requires stripped != [] && Stripped(stripped)
    ensures emitted == Emit(stripped, lines, i)
  {
    var listMatch := BulletItem(stripped);
    var numMatch := NumberedItem(stripped);
    if listMatch.Some? {
      emitted := ["- " + listMatch.value];
    } else if numMatch.Some? {
      emitted := [numMatch.value.0 + ". " + numMatch.value.1];
    } else if IsHeadingCandidate(stripped, lines, i) {
      if PyIsUpper(stripped) && |stripped| < 80 {
        emitted := ["## " + PyTitle(stripped)];
      } else {
        emitted := ["## " + stripped];
      }
      emitted := emitted + [[]];
    } else {
      emitted := [stripped];
    }
  }

  // ---------------------------------------------------------------------------
  // What the loop keeps
  // ---------------------------------------------------------------------------

  /** Lines `k` and `k + 1` are both empty. */
  predicate BlankPair(out: seq<string>, k: nat)
    requires k + 1 < |out|
  {
    out[k] == [] && out[k + 1] == []
  }

  /** No empty line first, and never two empty lines in a row. */
  predicate Spaced(out: seq<string>)
  {
    (out == [] || out[0] != []) && forall k: nat :: k + 1 < |out| ==> !BlankPair(out, k)
  }

  /** `Spaced`, and no line break inside a line. */
  predicate WellSpaced(out: seq<string>)
  {
    Spaced(out) && forall k :: 0 <= k < |out| ==> '\n' !in out[k]
  }

  /** Every non-blank line emits well-shaped lines. */
  predicate WellClassified(cls: seq<Line>)
  {
    forall i :: 0 <= i < |cls| && cls[i].Text? ==> WellEmitted(cls[i].emit)
  }

  lemma ClassesWell(lines: seq<string>)
    requires NoBreaks(lines)
    ensures WellClassified(Classes(lines))
  {
  }

  lemma AppendSpaced(out: seq<string>, r: seq<string>)
    requires WellSpaced(out) && WellEmitted(r)
    ensures WellSpaced(out + r)
  {
    var o := out + r;
    forall k: nat | k + 1 < |o|
      ensures !BlankPair(o, k)
    {
      if k + 1 < |out| {
        assert !BlankPair(out, k);
      } else {
        assert o[k + 1] == r[k + 1 - |out|];
        assert k + 1 == |out| ==> o[k + 1] == r[0];
        assert k == |out| ==> o[k] == r[0];
      }
    }
  }

  lemma AppendBlankSpaced(out: seq<string>)
    requires WellSpaced(out) && out != [] && out[|out| - 1] != []
    ensures WellSpaced(out + [[]])
  {
    var o := out + [[]];
    forall k: nat | k + 1 < |o|
      ensures !BlankPair(o, k)
    {
      if k + 1 < |out| {
        assert !BlankPair(out, k);
      }
    }
  }

  lemma StepSpaced(title: string, ln: Line, st: State)
    requires WellSpaced(st.out) && (ln.Text? ==> WellEmitted(ln.emit))
    ensures WellSpaced(Step(title, ln, st).out)
  {
    match ln
    case Blank =>
      if st.out != [] && st.out[|st.out| - 1] != [] {
        AppendBlankSpaced(st.out);
      }
    case Text(s, emit) =>
      if st.removed || s != title {
        AppendSpaced(st.out, emit);
      }
  }

  lemma {:induction false} RunWellSpaced(cls: seq<Line>, title: string, n: nat)
    requires n <= |cls| && WellClassified(cls)
    ensures WellSpaced(Run(cls, title, n).out)
  {
    if n > 0 {
      RunWellSpaced(cls, title, n - 1);
      StepSpaced(title, cls[n - 1], Run(cls, title, n - 1));
    }
  }

  /**
   * The markdown never starts with an empty line and never holds two empty
   * lines in a row.
   */
  lemma FormattedSpacing(text: string, title: string)
    ensures Formatted(text, title) == [] || Spaced(Split(Formatted(text, title), '\n'))
  {
    var lines := Split(text, '\n');
    LinesHaveNoBreak(text);
    var cls := Classes(lines);
    ClassesWell(lines);
    var out := Run(cls, title, |lines|).out;
    RunWellSpaced(cls, title, |lines|);
    if out != [] {
      JoinThenSplit(out, '\n');
    }
  }

  /** Some line before `n` is non-blank and equal to the title. */
  predicate TitleSeen(cls: seq<Line>, title: string, n: nat)
    requires n <= |cls|
  {
    exists j :: 0 <= j < n && cls[j].Text? && cls[j].s == title
  }

  lemma TitleSeenNext(cls: seq<Line>, title: string, n: nat)
    requires n < |cls|
    ensures TitleSeen(cls, title, n + 1) <==> TitleSeen(cls, title, n) || (cls[n].Text? && cls[n].s == title)
  {
    if TitleSeen(cls, title, n + 1) && !(cls[n].Text? && cls[n].s == title) {
      var j :| 0 <= j < n + 1 && cls[j].Text? && cls[j].s == title;
      assert j < n;
    }
  }

  /** `title_removed` is set exactly when a non-blank line equal to the title has been met. */
  lemma {:induction false} RunRemoved(cls: seq<Line>, title: string, n: nat)
    requires n <= |cls|
    ensures Run(cls, title, n).removed <==> TitleSeen(cls, title, n)
  {
    if n > 0 {
      RunRemoved(cls, title, n - 1);
      TitleSeenNext(cls, title, n - 1);
    }
  }

  /**
   * Only the first line equal to the title is dropped: every other non-blank line
   * contributes its `Emit` lines, and so does every later line equal to the title.
   */
  lemma TitleDroppedOnce(lines: seq<string>, title: string, i: nat)
    requires NoBreaks(lines) && i < |lines| && PyStrip(lines[i]) != []
    ensures var cls := Classes(lines);
      Run(cls, title, i + 1).out == Run(cls, title, i).out
        + (if PyStrip(lines[i]) == title && !TitleSeen(cls, title, i) then [] else cls[i].emit)
  {
    var cls := Classes(lines);
    RunRemoved(cls, title, i);
    assert Run(cls, title, i).out + [] == Run(cls, title, i).out;
  }

  /** The lines a non-blank line emits are the `Emit` lines of its stripped text. */
  lemma EmittedLines(lines: seq<string>, i: nat)
    requires NoBreaks(lines) && i < |lines| && PyStrip(lines[i]) != []
    ensures Stripped(PyStrip(lines[i]))
    ensures Classes(lines)[i] == Text(PyStrip(lines[i]), Emit(PyStrip(lines[i]), lines, i))
  {
    StripIsStripped(lines[i]);
  }

  // ---------------------------------------------------------------------------
  // convert_rtf
  // ---------------------------------------------------------------------------

  /**
   * `convert_rtf` once the file has been read and its RTF control words removed:
   * the title, the markdown, and no images.
   */
  method ConvertText(text: string, filepath: string) returns (title: string, markdown: string, images: seq<string>)
    ensures title == ExtractTitle(text, filepath)
    ensures markdown == Formatted(text, title)
    ensures images == []
  {
    title := ExtractTitle(text, filepath);
    markdown := FormatAsMarkdown(text, title);
    images := [];
  }
}
