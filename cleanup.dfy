/**
 * The markdown cleanup passes of web/src/lib/cleanup.js.
 *
 * Every pass is a regex replace or a split/map/join over '\n'-separated
 * lines; each regex is written out as the scan it performs. The passes whose
 * only difference between the JavaScript and the Python implementation is the
 * regex `\s` class take that class as a parameter `sp`, so the Python module
 * instantiates the same definition with `IsPySpace`.
 */
module Cleanup {
  import opened Strings

  // ---------------------------------------------------------------------------
  // Lines
  // ---------------------------------------------------------------------------

  function MapSeq(ls: seq<string>, f: string -> string): (r: seq<string>)
    ensures |r| == |ls|
    ensures forall i :: 0 <= i < |ls| ==> r[i] == f(ls[i])
  {
    if ls == [] then [] else [f(ls[0])] + MapSeq(ls[1..], f)
  }

  /** `md.split('\n').map(f).join('\n')`. */
  function MapLines(md: string, f: string -> string): string
  {
    Join(MapSeq(Split(md, '\n'), f), "\n")
  }

  /** Mapping the lines keeps them apart: splitting the result gives back the mapped lines. */
  lemma LinesOfMapped(md: string, f: string -> string)
    requires forall i :: 0 <= i < |Split(md, '\n')| ==> '\n' !in f(Split(md, '\n')[i])
    ensures Split(MapLines(md, f), '\n') == MapSeq(Split(md, '\n'), f)
  {
    JoinThenSplit(MapSeq(Split(md, '\n'), f), '\n');
  }

  /** No line of a split contains the separator. */
  lemma LinesHaveNoNewline(md: string)
    ensures forall i :: 0 <= i < |Split(md, '\n')| ==> '\n' !in Split(md, '\n')[i]
  {
    SplitNoSep(md, '\n');
  }

  /** The end of the maximal run of characters satisfying `keep` from `p`. */
  function RunEnd(s: string, p: nat, keep: char -> bool): (r: nat)
    requires p <= |s|
    ensures p <= r <= |s|
    ensures forall j :: p <= j < r ==> keep(s[j])
    ensures r == |s| || !keep(s[r])
    decreases |s| - p
  {
    if p < |s| && keep(s[p]) then RunEnd(s, p + 1, keep) else p
  }

  /** No character of `t` satisfies `bad`. */
  predicate NoneOf(t: string, bad: char -> bool)
  {
    forall k :: 0 <= k < |t| ==> !bad(t[k])
  }

  // ---------------------------------------------------------------------------
  // ATX headings
  // ---------------------------------------------------------------------------

  /** The number of leading '#' characters of a line. */
  function Level(line: string): (n: nat)
    ensures n <= |line|
    ensures forall i :: 0 <= i < n ==> line[i] == '#'
    ensures n == |line| || line[n] != '#'
  {
    if |line| > 0 && line[0] == '#' then 1 + Level(line[1..]) else 0
  }

  /**
   * The line matches `^(#{lo,hi}) (.+)$`: between `lo` and `hi` leading '#',
   * a space, then at least one character.
   */
  predicate IsHeading(line: string, lo: nat, hi: nat)
  {
    lo <= Level(line) <= hi && Level(line) + 1 < |line| && line[Level(line)] == ' '
  }

  /** `/^# [^#]/m` finds a match: a line starting "# " followed by any character but '#'. */
  predicate HasH1(md: string)
  {
    exists i :: 0 <= i && i + 2 < |md| && AtLineStart(md, i)
      && md[i] == '#' && md[i + 1] == ' ' && md[i + 2] != '#'
  }

  /** One line of `fixHeadingHierarchy`: a heading of level 1-5 gains one '#'. */
  function Demote(line: string): (r: string)
    ensures IsHeading(line, 1, 5) ==> r == "#" + line && IsHeading(r, 2, 6)
    ensures IsHeading(line, 1, 5) ==> Level(r) == Level(line) + 1 && r[Level(r)..] == line[Level(line)..]
    ensures !IsHeading(line, 1, 5) ==> r == line
  {
    if IsHeading(line, 1, 5) then
      assert ("#" + line)[1..] == line;
      "#" + line
    else line
  }

  /** `fixHeadingHierarchy`: demote every heading when the text has an H1. */
  function FixHeadingHierarchy(md: string): string
  {
    if !HasH1(md) then md else MapLines(md, Demote)
  }

  /** Without an H1 the text is returned as it is. */
  lemma HierarchyIdentity(md: string)
    requires !HasH1(md)
    ensures FixHeadingHierarchy(md) == md
  {
  }

  /**
   * With an H1 the line count is kept; a heading of level 1-5 gains one '#'
   * and keeps its text; every other line, level-6 headings included, is unchanged.
   */
  lemma HierarchyLines(md: string)
    requires HasH1(md)
    ensures |Split(FixHeadingHierarchy(md), '\n')| == |Split(md, '\n')|
    ensures forall i :: 0 <= i < |Split(md, '\n')| ==>
      var line := Split(md, '\n')[i];
      var out := Split(FixHeadingHierarchy(md), '\n')[i];
      (IsHeading(line, 1, 5) ==> out == "#" + line && Level(out) == Level(line) + 1)
      && (!IsHeading(line, 1, 5) ==> out == line)
  {
    var ls := Split(md, '\n');
    LinesHaveNoNewline(md);
    forall i | 0 <= i < |ls|
      ensures '\n' !in Demote(ls[i])
    {
      assert '\n' !in ls[i];
    }
    LinesOfMapped(md, Demote);
  }

  // ---------------------------------------------------------------------------
  // Typography
  // ---------------------------------------------------------------------------

  const EmDash: char := '\U{2014}'
  const EnDash: char := '\U{2013}'

  /** The typographic quotes „ “ ” ‘ ’. */
  predicate IsQuoteChar(c: char)
  {
    c == '\U{201E}' || c == '\U{201C}' || c == '\U{201D}' || c == '\U{2018}' || c == '\U{2019}'
  }

  /** Every character the typography pass replaces. */
  predicate IsTypographic(c: char)
  {
    IsQuoteChar(c) || c == EmDash || c == EnDash
    || c == '\U{2026}' || c == '\U{00A0}' || c == '\U{202F}'
  }

  /** The first five replacements: double quotes to '"', single quotes to '\''. */
  function QuoteFix(c: char): string
  {
    if c == '\U{201E}' || c == '\U{201C}' || c == '\U{201D}' then "\""
    else if c == '\U{2018}' || c == '\U{2019}' then "'"
    else [c]
  }

  /** The last three replacements: the ellipsis to "...", the no-break spaces to ' '. */
  function LateFix(c: char): string
  {
    if c == '\U{2026}' then "..."
    else if c == '\U{00A0}' || c == '\U{202F}' then " "
    else [c]
  }

  /** Each character replaced by its image under `f`, left to right. */
  function FlatMap(s: string, f: char -> string): string
    decreases |s|
  {
    if s == [] then "" else f(s[0]) + FlatMap(s[1..], f)
  }

  // The dash replaces of `fixCzechTypography`, scanning from `i`: at each
  // position the `\s` run must end at the dash for a match, which then
  // swallows the `\s` run after the dash too; the match becomes " -- ".
  function DashesFrom(s: string, i: nat, dash: char, sp: char -> bool): string
    requires i <= |s|
    decreases |s| - i
  {
    if i == |s| then ""
    else
      var j := RunEnd(s, i, sp);
      if j < |s| && s[j] == dash then " -- " + DashesFrom(s, RunEnd(s, j + 1, sp), dash, sp)
      else [s[i]] + DashesFrom(s, i + 1, dash, sp)
  }

  /** `fixCzechTypography` with `sp` as the regex `\s` class. */
  function Typography(s: string, sp: char -> bool): string
  {
    var quoted := FlatMap(s, QuoteFix);
    var em := DashesFrom(quoted, 0, EmDash, sp);
    var en := DashesFrom(em, 0, EnDash, sp);
    FlatMap(en, LateFix)
  }

  lemma NoneOfConcat(a: string, b: string, bad: char -> bool)
    requires NoneOf(a, bad) && NoneOf(b, bad)
    ensures NoneOf(a + b, bad)
  {
    assert forall k :: 0 <= k < |a + b| ==> (a + b)[k] == if k < |a| then a[k] else b[k - |a|];
  }

  lemma {:induction false} FlatMapAvoids(s: string, f: char -> string, bad: char -> bool)
    requires forall i :: 0 <= i < |s| ==> NoneOf(f(s[i]), bad)
    ensures NoneOf(FlatMap(s, f), bad)
    decreases |s|
  {
    if s != [] {
      FlatMapAvoids(s[1..], f, bad);
      NoneOfConcat(f(s[0]), FlatMap(s[1..], f), bad);
    }
  }

  lemma {:induction false} FlatMapIdentity(s: string, f: char -> string)
    requires forall i :: 0 <= i < |s| ==> f(s[i]) == [s[i]]
    ensures FlatMap(s, f) == s
    decreases |s|
  {
    if s != [] {
      FlatMapIdentity(s[1..], f);
      HeadTail(s);
    }
  }

  /** A dash cannot be swallowed by the `\s` run before it, so a dash at `i` always matches. */
  lemma DashMatchesAt(s: string, i: nat, dash: char, sp: char -> bool)
    requires i < |s| && !sp(dash)
    ensures s[i] == dash ==> RunEnd(s, i, sp) == i
  {
  }

  /**
   * The dash pass removes every `dash` and brings in nothing but ' ' and '-':
   * when `bad` holds of `dash` and of no other character of `s`, nor of ' '
   * and '-', it holds of no character of the result.
   */
  lemma {:induction false} DashesAvoid(s: string, i: nat, dash: char, sp: char -> bool, bad: char -> bool)
    requires i <= |s|
    requires !sp(dash) && !bad(' ') && !bad('-')
    requires forall j :: i <= j < |s| ==> s[j] == dash || !bad(s[j])
    ensures NoneOf(DashesFrom(s, i, dash, sp), bad)
    decreases |s| - i
  {
    if i < |s| {
      var j := RunEnd(s, i, sp);
      if j < |s| && s[j] == dash {
        var k := RunEnd(s, j + 1, sp);
        DashesAvoid(s, k, dash, sp, bad);
        NoneOfConcat(" -- ", DashesFrom(s, k, dash, sp), bad);
      } else {
        DashesAvoid(s, i + 1, dash, sp, bad);
        DashMatchesAt(s, i, dash, sp);
        NoneOfConcat([s[i]], DashesFrom(s, i + 1, dash, sp), bad);
      }
    }
  }

  lemma {:induction false} DashesIdentity(s: string, i: nat, dash: char, sp: char -> bool)
    requires i <= |s|
    requires forall j :: i <= j < |s| ==> s[j] != dash
    ensures DashesFrom(s, i, dash, sp) == s[i..]
    decreases |s| - i
  {
    if i < |s| {
      DashesIdentity(s, i + 1, dash, sp);
      assert s[i..] == [s[i]] + s[i + 1..];
    }
  }

  predicate QuoteOrEm(c: char) { IsQuoteChar(c) || c == EmDash }

  predicate QuoteOrDash(c: char) { IsQuoteChar(c) || c == EmDash || c == EnDash }

  lemma LateFixClean(c: char)
    requires !QuoteOrDash(c)
    ensures NoneOf(LateFix(c), IsTypographic)
  {
  }

  lemma QuoteFixClean(c: char)
    ensures NoneOf(QuoteFix(c), IsQuoteChar)
  {
  }

  /** None of „ “ ” ‘ ’ — – … U+00A0 U+202F is left, whatever `sp` is. */
  lemma TypographyClean(s: string, sp: char -> bool)
    requires !sp(EmDash) && !sp(EnDash)
    ensures NoneOf(Typography(s, sp), IsTypographic)
  {
    forall i | 0 <= i < |s|
      ensures NoneOf(QuoteFix(s[i]), IsQuoteChar)
    {
      QuoteFixClean(s[i]);
    }
    FlatMapAvoids(s, QuoteFix, IsQuoteChar);
    var quoted := FlatMap(s, QuoteFix);
    DashesAvoid(quoted, 0, EmDash, sp, QuoteOrEm);
    var em := DashesFrom(quoted, 0, EmDash, sp);
    DashesAvoid(em, 0, EnDash, sp, QuoteOrDash);
    var en := DashesFrom(em, 0, EnDash, sp);
    forall i | 0 <= i < |en|
      ensures NoneOf(LateFix(en[i]), IsTypographic)
    {
      LateFixClean(en[i]);
    }
    FlatMapAvoids(en, LateFix, IsTypographic);
  }

  /** Text without any of those characters passes through unchanged. */
  lemma TypographyIdentity(s: string, sp: char -> bool)
    requires NoneOf(s, IsTypographic)
    ensures Typography(s, sp) == s
  {
    FlatMapIdentity(s, QuoteFix);
    DashesIdentity(s, 0, EmDash, sp);
    DashesIdentity(s, 0, EnDash, sp);
    FlatMapIdentity(s, LateFix);
  }

  /** `fixCzechTypography`. */
  function FixCzechTypography(md: string): (r: string)
    ensures NoneOf(r, IsTypographic)
    ensures NoneOf(md, IsTypographic) ==> r == md
  {
    TypographyClean(md, IsJsSpace);
    if NoneOf(md, IsTypographic) then TypographyIdentity(md, IsJsSpace); Typography(md, IsJsSpace)
    else Typography(md, IsJsSpace)
  }

  // ---------------------------------------------------------------------------
  // List markers
  // ---------------------------------------------------------------------------

  /** Every character before `i` is in the class `sp`. */
  predicate Indented(line: string, i: nat, sp: char -> bool)
    requires i <= |line|
  {
    forall j :: 0 <= j < i ==> sp(line[j])
  }

  /** A '*' or '+' bullet followed by a space sits at `i`. */
  predicate BulletAt(line: string, i: nat)
  {
    i + 1 < |line| && (line[i] == '*' || line[i] == '+') && line[i + 1] == ' '
  }

  /** One line of `replace(/^(\s*)[*+] /gm, '$1- ')`. */
  function ListLine(line: string, sp: char -> bool): (r: string)
    requires !sp('*') && !sp('+')
    ensures |r| == |line|
    ensures forall i :: 0 <= i < |line| && r[i] != line[i] ==>
      BulletAt(line, i) && Indented(line, i, sp) && r[i] == '-'
    ensures forall i :: 0 <= i < |line| && BulletAt(line, i) && Indented(line, i, sp) ==> r[i] == '-'
  {
    var k := RunEnd(line, 0, sp);
    if BulletAt(line, k) then line[k := '-'] else line
  }

  function ListLineJs(line: string): string
  {
    ListLine(line, IsJsSpace)
  }

  /** `fixListFormatting`. */
  function FixListFormatting(md: string): string
  {
    MapLines(md, ListLineJs)
  }

  /**
   * The line count is kept, and a line changes only in its bullet: a '*' or
   * '+' preceded by whitespace alone and followed by a space becomes '-'.
   */
  lemma ListLines(md: string)
    ensures |Split(FixListFormatting(md), '\n')| == |Split(md, '\n')|
    ensures forall i :: 0 <= i < |Split(md, '\n')| ==>
      Split(FixListFormatting(md), '\n')[i] == ListLine(Split(md, '\n')[i], IsJsSpace)
  {
    var ls := Split(md, '\n');
    LinesHaveNoNewline(md);
    forall i | 0 <= i < |ls|
      ensures '\n' !in ListLineJs(ls[i])
    {
      var r := ListLineJs(ls[i]);
      assert forall k :: 0 <= k < |r| ==> r[k] == ls[i][k] || r[k] == '-';
    }
    LinesOfMapped(md, ListLineJs);
  }

  // ---------------------------------------------------------------------------
  // Blank lines
  // ---------------------------------------------------------------------------

  predicate IsNewline(c: char) { c == '\n' }

  /** Four '\n' start at `i`. */
  predicate FourAt(s: string, i: nat)
  {
    i + 3 < |s| && s[i] == '\n' && s[i + 1] == '\n' && s[i + 2] == '\n' && s[i + 3] == '\n'
  }

  /** No four consecutive '\n'. */
  predicate NoFourNewlines(s: string)
  {
    forall i: nat | i < |s| :: !FourAt(s, i)
  }

  /** `replace(/\n{4,}/g, '\n\n\n')`: each run of four or more '\n' becomes three. */
  function CollapseBlankLines(s: string): (r: string)
    ensures s != [] && s[0] != '\n' ==> r != [] && r[0] == s[0]
    decreases |s|
  {
    if s == [] then []
    else if s[0] != '\n' then [s[0]] + CollapseBlankLines(s[1..])
    else
      var n := RunEnd(s, 0, IsNewline);
      (if n >= 4 then "\n\n\n" else s[..n]) + CollapseBlankLines(s[n..])
  }

  lemma FourInJoin(p: string, q: string, i: nat)
    ensures FourAt(p + q, i) && i >= |p| ==> FourAt(q, i - |p|)
    ensures FourAt(p + q, i) && i < |p| && |p| <= 3 ==> q != [] && q[0] == '\n'
  {
    if FourAt(p + q, i) && i < |p| && |p| <= 3 {
      assert (p + q)[|p|] == q[0];
    }
  }

  lemma FourInSuffix(s: string, n: nat, i: nat)
    requires n <= |s|
    ensures FourAt(s[n..], i) ==> FourAt(s, n + i)
  {
  }

  lemma CharBeforeText(c: char, q: string)
    requires c != '\n' && NoFourNewlines(q)
    ensures NoFourNewlines([c] + q)
  {
    var s := [c] + q;
    forall i: nat | i < |s|
      ensures !FourAt(s, i)
    {
      FourInJoin([c], q, i);
    }
  }

  /** A short newline run in front of text that does not start with '\n'. */
  lemma RunBeforeText(p: string, q: string)
    requires |p| <= 3 && NoFourNewlines(q) && (q == [] || q[0] != '\n')
    ensures NoFourNewlines(p + q)
  {
    var s := p + q;
    forall i: nat | i < |s|
      ensures !FourAt(s, i)
    {
      FourInJoin(p, q, i);
    }
  }

  lemma NoFourSuffix(s: string, n: nat)
    requires n <= |s| && NoFourNewlines(s)
    ensures NoFourNewlines(s[n..])
  {
    forall i: nat | i < |s| - n
      ensures !FourAt(s[n..], i)
    {
      FourInSuffix(s, n, i);
    }
  }

  /** After `collapseBlankLines` no run of four or more '\n' remains. */
  lemma {:induction false} CollapseLeavesNoFour(s: string)
    ensures NoFourNewlines(CollapseBlankLines(s))
    decreases |s|
  {
    if s != [] {
      if s[0] != '\n' {
        CollapseLeavesNoFour(s[1..]);
        CharBeforeText(s[0], CollapseBlankLines(s[1..]));
      } else {
        var n := RunEnd(s, 0, IsNewline);
        CollapseLeavesNoFour(s[n..]);
        RunBeforeText(if n >= 4 then "\n\n\n" else s[..n], CollapseBlankLines(s[n..]));
      }
    }
  }

  /** Text without four consecutive '\n' is left unchanged. */
  lemma {:induction false} CollapseIdentity(s: string)
    requires NoFourNewlines(s)
    ensures CollapseBlankLines(s) == s
    decreases |s|
  {
    if s != [] {
      if s[0] != '\n' {
        NoFourSuffix(s, 1);
        CollapseIdentity(s[1..]);
        HeadTail(s);
      } else {
        var n := RunEnd(s, 0, IsNewline);
        assert n >= 4 ==> FourAt(s, 0);
        NoFourSuffix(s, n);
        CollapseIdentity(s[n..]);
        assert s[..n] + s[n..] == s;
      }
    }
  }

  // ---------------------------------------------------------------------------
  // Escapes in headings
  // ---------------------------------------------------------------------------

  /** The line starts like `#{1,6} `: one to six '#' and a space. */
  predicate IsEscapeHeading(line: string)
  {
    1 <= Level(line) <= 6 && Level(line) < |line| && line[Level(line)] == ' '
  }

  /** A backslash followed by '.' starts at `p`. */
  predicate EscapedDotAt(line: string, p: int)
  {
    0 <= p && p + 1 < |line| && line[p] == '\\' && line[p + 1] == '.'
  }

  /** The last `p` in `[lo, hi)` where an escaped dot starts, or -1. */
  function LastEscapedDot(line: string, lo: nat, hi: nat): (p: int)
    decreases hi
    ensures p == -1 || (lo <= p < hi && EscapedDotAt(line, p))
    ensures forall q :: p < q < hi && lo <= q ==> !EscapedDotAt(line, q)
  {
    if hi <= lo then -1
    else if EscapedDotAt(line, hi - 1) then hi - 1
    else LastEscapedDot(line, lo, hi - 1)
  }

  /**
   * One line of `replace(/^(#{1,6} .*)\\(\.)/gm, '$1$2')`: the greedy `.*`
   * picks the last escaped dot after the heading marker, and only its
   * backslash is dropped.
   */
  function EscapeLine(line: string): string
  {
    if IsEscapeHeading(line) then
      var p := LastEscapedDot(line, Level(line) + 1, |line|);
      if p >= 0 then line[..p] + line[p + 1..] else line
    else line
  }

  /** `fixHeadingEscapes`. */
  function FixHeadingEscapes(md: string): string
  {
    MapLines(md, EscapeLine)
  }

  /**
   * The line count is kept. A line that is not an ATX heading, or one with no
   * "\." after its marker, is unchanged; otherwise exactly one backslash is
   * removed, the one of the last "\." on the line.
   */
  lemma EscapeLines(md: string)
    ensures |Split(FixHeadingEscapes(md), '\n')| == |Split(md, '\n')|
    ensures forall i :: 0 <= i < |Split(md, '\n')| ==>
      var line := Split(md, '\n')[i];
      var out := Split(FixHeadingEscapes(md), '\n')[i];
      (!IsEscapeHeading(line) ==> out == line)
      && (IsEscapeHeading(line) ==>
            (out == line && forall q :: Level(line) < q < |line| ==> !EscapedDotAt(line, q))
            || exists p :: Level(line) < p < |line| && EscapedDotAt(line, p)
                 && out == line[..p] + line[p + 1..]
                 && forall q :: p < q < |line| ==> !EscapedDotAt(line, q))
  {
    var ls := Split(md, '\n');
    LinesHaveNoNewline(md);
    forall i | 0 <= i < |ls|
      ensures '\n' !in EscapeLine(ls[i])
    {
      var line := ls[i];
      if IsEscapeHeading(line) {
        var p := LastEscapedDot(line, Level(line) + 1, |line|);
        if p >= 0 {
          assert forall k :: 0 <= k < |line[..p] + line[p + 1..]| ==>
            (line[..p] + line[p + 1..])[k] == if k < p then line[k] else line[k + 1];
        }
      }
    }
    LinesOfMapped(md, EscapeLine);
  }

  // ---------------------------------------------------------------------------
  // Trailing whitespace and the final newline
  // ---------------------------------------------------------------------------

  /** `stripTrailingWhitespace`: `trimEnd` on every line. */
  function StripTrailingWhitespace(md: string): string
  {
    MapLines(md, TrimEnd)
  }

  /**
   * The line count is kept; each line loses exactly its trailing JavaScript
   * whitespace, so no line ends in whitespace.
   */
  lemma StripLines(md: string)
    ensures |Split(StripTrailingWhitespace(md), '\n')| == |Split(md, '\n')|
    ensures forall i :: 0 <= i < |Split(md, '\n')| ==>
      var line := Split(md, '\n')[i];
      var out := Split(StripTrailingWhitespace(md), '\n')[i];
      out == TrimEnd(line) && |out| <= |line| && out == line[..|out|]
      && (out == [] || !IsJsSpace(out[|out| - 1]))
      && forall k :: |out| <= k < |line| ==> IsJsSpace(line[k])
  {
    var ls := Split(md, '\n');
    LinesHaveNoNewline(md);
    forall i | 0 <= i < |ls|
      ensures '\n' !in TrimEnd(ls[i])
    {
      var t := TrimEnd(ls[i]);
      assert forall k :: 0 <= k < |t| ==> t[k] == ls[i][k];
    }
    LinesOfMapped(md, TrimEnd);
  }

  /** The text ends in exactly one '\n'. */
  predicate EndsWithOneNewline(r: string)
  {
    |r| >= 1 && r[|r| - 1] == '\n' && (|r| == 1 || r[|r| - 2] != '\n')
  }

  /** `md.replace(/\n+$/, '') + '\n'` (Python: `md.rstrip('\n') + '\n'`). */
  function EnsureFinalNewline(md: string): (r: string)
    ensures EndsWithOneNewline(r)
    ensures |r| - 1 <= |md| && r[..|r| - 1] == md[..|r| - 1]
    ensures forall k :: |r| - 1 <= k < |md| ==> md[k] == '\n'
  {
    RStripChar(md, '\n') + "\n"
  }

  /** A second application changes nothing. */
  lemma FinalNewlineIdempotent(md: string)
    ensures EnsureFinalNewline(EnsureFinalNewline(md)) == EnsureFinalNewline(md)
  {
    var r := EnsureFinalNewline(md);
    assert RStripChar(r, '\n') == r[..|r| - 1];
  }

  // ---------------------------------------------------------------------------
  // The pipeline
  // ---------------------------------------------------------------------------

  /**
   * `cleanupMarkdown`: heading hierarchy, typography, list markers, heading
   * escapes, blank-line collapse, trailing whitespace, final newline.
   */
  function CleanupMarkdown(md: string): (r: string)
    ensures EndsWithOneNewline(r)
  {
    EnsureFinalNewline(StripTrailingWhitespace(CollapseBlankLines(FixHeadingEscapes(
      FixListFormatting(FixCzechTypography(FixHeadingHierarchy(md)))))))
  }
}

module CleanupFinding {
  import opened Strings
  import opened Cleanup

  /** Applying `f` to every line changes nothing when it fixes every line. */
  lemma MapLinesIdentity(md: string, f: string -> string)
    requires forall i :: 0 <= i < |Split(md, '\n')| ==> f(Split(md, '\n')[i]) == Split(md, '\n')[i]
    ensures MapLines(md, f) == md
  {
    assert MapSeq(Split(md, '\n'), f) == Split(md, '\n');
    SplitThenJoin(md, '\n');
  }

  const Sample: string := "a\n\n\n \nb"

  lemma SampleLines()
    ensures Split(Sample, '\n') == ["a", "", "", " ", "b"]
  {
    assert Sample == "a" + "\n" + "\n\n \nb";
    SplitAround("a", "\n\n \nb", '\n');
    SplitAround("", "\n \nb", '\n');
    SplitAround("", " \nb", '\n');
    SplitAround(" ", "b", '\n');
    SplitWithout("a", '\n');
    SplitWithout(" ", '\n');
    SplitWithout("b", '\n');
    SplitWithout("", '\n');
  }

  /**
   * As written, `cleanupMarkdown` collapses blank lines before it strips
   * trailing whitespace: a whitespace-only line becomes empty only after the
   * collapse, so four consecutive '\n' can survive the pipeline.
   */
  lemma CollapseBeforeStrip(md: string)
    requires md == Sample
    ensures NoFourNewlines(CollapseBlankLines(md))
    ensures !NoFourNewlines(CleanupMarkdown(md))
  {
    SampleEarlyPasses();
    SampleNoFour();
    CollapseIdentity(Sample);
    SampleStripped();
    PipelineOf(md, Stripped);
    StrippedHasFour();
    FinalNewlineKeepsFour(Stripped, 1);
  }

  /** The sample after the strip pass. */
  const Stripped: string := "a\n\n\n\nb"

  lemma StrippedHasFour()
    ensures FourAt(Stripped, 1) && Stripped[|Stripped| - 1] != '\n'
  {
  }

  /** Four '\n' not at the very end survive the final-newline pass. */
  lemma FinalNewlineKeepsFour(x: string, i: nat)
    requires FourAt(x, i) && x[|x| - 1] != '\n'
    ensures !NoFourNewlines(EnsureFinalNewline(x))
  {
    assert RStripChar(x, '\n') == x;
    assert FourAt(x + "\n", i);
  }

  /** The pipeline on a text that only the strip pass changes. */
  lemma PipelineOf(md: string, stripped: string)
    requires FixListFormatting(FixCzechTypography(FixHeadingHierarchy(md))) == md
    requires FixHeadingEscapes(md) == md && CollapseBlankLines(md) == md
    requires StripTrailingWhitespace(md) == stripped
    ensures CleanupMarkdown(md) == EnsureFinalNewline(stripped)
  {
  }

  lemma FourAtExtend(x: string, y: string, i: nat)
    ensures FourAt(x, i) ==> FourAt(x + y, i)
  {
  }

  /** The passes before the collapse leave the sample as it is. */
  lemma SampleEarlyPasses()
    ensures FixListFormatting(FixCzechTypography(FixHeadingHierarchy(Sample))) == Sample
    ensures FixHeadingEscapes(Sample) == Sample
  {
    SampleFirstPasses();
    SampleListPass();
    SampleEscapePass();
  }

  lemma SampleFirstPasses()
    ensures FixCzechTypography(FixHeadingHierarchy(Sample)) == Sample
  {
    assert !HasH1(Sample) by {
      assert forall i :: 0 <= i < |Sample| ==> Sample[i] != '#';
    }
    assert NoneOf(Sample, IsTypographic);
  }

  lemma SampleListPass()
    ensures FixListFormatting(Sample) == Sample
  {
    SampleLinesFixed();
    MapLinesIdentity(Sample, ListLineJs);
  }

  lemma SampleEscapePass()
    ensures FixHeadingEscapes(Sample) == Sample
  {
    SampleLinesFixed();
    MapLinesIdentity(Sample, EscapeLine);
  }

  lemma SampleLinesFixed()
    ensures forall i :: 0 <= i < |Split(Sample, '\n')| ==>
      ListLineJs(Split(Sample, '\n')[i]) == Split(Sample, '\n')[i]
      && EscapeLine(Split(Sample, '\n')[i]) == Split(Sample, '\n')[i]
  {
    SampleLines();
    assert ListLineJs(" ") == " ";
  }

  lemma SampleNoFour()
    ensures NoFourNewlines(Sample)
  {
    forall i: nat | i < |Sample|
      ensures !FourAt(Sample, i)
    {
    }
  }

  lemma SampleStripped()
    ensures StripTrailingWhitespace(Sample) == Stripped
  {
    SampleLines();
    SampleTrimmed();
    SampleJoin();
  }

  lemma SampleTrimmed()
    ensures MapSeq(["a", "", "", " ", "b"], TrimEnd) == ["a", "", "", "", "b"]
  {
    assert TrimEnd(" ") == "";
    var m := MapSeq(["a", "", "", " ", "b"], TrimEnd);
    assert m[3] == TrimEnd(" ");
  }

  lemma SampleJoin()
    ensures Join(["a", "", "", "", "b"], "\n") == Stripped
  {
    assert Join(["", "b"], "\n") == "\nb";
    assert Join(["", "", "b"], "\n") == "\n\nb";
    assert Join(["", "", "", "b"], "\n") == "\n\n\nb";
  }

  lemma FourAtEnd(p: string, i: nat)
    ensures FourAt(p + "\n", i) && i + 3 < |p| ==> FourAt(p, i)
    ensures FourAt(p + "\n", i) && i + 3 == |p| ==> p[|p| - 1] == '\n'
  {
  }

  lemma NoFourPrefix(s: string, n: nat)
    requires n <= |s| && NoFourNewlines(s)
    ensures NoFourNewlines(s[..n])
  {
    forall i: nat | i < n
      ensures !FourAt(s[..n], i)
    {
      assert FourAt(s[..n], i) ==> FourAt(s, i);
    }
  }

  /** The final-newline pass cannot create four consecutive '\n'. */
  lemma FinalNewlineKeepsNoFour(x: string)
    requires NoFourNewlines(x)
    ensures NoFourNewlines(EnsureFinalNewline(x))
  {
    var p := RStripChar(x, '\n');
    NoFourPrefix(x, |p|);
    forall i: nat | i < |p| + 1
      ensures !FourAt(p + "\n", i)
    {
      FourAtEnd(p, i);
    }
  }

  /**
   * The pipeline with trailing whitespace stripped before the collapse: it
   * ends in exactly one '\n' and keeps no run of four '\n'.
   */
  function CleanupMarkdownStripFirst(md: string): (r: string)
    ensures EndsWithOneNewline(r)
    ensures NoFourNewlines(r)
  {
    var stripped := StripTrailingWhitespace(FixHeadingEscapes(
      FixListFormatting(FixCzechTypography(FixHeadingHierarchy(md)))));
    CollapseLeavesNoFour(stripped);
    FinalNewlineKeepsNoFour(CollapseBlankLines(stripped));
    EnsureFinalNewline(CollapseBlankLines(stripped))
  }
}
