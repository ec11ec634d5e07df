/**
 * The PDF converter of _converter/lib/pdf_converter.py.
 *
 * PyMuPDF opens the document, gives its metadata, the text of each page and
 * the font of each line, and `_text_to_markdown` turns the text into Markdown
 * by comparing font sizes as floating-point ratios; none of it is part of this
 * model, which takes the metadata's title entry, the raw text and the Markdown
 * as inputs. What is modelled is the rest of what the converter does with
 * them: the lookup keys of the font table, the fuzzy key search, the
 * first-heading search over the Markdown, the choice of the title and the
 * removal of the title line from the body.
 *
 * Python's `\s` in a `str` pattern is `IsPySpace`, and `.` is any character
 * but '\n'.
 */
module PdfConverter {
  import opened Strings
  import ConverterText
  import RtfConverter

  // ---------------------------------------------------------------------------
  // _normalize_for_lookup
  // ---------------------------------------------------------------------------

  /** `re.sub(r'\s+', ' ', s)`: every run of whitespace becomes one space. */
  function Collapse(s: string): string
    decreases |s|
  {
    if s == [] then []
    else if IsPySpace(s[0]) then " " + Collapse(PyLStrip(s[1..]))
    else [s[0]] + Collapse(s[1..])
  }

  /**
   * Collapsing whitespace never lengthens a text, empties only the empty text,
   * starts with a space exactly when the text starts with whitespace, and leaves
   * single spaces as the only whitespace.
   */
  lemma {:induction false} CollapseShape(s: string)
    ensures var r := Collapse(s);
      |r| <= |s| && (r == [] <==> s == [])
      && (r != [] ==> (r[0] == ' ' <==> IsPySpace(s[0])))
      && SingleSpaced(r)
    decreases |s|
  {
    if s == [] {
    } else if IsPySpace(s[0]) {
      var rest := PyLStrip(s[1..]);
      CollapseShape(rest);
      SpacePrefixed(Collapse(rest));
    } else {
      CollapseShape(s[1..]);
      CharPrefixed(s[0], Collapse(s[1..]));
    }
  }

  /** The only whitespace is ' ', and no two spaces are adjacent. */
  predicate SingleSpaced(r: string)
  {
    (forall k :: 0 <= k < |r| && IsPySpace(r[k]) ==> r[k] == ' ')
    && (forall k :: 0 <= k < |r| - 1 && r[k] == ' ' ==> r[k + 1] != ' ')
  }

  lemma SpacePrefixed(r: string)
    requires SingleSpaced(r) && (r == [] || r[0] != ' ')
    ensures SingleSpaced(" " + r)
  {
    var s := " " + r;
    assert forall k :: 1 <= k < |s| ==> s[k] == r[k - 1];
  }

  lemma CharPrefixed(c: char, r: string)
    requires SingleSpaced(r) && !IsPySpace(c)
    ensures SingleSpaced([c] + r)
  {
    var s := [c] + r;
    assert forall k :: 1 <= k < |s| ==> s[k] == r[k - 1];
  }

  /** A normalized lookup key: lower-case, single spaces, no space in front, at most 60 characters. */
  predicate NormalKey(r: string)
  {
    |r| <= 60 && SingleSpaced(r) && (r == [] || r[0] != ' ')
    && NoUpper(r)
  }

  /** No upper-case letter. */
  predicate NoUpper(r: string)
  {
    forall k :: 0 <= k < |r| ==> !IsUpperChar(r[k])
  }

  /** `_normalize_for_lookup(text)`: `re.sub(r'\s+', ' ', text).strip().lower()[:60]`. */
  function Normalize(text: string): (r: string)
    ensures NormalKey(r)
  {
    var stripped := PyStrip(Collapse(text));
    var full := Lower(stripped);
    CollapseShape(text);
    StripSpacing(Collapse(text));
    LowerSpacing(stripped);
    KeyPrefix(full);
    if |full| <= 60 then full else full[..60]
  }

  /** Stripping a single-spaced text keeps it single-spaced, with no whitespace at either end. */
  lemma StripSpacing(c: string)
    requires SingleSpaced(c)
    ensures var t := PyStrip(c);
      SingleSpaced(t) && (t == [] || (!IsPySpace(t[0]) && !IsPySpace(t[|t| - 1])))
  {
    var l := PyLStrip(c);
    SuffixSpaced(c, |c| - |l|);
    PrefixSpaced(l, |PyRStrip(l)|);
  }

  lemma SuffixSpaced(c: string, i: nat)
    requires SingleSpaced(c) && i <= |c|
    ensures SingleSpaced(c[i..])
  {
    var s := c[i..];
    assert forall k :: 0 <= k < |s| ==> s[k] == c[i + k];
  }

  lemma PrefixSpaced(c: string, n: nat)
    requires SingleSpaced(c) && n <= |c|
    ensures SingleSpaced(c[..n])
  {
    var s := c[..n];
    assert forall k :: 0 <= k < |s| ==> s[k] == c[k];
  }

  /** The first 60 characters of a lower-case, single-spaced text that does not start with a space form a key. */
  lemma KeyPrefix(full: string)
    requires SingleSpaced(full) && (full == [] || full[0] != ' ') && NoUpper(full)
    ensures NormalKey(if |full| <= 60 then full else full[..60])
  {
    if |full| > 60 {
      var p := full[..60];
      assert forall k :: 0 <= k < |p| ==> p[k] == full[k];
    }
  }

  /** Lower-casing neither creates nor removes whitespace, and leaves no upper-case letter. */
  lemma LowerChar(c: char)
    ensures IsPySpace(ToLowerChar(c)) <==> IsPySpace(c)
    ensures IsPySpace(c) ==> ToLowerChar(c) == c
    ensures !IsUpperChar(ToLowerChar(c))
  {
    ConverterText.LowerMapping(c);
  }

  /** Lower-casing a stripped, single-spaced text keeps it so. */
  lemma LowerSpacing(s: string)
    requires SingleSpaced(s) && (s == [] || (!IsPySpace(s[0]) && !IsPySpace(s[|s| - 1])))
    ensures var l := Lower(s);
      SingleSpaced(l) && (l == [] || (l[0] != ' ' && l[|l| - 1] != ' ')) && NoUpper(l)
  {
    var l := Lower(s);
    forall k | 0 <= k < |s|
      ensures (IsPySpace(l[k]) <==> IsPySpace(s[k])) && (IsPySpace(s[k]) ==> l[k] == s[k])
      ensures !IsUpperChar(l[k])
    {
      LowerChar(s[k]);
    }
  }

  /** Stripping the front of a text whose last character is not a space keeps that character. */
  lemma {:induction false} LStripConcat(x: string, y: string)
    requires x != [] && !IsPySpace(x[|x| - 1])
    ensures PyLStrip(x + y) == PyLStrip(x) + y
    ensures PyLStrip(x) != [] && PyLStrip(x)[|PyLStrip(x)| - 1] == x[|x| - 1]
  {
    if IsPySpace(x[0]) {
      assert (x + y)[1..] == x[1..] + y;
      LStripConcat(x[1..], y);
    }
  }

  /** Every character is whitespace. */
  predicate AllSpace(w: string)
  {
    forall k :: 0 <= k < |w| ==> IsPySpace(w[k])
  }

  /** Stripping the front of whitespace followed by a non-space text leaves that text. */
  lemma {:induction false} LStripSpaces(w: string, b: string)
    requires AllSpace(w)
    requires b == [] || !IsPySpace(b[0])
    ensures PyLStrip(w + b) == b
  {
    if w == [] {
      assert w + b == b;
    } else {
      assert (w + b)[1..] == w[1..] + b;
      assert AllSpace(w[1..]) by {
        assert forall k :: 0 <= k < |w[1..]| ==> w[1..][k] == w[k + 1];
      }
      LStripSpaces(w[1..], b);
    }
  }

  /**
   * A run of whitespace between two texts collapses to one space, however
   * long it is and whatever characters it holds.
   */
  lemma {:induction false} CollapseAround(a: string, w: string, b: string)
    requires a == [] || !IsPySpace(a[|a| - 1])
    requires w != [] && AllSpace(w)
    requires b == [] || !IsPySpace(b[0])
    ensures Collapse(a + w + b) == Collapse(a) + " " + Collapse(b)
    decreases |a|, 1
  {
    if a == [] {
      CollapseAroundStart(a, w, b);
    } else if IsPySpace(a[0]) {
      CollapseAroundSpace(a, w, b);
    } else {
      CollapseAroundChar(a, w, b);
    }
  }

  lemma CollapseAroundStart(a: string, w: string, b: string)
    requires a == []
    requires w != [] && AllSpace(w)
    requires b == [] || !IsPySpace(b[0])
    ensures Collapse(a + w + b) == Collapse(a) + " " + Collapse(b)
  {
    assert a + w + b == w + b;
    assert Collapse(a) + " " + Collapse(b) == " " + Collapse(b);
    assert (w + b)[1..] == w[1..] + b;
    CollapseSpaceHead(w + b);
    LStripSpaces(w[1..], b);
  }

  lemma {:induction false} CollapseAroundSpace(a: string, w: string, b: string)
    requires a != [] && IsPySpace(a[0]) && !IsPySpace(a[|a| - 1])
    requires w != [] && AllSpace(w)
    requires b == [] || !IsPySpace(b[0])
    ensures Collapse(a + w + b) == Collapse(a) + " " + Collapse(b)
    decreases |a|, 0
  {
    var u := PyLStrip(a[1..]);
    SpaceStep(a, w, b);
    CollapseAround(u, w, b);
    PrefixAssoc(" ", Collapse(u), " ", Collapse(b));
  }

  /** One step of `CollapseAround` when `a` starts with whitespace: both sides drop it and what follows. */
  lemma SpaceStep(a: string, w: string, b: string)
    requires a != [] && IsPySpace(a[0]) && !IsPySpace(a[|a| - 1])
    ensures var u := PyLStrip(a[1..]);
      |u| < |a| && u != [] && !IsPySpace(u[|u| - 1])
      && Collapse(a + w + b) == " " + Collapse(u + w + b) && Collapse(a) == " " + Collapse(u)
  {
    LStripTail(a, w, b);
    CollapseSpaceHead(a + w + b);
    CollapseSpaceHead(a);
  }

  lemma {:induction false} CollapseAroundChar(a: string, w: string, b: string)
    requires a != [] && !IsPySpace(a[0]) && !IsPySpace(a[|a| - 1])
    requires w != [] && AllSpace(w)
    requires b == [] || !IsPySpace(b[0])
    ensures Collapse(a + w + b) == Collapse(a) + " " + Collapse(b)
    decreases |a|, 0
  {
    assert (a + w + b)[1..] == a[1..] + w + b;
    CollapseCharHead(a + w + b);
    CollapseCharHead(a);
    CollapseAround(a[1..], w, b);
    PrefixAssoc([a[0]], Collapse(a[1..]), " ", Collapse(b));
  }

  /** Stripping the front of `a + w + b` past its first (space) character only reaches into `a`. */
  lemma LStripTail(a: string, w: string, b: string)
    requires a != [] && IsPySpace(a[0]) && !IsPySpace(a[|a| - 1])
    ensures PyLStrip((a + w + b)[1..]) == PyLStrip(a[1..]) + w + b
    ensures PyLStrip(a[1..]) != [] && !IsPySpace(PyLStrip(a[1..])[|PyLStrip(a[1..])| - 1])
  {
    var t := a[1..];
    assert (a + w + b)[1..] == t + (w + b);
    LStripConcat(t, w + b);
    SeqAssoc(PyLStrip(t), w, b);
  }

  lemma PrefixAssoc<T>(p: seq<T>, x: seq<T>, y: seq<T>, z: seq<T>)
    ensures p + (x + y + z) == (p + x) + y + z
  {
  }

  lemma CollapseSpaceHead(s: string)
    requires s != [] && IsPySpace(s[0])
    ensures Collapse(s) == " " + Collapse(PyLStrip(s[1..]))
  {
  }

  lemma CollapseCharHead(s: string)
    requires s != [] && !IsPySpace(s[0])
    ensures Collapse(s) == [s[0]] + Collapse(s[1..])
  {
  }

  /** Two texts that differ only in the whitespace between two words get the same key. */
  lemma NormalizeSpacing(a: string, w1: string, w2: string, b: string)
    requires a == [] || !IsPySpace(a[|a| - 1])
    requires w1 != [] && AllSpace(w1)
    requires w2 != [] && AllSpace(w2)
    requires b == [] || !IsPySpace(b[0])
    ensures Normalize(a + w1 + b) == Normalize(a + w2 + b)
  {
    CollapseAround(a, w1, b);
    CollapseAround(a, w2, b);
  }

  /** A key that is already normal, and does not end in a space, normalizes to itself. */
  lemma NormalizeFixes(key: string)
    requires NormalKey(key) && (key == [] || key[|key| - 1] != ' ')
    ensures Normalize(key) == key
  {
    CollapseKeeps(key);
    assert key == [] || !IsPySpace(key[|key| - 1]);
    assert key == [] || !IsPySpace(key[0]);
    LStripKeeps(key);
    RStripKeeps(key);
    forall k | 0 <= k < |key|
      ensures ToLowerChar(key[k]) == key[k]
    {
    }
    assert Lower(key) == key;
  }

  /** A single-spaced text comes out of `Collapse` unchanged. */
  lemma {:induction false} CollapseKeeps(s: string)
    requires SingleSpaced(s)
    ensures Collapse(s) == s
  {
    if s != [] {
      var t := s[1..];
      assert SingleSpaced(t) by {
        assert forall k :: 0 <= k < |t| ==> t[k] == s[k + 1];
      }
      CollapseKeeps(t);
      if IsPySpace(s[0]) {
        assert t == [] || t[0] != ' ';
        assert t == [] || !IsPySpace(t[0]);
        LStripKeeps(t);
      }
    }
  }

  // ---------------------------------------------------------------------------
  // _fuzzy_font_lookup
  // ---------------------------------------------------------------------------

  /** `s[:n]`. */
  function Take(s: string, n: nat): (r: string)
    ensures |r| <= n && r <= s
    ensures |s| <= n ==> r == s
  {
    if |s| <= n then s else s[..n]
  }

  /** `stored.startswith(short) or short.startswith(stored[:30])`. */
  predicate FuzzyMatch(stored: string, short: string)
  {
    short <= stored || Take(stored, 30) <= short
  }

  /** Entry `j` is the first entry of the table whose key matches `short`. */
  predicate FirstFuzzy<T>(lineSizes: seq<(string, T)>, short: string, j: int)
  {
    0 <= j < |lineSizes| && FuzzyMatch(lineSizes[j].0, short)
    && forall m :: 0 <= m < j ==> !FuzzyMatch(lineSizes[m].0, short)
  }

  /** The first entry at or after `i` whose key matches `short`. */
  function FuzzyFrom<T>(lineSizes: seq<(string, T)>, short: string, i: nat): (r: Option<nat>)
    requires i <= |lineSizes|
    ensures r.Some? ==> i <= r.value < |lineSizes| && FuzzyMatch(lineSizes[r.value].0, short)
    ensures r.Some? ==> forall m :: i <= m < r.value ==> !FuzzyMatch(lineSizes[m].0, short)
    ensures r.None? ==> forall m :: i <= m < |lineSizes| ==> !FuzzyMatch(lineSizes[m].0, short)
    decreases |lineSizes| - i
  {
    if i == |lineSizes| then None
    else if FuzzyMatch(lineSizes[i].0, short) then Some(i)
    else FuzzyFrom(lineSizes, short, i + 1)
  }

  /** What `_fuzzy_font_lookup(key, line_sizes)` returns, the table in insertion order. */
  function Fuzzy<T>(key: string, lineSizes: seq<(string, T)>): (r: Option<T>)
    ensures |key| < 5 ==> r == None
    ensures r.Some? ==> |key| >= 5 && exists j :: FirstFuzzy(lineSizes, Take(key, 30), j) && r.value == lineSizes[j].1
    ensures r.None? && |key| >= 5 ==> forall j :: 0 <= j < |lineSizes| ==> !FuzzyMatch(lineSizes[j].0, Take(key, 30))
  {
    if |key| < 5 then None
    else
      match FuzzyFrom(lineSizes, Take(key, 30), 0)
      case Some(j) =>
        assert FirstFuzzy(lineSizes, Take(key, 30), j);
        Some(lineSizes[j].1)
      case None => None
  }

  /**
   * `_fuzzy_font_lookup(key, line_sizes)`, the table in insertion order: None
   * for a key shorter than five characters, otherwise the value of the first
   * entry whose key starts with the key's first 30 characters or starts them
   * with its own first 30, and None when no entry does.
   */
  method FuzzyFontLookup<T>(key: string, lineSizes: seq<(string, T)>) returns (r: Option<T>)
    ensures r == Fuzzy(key, lineSizes)
    ensures |key| < 5 ==> r == None
    ensures r.Some? ==> |key| >= 5 && exists j :: FirstFuzzy(lineSizes, Take(key, 30), j) && r.value == lineSizes[j].1
    ensures r.None? && |key| >= 5 ==> forall j :: 0 <= j < |lineSizes| ==> !FuzzyMatch(lineSizes[j].0, Take(key, 30))
  {
    if |key| < 5 {
      return None;
    }
    var shortKey := Take(key, 30);
    var i := 0;
    while i < |lineSizes|
      invariant 0 <= i <= |lineSizes|
      invariant forall m :: 0 <= m < i ==> !FuzzyMatch(lineSizes[m].0, shortKey)
      invariant FuzzyFrom(lineSizes, shortKey, i) == FuzzyFrom(lineSizes, shortKey, 0)
    {
      var (storedKey, info) := lineSizes[i];
      if shortKey <= storedKey || Take(storedKey, 30) <= shortKey {
        assert FirstFuzzy(lineSizes, shortKey, i);
        return Some(info);
      }
      i := i + 1;
    }
    return None;
  }

  /** A key of five characters or more matches its own table entry. */
  lemma KeyMatchesItself(key: string)
    ensures FuzzyMatch(key, Take(key, 30))
  {
  }

  /**
   * A key of five characters or more that is stored in the table is always
   * found, though possibly as an earlier entry that matches too.
   */
  lemma StoredKeyFound<T>(key: string, lineSizes: seq<(string, T)>, j: nat)
    requires |key| >= 5 && j < |lineSizes| && lineSizes[j].0 == key
    ensures Fuzzy(key, lineSizes).Some?
  {
    KeyMatchesItself(key);
  }

  /** Two keys that agree on their first 30 characters match each other. */
  lemma SharedPrefixMatches(stored: string, key: string)
    requires |stored| >= 30 && |key| >= 30 && stored[..30] == key[..30]
    ensures FuzzyMatch(stored, Take(key, 30))
  {
  }

  /** A stored key that is a prefix of the looked-up key matches it, however short the stored key is. */
  lemma ShortStoredKeyMatches(stored: string, key: string)
    requires stored <= key && |stored| <= 30
    ensures FuzzyMatch(stored, Take(key, 30))
  {
    if |key| > 30 {
      assert key[..30][..|stored|] == key[..|stored|];
    }
  }

  /** Keys that differ within the first 30 characters of both match neither way. */
  lemma DifferentKeysDoNotMatch(stored: string, key: string, k: nat)
    requires k < 30 && k < |stored| && k < |key| && stored[k] != key[k]
    ensures !FuzzyMatch(stored, Take(key, 30))
  {
    var short := Take(key, 30);
    assert short[k] == key[k];
    assert Take(stored, 30)[k] == stored[k];
  }

  // ---------------------------------------------------------------------------
  // Heading patterns
  // ---------------------------------------------------------------------------

  /** The number of '#' characters starting at `p`. */
  function HashRun(s: string, p: nat): (n: nat)
    requires p <= |s|
    ensures p + n <= |s|
    ensures forall j :: p <= j < p + n ==> s[j] == '#'
    ensures p + n == |s| || s[p + n] != '#'
    decreases |s| - p
  {
    if p < |s| && s[p] == '#' then 1 + HashRun(s, p + 1) else 0
  }

  /** The end of the run of whitespace (`\s`) starting at `p`. */
  function SpaceEnd(s: string, p: nat): (r: nat)
    requires p <= |s|
    ensures p <= r <= |s|
    ensures forall j :: p <= j < r ==> IsPySpace(s[j])
    ensures r == |s| || !IsPySpace(s[r])
    decreases |s| - p
  {
    if p < |s| && IsPySpace(s[p]) then SpaceEnd(s, p + 1) else p
  }

  /** The last position in `[lo, hi)` that does not hold '\n'. */
  function LastNonBreak(s: string, lo: nat, hi: nat): (r: Option<nat>)
    requires lo <= hi <= |s|
    ensures r.Some? ==> lo <= r.value < hi && s[r.value] != '\n'
    ensures r.Some? ==> forall j :: r.value < j < hi ==> s[j] == '\n'
    ensures r.None? ==> forall j :: lo <= j < hi ==> s[j] == '\n'
    decreases hi - lo
  {
    if hi == lo then None
    else if s[hi - 1] != '\n' then Some(hi - 1)
    else LastNonBreak(s, lo, hi - 1)
  }

  /**
   * Group 1 of `^#{lo,6}\s+(.+)$` tried at position `p` in multi-line mode:
   * the line must start at `p` with `lo` to six '#' and a whitespace; `\s+`
   * takes all the whitespace that follows, across line breaks, and gives back
   * characters only when it ran to the end of the text, until `.+` can take
   * one that is not '\n'.
   */
  function HeadingMatch(s: string, p: nat, lo: nat): (r: Option<string>)
    requires p <= |s|
    ensures r.Some? ==> AtLineStart(s, p) && lo <= HashRun(s, p) <= 6
    ensures r.Some? ==> p + HashRun(s, p) < |s| && IsPySpace(s[p + HashRun(s, p)])
    ensures r.Some? ==> r.value != [] && '\n' !in r.value
  {
    var h := HashRun(s, p);
    if !AtLineStart(s, p) || h < lo || h > 6 || p + h == |s| || !IsPySpace(s[p + h]) then None
    else
      var e := SpaceEnd(s, p + h);
      if e < |s| then Some(s[e..LineEnd(s, e)])
      else
        match LastNonBreak(s, p + h + 1, e)
        case None => None
        case Some(t) => Some(s[t..LineEnd(s, t)])
  }

  // ---------------------------------------------------------------------------
  // _extract_first_heading
  // ---------------------------------------------------------------------------

  /** The heading pattern matches at no position from `a` up to `b`. */
  predicate NoHeadingBetween(md: string, a: nat, b: nat)
    requires b <= |md| + 1
  {
    forall m :: a <= m < b ==> HeadingMatch(md, m, 2).None?
  }

  /** The first position at or after `p` where the heading pattern matches. */
  function FirstHeadingAt(md: string, p: nat): (r: Option<nat>)
    requires p <= |md|
    ensures r.Some? ==> p <= r.value <= |md| && HeadingMatch(md, r.value, 2).Some?
    ensures r.Some? ==> NoHeadingBetween(md, p, r.value)
    ensures r.None? ==> NoHeadingBetween(md, p, |md| + 1)
    decreases |md| - p
  {
    if HeadingMatch(md, p, 2).Some? then Some(p)
    else if p == |md| then None
    else
      NoHeadingNext(md, p);
      FirstHeadingAt(md, p + 1)
  }

  lemma NoHeadingNext(md: string, p: nat)
    requires p < |md| && HeadingMatch(md, p, 2).None?
    ensures forall j :: p + 1 <= j <= |md| + 1 && NoHeadingBetween(md, p + 1, j) ==> NoHeadingBetween(md, p, j)
  {
  }

  /** `_extract_first_heading(markdown)`: the stripped text of the first heading of level 2 to 6. */
  function ExtractFirstHeading(md: string): (r: Option<string>)
    ensures r.Some? ==> exists q :: 0 <= q <= |md| && HeadingMatch(md, q, 2).Some? && NoHeadingBetween(md, 0, q)
                          && r.value == PyStrip(HeadingMatch(md, q, 2).value)
    ensures r.None? ==> NoHeadingBetween(md, 0, |md| + 1)
  {
    match FirstHeadingAt(md, 0)
    case Some(q) => Some(PyStrip(HeadingMatch(md, q, 2).value))
    case None => None
  }

  /** A text that starts with a non-space and holds no line break. */
  predicate LineText(t: string)
  {
    t != [] && !IsPySpace(t[0]) && '\n' !in t
  }

  /** `## text` on the first line is read back as the heading `text`, stripped. */
  lemma SecondLevelHeadingFound(t: string, rest: string)
    requires LineText(t)
    ensures ExtractFirstHeading("## " + t + "\n" + rest) == Some(PyStrip(t))
  {
    var md := "## " + t + "\n" + rest;
    HeadingMatchAtStart(md, "## ", t, rest);
  }

  /** As written, `\s+` crosses a line break: `##` alone on a line takes the next line as its text. */
  lemma BareHashesTakeNextLine(t: string)
    requires LineText(t)
    ensures ExtractFirstHeading("##\n" + t) == Some(PyStrip(t))
  {
    var md := "##\n" + t;
    assert HashRun(md, 2) == 0;
    assert HashRun(md, 1) == 1;
    assert HashRun(md, 0) == 2;
    assert md[2] == '\n' && md[3] == t[0];
    assert SpaceEnd(md, 3) == 3;
    assert SpaceEnd(md, 2) == 3;
    assert md[3..] == t;
    assert forall j :: 3 <= j < |md| ==> md[j] == t[j - 3];
    LineEndAll(md, 3);
    assert md[3..LineEnd(md, 3)] == t;
    assert AtLineStart(md, 0) && IsPySpace(md[2]) && 3 < |md|;
    assert HeadingMatch(md, 0, 2) == Some(t);
  }

  /** `LineEnd` from a position after which no '\n' occurs is the end of the text. */
  lemma {:induction false} LineEndAll(s: string, p: nat)
    requires p <= |s| && forall j :: p <= j < |s| ==> s[j] != '\n'
    ensures LineEnd(s, p) == |s|
    decreases |s| - p
  {
    if p < |s| {
      LineEndAll(s, p + 1);
    }
  }

  /** The heading pattern matches at the start of `hashes + t + '\n' + rest` with group `t`. */
  lemma HeadingMatchAtStart(md: string, hashes: string, t: string, rest: string)
    requires hashes == "## " && LineText(t) && md == hashes + t + "\n" + rest
    ensures ExtractFirstHeading(md) == Some(PyStrip(t))
  {
    assert md[0] == '#' && md[1] == '#' && md[2] == ' ';
    assert HashRun(md, 2) == 0;
    assert HashRun(md, 1) == 1;
    assert HashRun(md, 0) == 2;
    assert md[3] == t[0];
    assert SpaceEnd(md, 3) == 3;
    assert SpaceEnd(md, 2) == 3;
    var e := 3 + |t|;
    assert md[e] == '\n';
    assert forall j :: 3 <= j < e ==> md[j] == t[j - 3];
    LineEndAt(md, 3, e);
    assert md[3..e] == t;
    assert HeadingMatch(md, 0, 2) == Some(t);
  }

  /** `LineEnd` stops at the first '\n'. */
  lemma LineEndAt(s: string, p: nat, e: nat)
    requires p <= e < |s| && s[e] == '\n' && forall j :: p <= j < e ==> s[j] != '\n'
    ensures LineEnd(s, p) == e
  {
  }

  /** A first-level heading is not a heading here. */
  lemma FirstLevelIgnored(t: string)
    requires '\n' !in t
    ensures ExtractFirstHeading("# " + t).None?
  {
    var md := "# " + t;
    assert md[1] == ' ';
    assert HashRun(md, 1) == 0;
    assert HashRun(md, 0) == 1;
    forall q | 0 <= q <= |md|
      ensures HeadingMatch(md, q, 2).None?
    {
      if q > 0 {
        assert md[q - 1] != '\n' by {
          if q - 1 >= 2 {
            assert md[q - 1] == t[q - 3];
          }
        }
      }
    }
  }

  // ---------------------------------------------------------------------------
  // _remove_title_from_content
  // ---------------------------------------------------------------------------

  /**
   * Line `i` is the title line: its stripped text is a heading (one to six
   * '#') whose text is the title, compared case-insensitively, or, among the
   * first five lines, the stripped text itself is the title.
   */
  predicate IsTitleLine(line: string, titleNorm: string, i: nat)
  {
    var stripped := PyStrip(line);
    var g := HeadingMatch(stripped, 0, 1);
    (g.Some? && Lower(PyStrip(g.value)) == titleNorm) || (Lower(stripped) == titleNorm && i < 5)
  }

  /** No line from `a` up to `b` is the title line. */
  predicate NoTitleBetween(lines: seq<string>, titleNorm: string, a: nat, b: nat)
    requires b <= |lines|
  {
    forall m :: a <= m < b ==> !IsTitleLine(lines[m], titleNorm, m)
  }

  /** The first title line at or after `k`. */
  function FirstTitleLine(lines: seq<string>, titleNorm: string, k: nat): (r: Option<nat>)
    requires k <= |lines|
    ensures r.Some? ==> k <= r.value < |lines| && IsTitleLine(lines[r.value], titleNorm, r.value)
    ensures r.Some? ==> NoTitleBetween(lines, titleNorm, k, r.value)
    ensures r.None? ==> NoTitleBetween(lines, titleNorm, k, |lines|)
    decreases |lines| - k
  {
    if k == |lines| then None
    else if IsTitleLine(lines[k], titleNorm, k) then Some(k)
    else
      NotTitleNext(lines, titleNorm, k);
      FirstTitleLine(lines, titleNorm, k + 1)
  }

  lemma NotTitleNext(lines: seq<string>, titleNorm: string, k: nat)
    requires k < |lines| && !IsTitleLine(lines[k], titleNorm, k)
    ensures forall j :: k + 1 <= j <= |lines| && NoTitleBetween(lines, titleNorm, k + 1, j) ==>
      NoTitleBetween(lines, titleNorm, k, j)
  {
  }

  /** `title.strip().lower()`. */
  function TitleNorm(title: string): string
  {
    Lower(PyStrip(title))
  }

  /** The lines after `_remove_title_from_content`: the title line emptied, and the blank line after it. */
  function TitleRemoved(lines: seq<string>, title: string): seq<string>
  {
    match FirstTitleLine(lines, TitleNorm(title), 0)
    case None => lines
    case Some(i) => ConverterText.BlankFrom(lines, i)
  }

  /** `_remove_title_from_content` on the line list, in place: the loop with its two `break`s. */
  method BlankTitleLine(a: array<string>, title: string)
    modifies a
    ensures a[..] == TitleRemoved(old(a[..]), title)
  {
    ghost var lines := a[..];
    var titleNormalized := Lower(PyStrip(title));
    var i := 0;
    while i < a.Length
      invariant 0 <= i <= a.Length
      invariant a[..] == lines
      invariant FirstTitleLine(lines, titleNormalized, i) == FirstTitleLine(lines, titleNormalized, 0)
    {
      var stripped := PyStrip(a[i]);
      var headingMatch := HeadingMatch(stripped, 0, 1);
      if headingMatch.Some? && Lower(PyStrip(headingMatch.value)) == titleNormalized {
        assert IsTitleLine(lines[i], titleNormalized, i);
        a[i] := "";
        if i + 1 < a.Length && PyStrip(a[i + 1]) == "" {
          a[i + 1] := "";
        }
        return;
      } else if Lower(stripped) == titleNormalized && i < 5 {
        assert IsTitleLine(lines[i], titleNormalized, i);
        a[i] := "";
        if i + 1 < a.Length && PyStrip(a[i + 1]) == "" {
          a[i + 1] := "";
        }
        return;
      }
      assert !IsTitleLine(lines[i], titleNormalized, i);
      i := i + 1;
    }
  }

  /** `_remove_title_from_content(markdown, title)`. */
  method RemoveTitleFromContent(markdown: string, title: string) returns (r: string)
    ensures r == Join(TitleRemoved(Split(markdown, '\n'), title), "\n")
  {
    var lines := Split(markdown, '\n');
    var a := new string[|lines|](k requires 0 <= k < |lines| => lines[k]);
    assert a[..] == lines;
    BlankTitleLine(a, title);
    r := Join(a[..], "\n");
  }

  /**
   * The removal keeps the number of lines and changes at most the title line
   * and the blank line right after it, both to empty lines; a line that is
   * not a heading is removed only among the first five.
   */
  lemma TitleRemovedShape(lines: seq<string>, title: string)
    ensures |TitleRemoved(lines, title)| == |lines|
    ensures forall k :: 0 <= k < |lines| && TitleRemoved(lines, title)[k] != lines[k] ==>
      TitleRemoved(lines, title)[k] == ""
      && FirstTitleLine(lines, TitleNorm(title), 0).Some?
      && var i := FirstTitleLine(lines, TitleNorm(title), 0).value;
         k == i || (k == i + 1 && PyStrip(lines[k]) == "")
    ensures FirstTitleLine(lines, TitleNorm(title), 0).None? ==> TitleRemoved(lines, title) == lines
    ensures FirstTitleLine(lines, TitleNorm(title), 0).Some? ==>
      var i := FirstTitleLine(lines, TitleNorm(title), 0).value;
      TitleRemoved(lines, title)[i] == "" && (i >= 5 ==> HeadingMatch(PyStrip(lines[i]), 0, 1).Some?)
  {
    var first := FirstTitleLine(lines, TitleNorm(title), 0);
    if first.Some? {
      ConverterText.BlankFromShape(lines, first.value);
    }
  }

  /** The Markdown after the removal has exactly the lines of `TitleRemoved`, so as many as before. */
  lemma TitleRemovalKeepsLines(markdown: string, title: string)
    ensures var lines := Split(markdown, '\n');
      Split(Join(TitleRemoved(lines, title), "\n"), '\n') == TitleRemoved(lines, title)
      && |TitleRemoved(lines, title)| == |lines|
  {
    var lines := Split(markdown, '\n');
    TitleRemovedShape(lines, title);
    SplitNoSep(markdown, '\n');
    ConverterText.BlankedLinesRejoin(lines, TitleRemoved(lines, title));
  }

  /** A heading whose text is the title, in any letter case, is the title line. */
  lemma HeadingIsTitleLine(t: string, title: string, i: nat)
    requires LineText(t) && !IsPySpace(t[|t| - 1]) && Lower(t) == TitleNorm(title)
    ensures IsTitleLine("## " + t, TitleNorm(title), i)
  {
    var line := "## " + t;
    assert line[0] == '#' && line[|line| - 1] == t[|t| - 1];
    LStripKeeps(line);
    RStripKeeps(line);
    SecondLevelMatch(t, 1);
    LStripKeeps(t);
    RStripKeeps(t);
  }

  /** `## t` alone on its line matches the heading pattern with group `t`. */
  lemma SecondLevelMatch(t: string, lo: nat)
    requires LineText(t) && lo <= 2
    ensures HeadingMatch("## " + t, 0, lo) == Some(t)
  {
    var line := "## " + t;
    assert line[0] == '#' && line[1] == '#' && line[2] == ' ';
    assert HashRun(line, 2) == 0;
    assert HashRun(line, 1) == 1;
    assert HashRun(line, 0) == 2;
    assert line[3] == t[0];
    assert SpaceEnd(line, 3) == 3;
    assert SpaceEnd(line, 2) == 3;
    assert line[3..] == t;
    assert forall j :: 3 <= j < |line| ==> line[j] == t[j - 3];
    LineEndAll(line, 3);
    assert line[3..LineEnd(line, 3)] == t;
  }

  // ---------------------------------------------------------------------------
  // The title of convert_pdf
  // ---------------------------------------------------------------------------

  /**
   * `_extract_title_from_metadata(doc)` on the metadata's title entry (None
   * when it is missing): the stripped entry, unless that is empty,
   * 'untitled' or 'microsoft word' in any letter case.
   */
  function MetadataTitle(meta: Option<string>): (r: Option<string>)
    ensures r.Some? ==> meta.Some? && r.value == PyStrip(meta.value) && r.value != []
    ensures r.Some? ==> Lower(r.value) != "untitled" && Lower(r.value) != "microsoft word"
    ensures r.None? && meta.Some? ==> var t := PyStrip(meta.value);
      t == [] || Lower(t) == "untitled" || Lower(t) == "microsoft word"
  {
    if meta.None? || meta.value == [] then None
    else
      var title := PyStrip(meta.value);
      if title != [] && Lower(title) != "untitled" && Lower(title) != "microsoft word" && Lower(title) != ""
      then Some(title)
      else None
  }

  /**
   * The title `convert_pdf` settles on: the metadata title; else the first
   * heading of the Markdown when it is not empty; else the first line of the
   * raw text longer than three characters, stripped; else the file-name title.
   */
  function PdfTitle(meta: Option<string>, markdown: string, rawText: string, filepath: string): (r: string)
    ensures MetadataTitle(meta).Some? ==> r == MetadataTitle(meta).value
    ensures MetadataTitle(meta).None? && ExtractFirstHeading(markdown).Some? && ExtractFirstHeading(markdown).value != [] ==>
      r == ExtractFirstHeading(markdown).value
    ensures MetadataTitle(meta).None? && (ExtractFirstHeading(markdown).None? || ExtractFirstHeading(markdown).value == []) ==>
      RtfConverter.TitleOf(Split(rawText, '\n'), filepath, r)
  {
    var fromMeta := MetadataTitle(meta);
    if fromMeta.Some? then fromMeta.value
    else
      var heading := ExtractFirstHeading(markdown);
      if heading.Some? && heading.value != [] then heading.value
      else RtfConverter.ExtractTitle(rawText, filepath)
  }

  /** The title is empty only when it is the file-name title. */
  lemma PdfTitleNonEmpty(meta: Option<string>, markdown: string, rawText: string, filepath: string)
    ensures var r := PdfTitle(meta, markdown, rawText, filepath);
      r != [] || r == ConverterText.FilenameTitle(filepath)
  {
    var r := PdfTitle(meta, markdown, rawText, filepath);
    if MetadataTitle(meta).None? && (ExtractFirstHeading(markdown).None? || ExtractFirstHeading(markdown).value == []) {
      var lines := Split(rawText, '\n');
      assert RtfConverter.TitleOf(lines, filepath, r);
      if exists j :: RtfConverter.IsFirstLong(lines, j) && r == PyStrip(lines[j]) {
        var j :| RtfConverter.IsFirstLong(lines, j) && r == PyStrip(lines[j]);
        assert |r| > 3;
      }
    }
  }

  /**
   * The last steps of `convert_pdf`, after PyMuPDF: the title, and the
   * Markdown without its title line.
   */
  method ConvertPdf(meta: Option<string>, markdown: string, rawText: string, filepath: string)
    returns (title: string, content: string)
    ensures title == PdfTitle(meta, markdown, rawText, filepath)
    ensures Split(content, '\n') == TitleRemoved(Split(markdown, '\n'), title)
  {
    title := PdfTitle(meta, markdown, rawText, filepath);
    content := RemoveTitleFromContent(markdown, title);
    TitleRemovalKeepsLines(markdown, title);
  }
}
