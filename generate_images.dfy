// The text-processing half of the image generator script: splitting the
// article, naming and captioning generated images, rendering them as
// Markdown, placing them in the body and recording the featured image in the
// front matter. The Gemini calls, image encoding and file writes are not part
// of this model.

module GenerateImages {
  import opened Strings
  import opened Slug
  import SlugPy
  import ImageUtils
  import ImageRefs
  import Translation

  // ---------------------------------------------------------------------------
  // split_frontmatter
  // ---------------------------------------------------------------------------

  /** The front matter block (delimiters included) and the body, or the exit status. */
  datatype Divided = Parts(frontmatter: string, body: string) | Exit(status: int)

  /**
   * `re.match(r'^(---\n.*?\n---)\n?(.*)', content, re.DOTALL)`: the block runs
   * to the first "\n---" after the opening line, one newline after it is
   * dropped; without a match the script exits with status 2.
   */
  function SplitFrontmatter(content: string): (r: Divided)
    ensures r.Exit? ==> r.status == 2
    ensures r.Parts? ==>
              && |r.frontmatter| >= 7
              && r.frontmatter[..4] == "---\n"
              && r.frontmatter[|r.frontmatter| - 4..] == "\n---"
              && (content == r.frontmatter + r.body || content == r.frontmatter + "\n" + r.body)
  {
    if |content| >= 4 && content[..4] == "---\n" then
      var k := IndexOfFrom(content, "\n---", 4);
      if k < 0 then Exit(2)
      else
        var rest := content[k + 4..];
        assert content == content[..k + 4] + rest;
        var body := if |rest| > 0 && rest[0] == '\n' then rest[1..] else rest;
        assert rest == body || rest == "\n" + body;
        Parts(content[..k + 4], body)
    else Exit(2)
  }

  /**
   * The script and the translation library accept the same articles and cut
   * them at the same place: the block is the library's YAML between the
   * delimiters, and the bodies agree.
   */
  lemma SplitAgreesWithLibrary(content: string)
    ensures SplitFrontmatter(content).Exit? <==> Translation.SplitFrontmatter(content).None?
    ensures SplitFrontmatter(content).Parts? ==>
              var f := Translation.SplitFrontmatter(content).value;
              && SplitFrontmatter(content).frontmatter == "---\n" + f.yaml + "\n---"
              && SplitFrontmatter(content).body == f.body
  {
    if |content| >= 4 && content[..4] == "---\n" {
      var k := IndexOfFrom(content, "\n---", 4);
      if k >= 0 {
        assert content[..k + 4] == content[..4] + content[4..k] + content[k..k + 4];
      }
    }
  }

  // ---------------------------------------------------------------------------
  // _prompt_to_filename
  // ---------------------------------------------------------------------------

  /** `f'gen-{index + 1:03d}'`. */
  function GenName(index: nat): string
  {
    "gen-" + Pad3(index + 1)
  }

  /** The slug of `_prompt_to_filename` before the fallback. */
  function PromptSlugPy(prompt: string, maxLength: nat): string
  {
    var slug := TrimHyphens(CollapseSeparators(PyStrip(Lower(prompt))));
    SlugPy.TruncatePy(slug, maxLength)
  }

  /**
   * `_prompt_to_filename(prompt, index, max_length)`: `gen-NNN`, numbered
   * from `index + 1`, exactly when the lower-cased prompt has no letter or
   * digit of `[a-z0-9]`; otherwise a slug of at most `max_length` characters.
   */
  function PromptToFilename(prompt: string, index: nat, maxLength: nat): (r: string)
    ensures ImageUtils.NoSlugChar(Lower(prompt)) ==> r == GenName(index)
    ensures !ImageUtils.NoSlugChar(Lower(prompt)) && maxLength > 0 ==> IsSlug(r) && 0 < |r| <= maxLength
    ensures r == GenName(index) || (IsSlug(r) && 0 < |r| <= maxLength)
  {
    var slug := PromptSlugPy(prompt, maxLength);
    SlugAgrees(prompt, maxLength);
    ImageUtils.SlugShape(Lower(prompt), maxLength);
    if slug == [] then GenName(index) else slug
  }

  /** The fallback names are distinct for distinct indices and at least three digits wide. */
  lemma GenNamesDistinct(i: nat, j: nat)
    ensures |GenName(i)| >= 7 && GenName(i)[..4] == "gen-"
    ensures GenName(i) == GenName(j) ==> i == j
  {
    if GenName(i) == GenName(j) {
      var a, b := Decimal(i + 1), Decimal(j + 1);
      assert Pad3(i + 1) == GenName(i)[4..] == GenName(j)[4..] == Pad3(j + 1);
      PadInjective(i + 1, j + 1);
    }
  }

  lemma PadInjective(a: nat, b: nat)
    requires Pad3(a) == Pad3(b)
    ensures a == b
  {
    var da, db := Decimal(a), Decimal(b);
    NoLeadingZero(a);
    NoLeadingZero(b);
    if |da| < 3 {
      assert Pad3(a)[3 - |da|..] == da;
    }
    if |db| < 3 {
      assert Pad3(b)[3 - |db|..] == db;
    }
    DecimalInjective(a, b);
  }

  /** A decimal numeral of more than one digit does not start with '0'. */
  lemma {:induction false} NoLeadingZero(n: nat)
    ensures |Decimal(n)| > 1 ==> Decimal(n)[0] != '0'
    decreases n
  {
    if n >= 10 {
      NoLeadingZero(n / 10);
      assert Decimal(n)[0] == Decimal(n / 10)[0];
    }
  }

  /** What `str.strip()` removes on the left is whitespace. */
  lemma {:induction false} PyLStripRemoves(s: string)
    ensures forall i :: 0 <= i < |s| - |PyLStrip(s)| ==> IsPySpace(s[i])
  {
    if |s| > 0 && IsPySpace(s[0]) {
      PyLStripRemoves(s[1..]);
    }
  }

  lemma PySpaceNotSlug(c: char)
    requires IsPySpace(c)
    ensures !IsSlugChar(c)
  {
  }

  lemma PySpacesNoSlug(s: string)
    requires forall i :: 0 <= i < |s| ==> IsPySpace(s[i])
    ensures ImageUtils.NoSlugChar(s)
  {
    forall i | 0 <= i < |s|
      ensures !IsSlugChar(s[i])
    {
      PySpaceNotSlug(s[i]);
    }
  }

  /** What Python's `strip()` removes: whitespace before and after, never a letter or digit. */
  lemma PyStripParts(x: string) returns (front: string, back: string)
    ensures x == front + PyStrip(x) + back
    ensures ImageUtils.NoSlugChar(front) && ImageUtils.NoSlugChar(back)
  {
    var a := PyLStrip(x);
    front := PyLeftPart(x);
    back := PyRightPart(a);
    SeqAssoc(front, PyRStrip(a), back);
  }

  lemma PyLeftPart(x: string) returns (front: string)
    ensures x == front + PyLStrip(x) && ImageUtils.NoSlugChar(front)
  {
    front := x[..|x| - |PyLStrip(x)|];
    PyLStripRemoves(x);
    PySpacesNoSlug(front);
  }

  lemma PyRightPart(a: string) returns (back: string)
    ensures a == PyRStrip(a) + back && ImageUtils.NoSlugChar(back)
  {
    back := a[|PyRStrip(a)|..];
    PySpacesNoSlug(back);
  }

  /** The script's slug is the front end's: stripping first, and which whitespace it strips, is immaterial. */
  lemma SlugAgrees(prompt: string, maxLength: nat)
    ensures PromptSlugPy(prompt, maxLength) == ImageUtils.FilenameSlug(prompt, maxLength)
  {
    var slug := PyStripImmaterial(Lower(prompt));
    SlugPy.TruncateAgrees(slug, maxLength);
    if |slug| > maxLength {
      ImageUtils.CutIsTruncate(slug, maxLength);
    }
  }

  /** Python's `strip` in place of JavaScript's `trim` leaves the slug alone. */
  lemma PyStripImmaterial(x: string) returns (slug: string)
    ensures slug == TrimHyphens(CollapseSeparators(PyStrip(x))) == ImageUtils.PromptSlug(x)
    ensures IsSlug(slug)
  {
    slug := TrimHyphens(CollapseSeparators(PyStrip(x)));
    var front, back := PyStripParts(x);
    ImageUtils.CollapseIgnoresEnds(front, PyStrip(x), back);
    ImageUtils.TrimImmaterial(x);
    ImageUtils.StrippedSlug(x);
  }

  /**
   * Both generators of file names from prompts produce the same name: the
   * script's, numbered for the first image, equals the front end's
   * `promptToFilename`, whose fallback is always 'gen-001'.
   */
  lemma FilenameAgreesWithFrontEnd(prompt: string, maxLength: nat)
    ensures PromptToFilename(prompt, 0, maxLength) == ImageUtils.PromptToFilename(prompt, maxLength)
  {
    SlugAgrees(prompt, maxLength);
    FirstGenName();
  }

  /** The first image's fallback name is the front end's 'gen-001'. */
  lemma FirstGenName()
    ensures GenName(0) == ImageUtils.FallbackName
  {
    assert DigitChar(1) == '1';
    assert Decimal(1) == ['1'];
    var zeros := seq(2, _ => '0');
    assert zeros == ['0', '0'];
    assert Pad3(1) == zeros + ['1'];
  }

  // ---------------------------------------------------------------------------
  // _prompt_to_alt and _prompt_to_title
  // ---------------------------------------------------------------------------

  /** `prompt.strip().rstrip('.')` with a lower-case first letter upper-cased. */
  function CleanCaption(prompt: string): (r: string)
    ensures var a := RStripChar(PyStrip(prompt), '.');
            && |r| == |a|
            && (r != [] ==> r[1..] == a[1..])
            && (a != [] && IsLowerChar(a[0]) ==> r[0] == ToUpperChar(a[0]) && ToUpperChar(r[0]) == r[0])
            && (a == [] || !IsLowerChar(a[0]) ==> r == a)
            && (a != [] ==> a[|a| - 1] != '.')
  {
    var a := RStripChar(PyStrip(prompt), '.');
    if a != [] && IsLowerChar(a[0]) then
      ImageUtils.UpperIdempotent(a[0]);
      [ToUpperChar(a[0])] + a[1..]
    else a
  }

  /** `t.rsplit(' ', 1)[0]`: everything before the last space, all of `t` without one. */
  function BeforeLastSpace(t: string): (r: string)
    ensures r <= t
    ensures ' ' !in t ==> r == t
    ensures ' ' in t ==> |r| < |t| && t[|r|] == ' ' && forall j :: |r| < j < |t| ==> t[j] != ' '
  {
    var h := LastIndexOf(t, ' ');
    if h >= 0 then t[..h] else t
  }

  /**
   * A caption limited to `maxLength` characters: the clean caption when it
   * fits, otherwise the first `maxLength - 3` characters cut before their
   * last space, followed by '...'.
   */
  function Caption(prompt: string, maxLength: nat): (r: string)
    requires maxLength >= 3
    ensures |r| <= maxLength
    ensures |CleanCaption(prompt)| <= maxLength ==> r == CleanCaption(prompt)
    ensures |CleanCaption(prompt)| > maxLength ==>
              && |r| >= 3
              && r[|r| - 3..] == "..."
              && r[..|r| - 3] <= CleanCaption(prompt)[..maxLength - 3]
  {
    var c := CleanCaption(prompt);
    if |c| > maxLength then
      var head := BeforeLastSpace(c[..maxLength - 3]);
      assert (head + "...")[..|head|] == head;
      head + "..."
    else c
  }

  /** `_prompt_to_alt`: at most 125 characters. */
  function PromptToAlt(prompt: string): (r: string)
    ensures |r| <= 125
    ensures |CleanCaption(prompt)| <= 125 ==> r == CleanCaption(prompt)
    ensures |CleanCaption(prompt)| > 125 ==> |r| >= 3 && r[|r| - 3..] == "..." && r[..|r| - 3] <= CleanCaption(prompt)[..122]
  {
    Caption(prompt, 125)
  }

  /** `_prompt_to_title`: at most 200 characters. */
  function PromptToTitle(prompt: string): (r: string)
    ensures |r| <= 200
    ensures |CleanCaption(prompt)| <= 200 ==> r == CleanCaption(prompt)
    ensures |CleanCaption(prompt)| > 200 ==> |r| >= 3 && r[|r| - 3..] == "..." && r[..|r| - 3] <= CleanCaption(prompt)[..197]
  {
    Caption(prompt, 200)
  }

  /** A prompt short enough for the alt text gives the same alt text and title. */
  lemma ShortPromptSameCaptions(prompt: string)
    requires |CleanCaption(prompt)| <= 125
    ensures PromptToAlt(prompt) == PromptToTitle(prompt) == CleanCaption(prompt)
  {
  }

  // ---------------------------------------------------------------------------
  // _image_markdown
  // ---------------------------------------------------------------------------

  /** One generated image: its public path, alt text and title. */
  datatype GenImage = GenImage(path: string, alt: string, title: string)

  /** `![alt](path "title")`. */
  function ImageMarkdown(img: GenImage): (r: string)
    ensures |r| == |img.alt| + |img.path| + |img.title| + 8
  {
    "![" + img.alt + "](" + img.path + " \"" + img.title + "\")"
  }

  /** No character of the path closes the link or is whitespace. */
  predicate PlainPath(path: string)
  {
    forall i :: 0 <= i < |path| ==> path[i] != ')' && !IsJsSpace(path[i])
  }

  /** The Markdown can be read back: the image scanner of the translation library finds exactly this image. */
  predicate Readable(img: GenImage)
  {
    ']' !in img.alt && img.path != [] && PlainPath(img.path) && '"' !in img.title
  }

  /**
   * The reference written for an image is read back, whole, as that image by
   * the image scanner of the translation library: alt text, path and title.
   */
  lemma ImageMarkdownReadBack(img: GenImage)
    requires Readable(img)
    ensures ImageRefs.MatchAt(ImageMarkdown(img), 0)
            == Some(ImageRefs.Match(ImageRefs.Image(img.alt, img.path, Some(ImageRefs.Title(" ", img.title))),
                                    |ImageMarkdown(img)|))
  {
    var s := ImageMarkdown(img);
    var k := 2 + |img.alt|;
    var e := k + 2 + |img.path|;
    var c := e + 2 + |img.title|;
    MarkdownLayout(img, s, k, e, c);
    MatchAtLayout(s, k, e, c, ImageRefs.Image(img.alt, img.path, Some(ImageRefs.Title(" ", img.title))));
  }

  /** A text laid out as `![alt](path "title")` is matched whole. */
  lemma MatchAtLayout(s: string, k: nat, e: nat, c: nat, parsed: ImageRefs.Image)
    requires 2 <= k && k + 2 < e && e + 2 <= c && |s| == c + 2
    requires s[0] == '!' && s[1] == '[' && s[k] == ']' && s[k + 1] == '('
    requires s[e] == ' ' && s[e + 1] == '"' && s[c] == '"' && s[c + 1] == ')'
    requires Lacks(s, 2, k, ']')
    requires PathChars(s, k + 2, e)
    requires Lacks(s, e + 2, c, '"')
    requires parsed == ImageRefs.Image(s[2..k], s[k + 2..e], Some(ImageRefs.Title(s[e..e + 1], s[e + 2..c])))
    ensures ImageRefs.MatchAt(s, 0) == Some(ImageRefs.Match(parsed, |s|))
  {
    var t := Some(ImageRefs.Title(s[e..e + 1], s[e + 2..c]));
    LayoutScans(s, k, e, c, Some((e, t, c + 2)));
    MatchAtScan(s, k, e, t, c + 2, parsed);
  }

  /** The bracket and the path scans of a laid-out image. */
  lemma LayoutScans(s: string, k: nat, e: nat, c: nat, scanned: Option<(nat, Option<ImageRefs.Title>, nat)>)
    requires 2 <= k && k + 2 < e && e + 2 <= c && |s| == c + 2
    requires s[k] == ']' && s[e] == ' ' && s[e + 1] == '"' && s[c] == '"' && s[c + 1] == ')'
    requires Lacks(s, 2, k, ']')
    requires PathChars(s, k + 2, e)
    requires Lacks(s, e + 2, c, '"')
    requires scanned == Some((e, Some(ImageRefs.Title(s[e..e + 1], s[e + 2..c])), c + 2))
    ensures ImageRefs.CharFrom(s, ']', 2) == k
    ensures s[k + 2] != ')' && ImageRefs.NoClose(s, k + 2, k + 3)
    ensures ImageRefs.PathScan(s, k + 2, k + 3) == scanned
  {
    CloseBracketAt(s, k);
    PathOfLayout(s, k + 2, e, c, scanned);
  }

  /** The path scan of a laid-out image runs to the title and past its closing parenthesis. */
  lemma PathOfLayout(s: string, b: nat, e: nat, c: nat, scanned: Option<(nat, Option<ImageRefs.Title>, nat)>)
    requires b < e && e + 2 <= c && |s| == c + 2
    requires s[e] == ' ' && s[e + 1] == '"' && s[c] == '"' && s[c + 1] == ')'
    requires PathChars(s, b, e)
    requires Lacks(s, e + 2, c, '"')
    requires scanned == Some((e, Some(ImageRefs.Title(s[e..e + 1], s[e + 2..c])), c + 2))
    ensures s[b] != ')' && ImageRefs.NoClose(s, b, b + 1)
    ensures ImageRefs.PathScan(s, b, b + 1) == scanned
  {
    TitleAtEnd(s, e, c);
    PathScanAlong(s, b, b + 1, e, c, scanned);
  }

  lemma CloseBracketAt(s: string, k: nat)
    requires 2 <= k < |s| && s[k] == ']'
    requires Lacks(s, 2, k, ']')
    ensures ImageRefs.CharFrom(s, ']', 2) == k
  {
  }

  /** `MatchAt` assembles the image from the bracket and the path scan. */
  lemma MatchAtScan(s: string, k: nat, e: nat, t: Option<ImageRefs.Title>, end: nat, parsed: ImageRefs.Image)
    requires 2 <= |s| && s[0] == '!' && s[1] == '['
    requires 2 <= k && k + 2 < |s| && ImageRefs.CharFrom(s, ']', 2) == k
    requires s[k + 1] == '(' && s[k + 2] != ')'
    requires ImageRefs.NoClose(s, k + 2, k + 3)
    requires ImageRefs.PathScan(s, k + 2, k + 3) == Some((e, t, end))
    requires k + 2 <= e <= |s| && parsed == ImageRefs.Image(s[2..k], s[k + 2..e], t) && end == |s|
    ensures ImageRefs.MatchAt(s, 0) == Some(ImageRefs.Match(parsed, |s|))
  {
  }

  /** No `ch` in `s[lo..hi]`. */
  predicate Lacks(s: string, lo: nat, hi: nat, ch: char)
    requires hi <= |s|
  {
    forall t :: lo <= t < hi ==> s[t] != ch
  }

  /** `s[lo..hi]` has neither ')' nor whitespace. */
  predicate PathChars(s: string, lo: nat, hi: nat)
    requires hi <= |s|
  {
    forall t :: lo <= t < hi ==> s[t] != ')' && !IsJsSpace(s[t])
  }

  /** Where the pieces of the Markdown sit. */
  lemma MarkdownLayout(img: GenImage, s: string, k: nat, e: nat, c: nat)
    requires Readable(img)
    requires s == ImageMarkdown(img)
    requires k == 2 + |img.alt| && e == k + 2 + |img.path| && c == e + 2 + |img.title|
    ensures |s| == c + 2 && s[0] == '!' && s[1] == '['
    ensures s[2..k] == img.alt && s[k] == ']' && s[k + 1] == '('
    ensures s[k + 2..e] == img.path && s[e] == ' ' && s[e..e + 1] == " " && s[e + 1] == '"'
    ensures s[e + 2..c] == img.title && s[c] == '"' && s[c + 1] == ')'
    ensures Lacks(s, 2, k, ']')
    ensures PathChars(s, k + 2, e)
    ensures Lacks(s, e + 2, c, '"')
  {
    assert forall t :: 2 <= t < k ==> s[t] == img.alt[t - 2];
    assert forall t :: k + 2 <= t < e ==> s[t] == img.path[t - k - 2];
    assert forall t :: e + 2 <= t < c ==> s[t] == img.title[t - e - 2];
  }

  lemma TitleAtEnd(s: string, e: nat, c: nat)
    requires e + 2 <= c && |s| == c + 2
    requires s[e] == ' ' && s[e + 1] == '"' && s[c] == '"' && s[c + 1] == ')'
    requires Lacks(s, e + 2, c, '"')
    ensures ImageRefs.TitleAt(s, e) == Some((e + 1, c))
  {
    assert SkipSpace(s, e + 1) == e + 1;
    assert SkipSpace(s, e) == e + 1;
    assert ImageRefs.CharFrom(s, '"', e + 2) == c;
  }

  /** No title starts at a character that is not whitespace. */
  lemma NoTitleAt(s: string, j: nat)
    requires j < |s| && !IsJsSpace(s[j])
    ensures ImageRefs.TitleAt(s, j).None?
  {
    assert SkipSpace(s, j) == j;
  }

  /** The lazy path scan runs over a path without ')' or whitespace up to the title. */
  lemma {:induction false} PathScanAlong(s: string, b: nat, j: nat, e: nat, c: nat,
                                         scanned: Option<(nat, Option<ImageRefs.Title>, nat)>)
    requires b < j <= e && e + 2 <= c && c + 1 < |s|
    requires ImageRefs.NoClose(s, b, j)
    requires PathChars(s, j, e)
    requires ImageRefs.TitleAt(s, e) == Some((e + 1, c))
    requires scanned == Some((e, Some(ImageRefs.Title(s[e..e + 1], s[e + 2..c])), c + 2))
    ensures ImageRefs.PathScan(s, b, j) == scanned
    decreases e - j
  {
    if j < e {
      assert s[j] != ')' && !IsJsSpace(s[j]);
      NoTitleAt(s, j);
      PathScanStep(s, b, j);
      assert PathChars(s, j + 1, e);
      PathScanAlong(s, b, j + 1, e, c, scanned);
    } else {
      PathScanAtTitle(s, b, e, c);
    }
  }

  /** Past a character that is neither ')' nor the start of a title, the scan goes on. */
  lemma PathScanStep(s: string, b: nat, j: nat)
    requires b < j < |s| && ImageRefs.NoClose(s, b, j)
    requires ImageRefs.TitleAt(s, j).None? && s[j] != ')'
    ensures ImageRefs.NoClose(s, b, j + 1)
    ensures ImageRefs.PathScan(s, b, j) == ImageRefs.PathScan(s, b, j + 1)
  {
  }

  /** At a title the scan stops with it. */
  lemma PathScanAtTitle(s: string, b: nat, e: nat, c: nat)
    requires b < e < |s| && ImageRefs.NoClose(s, b, e)
    requires ImageRefs.TitleAt(s, e) == Some((e + 1, c))
    ensures ImageRefs.PathScan(s, b, e) == Some((e, Some(ImageRefs.Title(s[e..e + 1], s[e + 2..c])), c + 2))
  {
  }

  // ---------------------------------------------------------------------------
  // _place_before_sections
  // ---------------------------------------------------------------------------

  /** `re.match(r'^## ', line)`. */
  predicate IsHeading(line: string)
  {
    |line| >= 3 && line[..3] == "## "
  }

  /** The indices, from `from` on, of the lines that are `## ` headings, in order. */
  function HeadingsFrom(lines: seq<string>, from: nat): (r: seq<nat>)
    requires from <= |lines|
    ensures forall i :: 0 <= i < |r| ==> from <= r[i] < |lines| && IsHeading(lines[r[i]])
    ensures forall i, j :: 0 <= i < j < |r| ==> r[i] < r[j]
    ensures forall n :: from <= n < |lines| && IsHeading(lines[n]) ==> n in r
    decreases |lines| - from
  {
    if from == |lines| then []
    else (if IsHeading(lines[from]) then [from] else []) + HeadingsFrom(lines, from + 1)
  }

  /** `[i for i, line in enumerate(lines) if re.match(r'^## ', line)]`. */
  function HeadingIndices(lines: seq<string>): (r: seq<nat>)
    ensures forall i :: 0 <= i < |r| ==> r[i] < |lines| && IsHeading(lines[r[i]])
    ensures forall i, j :: 0 <= i < j < |r| ==> r[i] < r[j]
    ensures forall n :: 0 <= n < |lines| && IsHeading(lines[n]) ==> n in r
  {
    HeadingsFrom(lines, 0)
  }

  /** The headings images may go before: all but the first, unless there is only one. */
  function Available(headings: seq<nat>): seq<nat>
  {
    if |headings| > 1 then headings[1..] else headings
  }

  /** `max(1, available // (remaining + 1))`. */
  function StepFor(available: nat, remaining: nat): (r: nat)
    ensures r >= 1
  {
    var q := available / (remaining + 1);
    if q > 1 then q else 1
  }

  /** `min((j + 1) * step, count - 1)`: where the `j`-th remaining image goes among `count` headings. */
  function SlotFor(j: nat, step: nat, count: nat): (r: nat)
    requires count > 0
    ensures r < count
  {
    var x := (j + 1) * step;
    if x < count - 1 then x else count - 1
  }

  /** The insertion map once the first `n` remaining images have been distributed. */
  function Distribute(hero: map<nat, GenImage>, available: seq<nat>, remaining: seq<GenImage>, step: nat, n: nat)
    : map<nat, GenImage>
    requires available != [] && n <= |remaining|
  {
    if n == 0 then hero
    else Distribute(hero, available, remaining, step, n - 1)[available[SlotFor(n - 1, step, |available|)] := remaining[n - 1]]
  }

  /** The insertion map of `_place_before_sections`: line number to image. */
  function Insertions(lines: seq<string>, images: seq<GenImage>): map<nat, GenImage>
    requires images != []
  {
    var hero := map[0 := images[0]];
    var remaining := images[1..];
    var headings := HeadingIndices(lines);
    if remaining != [] && headings != [] then
      var available := Available(headings);
      Distribute(hero, available, remaining, StepFor(|available|, |remaining|), |remaining|)
    else hero
  }

  /** What distributing keeps: old keys stay, new keys are available headings, untouched keys keep their image. */
  lemma {:induction false} DistributeKeys(hero: map<nat, GenImage>, available: seq<nat>, remaining: seq<GenImage>,
                                          step: nat, n: nat)
    requires available != [] && n <= |remaining|
    ensures forall k :: k in hero ==> k in Distribute(hero, available, remaining, step, n)
    ensures forall k :: k in Distribute(hero, available, remaining, step, n) ==> k in hero || k in available
    ensures forall k :: k in hero && k !in available ==> Distribute(hero, available, remaining, step, n)[k] == hero[k]
  {
    if n > 0 {
      DistributeKeys(hero, available, remaining, step, n - 1);
    }
  }

  /**
   * The insertion map always puts an image at line 0 and otherwise only
   * before `## ` headings; with no heading or a single image only the hero
   * image is placed. The hero image stays at line 0 unless the only heading
   * is line 0 itself and there are further images: then the last of them
   * takes line 0.
   */
  lemma InsertionsShape(lines: seq<string>, images: seq<GenImage>)
    requires images != []
    ensures 0 in Insertions(lines, images)
    ensures forall k :: k in Insertions(lines, images) && k != 0 ==> k < |lines| && IsHeading(lines[k])
    ensures HeadingIndices(lines) == [] || |images| == 1 ==> Insertions(lines, images) == map[0 := images[0]]
    ensures !(HeadingIndices(lines) == [0] && |images| > 1) ==> Insertions(lines, images)[0] == images[0]
    ensures HeadingIndices(lines) == [0] && |images| > 1 ==> Insertions(lines, images) == map[0 := images[|images| - 1]]
  {
    var hero := map[0 := images[0]];
    var remaining := images[1..];
    var headings := HeadingIndices(lines);
    if remaining != [] && headings != [] {
      var available := Available(headings);
      var step := StepFor(|available|, |remaining|);
      DistributeKeys(hero, available, remaining, step, |remaining|);
      if headings == [0] {
        OnlySlot(hero, remaining, step, |remaining|);
      } else {
        assert 0 !in available by {
          if |headings| == 1 {
            assert headings[0] != 0;
          } else {
            assert forall i :: 0 <= i < |available| ==> available[i] == headings[i + 1] > headings[0] >= 0;
          }
        }
      }
    }
  }

  /** With line 0 the only slot, each remaining image in turn replaces the one there. */
  lemma {:induction false} OnlySlot(hero: map<nat, GenImage>, remaining: seq<GenImage>, step: nat, n: nat)
    requires hero.Keys == {0} && 0 < n <= |remaining|
    ensures Distribute(hero, [0], remaining, step, n) == map[0 := remaining[n - 1]]
  {
    if n > 1 {
      OnlySlot(hero, remaining, step, n - 1);
    }
  }

  /** `x * y` grows with `x`. */
  lemma MulMono(x: nat, x': nat, y: nat)
    requires x <= x'
    ensures x * y <= x' * y
  {
  }

  /** `(j + 1) * step`: the heading index the `j`-th remaining image asks for. */
  function RoomSlot(j: nat, step: nat): nat
  {
    (j + 1) * step
  }

  /** The `j`-th remaining image sits before the heading at index `(j + 1) * step`. */
  predicate Kept(d: map<nat, GenImage>, available: seq<nat>, remaining: seq<GenImage>, step: nat, j: nat)
    requires j < |remaining|
  {
    && RoomSlot(j, step) < |available|
    && available[RoomSlot(j, step)] in d
    && d[available[RoomSlot(j, step)]] == remaining[j]
  }

  /** Strictly increasing line numbers. */
  predicate Increasing(xs: seq<nat>)
  {
    forall i, j :: 0 <= i < j < |xs| ==> xs[i] < xs[j]
  }

  /**
   * With more available headings than remaining images every remaining image
   * gets a heading of its own: the `j`-th goes before the heading at index
   * `(j + 1) * step`, and no later image takes its place.
   */
  lemma {:induction false} RoomForAll(hero: map<nat, GenImage>, available: seq<nat>, remaining: seq<GenImage>, n: nat)
    requires |remaining| < |available| && n <= |remaining|
    requires Increasing(available)
    ensures forall j :: 0 <= j < n ==>
              Kept(Distribute(hero, available, remaining, StepFor(|available|, |remaining|), n),
                   available, remaining, StepFor(|available|, |remaining|), j)
  {
    var step := StepFor(|available|, |remaining|);
    if n > 0 {
      RoomForAll(hero, available, remaining, n - 1);
      var d := Distribute(hero, available, remaining, step, n - 1);
      SlotFits(|available|, |remaining|, n - 1);
      assert SlotFor(n - 1, step, |available|) == RoomSlot(n - 1, step);
      var key := available[RoomSlot(n - 1, step)];
      var d' := d[key := remaining[n - 1]];
      forall j | 0 <= j < n - 1
        ensures Kept(d', available, remaining, step, j)
      {
        SlotsApart(j, n - 1, step);
        assert available[RoomSlot(j, step)] < key;
      }
    }
  }

  lemma SlotsApart(i: nat, j: nat, step: nat)
    requires i < j && step >= 1
    ensures RoomSlot(i, step) < RoomSlot(j, step)
  {
    MulMono(i + 2, j + 1, step);
  }

  /** `(j + 1) * step` stays below the number of available headings when there is room. */
  lemma SlotFits(a: nat, r: nat, j: nat)
    requires r < a && j < r
    ensures (j + 1) * StepFor(a, r) < a
  {
    var q := a / (r + 1);
    assert q >= 1 by {
      assert (r + 1) * 1 <= a;
    }
    assert (r + 1) * q <= a;
    MulMono(j + 1, r, q);
    assert r * q == (r + 1) * q - q;
  }

  /** Each distributed image adds at most one line number. */
  lemma {:induction false} DistributeSize(hero: map<nat, GenImage>, available: seq<nat>, remaining: seq<GenImage>,
                                          step: nat, n: nat)
    requires available != [] && n <= |remaining|
    ensures |Distribute(hero, available, remaining, step, n).Keys| <= |hero.Keys| + n
  {
    if n > 0 {
      DistributeSize(hero, available, remaining, step, n - 1);
      UpdateSize(Distribute(hero, available, remaining, step, n - 1),
                 available[SlotFor(n - 1, step, |available|)], remaining[n - 1]);
    }
  }

  lemma UpdateSize(d: map<nat, GenImage>, key: nat, img: GenImage)
    ensures |d[key := img].Keys| <= |d.Keys| + 1
    ensures key in d ==> d[key := img].Keys == d.Keys
  {
    assert d[key := img].Keys == d.Keys + {key};
  }

  /** When the last two of `n` images share a heading, at most `n - 1` line numbers are added. */
  lemma TwoShareSlot(hero: map<nat, GenImage>, available: seq<nat>, remaining: seq<GenImage>, step: nat, n: nat)
    requires available != [] && 2 <= n <= |remaining|
    requires SlotFor(n - 2, step, |available|) == SlotFor(n - 1, step, |available|)
    ensures |Distribute(hero, available, remaining, step, n).Keys| <= |hero.Keys| + n - 1
  {
    DistributeSize(hero, available, remaining, step, n - 1);
    var d := Distribute(hero, available, remaining, step, n - 1);
    var key := available[SlotFor(n - 1, step, |available|)];
    assert key in d;
    UpdateSize(d, key, remaining[n - 1]);
  }

  /** Without room the step is 1 and the last two remaining images ask for the last heading. */
  lemma CrowdedSlots(a: nat, r: nat)
    requires 0 < a <= r && 2 <= r
    ensures StepFor(a, r) == 1
    ensures SlotFor(r - 2, 1, a) == SlotFor(r - 1, 1, a) == a - 1
  {
    assert a / (r + 1) == 0;
  }

  /**
   * Without room, images are lost: with at least two remaining images and no
   * more available headings than remaining images, the last two remaining
   * images go before the same heading, the earlier is overwritten, and fewer
   * lines get an image than there are images.
   */
  lemma CrowdedLosesImage(lines: seq<string>, images: seq<GenImage>)
    requires |images| >= 3 && HeadingIndices(lines) != []
    requires |Available(HeadingIndices(lines))| <= |images| - 1
    ensures |Insertions(lines, images).Keys| < |images|
  {
    var remaining := images[1..];
    var available := Available(HeadingIndices(lines));
    CrowdedSlots(|available|, |remaining|);
    TwoShareSlot(map[0 := images[0]], available, remaining, 1, |remaining|);
  }

  /** The line inserted for an image: its Markdown between two line breaks. */
  function Block(img: GenImage): (r: string)
    ensures '\n' in r
  {
    assert ("\n" + ImageMarkdown(img) + "\n")[0] == '\n';
    "\n" + ImageMarkdown(img) + "\n"
  }

  /** The lines from `i` on, each preceded by its image block when the map has one for it. */
  function Placed(lines: seq<string>, m: map<nat, GenImage>, i: nat): seq<string>
    requires i <= |lines|
    decreases |lines| - i
  {
    if i == |lines| then []
    else (if i in m then [Block(m[i])] else []) + [lines[i]] + Placed(lines, m, i + 1)
  }

  /** The entries of `ls` without a line break: the original lines among inserted blocks. */
  function Unblocked(ls: seq<string>): seq<string>
  {
    if ls == [] then [] else (if '\n' in ls[0] then [] else [ls[0]]) + Unblocked(ls[1..])
  }

  lemma {:induction false} UnblockedAppend(a: seq<string>, b: seq<string>)
    ensures Unblocked(a + b) == Unblocked(a) + Unblocked(b)
  {
    if a != [] {
      assert (a + b)[1..] == a[1..] + b;
      UnblockedAppend(a[1..], b);
    } else {
      assert a + b == b;
    }
  }

  /** No line contains a line break. */
  predicate SingleLines(lines: seq<string>)
  {
    forall i :: 0 <= i < |lines| ==> '\n' !in lines[i]
  }

  /** Removing the inserted blocks gives back the original lines, in order. */
  lemma {:induction false} PlacedKeepsLines(lines: seq<string>, m: map<nat, GenImage>, i: nat)
    requires i <= |lines| && SingleLines(lines)
    ensures Unblocked(Placed(lines, m, i)) == lines[i..]
    decreases |lines| - i
  {
    if i < |lines| {
      PlacedKeepsLines(lines, m, i + 1);
      var head := (if i in m then [Block(m[i])] else []) + [lines[i]];
      UnblockedAppend(head, Placed(lines, m, i + 1));
      if i in m {
        UnblockedAppend([Block(m[i])], [lines[i]]);
      }
      assert lines[i..] == [lines[i]] + lines[i + 1..];
    }
  }

  /** The keys of `m` at or after `i`. */
  function KeysFrom(m: map<nat, GenImage>, i: nat): set<nat>
  {
    set k | k in m && i <= k
  }

  /** One block per key: the placed lines are the original lines plus one line per key. */
  lemma {:induction false} PlacedCount(lines: seq<string>, m: map<nat, GenImage>, i: nat)
    requires i <= |lines|
    requires forall k :: k in m ==> k < |lines|
    ensures |Placed(lines, m, i)| == |lines| - i + |KeysFrom(m, i)|
    decreases |lines| - i
  {
    if i == |lines| {
      assert KeysFrom(m, i) == {};
    } else {
      PlacedCount(lines, m, i + 1);
      if i in m {
        assert KeysFrom(m, i) == {i} + KeysFrom(m, i + 1);
      } else {
        assert KeysFrom(m, i) == KeysFrom(m, i + 1);
      }
    }
  }

  /** The lines from `a` to `b` carry no image when no key lies between them. */
  lemma {:induction false} PlacedSkip(lines: seq<string>, m: map<nat, GenImage>, a: nat, b: nat)
    requires a <= b <= |lines|
    requires forall k :: k in m ==> k < a || b <= k
    ensures Placed(lines, m, a) == lines[a..b] + Placed(lines, m, b)
    decreases b - a
  {
    if a < b {
      PlacedSkip(lines, m, a + 1, b);
      assert lines[a..b] == [lines[a]] + lines[a + 1..b];
    }
  }

  /** The largest of a finite non-empty set of line numbers. */
  lemma MaxExists(keys: set<nat>) returns (top: nat)
    requires keys != {}
    ensures top in keys && forall k :: k in keys ==> k <= top
  {
    var x :| x in keys;
    if keys - {x} == {} {
      assert keys == {x};
      top := x;
    } else {
      var y := MaxExists(keys - {x});
      top := if x > y then x else y;
      forall k | k in keys
        ensures k <= top
      {
        if k != x {
          assert k in keys - {x};
        }
      }
    }
  }

  /** The lines of the body with the image blocks of `_place_before_sections`, joined back with '\n'. */
  function BeforeSections(body: string, images: seq<GenImage>): string
  {
    if images == [] then body
    else
      var lines := Split(body, '\n');
      Join(Placed(lines, Insertions(lines, images), 0), "\n")
  }

  /** The insertion map never holds more images than it was given. */
  lemma InsertionsSize(lines: seq<string>, images: seq<GenImage>)
    requires images != []
    ensures |Insertions(lines, images).Keys| <= |images|
  {
    var remaining := images[1..];
    var headings := HeadingIndices(lines);
    if remaining != [] && headings != [] {
      var available := Available(headings);
      DistributeSize(map[0 := images[0]], available, remaining, StepFor(|available|, |remaining|), |remaining|);
    }
  }

  /**
   * What `_place_before_sections` does to the lines of the body: taking out
   * the inserted blocks gives back the body; the first line is the hero
   * block; there is one block per line number of the insertion map, so at
   * most one per image.
   */
  lemma BeforeSectionsLines(body: string, images: seq<GenImage>)
    requires images != []
    ensures var lines := Split(body, '\n');
            var m := Insertions(lines, images);
            var placed := Placed(lines, m, 0);
            && BeforeSections(body, images) == Join(placed, "\n")
            && Join(Unblocked(placed), "\n") == body
            && 0 in m && placed[0] == Block(m[0])
            && |placed| == |lines| + |m.Keys| <= |lines| + |images|
  {
    var lines := Split(body, '\n');
    var m := Insertions(lines, images);
    InsertionsShape(lines, images);
    InsertionsSize(lines, images);
    SplitNoSep(body, '\n');
    PlacedKeepsLines(lines, m, 0);
    SplitThenJoin(body, '\n');
    PlacedCount(lines, m, 0);
    assert KeysFrom(m, 0) == m.Keys;
  }

  /**
   * `_place_before_sections(body, images)`: builds the insertion map, then
   * inserts each image block into the list of lines, highest line first so
   * that the lower line numbers stay valid.
   */
  method PlaceBeforeSections(body: string, images: seq<GenImage>) returns (r: string)
    ensures r == BeforeSections(body, images)
  {
    if images == [] {
      return body;
    }
    var lines := Split(body, '\n');
    var insertions := BuildInsertions(lines, images);
    InsertionsShape(lines, images);
    lines := InsertBlocks(lines, insertions);
    r := Join(lines, "\n");
  }

  /** The loop that fills the insertion map: the hero image, then the remaining images among the headings. */
  method BuildInsertions(lines: seq<string>, images: seq<GenImage>) returns (insertions: map<nat, GenImage>)
    requires images != []
    ensures insertions == Insertions(lines, images)
  {
    var headings := HeadingIndices(lines);
    insertions := map[0 := images[0]];
    var remaining := images[1..];
    if remaining != [] && headings != [] {
      var available := if |headings| > 1 then headings[1..] else headings;
      var step := StepFor(|available|, |remaining|);
      insertions := DistributeLoop(insertions, available, remaining, step);
    }
  }

  /** `for j, img in enumerate(remaining): insertions[available_headings[idx]] = img`. */
  method DistributeLoop(hero: map<nat, GenImage>, available: seq<nat>, remaining: seq<GenImage>, step: nat)
    returns (insertions: map<nat, GenImage>)
    requires available != []
    ensures insertions == Distribute(hero, available, remaining, step, |remaining|)
  {
    insertions := hero;
    var j := 0;
    while j < |remaining|
      invariant j <= |remaining|
      invariant insertions == Distribute(hero, available, remaining, step, j)
    {
      var idx := (j + 1) * step;
      if idx > |available| - 1 {
        idx := |available| - 1;
      }
      DistributeNext(hero, available, remaining, step, j, idx);
      insertions := insertions[available[idx] := remaining[j]];
      j := j + 1;
    }
  }

  lemma DistributeNext(hero: map<nat, GenImage>, available: seq<nat>, remaining: seq<GenImage>, step: nat, j: nat,
                       idx: nat)
    requires available != [] && j < |remaining|
    requires idx == if (j + 1) * step > |available| - 1 then |available| - 1 else (j + 1) * step
    ensures Distribute(hero, available, remaining, step, j + 1)
            == Distribute(hero, available, remaining, step, j)[available[idx] := remaining[j]]
  {
    assert idx == SlotFor(j, step, |available|);
  }

  /** The state of the insertion loop: keys below `b` still to do, the lines from `b` on done. */
  predicate InsertInv(lines: seq<string>, original: seq<string>, m: map<nat, GenImage>, keys: set<nat>, b: nat)
  {
    && keys <= m.Keys && b <= |original|
    && (forall k :: k in keys ==> k < b)
    && (forall k :: k in m && k !in keys ==> b <= k)
    && lines == original[..b] + Placed(original, m, b)
  }

  /** `for line_num in sorted(insertions.keys(), reverse=True): lines.insert(line_num, img_line)`. */
  method InsertBlocks(original: seq<string>, m: map<nat, GenImage>) returns (lines: seq<string>)
    requires forall k :: k in m ==> k < |original|
    ensures lines == Placed(original, m, 0)
  {
    lines := original;
    ghost var b: nat := |original|;
    var keys := m.Keys;
    assert original[..b] + Placed(original, m, b) == original;
    while keys != {}
      invariant InsertInv(lines, original, m, keys, b)
      decreases keys
    {
      ghost var top := MaxExists(keys);
      var k :| k in keys && forall k' :: k' in keys ==> k' <= k;
      lines, b := InsertOne(lines, original, m, keys, b, k);
      keys := keys - {k};
    }
    PlacedSkip(original, m, 0, b);
  }

  /** One insertion: the block of the highest key left goes in before its line. */
  method InsertOne(lines: seq<string>, ghost original: seq<string>, m: map<nat, GenImage>, ghost keys: set<nat>,
                   ghost b: nat, k: nat)
    returns (lines': seq<string>, ghost b': nat)
    requires InsertInv(lines, original, m, keys, b)
    requires k in keys && forall k' :: k' in keys ==> k' <= k
    ensures lines' == lines[..k] + [Block(m[k])] + lines[k..]
    ensures InsertInv(lines', original, m, keys - {k}, b') && b' == k
  {
    lines' := lines[..k] + [Block(m[k])] + lines[k..];
    b' := k;
    InsertStep(lines, original, m, keys, b, k);
  }

  /** Inserting the block of the highest key left keeps the loop state. */
  lemma InsertStep(lines: seq<string>, original: seq<string>, m: map<nat, GenImage>, keys: set<nat>, b: nat, k: nat)
    requires InsertInv(lines, original, m, keys, b)
    requires k in keys && forall k' :: k' in keys ==> k' <= k
    ensures InsertInv(lines[..k] + [Block(m[k])] + lines[k..], original, m, keys - {k}, k)
  {
    PlacedAt(original, m, k, b);
    InsertAt(original, Placed(original, m, b), Block(m[k]), k, b);
  }

  /** The lines from `k` to `b` when only `k` among them carries an image. */
  lemma PlacedAt(lines: seq<string>, m: map<nat, GenImage>, k: nat, b: nat)
    requires k < b <= |lines| && k in m
    requires forall k' :: k' in m ==> k' <= k || b <= k'
    ensures Placed(lines, m, k) == [Block(m[k])] + lines[k..b] + Placed(lines, m, b)
  {
    PlacedSkip(lines, m, k + 1, b);
    assert lines[k..b] == [lines[k]] + lines[k + 1..b];
  }

  /** Inserting an element at `k` into a prefix of length `b` followed by `p`. */
  lemma InsertAt<T>(o: seq<T>, p: seq<T>, x: T, k: nat, b: nat)
    requires k <= b <= |o|
    ensures (o[..b] + p)[..k] + [x] + (o[..b] + p)[k..] == o[..k] + ([x] + o[k..b] + p)
  {
    assert (o[..b] + p)[..k] == o[..k];
    assert (o[..b] + p)[k..] == o[k..b] + p;
  }

  // ---------------------------------------------------------------------------
  // _place_after_intro and insert_images
  // ---------------------------------------------------------------------------

  /** `'\n\n'.join(_image_markdown(img) for img in images)`. */
  function ImageBlock(images: seq<GenImage>): string
  {
    Join(seq(|images|, i requires 0 <= i < |images| => ImageMarkdown(images[i])), "\n\n")
  }

  /**
   * Where the intro ends: the first line start where `## ` follows
   * (`re.search(r'^## ', body, re.MULTILINE)`), or the end of the body.
   */
  function IntroEnd(body: string): (pos: nat)
    ensures pos <= |body|
    ensures pos < |body| ==> AtLineStart(body, pos) && OccursAt(body, "## ", pos)
    ensures forall j: nat :: j < pos && AtLineStart(body, j) ==> !OccursAt(body, "## ", j)
  {
    var p := LineStartFind(body, "## ", 0);
    if p < 0 then |body| else p
  }

  /** What `_place_after_intro` puts at the end of the intro. */
  function AfterIntroText(body: string, images: seq<GenImage>): string
  {
    if IntroEnd(body) == |body| then "\n\n" + ImageBlock(images) else ImageBlock(images) + "\n\n"
  }

  /**
   * `_place_after_intro(body, images)`: all images in one block at the end
   * of the intro, before the first `## ` heading, or after the body when it
   * has none; the text before and after the block is the body, unchanged.
   */
  function PlaceAfterIntro(body: string, images: seq<GenImage>): string
  {
    if images == [] then body
    else
      var pos := LineStartFind(body, "## ", 0);
      var block := ImageBlock(images);
      if pos < 0 then body + "\n\n" + block
      else body[..pos] + block + "\n\n" + body[pos..]
  }

  /**
   * Without images the body is unchanged; otherwise the block goes in at the
   * end of the intro and the text before and after it is the body, unchanged.
   */
  lemma AfterIntroLayout(body: string, images: seq<GenImage>)
    ensures images == [] ==> PlaceAfterIntro(body, images) == body
    ensures images != [] ==>
              var r := PlaceAfterIntro(body, images);
              var pos := IntroEnd(body);
              var t := AfterIntroText(body, images);
              && r == body[..pos] + t + body[pos..]
              && |r| == |body| + |t|
              && r[..pos] == body[..pos] && r[pos..pos + |t|] == t && r[pos + |t|..] == body[pos..]
  {
    if images != [] {
      var pos := IntroEnd(body);
      var t := AfterIntroText(body, images);
      AfterIntroJoin(body, images, pos, t);
      AroundInsert(body, pos, t);
    }
  }

  /** `_place_after_intro` is the body with the block text inserted at the end of the intro. */
  lemma AfterIntroJoin(body: string, images: seq<GenImage>, pos: nat, t: string)
    requires images != [] && pos == IntroEnd(body) && t == AfterIntroText(body, images)
    ensures PlaceAfterIntro(body, images) == body[..pos] + t + body[pos..]
  {
    var block := ImageBlock(images);
    if pos == |body| {
      assert body[..pos] == body && body[pos..] == [];
    } else {
      SeqAssoc(body[..pos] + block, "\n\n", body[pos..]);
    }
  }

  /** Inserting `t` at `pos` keeps what is before and after it. */
  lemma AroundInsert(body: string, pos: nat, t: string)
    requires pos <= |body|
    ensures var r := body[..pos] + t + body[pos..];
            && |r| == |body| + |t|
            && r[..pos] == body[..pos] && r[pos..pos + |t|] == t && r[pos + |t|..] == body[pos..]
  {
    assert body[..|body|] == body;
  }

  /** The block after the intro is followed by a blank line and then the first heading. */
  lemma AfterIntroBeforeHeading(body: string, images: seq<GenImage>)
    requires images != [] && IntroEnd(body) < |body|
    ensures OccursAt(PlaceAfterIntro(body, images), "\n\n## ", IntroEnd(body) + |ImageBlock(images)|)
  {
    var pos := IntroEnd(body);
    AfterIntroLayout(body, images);
    BreakThenHeading(PlaceAfterIntro(body, images), pos, ImageBlock(images), body[pos..]);
  }

  lemma BreakThenHeading(r: string, pos: nat, block: string, rest: string)
    requires pos + |block| + 2 <= |r|
    requires r[pos..pos + |block| + 2] == block + "\n\n" && r[pos + |block| + 2..] == rest
    requires OccursAt(rest, "## ", 0)
    ensures OccursAt(r, "\n\n## ", pos + |block|)
  {
    var at := pos + |block|;
    assert r[at..at + 2] == r[pos..pos + |block| + 2][|block|..];
    assert r[at..at + 2] == (block + "\n\n")[|block|..];
    assert r[at + 2..at + 5] == rest[..3];
    assert r[at..at + 5] == r[at..at + 2] + r[at + 2..at + 5];
  }

  /** `insert_images(body, images, placement)`. */
  method InsertImages(body: string, images: seq<GenImage>, placement: string) returns (r: string)
    ensures placement == "before-sections" ==> r == BeforeSections(body, images)
    ensures placement == "after-intro" ==> r == PlaceAfterIntro(body, images)
    ensures placement != "before-sections" && placement != "after-intro" ==> r == body
  {
    if placement == "before-sections" {
      r := PlaceBeforeSections(body, images);
    } else if placement == "after-intro" {
      r := PlaceAfterIntro(body, images);
    } else {
      r := body;
    }
  }

  // ---------------------------------------------------------------------------
  // update_featured_image
  // ---------------------------------------------------------------------------

  const FeaturedKey: string := "featured_image:"

  /** The end of the run of Python whitespace (`\s*`) from `p`. */
  function PySpaceEnd(s: string, p: nat): (r: nat)
    requires p <= |s|
    ensures p <= r <= |s|
    ensures forall j :: p <= j < r ==> IsPySpace(s[j])
    ensures r == |s| || !IsPySpace(s[r])
    decreases |s| - p
  {
    if p < |s| && IsPySpace(s[p]) then PySpaceEnd(s, p + 1) else p
  }

  /** The last position in `s[lo..hi]` that is not a line break, -1 when there is none. */
  function LastNonBreak(s: string, lo: nat, hi: nat): (r: int)
    requires lo <= hi <= |s|
    ensures r == -1 || (lo <= r < hi && s[r] != '\n')
    ensures forall j :: r < j < hi && lo <= j ==> s[j] == '\n'
    decreases hi - lo
  {
    if hi == lo then -1
    else if s[hi - 1] != '\n' then hi - 1
    else LastNonBreak(s, lo, hi - 1)
  }

  /**
   * `^featured_image:\s*.+$` (flag `m`) tried at `i`: the end of the match.
   * `\s*` takes all whitespace, line breaks included, and gives back only
   * when it reached the end of the text; `.+` then runs to the end of its
   * line.
   */
  function FeaturedMatchAt(s: string, i: nat): (r: Option<nat>)
    requires i <= |s|
    ensures r.Some? ==> AtLineStart(s, i) && OccursAt(s, FeaturedKey, i)
    ensures r.Some? ==> i + |FeaturedKey| < r.value <= |s| && (r.value == |s| || s[r.value] == '\n')
  {
    if !(AtLineStart(s, i) && OccursAt(s, FeaturedKey, i)) then None
    else
      var j := i + |FeaturedKey|;
      var e := PySpaceEnd(s, j);
      if e < |s| then
        assert s[e] != '\n';
        Some(LineEnd(s, e))
      else
        var q := LastNonBreak(s, j, |s|);
        if q < 0 then None else Some(LineEnd(s, q))
  }

  /** `re.search`: the first position where the pattern matches, from `from` on. */
  function FirstFeatured(s: string, from: nat): (r: Option<nat>)
    requires from <= |s|
    ensures r.Some? ==> from <= r.value <= |s| && FeaturedMatchAt(s, r.value).Some?
    ensures r.None? ==> forall i: nat :: from <= i <= |s| ==> FeaturedMatchAt(s, i).None?
    decreases |s| - from
  {
    if FeaturedMatchAt(s, from).Some? then Some(from)
    else if from == |s| then None
    else FirstFeatured(s, from + 1)
  }

  /** `re.sub` of every match from `i` on by `rep`, scanning left to right. */
  function SubFeatured(s: string, i: nat, rep: string): string
    requires i <= |s|
    decreases |s| - i
  {
    if i == |s| then []
    else
      match FeaturedMatchAt(s, i)
      case Some(e) => rep + SubFeatured(s, e, rep)
      case None => [s[i]] + SubFeatured(s, i + 1, rep)
  }

  /** Nothing before the first match, at `at` and ending at `e`, changes under `re.sub`. */
  lemma {:induction false} SubBeforeMatch(s: string, i: nat, at: nat, e: nat, rep: string)
    requires i <= |s| && FirstFeatured(s, i) == Some(at) && FeaturedMatchAt(s, at) == Some(e)
    ensures SubFeatured(s, i, rep) == s[i..at] + rep + SubFeatured(s, e, rep)
    decreases |s| - i
  {
    if i == at {
      SubAtFirst(s, at, e, rep);
    } else {
      FirstFeaturedSkips(s, i, at);
      SubBeforeMatch(s, i + 1, at, e, rep);
      SubSkip(s, i, at, e, rep);
    }
  }

  /** At the match itself, `re.sub` puts the replacement in its place. */
  lemma SubAtFirst(s: string, at: nat, e: nat, rep: string)
    requires at <= |s| && FeaturedMatchAt(s, at) == Some(e)
    ensures SubFeatured(s, at, rep) == s[at..at] + rep + SubFeatured(s, e, rep)
  {
    SubReplaces(s, at, rep);
  }

  /** Before the first match, the search goes on from the next position. */
  lemma FirstFeaturedSkips(s: string, i: nat, at: nat)
    requires i <= |s| && FirstFeatured(s, i) == Some(at) && i != at
    ensures i < at && FeaturedMatchAt(s, i).None? && FirstFeatured(s, i + 1) == Some(at)
  {
  }

  /** A character where the pattern does not match is copied in front of the rest. */
  lemma SubSkip(s: string, i: nat, at: nat, e: nat, rep: string)
    requires i < at <= |s| && e <= |s| && FeaturedMatchAt(s, i).None?
    requires SubFeatured(s, i + 1, rep) == s[i + 1..at] + rep + SubFeatured(s, e, rep)
    ensures SubFeatured(s, i, rep) == s[i..at] + rep + SubFeatured(s, e, rep)
  {
    SubKeeps(s, i, rep);
    ConsPrefix(s, i, at, SubFeatured(s, i, rep), SubFeatured(s, i + 1, rep), rep, SubFeatured(s, e, rep));
  }

  /** Putting `s[i]` in front of what follows it up to `at`. */
  lemma ConsPrefix(s: string, i: nat, at: nat, x: string, y: string, t1: string, t2: string)
    requires i < at <= |s|
    requires x == [s[i]] + y && y == s[i + 1..at] + t1 + t2
    ensures x == s[i..at] + t1 + t2
  {
    assert s[i..at] == [s[i]] + s[i + 1..at];
  }

  lemma SubKeeps(s: string, i: nat, rep: string)
    requires i < |s| && FeaturedMatchAt(s, i).None?
    ensures SubFeatured(s, i, rep) == [s[i]] + SubFeatured(s, i + 1, rep)
  {
  }

  lemma SubReplaces(s: string, i: nat, rep: string)
    requires i <= |s| && FeaturedMatchAt(s, i).Some?
    ensures SubFeatured(s, i, rep) == s[i..i] + rep + SubFeatured(s, FeaturedMatchAt(s, i).value, rep)
  {
    assert s[i..i] + rep == rep;
  }

  /** The line `update_featured_image` writes. */
  function FeaturedLine(imagePath: string): string
  {
    "featured_image: " + LStripChar(imagePath, '/')
  }

  /**
   * `update_featured_image(frontmatter, image_path, force)`: an existing
   * value is kept unless forced, a forced update substitutes every match,
   * and without a value the line goes in before the first "\n---".
   */
  function UpdateFeaturedImage(frontmatter: string, imagePath: string, force: bool): string
  {
    var line := FeaturedLine(imagePath);
    var existing := FirstFeatured(frontmatter, 0);
    if existing.Some? && !force then frontmatter
    else if existing.Some? then SubFeatured(frontmatter, 0, line)
    else InsertBeforeClose(frontmatter, line)
  }

  /** `frontmatter.replace('\n---', f'\n{line}\n---', 1)`. */
  function InsertBeforeClose(frontmatter: string, line: string): string
  {
    var k := IndexOfFrom(frontmatter, "\n---", 0);
    if k < 0 then frontmatter
    else frontmatter[..k] + "\n" + line + "\n---" + frontmatter[k + 4..]
  }

  /**
   * The front matter is returned unchanged when it already has a featured
   * image and the update is not forced, or when it has none and no "\n---"
   * to insert one before.
   */
  lemma UpdateKeeps(frontmatter: string, imagePath: string, force: bool)
    ensures FirstFeatured(frontmatter, 0).Some? && !force ==> UpdateFeaturedImage(frontmatter, imagePath, force) == frontmatter
    ensures FirstFeatured(frontmatter, 0).None? && IndexOfFrom(frontmatter, "\n---", 0) < 0
            ==> UpdateFeaturedImage(frontmatter, imagePath, force) == frontmatter
  {
  }

  /** Forced, the text before the first match is kept and the match becomes the new line. */
  lemma UpdateForced(frontmatter: string, imagePath: string)
    requires FirstFeatured(frontmatter, 0).Some?
    ensures var at := FirstFeatured(frontmatter, 0).value;
            UpdateFeaturedImage(frontmatter, imagePath, true)
            == frontmatter[..at] + FeaturedLine(imagePath)
               + SubFeatured(frontmatter, FeaturedMatchAt(frontmatter, at).value, FeaturedLine(imagePath))
  {
    var at := FirstFeatured(frontmatter, 0).value;
    SubBeforeMatch(frontmatter, 0, at, FeaturedMatchAt(frontmatter, at).value, FeaturedLine(imagePath));
  }

  /** Without a featured image, the new line goes in just before the first "\n---", all else kept. */
  lemma UpdateInserts(frontmatter: string, imagePath: string, force: bool)
    requires FirstFeatured(frontmatter, 0).None? && IndexOfFrom(frontmatter, "\n---", 0) >= 0
    ensures var k := IndexOfFrom(frontmatter, "\n---", 0);
            UpdateFeaturedImage(frontmatter, imagePath, force)
            == frontmatter[..k] + "\n" + FeaturedLine(imagePath) + frontmatter[k..]
  {
    var k := IndexOfFrom(frontmatter, "\n---", 0);
    var line := FeaturedLine(imagePath);
    assert frontmatter[k..] == "\n---" + frontmatter[k + 4..];
    SeqAssoc(frontmatter[..k] + "\n" + line, "\n---", frontmatter[k + 4..]);
  }

  /** The written path never starts with '/'. */
  lemma FeaturedPathRelative(imagePath: string)
    ensures var line := FeaturedLine(imagePath);
            line[..16] == "featured_image: " && (|line| == 16 || line[16] != '/')
  {
  }

  /**
   * After an unforced update of front matter with a closing "\n---", the
   * front matter has a featured image, so a second unforced update changes
   * nothing.
   */
  lemma UpdateIdempotent(frontmatter: string, imagePath: string)
    requires IndexOfFrom(frontmatter, "\n---", 0) >= 0
    ensures FirstFeatured(UpdateFeaturedImage(frontmatter, imagePath, false), 0).Some?
    ensures UpdateFeaturedImage(UpdateFeaturedImage(frontmatter, imagePath, false), imagePath, false)
            == UpdateFeaturedImage(frontmatter, imagePath, false)
  {
    var r := UpdateFeaturedImage(frontmatter, imagePath, false);
    UpdateHasFeatured(frontmatter, imagePath);
    UpdateKeeps(r, imagePath, false);
  }

  /** After an update the front matter has a `featured_image:` line. */
  lemma UpdateHasFeatured(frontmatter: string, imagePath: string)
    requires IndexOfFrom(frontmatter, "\n---", 0) >= 0
    ensures FirstFeatured(UpdateFeaturedImage(frontmatter, imagePath, false), 0).Some?
  {
    if FirstFeatured(frontmatter, 0).None? {
      var k := IndexOfFrom(frontmatter, "\n---", 0);
      var r := UpdateFeaturedImage(frontmatter, imagePath, false);
      UpdateInserts(frontmatter, imagePath, false);
      InsertedLineMatches(frontmatter[..k], FeaturedLine(imagePath), frontmatter[k..], r);
      assert FeaturedMatchAt(r, k + 1).Some?;
    } else {
      UpdateKeeps(frontmatter, imagePath, false);
    }
  }

  /** A `featured_image:` line inserted before a "\n---" always matches. */
  lemma InsertedLineMatches(before: string, line: string, after: string, r: string)
    requires |line| >= 15 && line[..15] == FeaturedKey && |after| >= 4 && after[..4] == "\n---"
    requires r == before + "\n" + line + after
    ensures FeaturedMatchAt(r, |before| + 1).Some?
  {
    var i := |before| + 1;
    assert r[i - 1] == '\n';
    assert r[i..i + 15] == line[..15];
    var dash := i + |line| + 1;
    assert r[dash] == '-';
    assert !IsPySpace(r[dash]);
  }
}
