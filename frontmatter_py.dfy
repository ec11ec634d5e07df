/**
 * The front-matter helpers of the command-line converter (`lib/frontmatter.py`).
 *
 * `build_frontmatter` appends the header lines of a new post one by one and
 * joins them with line breaks; `extract_excerpt` gathers the first
 * meaningful lines of an article and cuts them to a length limit. The clock
 * is a parameter: `now` is the date string used when no date is given.
 * Python's `None`, `''` and `[]` are all falsy in the tests the writer makes,
 * so absent values are the empty string or the empty list here.
 */
module FrontmatterPy {
  import opened Strings
  import Translation
  import Frontmatter
  import FrontmatterParser

  // ---------------------------------------------------------------------------
  // build_frontmatter
  // ---------------------------------------------------------------------------

  /** The arguments of `build_frontmatter`. */
  datatype Post = Post(
    title: string, status: string, excerpt: string, date: string,
    categories: seq<string>, tags: seq<string>, featuredImage: string)

  /** The lines `build_frontmatter` appends, in order. */
  function HeaderLines(p: Post, now: string): seq<string>
  {
    [Translation.Fence,
     Frontmatter.TitleKey + Frontmatter.YamlValue(p.title),
     Frontmatter.StatusKey + p.status,
     Frontmatter.DateKey + (if p.date != "" then p.date else now)]
    + Translation.LineIf(p.excerpt != "", Frontmatter.ExcerptKey + Frontmatter.YamlValue(p.excerpt))
    + Translation.LineIf(p.featuredImage != "", Frontmatter.FeaturedKey + p.featuredImage)
    + Translation.TaxonomyLines(p.categories, p.tags)
    + [Translation.Fence]
  }

  /** The text `build_frontmatter` returns. */
  function HeaderText(p: Post, now: string): string
  {
    Join(HeaderLines(p, now), "\n") + "\n"
  }

  /** The web writer's options that describe the same post, with no SEO fields. */
  function AsWebOptions(p: Post): (o: Frontmatter.Options)
    ensures o.metaTitle == "" && o.metaDescription == ""
    ensures Frontmatter.StatusOf(o) == p.status
  {
    Frontmatter.Options(p.title, Some(p.status), p.date, p.excerpt, p.categories, p.tags, p.featuredImage, "", "")
  }

  /**
   * `build_frontmatter(...)`: the title and the excerpt are quoted exactly
   * when they hold ':', the date falls back to `now`, and the taxonomy block
   * is written by the same loops as in the web writer.
   */
  method BuildFrontmatter(p: Post, now: string) returns (out: string)
    ensures out == HeaderText(p, now)
  {
    var lines := [Translation.Fence];
    if ':' in p.title {
      lines := lines + [Frontmatter.TitleKey + "\"" + p.title + "\""];
      QuotedAfter(Frontmatter.TitleKey, p.title);
    } else {
      lines := lines + [Frontmatter.TitleKey + p.title];
    }
    assert lines[1] == Frontmatter.TitleKey + Frontmatter.YamlValue(p.title);
    lines := lines + [Frontmatter.StatusKey + p.status];
    if p.date != "" {
      lines := lines + [Frontmatter.DateKey + p.date];
    } else {
      lines := lines + [Frontmatter.DateKey + now];
    }
    ghost var fixed := lines;
    if p.excerpt != "" {
      if ':' in p.excerpt {
        lines := lines + [Frontmatter.ExcerptKey + "\"" + p.excerpt + "\""];
        QuotedAfter(Frontmatter.ExcerptKey, p.excerpt);
      } else {
        lines := lines + [Frontmatter.ExcerptKey + p.excerpt];
      }
      assert lines == fixed + [Frontmatter.ExcerptKey + Frontmatter.YamlValue(p.excerpt)];
    }
    ghost var withExcerpt := lines;
    if p.featuredImage != "" {
      lines := lines + [Frontmatter.FeaturedKey + p.featuredImage];
    }
    ghost var head := lines;
    lines := Translation.PushTaxonomy(lines, p.categories, p.tags);
    lines := lines + [Translation.Fence];
    HeadPushed(p, now, fixed, withExcerpt, head);
    Appended(HeaderLines(p, now), head, Translation.TaxonomyLines(p.categories, p.tags), [Translation.Fence]);
    out := Join(lines, "\n") + "\n";
  }

  lemma HeadPushed(p: Post, now: string, fixed: seq<string>, withExcerpt: seq<string>, head: seq<string>)
    requires fixed == [Translation.Fence,
                       Frontmatter.TitleKey + Frontmatter.YamlValue(p.title),
                       Frontmatter.StatusKey + p.status,
                       Frontmatter.DateKey + (if p.date != "" then p.date else now)]
    requires withExcerpt == fixed + Translation.LineIf(p.excerpt != "", Frontmatter.ExcerptKey + Frontmatter.YamlValue(p.excerpt))
    requires head == withExcerpt + Translation.LineIf(p.featuredImage != "", Frontmatter.FeaturedKey + p.featuredImage)
    ensures HeaderLines(p, now) == head + Translation.TaxonomyLines(p.categories, p.tags) + [Translation.Fence]
  {
  }

  lemma Appended(lines: seq<string>, head: seq<string>, tx: seq<string>, fence: seq<string>)
    requires lines == head + tx + fence
    ensures (head + tx) + fence == lines
  {
  }

  /**
   * Without SEO fields the web writer writes the very same header: the two
   * writers agree line for line.
   */
  lemma SameAsWebWriter(p: Post, now: string)
    ensures HeaderLines(p, now) == Frontmatter.FrontmatterLines(AsWebOptions(p), now)
    ensures HeaderText(p, now) == Frontmatter.FrontmatterText(AsWebOptions(p), now)
  {
    var o := AsWebOptions(p);
    assert Frontmatter.CustomLines(o) == [];
    WebLinesNoCustom(Frontmatter.FrontmatterLines(o, now), Frontmatter.HeadLines(o, now),
                     Translation.TaxonomyLines(p.categories, p.tags), Frontmatter.CustomLines(o));
  }

  lemma WebLinesNoCustom(lines: seq<string>, head: seq<string>, tx: seq<string>, cl: seq<string>)
    requires cl == [] && lines == head + (tx + cl + [Translation.Fence])
    ensures lines == head + tx + [Translation.Fence]
  {
  }

  /** The header opens with a `---` line and ends with a `---` line and a line break. */
  lemma HeaderFenced(p: Post, now: string)
    ensures var t := HeaderText(p, now);
            |t| >= 8 && t[..4] == "---\n" && t[|t| - 5..] == "\n---\n"
  {
    var o := AsWebOptions(p);
    SameAsWebWriter(p, now);
    Frontmatter.FrontmatterTextFenced(o, now);
    FencedEnds("---\n", Join(Frontmatter.InnerLines(o, now), "\n"), "\n---\n", HeaderText(p, now));
  }

  lemma FencedEnds(a: string, m: string, b: string, t: string)
    requires |a| == 4 && |b| == 5 && t == a + m + b
    ensures |t| >= 8 && t[..4] == a && t[|t| - 5..] == b
  {
    assert t[..4] == (a + m + b)[..4];
  }

  /**
   * The title line comes second, quoted exactly when the title holds ':';
   * `post_status` is always the third line and `post_date` the fourth, with
   * `now` standing in for a missing date.
   */
  lemma FixedHeaderLines(p: Post, now: string)
    ensures var ls := HeaderLines(p, now);
            && |ls| >= 5 && ls[0] == Translation.Fence
            && (':' in p.title ==> ls[1] == Frontmatter.TitleKey + "\"" + p.title + "\"")
            && (':' !in p.title ==> ls[1] == Frontmatter.TitleKey + p.title)
            && ls[2] == Frontmatter.StatusKey + p.status
            && ls[3] == Frontmatter.DateKey + (if p.date != "" then p.date else now)
  {
    var fixed := [Translation.Fence,
                  Frontmatter.TitleKey + Frontmatter.YamlValue(p.title),
                  Frontmatter.StatusKey + p.status,
                  Frontmatter.DateKey + (if p.date != "" then p.date else now)];
    PrefixLines(HeaderLines(p, now), fixed,
                Translation.LineIf(p.excerpt != "", Frontmatter.ExcerptKey + Frontmatter.YamlValue(p.excerpt)),
                Translation.LineIf(p.featuredImage != "", Frontmatter.FeaturedKey + p.featuredImage),
                Translation.TaxonomyLines(p.categories, p.tags), [Translation.Fence]);
    QuotedAfter(Frontmatter.TitleKey, p.title);
  }

  lemma PrefixLines(ls: seq<string>, fixed: seq<string>, a: seq<string>, b: seq<string>, c: seq<string>, d: seq<string>)
    requires ls == fixed + a + b + c + d && d != []
    ensures |ls| > |fixed| && forall i :: 0 <= i < |fixed| ==> ls[i] == fixed[i]
  {
    assert ls == fixed + (a + b + c + d);
  }

  /** A key followed by a value in double quotes. */
  lemma QuotedAfter(key: string, v: string)
    ensures key + "\"" + v + "\"" == key + ("\"" + v + "\"")
  {
  }

  /** A `post_excerpt:` line is written exactly when the excerpt is non-empty, a `featured_image:` line exactly when an image is given. */
  lemma OptionalLinesPresence(p: Post, now: string)
    ensures Frontmatter.HasLine(HeaderLines(p, now), "post_excerpt: ") <==> p.excerpt != ""
    ensures Frontmatter.HasLine(HeaderLines(p, now), "featured_image: ") <==> p.featuredImage != ""
  {
    var o := AsWebOptions(p);
    SameAsWebWriter(p, now);
    Frontmatter.ExcerptLinePresence(o, now);
    Frontmatter.FeaturedLinePresence(o, now);
  }

  /** The `taxonomy:` line is written exactly when there is a category or a tag; no `custom_fields:` line is ever written. */
  lemma TaxonomyAndCustomPresence(p: Post, now: string)
    ensures Translation.TaxonomyOpen in HeaderLines(p, now) <==> p.categories != [] || p.tags != []
    ensures !Frontmatter.HasLine(HeaderLines(p, now), "custom_fields:")
  {
    var o := AsWebOptions(p);
    SameAsWebWriter(p, now);
    Frontmatter.TaxonomyPresence(o, now);
    Frontmatter.CustomFieldsPresence(o, now);
  }

  /**
   * The web reader (`extractTaxonomy`) gets back the categories and the tags
   * in the order written, and the listing shows the title written, when no
   * value spans lines and no term or title has surrounding whitespace.
   */
  lemma HeaderReadBack(p: Post, now: string, body: string, fallbackSlug: string)
    requires FrontmatterParser.Recoverable(AsWebOptions(p), now)
    requires Frontmatter.Readable(p.title)
    ensures FrontmatterParser.ContentTerms(HeaderText(p, now) + body, FrontmatterParser.CategoryHead) == p.categories
    ensures FrontmatterParser.ContentTerms(HeaderText(p, now) + body, FrontmatterParser.TagHead) == p.tags
    ensures FrontmatterParser.ListingOf(Some(HeaderText(p, now) + body), fallbackSlug).title == p.title
  {
    var o := AsWebOptions(p);
    SameAsWebWriter(p, now);
    FrontmatterParser.WrittenTaxonomyRecovered(o, now, body);
    FrontmatterParser.WrittenTitleListed(o, now, body, fallbackSlug);
  }

  // ---------------------------------------------------------------------------
  // extract_excerpt
  // ---------------------------------------------------------------------------

  /** A line `extract_excerpt` keeps: not blank and not a heading once stripped. */
  predicate Meaningful(stripped: string)
  {
    stripped != [] && stripped[0] != '#'
  }

  /** The stripped meaningful lines from `ls[k]` on, in order: what the loop would gather without its `break`. */
  function KeptFrom(ls: seq<string>, k: nat, strip: string -> string): (r: seq<string>)
    requires k <= |ls|
    ensures forall i :: 0 <= i < |r| ==> Meaningful(r[i])
    decreases |ls| - k
  {
    if k == |ls| then []
    else if Meaningful(strip(ls[k])) then [strip(ls[k])] + KeptFrom(ls, k + 1, strip)
    else KeptFrom(ls, k + 1, strip)
  }

  /** `s` has no whitespace at either end. */
  predicate Stripped(s: string)
  {
    s == [] || (!IsPySpace(s[0]) && !IsPySpace(s[|s| - 1]))
  }

  /** `str.strip()` leaves no whitespace at either end. */
  lemma PyStripClean(s: string)
    ensures Stripped(PyStrip(s))
  {
    var l := PyLStrip(s);
    var r := PyRStrip(l);
    if r != [] {
      assert r[0] == l[0];
    }
  }

  /**
   * The lines the excerpt is made of have no whitespace at either end, are
   * not empty and do not open with '#'.
   */
  lemma KeptClean(content: string)
    ensures forall i :: 0 <= i < |Kept(content)| ==> Meaningful(Kept(content)[i]) && Stripped(Kept(content)[i])
  {
    var ls := Split(content, '\n');
    forall j | 0 <= j < |ls| ensures Stripped(PyStrip(ls[j])) {
      PyStripClean(ls[j]);
    }
    KeptStripped(ls, 0, PyStrip);
  }

  lemma {:induction false} KeptStripped(ls: seq<string>, k: nat, strip: string -> string)
    requires k <= |ls|
    requires forall j :: k <= j < |ls| ==> Stripped(strip(ls[j]))
    ensures forall i :: 0 <= i < |KeptFrom(ls, k, strip)| ==> Stripped(KeptFrom(ls, k, strip)[i])
    decreases |ls| - k
  {
    if k < |ls| {
      KeptStripped(ls, k + 1, strip);
      var r, rest := KeptFrom(ls, k, strip), KeptFrom(ls, k + 1, strip);
      forall i | 0 <= i < |r| ensures Stripped(r[i]) {
        if Meaningful(strip(ls[k])) {
          if i > 0 {
            assert r[i] == rest[i - 1];
          }
        } else {
          assert r[i] == rest[i];
        }
      }
    }
  }

  /**
   * What the loop gathers from `ls[k]` on, having gathered `acc`: it appends
   * each meaningful stripped line and stops right after the first one that
   * makes `full` hold of what it has gathered.
   */
  function Gather(ls: seq<string>, k: nat, acc: seq<string>, strip: string -> string, full: seq<string> -> bool): seq<string>
    requires k <= |ls|
    decreases |ls| - k
  {
    if k == |ls| then acc
    else
      var s := strip(ls[k]);
      if Meaningful(s) then
        if full(acc + [s]) then acc + [s]
        else Gather(ls, k + 1, acc + [s], strip, full)
      else Gather(ls, k + 1, acc, strip, full)
  }

  /** `len(' '.join(lines)) >= max_length`, the test of the `break`. */
  function Reached(maxLength: nat): seq<string> -> bool
  {
    g => |Join(g, " ")| >= maxLength
  }

  /** The meaningful lines of the content, all of them. */
  function Kept(content: string): seq<string>
  {
    KeptFrom(Split(content, '\n'), 0, PyStrip)
  }

  /** The lines the loop gathers before it stops. */
  function Gathered(content: string, maxLength: nat): seq<string>
  {
    Gather(Split(content, '\n'), 0, [], PyStrip, Reached(maxLength))
  }

  /** The text cut to `maxLength`: at the last '.' when it lies beyond the middle, else at the last space, with "..." added. */
  function Cut(text: string, maxLength: nat): string
  {
    if |text| <= maxLength then text
    else
      var truncated := text[..maxLength];
      var lastPeriod := LastIndexOf(truncated, '.');
      if lastPeriod > maxLength / 2 then truncated[..lastPeriod + 1]
      else BeforeLastSpace(truncated) + "..."
  }

  /** `s.rsplit(' ', 1)[0]`: everything before the last space, or all of `s` when it has none. */
  function BeforeLastSpace(s: string): (r: string)
    ensures ' ' in s ==> |r| < |s| && s[|r|] == ' ' && r == s[..|r|] && forall j :: |r| < j < |s| ==> s[j] != ' '
    ensures ' ' !in s ==> r == s
  {
    var i := LastIndexOf(s, ' ');
    if i >= 0 then s[..i] else s
  }

  /** `extract_excerpt(content, max_length)`. */
  function ExcerptOf(content: string, maxLength: nat): string
  {
    Cut(Join(Gathered(content, maxLength), " "), maxLength)
  }

  /** `extract_excerpt(content, max_length)`: the loop over the lines with its early `break`, then the cut. */
  method ExtractExcerpt(content: string, maxLength: nat) returns (r: string)
    ensures r == ExcerptOf(content, maxLength)
  {
    var lines := GatherLines(Split(content, '\n'), maxLength);
    var text := Join(lines, " ");
    if |text| <= maxLength {
      return text;
    }
    var truncated := text[..maxLength];
    var lastPeriod := LastIndexOf(truncated, '.');
    if lastPeriod > maxLength / 2 {
      return truncated[..lastPeriod + 1];
    }
    r := BeforeLastSpace(truncated) + "...";
  }

  /** The loop of `extract_excerpt`: it stops once the joined lines reach `max_length` characters. */
  method GatherLines(all: seq<string>, maxLength: nat) returns (lines: seq<string>)
    ensures lines == Gather(all, 0, [], PyStrip, Reached(maxLength))
  {
    lines := [];
    var k := 0;
    while k < |all|
      invariant 0 <= k <= |all|
      invariant Gather(all, 0, [], PyStrip, Reached(maxLength)) == Gather(all, k, lines, PyStrip, Reached(maxLength))
      decreases |all| - k
    {
      GatherStep(all, k, lines, maxLength);
      var stripped := PyStrip(all[k]);
      if stripped != [] && stripped[0] != '#' {
        lines := lines + [stripped];
        if |Join(lines, " ")| >= maxLength {
          break;
        }
      }
      k := k + 1;
    }
  }

  /** One iteration of the loop, as `Gather` states it for `strip` and the `break` test of `extract_excerpt`. */
  lemma GatherStep(all: seq<string>, k: nat, lines: seq<string>, maxLength: nat)
    requires k < |all|
    ensures var s := PyStrip(all[k]);
      Gather(all, k, lines, PyStrip, Reached(maxLength))
      == if Meaningful(s) then
           if |Join(lines + [s], " ")| >= maxLength then lines + [s]
           else Gather(all, k + 1, lines + [s], PyStrip, Reached(maxLength))
         else Gather(all, k + 1, lines, PyStrip, Reached(maxLength))
  {
    assert Reached(maxLength)(lines + [PyStrip(all[k])]) == (|Join(lines + [PyStrip(all[k])], " ")| >= maxLength);
  }

  /** A text within the limit is returned unchanged. */
  lemma CutShort(text: string, maxLength: nat)
    requires |text| <= maxLength
    ensures Cut(text, maxLength) == text
  {
  }

  /** Some '.' lies after the middle of the first `maxLength` characters. */
  predicate PeriodBeyondMiddle(text: string, maxLength: nat)
    requires |text| > maxLength
  {
    exists j :: maxLength / 2 < j < maxLength && text[j] == '.'
  }

  /**
   * An over-long text is cut just after its last '.' within the first
   * `maxLength` characters when that '.' lies beyond `maxLength / 2`;
   * otherwise it is cut at the last space within them (or kept at
   * `maxLength` characters when there is none) and "..." is appended. The
   * result never exceeds `maxLength + 3` characters.
   */
  lemma CutLong(text: string, maxLength: nat)
    requires |text| > maxLength
    ensures var r := Cut(text, maxLength);
            && |r| <= maxLength + 3
            && (PeriodBeyondMiddle(text, maxLength) ==>
                  && maxLength / 2 + 1 < |r| <= maxLength && r == text[..|r|]
                  && r[|r| - 1] == '.' && forall j :: |r| <= j < maxLength ==> text[j] != '.')
            && (!PeriodBeyondMiddle(text, maxLength) ==>
                  && 3 <= |r| && r[|r| - 3..] == "..." && r[..|r| - 3] == text[..|r| - 3]
                  && (|r| - 3 == maxLength || text[|r| - 3] == ' ')
                  && forall j :: |r| - 3 < j < maxLength ==> text[j] != ' ')
  {
    if PeriodBeyondMiddle(text, maxLength) {
      CutAtPeriod(text, maxLength);
    } else {
      CutAtSpace(text, maxLength);
    }
  }

  lemma CutAtPeriod(text: string, maxLength: nat)
    requires |text| > maxLength && PeriodBeyondMiddle(text, maxLength)
    ensures var r := Cut(text, maxLength);
            && maxLength / 2 + 1 < |r| <= maxLength && r == text[..|r|]
            && r[|r| - 1] == '.' && forall j :: |r| <= j < maxLength ==> text[j] != '.'
  {
    var t := text[..maxLength];
    var j :| maxLength / 2 < j < maxLength && text[j] == '.';
    assert t[j] == '.';
  }

  lemma CutAtSpace(text: string, maxLength: nat)
    requires |text| > maxLength && !PeriodBeyondMiddle(text, maxLength)
    ensures var r := Cut(text, maxLength);
            && 3 <= |r| <= maxLength + 3 && r[|r| - 3..] == "..." && r[..|r| - 3] == text[..|r| - 3]
            && (|r| - 3 == maxLength || text[|r| - 3] == ' ')
            && forall j :: |r| - 3 < j < maxLength ==> text[j] != ' '
  {
    var t := text[..maxLength];
    LastPeriodBeyond(text, maxLength, LastIndexOf(t, '.'));
    SpaceCut(text, maxLength, t, BeforeLastSpace(t), Cut(text, maxLength));
  }

  lemma SpaceCut(text: string, maxLength: nat, t: string, b: string, r: string)
    requires |text| > maxLength && t == text[..maxLength] && b == BeforeLastSpace(t) && r == b + "..."
    ensures && 3 <= |r| <= maxLength + 3 && r[|r| - 3..] == "..." && r[..|r| - 3] == text[..|r| - 3]
            && (|r| - 3 == maxLength || text[|r| - 3] == ' ')
            && forall j :: |r| - 3 < j < maxLength ==> text[j] != ' '
  {
    assert r[..|r| - 3] == b;
    if ' ' in t {
      forall j | |b| < j < maxLength ensures text[j] != ' ' {
        assert text[j] == t[j];
      }
    }
  }

  lemma LastPeriodBeyond(text: string, maxLength: nat, p: int)
    requires |text| > maxLength && p == LastIndexOf(text[..maxLength], '.')
    ensures p > maxLength / 2 ==> PeriodBeyondMiddle(text, maxLength)
  {
    if p > maxLength / 2 {
      assert text[p] == '.';
    }
  }

  /** `a` is a prefix of `b`. */
  predicate IsPrefix(a: seq<string>, b: seq<string>)
  {
    |a| <= |b| && b[..|a|] == a
  }

  /**
   * The loop gathers a prefix of the meaningful lines, and it stops early
   * only once `full` holds of what it has gathered.
   */
  lemma {:induction false} GatherPrefix(ls: seq<string>, k: nat, acc: seq<string>, strip: string -> string, full: seq<string> -> bool)
    requires k <= |ls|
    ensures var g := Gather(ls, k, acc, strip, full);
            && IsPrefix(g, acc + KeptFrom(ls, k, strip))
            && (g == acc + KeptFrom(ls, k, strip) || full(g))
    decreases |ls| - k
  {
    if k < |ls| {
      var s := strip(ls[k]);
      if Meaningful(s) {
        assert acc + KeptFrom(ls, k, strip) == (acc + [s]) + KeptFrom(ls, k + 1, strip);
        if !full(acc + [s]) {
          GatherPrefix(ls, k + 1, acc + [s], strip, full);
        }
      } else {
        GatherPrefix(ls, k + 1, acc, strip, full);
      }
    }
  }

  /** Joining a longer list of non-empty lines gives a longer text that extends the shorter one. */
  lemma JoinExtends(a: seq<string>, b: seq<string>)
    requires IsPrefix(a, b) && a != []
    requires forall i :: 0 <= i < |b| ==> b[i] != []
    ensures var ja, jb := Join(a, " "), Join(b, " ");
            && |ja| <= |jb| && jb[..|ja|] == ja
            && (a != b ==> |ja| < |jb|)
  {
    if a != b {
      var rest := b[|a|..];
      assert b == a + rest;
      assert rest != [] && rest[0] == b[|a|];
      JoinAppend(a, rest, " ");
    }
  }

  /** A cut of an over-long text reads only its first `maxLength` characters. */
  lemma CutReadsPrefix(x: string, y: string, maxLength: nat)
    requires |x| > maxLength && |y| > maxLength && x[..maxLength] == y[..maxLength]
    ensures Cut(x, maxLength) == Cut(y, maxLength)
  {
  }

  /**
   * The early `break` changes nothing unless the gathered text is exactly
   * `maxLength` characters long while more meaningful lines follow: the
   * excerpt is the cut of all meaningful lines joined.
   */
  lemma BreakHarmless(content: string, maxLength: nat)
    requires |Join(Gathered(content, maxLength), " ")| != maxLength || Gathered(content, maxLength) == Kept(content)
    ensures ExcerptOf(content, maxLength) == Cut(Join(Kept(content), " "), maxLength)
  {
    var g, kept := Gathered(content, maxLength), Kept(content);
    GatherPrefix(Split(content, '\n'), 0, [], PyStrip, Reached(maxLength));
    assert [] + kept == kept;
    if g != kept {
      assert |Join(g, " ")| > maxLength;
      assert g != [];
      JoinExtends(g, kept);
      CutReadsPrefix(Join(g, " "), Join(kept, " "), maxLength);
    }
  }

  /** When all meaningful lines joined fit the limit, they are the excerpt. */
  lemma ShortExcerptWhole(content: string, maxLength: nat)
    requires |Join(Kept(content), " ")| <= maxLength
    ensures ExcerptOf(content, maxLength) == Join(Kept(content), " ")
  {
    var g, kept := Gathered(content, maxLength), Kept(content);
    GatherPrefix(Split(content, '\n'), 0, [], PyStrip, Reached(maxLength));
    assert [] + kept == kept;
    if g != kept && g != [] {
      JoinExtends(g, kept);
    }
    BreakHarmless(content, maxLength);
  }

  /**
   * The case `BreakHarmless` excludes does occur: when the first meaningful
   * line alone is exactly `maxLength` characters long (and holds no space
   * and no '.'), the loop stops there and returns it whole, without "...",
   * although another meaningful line follows; without the `break` the text
   * would have been cut and marked with "...".
   */
  lemma ExactLengthNoEllipsis(first: string, more: string, maxLength: nat)
    requires '\n' !in first && '\n' !in more
    requires Meaningful(PyStrip(first)) && Meaningful(PyStrip(more))
    requires |PyStrip(first)| == maxLength && ' ' !in PyStrip(first) && '.' !in PyStrip(first)
    ensures ExcerptOf(first + "\n" + more, maxLength) == PyStrip(first)
    ensures Cut(Join(Kept(first + "\n" + more), " "), maxLength) == PyStrip(first) + "..."
  {
    var content := first + "\n" + more;
    var f, m := PyStrip(first), PyStrip(more);
    TwoLines(first, more);
    var ls := Split(content, '\n');
    assert Join([f], " ") == f;
    GatherFirst(ls, PyStrip, Reached(maxLength));
    KeptTwo(ls, PyStrip);
    JoinCons(f, [m], " ");
    var text := Join([f, m], " ");
    assert text[..maxLength] == f;
    assert BeforeLastSpace(f) == f;
  }

  lemma GatherFirst(ls: seq<string>, strip: string -> string, full: seq<string> -> bool)
    requires |ls| >= 1 && Meaningful(strip(ls[0])) && full([strip(ls[0])])
    ensures Gather(ls, 0, [], strip, full) == [strip(ls[0])]
  {
    assert [] + [strip(ls[0])] == [strip(ls[0])];
  }

  lemma KeptTwo(ls: seq<string>, strip: string -> string)
    requires |ls| == 2 && Meaningful(strip(ls[0])) && Meaningful(strip(ls[1]))
    ensures KeptFrom(ls, 0, strip) == [strip(ls[0]), strip(ls[1])]
  {
    assert KeptFrom(ls, 2, strip) == [];
    assert KeptFrom(ls, 1, strip) == [strip(ls[1])];
  }

  lemma TwoLines(first: string, more: string)
    requires '\n' !in first && '\n' !in more
    ensures Split(first + "\n" + more, '\n') == [first, more]
  {
    assert first + "\n" + more == first + ['\n'] + more;
    SplitAround(first, more, '\n');
    SplitWithout(first, '\n');
    SplitWithout(more, '\n');
  }

  /** The excerpt is never longer than `maxLength + 3` characters. */
  lemma ExcerptBound(content: string, maxLength: nat)
    ensures |ExcerptOf(content, maxLength)| <= maxLength + 3
  {
    var text := Join(Gathered(content, maxLength), " ");
    if |text| > maxLength {
      CutLong(text, maxLength);
    }
  }
}
