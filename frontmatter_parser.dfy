/**
 * The front-matter readers of the blog listing (`web/server/frontmatter-parser.js`):
 * `extractTaxonomy` adds the category and tag items of one file to two sets,
 * and `parseListingFields` reads the title, status and date shown in the listing.
 * The file system is left out: a file is its content, or `None` when it cannot be read.
 */
module FrontmatterParser {
  import opened Strings
  import Translation
  import Frontmatter

  // ---------------------------------------------------------------------------
  // The front-matter block: `/^---\n([\s\S]*?)\n---/`
  // ---------------------------------------------------------------------------

  /**
   * Capture group 1 of `/^---\n([\s\S]*?)\n---/`: the text between the opening
   * "---\n" and the first "\n---" after it, the same block `splitFrontmatter` reads.
   */
  function FrontMatterBlock(content: string): (r: Option<string>)
    ensures r.None? <==> Translation.SplitFrontmatter(content).None?
    ensures r.Some? ==> r.value == Translation.SplitFrontmatter(content).value.yaml
  {
    match Translation.SplitFrontmatter(content)
    case None => None
    case Some(f) => Some(f.yaml)
  }

  /** A line break of the joined lines is never its last character, and is followed by the first character of the next line. */
  predicate BreaksFollowed(j: string)
  {
    forall p :: 0 <= p < |j| ==> j[p] != '\n' || (p + 1 < |j| && j[p + 1] != '-')
  }

  lemma {:induction false} JoinBreakFollowed(mid: seq<string>)
    requires mid != [] && Frontmatter.AllInner(mid)
    ensures BreaksFollowed(Join(mid, "\n"))
  {
    assert Frontmatter.InnerLine(mid[0]);
    if |mid| == 1 {
      assert Join(mid, "\n") == mid[0];
    } else {
      var x, rest := mid[0], mid[1..];
      assert Frontmatter.AllInner(rest) by {
        forall i | 0 <= i < |rest| ensures Frontmatter.InnerLine(rest[i]) {
          assert rest[i] == mid[i + 1];
        }
      }
      JoinBreakFollowed(rest);
      JoinHead(rest);
      HeadTail(mid);
      JoinCons(x, rest, "\n");
      BreaksFollowedCons(x, Join(rest, "\n"), Join(mid, "\n"));
    }
  }

  lemma BreaksFollowedCons(x: string, tail: string, j: string)
    requires j == x + "\n" + tail && '\n' !in x
    requires tail != [] && tail[0] != '-' && BreaksFollowed(tail)
    ensures BreaksFollowed(j)
  {
    forall p | 0 <= p < |j| ensures j[p] != '\n' || (p + 1 < |j| && j[p + 1] != '-') {
      if p < |x| {
        assert j[p] == x[p] && x[p] in x;
      } else if p == |x| {
        assert j[p + 1] == tail[0];
      } else {
        var q := p - |x| - 1;
        assert j[p] == tail[q];
        assert tail[q] != '\n' || (q + 1 < |tail| && tail[q + 1] != '-');
        if q + 1 < |tail| {
          assert j[p + 1] == tail[q + 1];
        }
      }
    }
  }

  /** The joined text opens with the first character of the first line. */
  lemma JoinHead(mid: seq<string>)
    requires mid != [] && Frontmatter.AllInner(mid)
    ensures |Join(mid, "\n")| > 0 && Join(mid, "\n")[0] == mid[0][0]
  {
    assert Frontmatter.InnerLine(mid[0]);
    if |mid| > 1 {
      JoinCons(mid[0], mid[1..], "\n");
      HeadTail(mid);
    }
  }

  /** What an occurrence of "\n---" says about its first two characters. */
  lemma DelimiterChars(s: string, k: nat)
    ensures OccursAt(s, Translation.Delimiter, k) ==> s[k] == '\n' && s[k + 1] == '-'
  {
    if OccursAt(s, Translation.Delimiter, k) {
      assert s[k..k + 4][0] == s[k] && s[k..k + 4][1] == s[k + 1];
    }
  }

  /**
   * When no inner line opens with '-' or holds a line break, the block of
   * `---`, the joined lines and `---` is exactly those lines.
   */
  lemma BlockOfFenced(mid: seq<string>, rest: string)
    requires mid != [] && Frontmatter.AllInner(mid)
    ensures FrontMatterBlock("---\n" + Join(mid, "\n") + "\n---" + rest) == Some(Join(mid, "\n"))
  {
    var j := Join(mid, "\n");
    JoinBreakFollowed(mid);
    JoinHead(mid);
    BlockOfBroken(j, rest, "---\n" + j + "\n---" + rest);
  }

  lemma BlockOfBroken(j: string, rest: string, s: string)
    requires s == "---\n" + j + "\n---" + rest
    requires BreaksFollowed(j) && j != [] && j[0] != '-'
    ensures FrontMatterBlock(s) == Some(j)
  {
    var e := 4 + |j|;
    assert s[..4] == "---\n";
    assert s[e..e + 4] == Translation.Delimiter;
    forall k: nat | 4 <= k < e ensures !OccursAt(s, Translation.Delimiter, k) {
      DelimiterChars(s, k);
      assert s[k] == j[k - 4];
      if k + 1 < e {
        assert s[k + 1] == j[k - 3];
      } else {
        assert s[k + 1] == '\n';
      }
    }
    var r := Translation.SplitFrontmatter(s);
    assert OccursAt(s, Translation.Delimiter, e);
    assert 4 + |r.value.yaml| == e;
    assert s[4..e] == j;
  }

  // ---------------------------------------------------------------------------
  // `extractTaxonomy`
  // ---------------------------------------------------------------------------

  /** The line that opens the category items: exactly four spaces and `category:`. */
  const CategoryHead: string := "    category:"
  /** The line that opens the tag items: exactly four spaces and `post_tag:`. */
  const TagHead: string := "    post_tag:"

  /** A line of `^ {8}- .+$`: eight spaces, "- " and at least one more character. */
  predicate ItemLine(line: string)
  {
    |line| > 10 && line[..10] == Translation.ItemIndent
  }

  /**
   * The first line at or after `from` that equals `head` and is followed by a
   * line break (`^ {4}category:\n` with flag `m`), or -1.
   */
  function HeadIndexFrom(lines: seq<string>, head: string, from: nat): (r: int)
    ensures r == -1 || (from <= r && r + 1 < |lines| && lines[r] == head)
    ensures r == -1 ==> forall k :: from <= k && k + 1 < |lines| ==> lines[k] != head
    ensures r >= 0 ==> forall k :: from <= k < r ==> lines[k] != head
    decreases |lines| - from
  {
    if from + 1 >= |lines| then -1
    else if lines[from] == head then from
    else HeadIndexFrom(lines, head, from + 1)
  }

  function HeadIndex(lines: seq<string>, head: string): int
  {
    HeadIndexFrom(lines, head, 0)
  }

  /** `m[1].trim()` for the match `^ {8}- (.+)$` of an item line. */
  function ItemValue(line: string): string
  {
    if |line| >= 10 then Trim(line[10..]) else ""
  }

  /**
   * The values of the item lines that follow one another from line `j` on
   * (`(?:^ {8}- .+\n?)*`, then `m[1].trim()` for every `^ {8}- (.+)$` in it).
   */
  function ItemRun(lines: seq<string>, j: nat): seq<string>
    requires j <= |lines|
  {
    RunOf(lines, j, ItemValue)
  }

  /** The longest run of item lines from line `j`, each read by `value`. */
  function RunOf(lines: seq<string>, j: nat, value: string -> string): seq<string>
    requires j <= |lines|
    decreases |lines| - j
  {
    if j < |lines| && ItemLine(lines[j]) then [value(lines[j])] + RunOf(lines, j + 1, value) else []
  }

  /** The run is the longest one: every line it reads is an item line, and the line after it is not. */
  lemma {:induction false} RunShape(lines: seq<string>, j: nat, value: string -> string)
    requires j <= |lines|
    ensures var r := RunOf(lines, j, value);
            && j + |r| <= |lines|
            && (forall i :: j <= i < j + |r| ==> ItemLine(lines[i]) && r[i - j] == value(lines[i]))
            && (j + |r| == |lines| || !ItemLine(lines[j + |r|]))
    decreases |lines| - j
  {
    if j < |lines| && ItemLine(lines[j]) {
      RunShape(lines, j + 1, value);
      var r, rest := RunOf(lines, j, value), RunOf(lines, j + 1, value);
      assert r == [value(lines[j])] + rest;
      assert j + |r| == (j + 1) + |rest|;
      forall i | j <= i < j + |r| ensures ItemLine(lines[i]) && r[i - j] == value(lines[i]) {
        if i > j {
          assert r[i - j] == rest[i - (j + 1)];
        }
      }
    }
  }

  /** What `extractTaxonomy` reads under a head line at `j - 1`: the trimmed texts of the item lines that directly follow it. */
  lemma ItemRunShape(lines: seq<string>, j: nat)
    requires j <= |lines|
    ensures var r := ItemRun(lines, j);
            && j + |r| <= |lines|
            && (forall i :: j <= i < j + |r| ==> ItemLine(lines[i]) && r[i - j] == Trim(lines[i][10..]))
            && (j + |r| == |lines| || !ItemLine(lines[j + |r|]))
  {
    RunShape(lines, j, ItemValue);
    var r := ItemRun(lines, j);
    forall i | j <= i < j + |r| ensures ItemLine(lines[i]) && r[i - j] == Trim(lines[i][10..]) {
      assert r[i - j] == ItemValue(lines[i]);
    }
  }

  /** The items under `head` in a list of lines; none when no such head line is followed by a line break. */
  function LinesTerms(lines: seq<string>, head: string): seq<string>
  {
    var i := HeadIndex(lines, head);
    if i < 0 then [] else ItemRun(lines, i + 1)
  }

  /** The items under `head` in the front matter `fm`. */
  function GroupTerms(fm: string, head: string): seq<string>
  {
    LinesTerms(Split(fm, '\n'), head)
  }

  /** The items under `head` in the file `content`; none without a front-matter block. */
  function ContentTerms(content: string, head: string): seq<string>
  {
    match FrontMatterBlock(content)
    case None => []
    case Some(fm) => GroupTerms(fm, head)
  }

  /** The elements of a list, as a set. */
  function Elems(s: seq<string>): (r: set<string>)
    ensures forall x :: x in r <==> x in s
  {
    set x | x in s
  }

  /** The two sets the listing route passes to `extractTaxonomy`, file after file. */
  class TaxonomySets {
    var categories: set<string>
    var tags: set<string>

    constructor ()
      ensures categories == {} && tags == {}
    {
      categories := {};
      tags := {};
    }

    /**
     * `extractTaxonomy(content, categoriesSet, tagsSet)`: adds the items of the
     * category and tag groups; without a front-matter block nothing changes.
     */
    method ExtractTaxonomy(content: string)
      modifies this
      ensures categories == old(categories) + Elems(ContentTerms(content, CategoryHead))
      ensures tags == old(tags) + Elems(ContentTerms(content, TagHead))
    {
      var block := FrontMatterBlock(content);
      if block.None? {
        NoBlockNoTerms(content, CategoryHead, categories);
        NoBlockNoTerms(content, TagHead, tags);
        return;
      }
      var lines := Split(block.value, '\n');
      categories := CollectGroup(categories, lines, CategoryHead);
      tags := CollectGroup(tags, lines, TagHead);
      BlockTerms(content, block.value, lines, CategoryHead);
      BlockTerms(content, block.value, lines, TagHead);
    }
  }

  /** One `if (match) { for (...) set.add(...) }` block of `extractTaxonomy`. */
  method CollectGroup(into: set<string>, lines: seq<string>, head: string) returns (r: set<string>)
    ensures r == into + Elems(LinesTerms(lines, head))
  {
    var i := HeadIndex(lines, head);
    LinesTermsAt(lines, head, i);
    if i >= 0 {
      r := AddRun(into, lines, i + 1);
    } else {
      r := into;
      ElemsNone(into, LinesTerms(lines, head));
    }
  }

  lemma LinesTermsAt(lines: seq<string>, head: string, i: int)
    requires i == HeadIndex(lines, head)
    ensures i >= 0 ==> i + 1 <= |lines| && LinesTerms(lines, head) == ItemRun(lines, i + 1)
    ensures i < 0 ==> LinesTerms(lines, head) == []
  {
  }

  lemma ElemsNone(into: set<string>, none: seq<string>)
    requires none == []
    ensures into + Elems(none) == into
  {
  }

  lemma BlockTerms(content: string, fm: string, lines: seq<string>, head: string)
    requires FrontMatterBlock(content) == Some(fm) && lines == Split(fm, '\n')
    ensures ContentTerms(content, head) == LinesTerms(lines, head)
  {
  }

  /** `for (const m of lines) set.add(m[1].trim())` over the run of item lines from `start`. */
  method AddRun(into: set<string>, lines: seq<string>, start: nat) returns (r: set<string>)
    requires start <= |lines|
    ensures r == into + Elems(ItemRun(lines, start))
  {
    r := into;
    var j := start;
    ghost var done: seq<string> := [];
    while j < |lines| && ItemLine(lines[j])
      invariant start <= j <= |lines|
      invariant ItemRun(lines, start) == done + ItemRun(lines, j)
      invariant r == into + Elems(done)
      decreases |lines| - j
    {
      var v := ItemValue(lines[j]);
      RunStep(lines, start, j, done);
      ElemsSnoc(into, r, done, v);
      r := r + {v};
      done := done + [v];
      j := j + 1;
    }
    assert ItemRun(lines, j) == [];
    assert done + [] == done;
  }

  lemma RunStep(lines: seq<string>, start: nat, j: nat, done: seq<string>)
    requires start <= j < |lines| && ItemLine(lines[j])
    requires ItemRun(lines, start) == done + ItemRun(lines, j)
    ensures ItemRun(lines, start) == (done + [ItemValue(lines[j])]) + ItemRun(lines, j + 1)
  {
    SeqAssoc(done, [ItemValue(lines[j])], ItemRun(lines, j + 1));
  }

  lemma ElemsSnoc(into: set<string>, r: set<string>, done: seq<string>, v: string)
    requires r == into + Elems(done)
    ensures r + {v} == into + Elems(done + [v])
  {
    assert Elems(done + [v]) == Elems(done) + {v};
  }

  /** Nothing is read, and so nothing is added, from a file without a front-matter block. */
  lemma NoBlockNoTerms(content: string, head: string, into: set<string>)
    requires FrontMatterBlock(content).None?
    ensures ContentTerms(content, head) == [] && into + Elems(ContentTerms(content, head)) == into
  {
  }

  /** A head line found first at `i`: no earlier line is the head, and a line follows it. */
  lemma HeadFirstAt(lines: seq<string>, key: string, i: nat)
    requires i + 1 < |lines| && lines[i] == key
    requires forall k :: 0 <= k < i ==> lines[k] != key
    ensures HeadIndex(lines, key) == i
  {
  }

  /** A key that is on no line has no items. */
  lemma KeyAbsent(lines: seq<string>, key: string)
    requires key !in lines
    ensures LinesTerms(lines, key) == []
  {
  }

  /** Item lines written for `items` from line `j` on, and no item line after them, read back as `items`. */
  lemma {:induction false} RunOfItems(lines: seq<string>, j: nat, items: seq<string>, value: string -> string)
    requires j + |items| <= |lines|
    requires forall i :: j <= i < j + |items| ==> ItemLine(lines[i]) && value(lines[i]) == items[i - j]
    requires j + |items| == |lines| || !ItemLine(lines[j + |items|])
    ensures RunOf(lines, j, value) == items
    decreases |items|
  {
    if items != [] {
      assert ItemLine(lines[j]) && value(lines[j]) == items[0];
      forall i | j + 1 <= i < j + 1 + |items[1..]| ensures ItemLine(lines[i]) && value(lines[i]) == items[1..][i - (j + 1)] {
        assert items[1..][i - (j + 1)] == items[i - j];
      }
      RunOfItems(lines, j + 1, items[1..], value);
      HeadTail(items);
    }
  }

  /** A written item line is an item line, and its value is the term. */
  lemma ItemLineOf(t: string)
    requires Translation.PlainTerm(t)
    ensures ItemLine(Translation.ItemIndent + t) && ItemValue(Translation.ItemIndent + t) == t
  {
    var l := Translation.ItemIndent + t;
    assert l[..10] == Translation.ItemIndent && l[10..] == t;
    Translation.TrimUnchanged(t);
  }

  /** A head line followed by the written item lines of `items`, then a line that is not an item. */
  lemma KeyRun(lines: seq<string>, pre: seq<string>, key: string, items: seq<string>, post: seq<string>)
    requires lines == pre + [key] + Translation.ItemLineSeq(items) + post
    requires key !in pre && items != [] && Translation.AllPlain(items)
    requires post == [] || !ItemLine(post[0])
    ensures LinesTerms(lines, key) == items
  {
    var j := |pre| + 1;
    var il := Translation.ItemLineSeq(items);
    LayoutIndexes(lines, pre, key, il, post);
    forall i | j <= i < j + |items| ensures ItemLine(lines[i]) && ItemValue(lines[i]) == items[i - j] {
      assert lines[i] == lines[|pre| + 1 + (i - j)] == il[i - j] == Translation.ItemIndent + items[i - j];
      assert Translation.PlainTerm(items[i - j]);
      ItemLineOf(items[i - j]);
    }
    HeadFirstAt(lines, key, |pre|);
    RunOfItems(lines, j, items, ItemValue);
  }

  lemma LayoutIndexes(lines: seq<string>, pre: seq<string>, key: string, il: seq<string>, post: seq<string>)
    requires lines == pre + [key] + il + post && key !in pre && il != []
    ensures |pre| + 1 < |lines| && lines[|pre|] == key
    ensures forall k :: 0 <= k < |pre| ==> lines[k] != key
    ensures forall k :: 0 <= k < |il| ==> lines[|pre| + 1 + k] == il[k]
    ensures |pre| + 1 + |il| == |lines| || lines[|pre| + 1 + |il|] == post[0]
  {
    forall k | 0 <= k < |pre| ensures lines[k] != key {
      assert lines[k] == pre[k];
    }
  }

  // ---------------------------------------------------------------------------
  // Writer to reader: the items `buildFrontmatter` writes are all recovered
  // ---------------------------------------------------------------------------

  /** The header values the writer can emit so that every one stays on its own line and every term is recovered. */
  predicate Recoverable(o: Frontmatter.Options, now: string)
  {
    Frontmatter.SingleLine(o, now) && Translation.AllPlain(o.categories) && Translation.AllPlain(o.tags)
  }

  /** The front-matter block of a written post is its inner lines, one per line. */
  lemma WrittenBlockLines(o: Frontmatter.Options, now: string, body: string)
    requires Frontmatter.SingleLine(o, now)
    ensures FrontMatterBlock(Frontmatter.FrontmatterText(o, now) + body) == Some(Join(Frontmatter.InnerLines(o, now), "\n"))
    ensures Split(Join(Frontmatter.InnerLines(o, now), "\n"), '\n') == Frontmatter.InnerLines(o, now)
  {
    var inner := Frontmatter.InnerLines(o, now);
    Frontmatter.FrontmatterTextFenced(o, now);
    Frontmatter.InnerLinesShape(o, now);
    var j := Join(inner, "\n");
    assert Frontmatter.FrontmatterText(o, now) + body == "---\n" + j + "\n---" + ("\n" + body);
    BlockOfFenced(inner, "\n" + body);
    forall i | 0 <= i < |inner| ensures '\n' !in inner[i] {
      assert Frontmatter.InnerLine(inner[i]);
    }
    JoinThenSplit(inner, '\n');
  }

  /** Every category and tag `buildFrontmatter` writes is read back by `extractTaxonomy`, in order. */
  lemma WrittenTaxonomyRecovered(o: Frontmatter.Options, now: string, body: string)
    requires Recoverable(o, now)
    ensures ContentTerms(Frontmatter.FrontmatterText(o, now) + body, CategoryHead) == o.categories
    ensures ContentTerms(Frontmatter.FrontmatterText(o, now) + body, TagHead) == o.tags
  {
    var inner := Frontmatter.InnerLines(o, now);
    WrittenBlockLines(o, now, body);
    var a := InnerHead(o, now);
    var cl := Frontmatter.CustomLines(o);
    InnerParts(o, now);
    HeadPartLines(o, now);
    CustomPartLines(o);
    TaxonomyRecovered(inner, a, o.categories, o.tags, cl);
  }

  /** After reading a written post, the category set holds what it held plus the post's categories. */
  lemma ExtractWritten(o: Frontmatter.Options, now: string, body: string, before: set<string>)
    requires Recoverable(o, now)
    ensures before + Elems(ContentTerms(Frontmatter.FrontmatterText(o, now) + body, CategoryHead))
            == before + (set c | c in o.categories)
    ensures before + Elems(ContentTerms(Frontmatter.FrontmatterText(o, now) + body, TagHead))
            == before + (set t | t in o.tags)
  {
    WrittenTaxonomyRecovered(o, now, body);
  }

  /** The inner lines before the taxonomy block. */
  function InnerHead(o: Frontmatter.Options, now: string): seq<string>
  {
    [Frontmatter.TitleLine(o), Frontmatter.StatusLine(o), Frontmatter.DateLine(o, now)]
      + Translation.LineIf(o.excerpt != "", Frontmatter.ExcerptLine(o))
      + Translation.LineIf(o.featuredImage != "", Frontmatter.FeaturedLine(o))
  }

  lemma InnerParts(o: Frontmatter.Options, now: string)
    ensures Frontmatter.InnerLines(o, now) == InnerHead(o, now) + Translation.TaxonomyLines(o.categories, o.tags) + Frontmatter.CustomLines(o)
  {
  }

  /** The lines before the taxonomy block open with a letter, so none is a head line. */
  lemma HeadPartLines(o: Frontmatter.Options, now: string)
    ensures CategoryHead !in InnerHead(o, now) && TagHead !in InnerHead(o, now)
  {
    Frontmatter.LineChars(o, now);
    var a := InnerHead(o, now);
    forall i | 0 <= i < |a| ensures a[i][0] != ' ' {
      assert a[i] in {Frontmatter.TitleLine(o), Frontmatter.StatusLine(o), Frontmatter.DateLine(o, now),
                      Frontmatter.ExcerptLine(o), Frontmatter.FeaturedLine(o)};
    }
    assert CategoryHead[0] == ' ' && TagHead[0] == ' ';
  }

  /** The custom-field lines: none is a head line, and the first is not an item line. */
  lemma CustomPartLines(o: Frontmatter.Options)
    ensures CategoryHead !in Frontmatter.CustomLines(o) && TagHead !in Frontmatter.CustomLines(o)
    ensures Frontmatter.CustomLines(o) != [] ==> !ItemLine(Frontmatter.CustomLines(o)[0])
  {
    Frontmatter.CustomLinesOpen(o);
    var cl := Frontmatter.CustomLines(o);
    forall i | 0 <= i < |cl| ensures cl[i] != CategoryHead && cl[i] != TagHead {
      assert cl[i] == Frontmatter.CustomFieldsLine || cl[i][4] == 'm';
    }
    if cl != [] {
      assert cl[0][0] == 'c';
    }
  }

  lemma HeadsAreKeyLines()
    ensures CategoryHead == Translation.KeyLine(Translation.CategoryKey)
    ensures TagHead == Translation.KeyLine(Translation.TagKey)
  {
  }

  /** Lines around a written taxonomy block that hold no head line: both groups read back in order. */
  lemma TaxonomyRecovered(lines: seq<string>, a: seq<string>, c: seq<string>, t: seq<string>, cl: seq<string>)
    requires lines == a + Translation.TaxonomyLines(c, t) + cl
    requires CategoryHead !in a && TagHead !in a && CategoryHead !in cl && TagHead !in cl
    requires cl == [] || !ItemLine(cl[0])
    requires Translation.AllPlain(c) && Translation.AllPlain(t)
    ensures LinesTerms(lines, CategoryHead) == c
    ensures LinesTerms(lines, TagHead) == t
  {
    HeadsAreKeyLines();
    Translation.TaxonomyOpeners(c, t);
    Translation.ItemLinesIndented(c);
    Translation.ItemLinesIndented(t);
    assert CategoryHead != TagHead;
    var gc := Translation.GroupLines(Translation.CategoryKey, c);
    var gt := Translation.GroupLines(Translation.TagKey, t);
    if c == [] && t == [] {
      assert lines == a + cl;
      KeyAbsent(lines, CategoryHead);
      KeyAbsent(lines, TagHead);
    } else {
      assert lines == a + ([Translation.TaxonomyOpen] + gc + gt) + cl;
      CategoriesRecovered(lines, a, c, gt, cl);
      TagsRecovered(lines, a, gc, t, cl);
    }
  }

  lemma CategoriesRecovered(lines: seq<string>, a: seq<string>, c: seq<string>, gt: seq<string>, cl: seq<string>)
    requires gt == [] || gt[0] == TagHead
    requires lines == a + ([Translation.TaxonomyOpen] + Translation.GroupLines(Translation.CategoryKey, c) + gt) + cl
    requires CategoryHead !in a && CategoryHead !in cl && CategoryHead !in gt
    requires cl == [] || !ItemLine(cl[0])
    requires Translation.AllPlain(c)
    ensures LinesTerms(lines, CategoryHead) == c
  {
    HeadsAreKeyLines();
    if c == [] {
      assert lines == a + [Translation.TaxonomyOpen] + gt + cl;
      KeyAbsent(lines, CategoryHead);
    } else {
      var pre := a + [Translation.TaxonomyOpen];
      var post := gt + cl;
      assert lines == pre + [CategoryHead] + Translation.ItemLineSeq(c) + post;
      assert CategoryHead != Translation.TaxonomyOpen;
      NoItemAfter(gt, cl);
      KeyRun(lines, pre, CategoryHead, c, post);
    }
  }

  /** The tag head line that may follow the category items is not an item line itself. */
  lemma NoItemAfter(gt: seq<string>, cl: seq<string>)
    requires gt == [] || gt[0] == TagHead
    requires cl == [] || !ItemLine(cl[0])
    ensures gt + cl == [] || !ItemLine((gt + cl)[0])
  {
    if gt != [] {
      assert TagHead[4] != Translation.ItemIndent[4];
      assert !ItemLine(TagHead);
    }
  }

  lemma TagsRecovered(lines: seq<string>, a: seq<string>, gc: seq<string>, t: seq<string>, cl: seq<string>)
    requires lines == a + ([Translation.TaxonomyOpen] + gc + Translation.GroupLines(Translation.TagKey, t)) + cl
    requires TagHead !in a && TagHead !in cl && TagHead !in gc
    requires cl == [] || !ItemLine(cl[0])
    requires Translation.AllPlain(t)
    ensures LinesTerms(lines, TagHead) == t
  {
    HeadsAreKeyLines();
    if t == [] {
      assert lines == a + [Translation.TaxonomyOpen] + gc + cl;
      KeyAbsent(lines, TagHead);
    } else {
      var pre := a + [Translation.TaxonomyOpen] + gc;
      assert TagHead != Translation.TaxonomyOpen;
      assert lines == pre + [TagHead] + Translation.ItemLineSeq(t) + cl;
      KeyRun(lines, pre, TagHead, t, cl);
    }
  }

  // ---------------------------------------------------------------------------
  // `parseListingFields`
  // ---------------------------------------------------------------------------

  /** What the listing shows of one file. */
  datatype Listing = Listing(title: string, postStatus: string, postDate: string)

  const TitleField: string := "title"
  const StatusField: string := "post_status"
  const DateField: string := "post_date"

  /**
   * `^field:\s*(.+)$` (flag `m`) matches: some line starts with `field:` and
   * a character other than a line break follows it somewhere, which `.+` can take.
   */
  predicate FieldMatches(fm: string, field: string)
  {
    var i := LineStartFind(fm, field + ":", 0);
    i >= 0 && exists j :: i + |field| + 1 <= j < |fm| && fm[j] != '\n'
  }

  /** The listing fields of the front matter `fm`; the title falls back to the slug only when its pattern does not match. */
  function ListingFrom(fm: string, fallbackSlug: string): Listing
  {
    Listing(
      if FieldMatches(fm, TitleField) then Translation.YamlField(fm, TitleField) else fallbackSlug,
      Translation.RawField(fm, StatusField),
      Translation.YamlField(fm, DateField))
  }

  /** `parseListingFields(filePath, fallbackSlug)`, with `None` for a file that cannot be read. */
  function ListingOf(file: Option<string>, fallbackSlug: string): Listing
  {
    match file
    case None => Listing(fallbackSlug, "", "")
    case Some(content) =>
      match FrontMatterBlock(content)
      case None => Listing(fallbackSlug, "", "")
      case Some(fm) => ListingFrom(fm, fallbackSlug)
  }

  /** `parseListingFields`: starts from the defaults and overwrites each field its pattern matches. */
  method ParseListingFields(file: Option<string>, fallbackSlug: string) returns (title: string, postStatus: string, postDate: string)
    ensures Listing(title, postStatus, postDate) == ListingOf(file, fallbackSlug)
  {
    title := fallbackSlug;
    postStatus := "";
    postDate := "";
    if file.None? {
      return;
    }
    var block := FrontMatterBlock(file.value);
    if block.None? {
      return;
    }
    var fm := block.value;
    if FieldMatches(fm, TitleField) {
      title := Translation.Unquote(Trim(Translation.FieldCapture(fm, TitleField)));
    }
    if FieldMatches(fm, StatusField) {
      postStatus := Trim(Translation.FieldCapture(fm, StatusField));
    }
    if FieldMatches(fm, DateField) {
      postDate := Translation.Unquote(Trim(Translation.FieldCapture(fm, DateField)));
    }
    UnmatchedReadsEmpty(fm, StatusField);
    UnmatchedReadsEmpty(fm, DateField);
  }

  /** A field whose pattern does not match captures nothing. */
  lemma UnmatchedReadsEmpty(fm: string, field: string)
    ensures !FieldMatches(fm, field) ==> Translation.FieldCapture(fm, field) == "" && Trim("") == "" && Translation.Unquote("") == ""
  {
    var i := LineStartFind(fm, field + ":", 0);
    if !FieldMatches(fm, field) && i >= 0 {
      var b := i + |field| + 1;
      assert OccursAt(fm, field + ":", i);
      AllBreaksSkipped(fm, b);
    }
  }

  lemma {:induction false} AllBreaksSkipped(s: string, p: nat)
    requires p <= |s|
    requires forall j :: p <= j < |s| ==> s[j] == '\n'
    ensures SkipSpace(s, p) == |s|
    decreases |s| - p
  {
    if p < |s| {
      AllBreaksSkipped(s, p + 1);
    }
  }

  /** A file that cannot be read, or has no front-matter block, lists the slug as its title and empty status and date. */
  lemma ListingDefaults(file: Option<string>, fallbackSlug: string)
    requires file.None? || Translation.SplitFrontmatter(file.value).None?
    ensures ListingOf(file, fallbackSlug) == Listing(fallbackSlug, "", "")
  {
  }

  /** The title and date lose one pair of matching quotes; the status keeps them. */
  lemma QuotesStrippedExceptStatus(fm: string, v: string, fallbackSlug: string)
    requires Translation.FieldCapture(fm, TitleField) == "\"" + v + "\""
    requires Translation.FieldCapture(fm, StatusField) == "\"" + v + "\""
    requires Translation.FieldCapture(fm, DateField) == "\"" + v + "\""
    ensures ListingFrom(fm, fallbackSlug) == Listing(v, "\"" + v + "\"", v)
  {
    var w := "\"" + v + "\"";
    Translation.TrimUnchanged(w);
    assert w[1..|w| - 1] == v;
    TitleMatches(fm);
  }

  lemma TitleMatches(fm: string)
    requires |Translation.FieldCapture(fm, TitleField)| > 0
    ensures FieldMatches(fm, TitleField)
  {
    var i := LineStartFind(fm, TitleField + ":", 0);
    var q := SkipSpace(fm, i + |TitleField| + 1);
    assert fm[q] != '\n';
  }

  /** A title written by `buildFrontmatter` is the title the listing shows. */
  lemma WrittenTitleListed(o: Frontmatter.Options, now: string, body: string, fallbackSlug: string)
    requires Frontmatter.SingleLine(o, now) && Frontmatter.Readable(o.title)
    ensures ListingOf(Some(Frontmatter.FrontmatterText(o, now) + body), fallbackSlug).title == o.title
  {
    var inner := Frontmatter.InnerLines(o, now);
    WrittenBlockLines(o, now, body);
    var w := Frontmatter.YamlValue(o.title);
    var tail := "\n" + Join(inner[1..], "\n");
    FirstInnerLine(inner, Frontmatter.TitleLine(o), tail);
    assert Frontmatter.TitleLine(o) == TitleField + ": " + w;
    TitleLineRead(Join(inner, "\n"), o.title, w, tail);
  }

  /** Joined lines are the first line followed by a line break and the rest. */
  lemma FirstInnerLine(inner: seq<string>, first: string, tail: string)
    requires |inner| >= 2 && inner[0] == first && tail == "\n" + Join(inner[1..], "\n")
    ensures Join(inner, "\n") == first + tail
  {
    JoinCons(inner[0], inner[1..], "\n");
    HeadTail(inner);
  }

  /** Front matter that opens with `title: w` reads back `v` when `w` is what `yamlValue` wrote for it. */
  lemma TitleLineRead(fm: string, v: string, w: string, tail: string)
    requires Frontmatter.Readable(v) && w == Frontmatter.YamlValue(v)
    requires fm == TitleField + ": " + w + tail && (tail == [] || tail[0] == '\n')
    ensures FieldMatches(fm, TitleField) && Translation.YamlField(fm, TitleField) == v
  {
    assert Translation.NoFieldLine("", TitleField + ":");
    assert fm == "" + TitleField + ": " + w + tail;
    Translation.FieldLineCapture("", TitleField, w, tail);
    Frontmatter.YamlValueReadBack(v);
    TitleMatches(fm);
  }
}
