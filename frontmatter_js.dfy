/**
 * The front-matter writer of the web front end (`web/src/lib/frontmatter.js`):
 * `buildFrontmatter` pushes the header lines of a new post one by one and
 * joins them with line breaks. The clock is a parameter: `now` is the date
 * string used when no date is given.
 */
module Frontmatter {
  import opened Strings
  import Translation

  // ---------------------------------------------------------------------------
  // yamlValue
  // ---------------------------------------------------------------------------

  /** `yamlValue(value)`: double quotes around a value holding ':', and no escaping. */
  function YamlValue(value: string): (r: string)
    ensures ':' in value ==> r == "\"" + value + "\""
    ensures ':' !in value ==> r == value
  {
    if ':' in value then "\"" + value + "\"" else value
  }

  /**
   * A value without line breaks, without surrounding whitespace and, when it
   * holds no ':', not itself wrapped in a pair of quotes.
   */
  predicate Readable(v: string)
  {
    && v != [] && '\n' !in v
    && !IsJsSpace(v[0]) && !IsJsSpace(v[|v| - 1])
    && (':' !in v ==> !(|v| >= 1 && v[0] == v[|v| - 1] && (v[0] == '"' || v[0] == '\'')))
  }

  /** The readers (trim, then strip one pair of quotes) get such a value back from what `yamlValue` writes. */
  lemma YamlValueReadBack(v: string)
    requires Readable(v)
    ensures Translation.Unquote(Trim(YamlValue(v))) == v
  {
    var w := YamlValue(v);
    Translation.TrimUnchanged(w);
    if ':' in v {
      assert w[1..|w| - 1] == v;
    }
  }

  // ---------------------------------------------------------------------------
  // Lines and prefixes
  // ---------------------------------------------------------------------------

  /** `line` starts with `prefix`. */
  predicate Starts(line: string, prefix: string)
  {
    |prefix| <= |line| && line[..|prefix|] == prefix
  }

  /** Some line starts with `prefix`. */
  predicate HasLine(lines: seq<string>, prefix: string)
  {
    exists i :: 0 <= i < |lines| && Starts(lines[i], prefix)
  }

  /** No line starts with `prefix` when each one is shorter than it or differs from it at position `k`. */
  lemma NoneStarts(lines: seq<string>, prefix: string, k: nat)
    requires k < |prefix|
    requires forall i :: 0 <= i < |lines| ==> |lines[i]| < |prefix| || (k < |lines[i]| && lines[i][k] != prefix[k])
    ensures !HasLine(lines, prefix)
  {
    forall i | 0 <= i < |lines| ensures !Starts(lines[i], prefix) {
      if |prefix| <= |lines[i]| {
        assert lines[i][..|prefix|][k] == lines[i][k];
      }
    }
  }

  /** An optional line that starts with `prefix` makes such a line appear exactly when it is written. */
  lemma LineIfHas(cond: bool, line: string, prefix: string)
    requires Starts(line, prefix)
    ensures HasLine(Translation.LineIf(cond, line), prefix) <==> cond
  {
    if cond {
      assert Translation.LineIf(cond, line)[0] == line;
    }
  }

  /** Only the middle part can hold a line starting with `prefix`. */
  lemma HasLineMiddle(a: seq<string>, b: seq<string>, c: seq<string>, prefix: string)
    requires !HasLine(a, prefix) && !HasLine(c, prefix)
    ensures HasLine(a + b + c, prefix) <==> HasLine(b, prefix)
  {
    HasLineAppend(a + b, c, prefix);
    HasLineAppend(a, b, prefix);
  }

  lemma HasLineAppend(a: seq<string>, b: seq<string>, prefix: string)
    ensures HasLine(a + b, prefix) <==> HasLine(a, prefix) || HasLine(b, prefix)
  {
    if HasLine(a + b, prefix) {
      var i :| 0 <= i < |a + b| && Starts((a + b)[i], prefix);
      if i >= |a| {
        assert b[i - |a|] == (a + b)[i];
      }
    }
    if HasLine(a, prefix) {
      var i :| 0 <= i < |a| && Starts(a[i], prefix);
      assert (a + b)[i] == a[i];
    }
    if HasLine(b, prefix) {
      var i :| 0 <= i < |b| && Starts(b[i], prefix);
      assert (a + b)[i + |a|] == b[i];
    }
  }

  /** Lines joined by '\n' with a final '\n', opened and closed by `---`, start with "---\n" and end with "\n---\n". */
  lemma FencedJoin(ls: seq<string>)
    requires |ls| >= 2 && ls[0] == Translation.Fence && ls[|ls| - 1] == Translation.Fence
    ensures var t := Join(ls, "\n") + "\n";
            |t| >= 8 && t[..4] == "---\n" && t[|t| - 5..] == "\n---\n"
  {
    var init := ls[..|ls| - 1];
    assert ls == init + [Translation.Fence];
    JoinAppend(init, [Translation.Fence], "\n");
    assert init == [Translation.Fence] + init[1..];
    if |init| == 1 {
      assert Join(init, "\n") == Translation.Fence;
    } else {
      JoinCons(Translation.Fence, init[1..], "\n");
    }
  }

  /** Every line of the taxonomy block opens with a space, except `taxonomy:` itself. */
  lemma TaxonomyLinesOpen(categories: seq<string>, tags: seq<string>)
    ensures forall i :: 0 <= i < |Translation.TaxonomyLines(categories, tags)| ==>
              var l := Translation.TaxonomyLines(categories, tags)[i];
              l == Translation.TaxonomyOpen || (|l| >= 8 && l[0] == ' ')
  {
    var ls := Translation.TaxonomyLines(categories, tags);
    Translation.ItemLinesIndented(categories);
    Translation.ItemLinesIndented(tags);
    if categories != [] || tags != [] {
      var gc := Translation.GroupLines(Translation.CategoryKey, categories);
      var gt := Translation.GroupLines(Translation.TagKey, tags);
      assert ls == [Translation.TaxonomyOpen] + gc + gt;
      forall i | 0 <= i < |gc| ensures |gc[i]| >= 8 && gc[i][0] == ' ' {
        if i > 0 {
          assert gc[i] == Translation.ItemLineSeq(categories)[i - 1];
          assert gc[i][..8] == "        ";
        }
      }
      forall i | 0 <= i < |gt| ensures |gt[i]| >= 8 && gt[i][0] == ' ' {
        if i > 0 {
          assert gt[i] == Translation.ItemLineSeq(tags)[i - 1];
          assert gt[i][..8] == "        ";
        }
      }
    }
  }

  // ---------------------------------------------------------------------------
  // buildFrontmatter
  // ---------------------------------------------------------------------------

  /**
   * The options of `buildFrontmatter`. `status` is `None` when not passed;
   * the empty string and the empty list stand for absent optional values.
   */
  datatype Options = Options(
    title: string, status: Option<string>, date: string, excerpt: string,
    categories: seq<string>, tags: seq<string>, featuredImage: string,
    metaTitle: string, metaDescription: string)

  /** The status default of the destructuring parameter. */
  const DefaultStatus: string := "draft"

  function StatusOf(o: Options): (r: string)
    ensures o.status.None? ==> r == DefaultStatus
    ensures o.status.Some? ==> r == o.status.value
  {
    match o.status
    case None => DefaultStatus
    case Some(s) => s
  }

  const TitleKey: string := "title: "
  const StatusKey: string := "post_status: "
  const DateKey: string := "post_date: "
  const ExcerptKey: string := "post_excerpt: "
  const FeaturedKey: string := "featured_image: "
  const CustomFieldsLine: string := "custom_fields:"
  const MetaTitleKey: string := "    meta_title: "
  const MetaDescriptionKey: string := "    meta_description: "

  function TitleLine(o: Options): string { TitleKey + YamlValue(o.title) }
  function StatusLine(o: Options): string { StatusKey + StatusOf(o) }
  /** `post_date: ${date || nowDateString()}`. */
  function DateLine(o: Options, now: string): string { DateKey + (if o.date != "" then o.date else now) }
  function ExcerptLine(o: Options): string { ExcerptKey + YamlValue(o.excerpt) }
  function FeaturedLine(o: Options): string { FeaturedKey + o.featuredImage }
  function MetaTitleLine(o: Options): string { MetaTitleKey + YamlValue(o.metaTitle) }
  function MetaDescriptionLine(o: Options): string { MetaDescriptionKey + YamlValue(o.metaDescription) }

  /** The `custom_fields` block: present only when there is a meta title or a meta description. */
  function CustomLines(o: Options): seq<string>
  {
    if o.metaTitle == "" && o.metaDescription == "" then []
    else [CustomFieldsLine] + Translation.LineIf(o.metaTitle != "", MetaTitleLine(o))
         + Translation.LineIf(o.metaDescription != "", MetaDescriptionLine(o))
  }

  /** The four lines every header opens with. */
  function FixedLines(o: Options, now: string): seq<string>
  {
    [Translation.Fence, TitleLine(o), StatusLine(o), DateLine(o, now)]
  }

  /** The lines before the taxonomy block. */
  function HeadLines(o: Options, now: string): seq<string>
  {
    FixedLines(o, now)
      + Translation.LineIf(o.excerpt != "", ExcerptLine(o))
      + Translation.LineIf(o.featuredImage != "", FeaturedLine(o))
  }

  /** The taxonomy block, the custom fields and the closing fence. */
  function TailLines(o: Options): seq<string>
  {
    Translation.TaxonomyLines(o.categories, o.tags) + CustomLines(o) + [Translation.Fence]
  }

  /** The lines `buildFrontmatter` pushes, in order. */
  function FrontmatterLines(o: Options, now: string): seq<string>
  {
    HeadLines(o, now) + TailLines(o)
  }

  /** The text `buildFrontmatter` returns. */
  function FrontmatterText(o: Options, now: string): string
  {
    Join(FrontmatterLines(o, now), "\n") + "\n"
  }

  /** `buildFrontmatter(options)`, with `now` standing for `nowDateString()`. */
  method BuildFrontmatter(o: Options, now: string) returns (out: string)
    ensures out == FrontmatterText(o, now)
  {
    var head := PushHead(o, now);
    var withTaxonomy := Translation.PushTaxonomy(head, o.categories, o.tags);
    var withCustom := PushCustomFields(withTaxonomy, o);
    var lines := withCustom + [Translation.Fence];
    TailPushed(head, withTaxonomy, withCustom, lines, o);
    out := Join(lines, "\n") + "\n";
  }

  lemma TailPushed(head: seq<string>, l1: seq<string>, l2: seq<string>, l3: seq<string>, o: Options)
    requires l1 == head + Translation.TaxonomyLines(o.categories, o.tags)
    requires l2 == l1 + CustomLines(o) && l3 == l2 + [Translation.Fence]
    ensures l3 == head + TailLines(o)
  {
    var tx, cl := Translation.TaxonomyLines(o.categories, o.tags), CustomLines(o);
    SeqAssoc(head, tx, cl);
    SeqAssoc(head, tx + cl, [Translation.Fence]);
  }

  /** The pushes before the taxonomy block. */
  method PushHead(o: Options, now: string) returns (lines: seq<string>)
    ensures lines == HeadLines(o, now)
  {
    lines := [Translation.Fence];
    lines := lines + [TitleKey + YamlValue(o.title)];
    lines := lines + [StatusKey + StatusOf(o)];
    lines := lines + [DateKey + (if o.date != "" then o.date else now)];
    ghost var l0 := lines;
    if o.excerpt != "" {
      lines := lines + [ExcerptKey + YamlValue(o.excerpt)];
    }
    assert lines == l0 + Translation.LineIf(o.excerpt != "", ExcerptLine(o));
    ghost var l1 := lines;
    if o.featuredImage != "" {
      lines := lines + [FeaturedKey + o.featuredImage];
    }
    assert lines == l1 + Translation.LineIf(o.featuredImage != "", FeaturedLine(o));
  }

  /** The `if (metaTitle || metaDescription)` block. */
  method PushCustomFields(lines: seq<string>, o: Options) returns (r: seq<string>)
    ensures r == lines + CustomLines(o)
  {
    r := lines;
    if o.metaTitle != "" || o.metaDescription != "" {
      r := r + [CustomFieldsLine];
      ghost var r0 := r;
      if o.metaTitle != "" {
        r := r + [MetaTitleKey + YamlValue(o.metaTitle)];
      }
      assert r == r0 + Translation.LineIf(o.metaTitle != "", MetaTitleLine(o));
      ghost var r1 := r;
      if o.metaDescription != "" {
        r := r + [MetaDescriptionKey + YamlValue(o.metaDescription)];
      }
      assert r == r1 + Translation.LineIf(o.metaDescription != "", MetaDescriptionLine(o));
    } else {
      assert r == lines + [];
    }
  }

  // ---------------------------------------------------------------------------
  // What the header holds
  // ---------------------------------------------------------------------------

  /** The header opens with "---\n" and closes with "\n---\n". */
  lemma FrontmatterFrame(o: Options, now: string)
    ensures var t := FrontmatterText(o, now);
            |t| >= 8 && t[..4] == "---\n" && t[|t| - 5..] == "\n---\n"
  {
    FencedJoin(FrontmatterLines(o, now));
  }

  /** The title, status and date lines always come first, in that order; the status defaults to 'draft'. */
  lemma FixedLinesFirst(o: Options, now: string)
    ensures var ls := FrontmatterLines(o, now);
            && |ls| >= 5 && ls[0] == Translation.Fence
            && ls[1] == TitleKey + YamlValue(o.title)
            && ls[2] == StatusKey + (if o.status.None? then DefaultStatus else o.status.value)
            && ls[3] == DateKey + (if o.date != "" then o.date else now)
  {
    var h, t := HeadLines(o, now), TailLines(o);
    assert h[..4] == FixedLines(o, now);
    assert FrontmatterLines(o, now)[..4] == h[..4];
  }

  /** The characters that tell the header lines apart. */
  lemma LineChars(o: Options, now: string)
    ensures |TitleLine(o)| >= 6 && TitleLine(o)[0] == 't' && TitleLine(o)[1] == 'i' && TitleLine(o)[5] == ':'
    ensures |StatusLine(o)| >= 6 && StatusLine(o)[0] == 'p' && StatusLine(o)[5] == 's'
    ensures |DateLine(o, now)| >= 6 && DateLine(o, now)[0] == 'p' && DateLine(o, now)[5] == 'd'
    ensures |ExcerptLine(o)| >= 6 && ExcerptLine(o)[0] == 'p' && ExcerptLine(o)[5] == 'e'
    ensures |FeaturedLine(o)| >= 6 && FeaturedLine(o)[0] == 'f' && FeaturedLine(o)[5] == 'r'
  {
  }

  /** The custom-field lines: `custom_fields:`, then lines that open with four spaces and `m`. */
  lemma CustomLinesOpen(o: Options)
    ensures forall i :: 0 <= i < |CustomLines(o)| ==>
              var l := CustomLines(o)[i];
              l == CustomFieldsLine || (|l| >= 5 && l[0] == ' ' && l[4] == 'm')
    ensures CustomLines(o) != [] <==> o.metaTitle != "" || o.metaDescription != ""
    ensures CustomLines(o) != [] ==> CustomLines(o)[0] == CustomFieldsLine
  {
    var cl := CustomLines(o);
    if cl != [] {
      var mt := Translation.LineIf(o.metaTitle != "", MetaTitleLine(o));
      var md := Translation.LineIf(o.metaDescription != "", MetaDescriptionLine(o));
      assert cl == [CustomFieldsLine] + mt + md;
      forall i | 0 <= i < |cl| ensures cl[i] == CustomFieldsLine || (|cl[i]| >= 5 && cl[i][0] == ' ' && cl[i][4] == 'm') {
        if i > 0 {
          assert cl[i] == MetaTitleLine(o) || cl[i] == MetaDescriptionLine(o);
        }
      }
    }
  }

  /** No line after the head opens with `p` or `f`. */
  lemma TailLinesOpen(o: Options)
    ensures forall i :: 0 <= i < |TailLines(o)| ==> |TailLines(o)[i]| >= 3 && TailLines(o)[i][0] != 'p' && TailLines(o)[i][0] != 'f'
  {
    TaxonomyLinesOpen(o.categories, o.tags);
    CustomLinesOpen(o);
    var tx, cl := Translation.TaxonomyLines(o.categories, o.tags), CustomLines(o);
    var all := TailLines(o);
    forall i | 0 <= i < |all| ensures |all[i]| >= 3 && all[i][0] != 'p' && all[i][0] != 'f' {
      if i < |tx| {
        assert all[i] == tx[i];
      } else if i < |tx| + |cl| {
        assert all[i] == cl[i - |tx|];
        assert all[i] == CustomFieldsLine || all[i][0] == ' ';
      }
    }
  }

  /** A `post_excerpt:` line is written exactly when the excerpt is non-empty. */
  lemma ExcerptLinePresence(o: Options, now: string)
    ensures HasLine(FrontmatterLines(o, now), ExcerptKey) <==> o.excerpt != ""
  {
    var fixed := FixedLines(o, now);
    var ex := Translation.LineIf(o.excerpt != "", ExcerptLine(o));
    var fe := Translation.LineIf(o.featuredImage != "", FeaturedLine(o));
    RegroupHead(FrontmatterLines(o, now), HeadLines(o, now), TailLines(o), fixed, ex, fe);
    NoExcerptAround(o, now);
    PresentInMiddle(FrontmatterLines(o, now), fixed, ex, fe + TailLines(o), ExcerptKey);
    LineIfHas(o.excerpt != "", ExcerptLine(o), ExcerptKey);
  }

  /** No line before or after the excerpt line opens with `post_excerpt:`. */
  lemma NoExcerptAround(o: Options, now: string)
    ensures !HasLine(FixedLines(o, now), ExcerptKey)
    ensures !HasLine(Translation.LineIf(o.featuredImage != "", FeaturedLine(o)) + TailLines(o), ExcerptKey)
  {
    LineChars(o, now);
    NoneStarts(FixedLines(o, now), ExcerptKey, 5);
    NoExcerptAfter(o);
  }

  lemma NoExcerptAfter(o: Options)
    ensures !HasLine(Translation.LineIf(o.featuredImage != "", FeaturedLine(o)) + TailLines(o), ExcerptKey)
  {
    var fe := Translation.LineIf(o.featuredImage != "", FeaturedLine(o));
    TailLinesOpen(o);
    NoneStarts(TailLines(o), ExcerptKey, 0);
    if fe != [] {
      assert FeaturedLine(o)[0] == 'f';
      NoneStarts(fe, ExcerptKey, 0);
    }
    HasLineAppend(fe, TailLines(o), ExcerptKey);
  }

  /** A `featured_image:` line is written exactly when a featured image is given. */
  lemma FeaturedLinePresence(o: Options, now: string)
    ensures HasLine(FrontmatterLines(o, now), FeaturedKey) <==> o.featuredImage != ""
  {
    var before := FixedLines(o, now) + Translation.LineIf(o.excerpt != "", ExcerptLine(o));
    var fe := Translation.LineIf(o.featuredImage != "", FeaturedLine(o));
    RegroupHead(FrontmatterLines(o, now), HeadLines(o, now), TailLines(o), FixedLines(o, now), Translation.LineIf(o.excerpt != "", ExcerptLine(o)), fe);
    NoFeaturedAround(o, now);
    PresentInMiddle(FrontmatterLines(o, now), before, fe, TailLines(o), FeaturedKey);
    LineIfHas(o.featuredImage != "", FeaturedLine(o), FeaturedKey);
  }

  /** No line before or after the featured-image line opens with `featured_image:`. */
  lemma NoFeaturedAround(o: Options, now: string)
    ensures !HasLine(FixedLines(o, now) + Translation.LineIf(o.excerpt != "", ExcerptLine(o)), FeaturedKey)
    ensures !HasLine(TailLines(o), FeaturedKey)
  {
    LineChars(o, now);
    TailLinesOpen(o);
    NoneStarts(FixedLines(o, now) + Translation.LineIf(o.excerpt != "", ExcerptLine(o)), FeaturedKey, 0);
    NoneStarts(TailLines(o), FeaturedKey, 0);
  }

  /** The `custom_fields:` line is written exactly when a meta title or a meta description is given. */
  lemma CustomFieldsPresence(o: Options, now: string)
    ensures HasLine(FrontmatterLines(o, now), CustomFieldsLine) <==> o.metaTitle != "" || o.metaDescription != ""
  {
    var before := HeadLines(o, now) + Translation.TaxonomyLines(o.categories, o.tags);
    NoCustomFieldsBefore(o, now);
    NoneStarts([Translation.Fence], CustomFieldsLine, 0);
    CustomLinesHave(o);
    Regroup(FrontmatterLines(o, now), HeadLines(o, now), TailLines(o), Translation.TaxonomyLines(o.categories, o.tags), CustomLines(o), [Translation.Fence]);
    PresentInMiddle(FrontmatterLines(o, now), before, CustomLines(o), [Translation.Fence], CustomFieldsLine);
  }

  /** `lines` split into the head `h` and the tail `t == x + c + f`, regrouped around one of the tail's parts. */
  lemma Regroup(lines: seq<string>, h: seq<string>, t: seq<string>, x: seq<string>, c: seq<string>, f: seq<string>)
    requires lines == h + t && t == x + c + f
    ensures lines == (h + x) + c + f && lines == h + x + (c + f)
  {
  }

  /** `lines` split into the head `h == a + b + c` and the tail `t`, regrouped around one of the head's parts. */
  lemma RegroupHead(lines: seq<string>, h: seq<string>, t: seq<string>, a: seq<string>, b: seq<string>, c: seq<string>)
    requires lines == h + t && h == a + b + c
    ensures lines == a + b + (c + t) && lines == (a + b) + c + t
  {
  }

  /** When neither outer part holds a line opening with `prefix`, the whole does exactly when the middle does. */
  lemma PresentInMiddle(lines: seq<string>, a: seq<string>, b: seq<string>, c: seq<string>, prefix: string)
    requires lines == a + b + c
    requires !HasLine(a, prefix) && !HasLine(c, prefix)
    ensures HasLine(lines, prefix) <==> HasLine(b, prefix)
  {
    HasLineMiddle(a, b, c, prefix);
  }

  /** Neither the head nor the taxonomy block holds a line opening with `custom_fields:`. */
  lemma NoCustomFieldsBefore(o: Options, now: string)
    ensures !HasLine(HeadLines(o, now) + Translation.TaxonomyLines(o.categories, o.tags), CustomFieldsLine)
  {
    var head := HeadLines(o, now);
    var tx := Translation.TaxonomyLines(o.categories, o.tags);
    HeadLinesOpen(o, now);
    TaxonomyLinesOpen(o.categories, o.tags);
    NoneStarts(head, CustomFieldsLine, 0);
    NoneStarts(tx, CustomFieldsLine, 0);
    HasLineAppend(head, tx, CustomFieldsLine);
  }

  /** The custom-fields lines open with `custom_fields:` exactly when there are any. */
  lemma CustomLinesHave(o: Options)
    ensures HasLine(CustomLines(o), CustomFieldsLine) <==> o.metaTitle != "" || o.metaDescription != ""
  {
    var cl := CustomLines(o);
    CustomLinesOpen(o);
    if cl != [] {
      assert Starts(cl[0], CustomFieldsLine);
    }
  }

  /** Every head line opens with `-`, `t`, `p` or `f`; only the title line opens with `t`, and its second character is `i`. */
  lemma HeadLinesOpen(o: Options, now: string)
    ensures forall i :: 0 <= i < |HeadLines(o, now)| ==>
              var l := HeadLines(o, now)[i];
              |l| >= 3 && l[0] != 'c' && l[0] != ' ' && (l[0] == 't' ==> l[1] == 'i')
  {
    LineChars(o, now);
    var h := HeadLines(o, now);
    forall i | 0 <= i < |h| ensures |h[i]| >= 3 && h[i][0] != 'c' && h[i][0] != ' ' && (h[i][0] == 't' ==> h[i][1] == 'i') {
      assert h[i] in {Translation.Fence, TitleLine(o), StatusLine(o), DateLine(o, now), ExcerptLine(o), FeaturedLine(o)};
    }
  }

  /** The `taxonomy:` line is written exactly when there is a category or a tag. */
  lemma TaxonomyPresence(o: Options, now: string)
    ensures Translation.TaxonomyOpen in FrontmatterLines(o, now) <==> o.categories != [] || o.tags != []
  {
    var head := HeadLines(o, now);
    var tx := Translation.TaxonomyLines(o.categories, o.tags);
    var rest := CustomLines(o) + [Translation.Fence];
    Regroup(FrontmatterLines(o, now), head, TailLines(o), tx, CustomLines(o), [Translation.Fence]);
    NoTaxonomyAround(o, now);
    Translation.TaxonomyOpeners(o.categories, o.tags);
    assert Translation.TaxonomyOpen in head + tx + rest <==> Translation.TaxonomyOpen in tx;
  }

  /** Neither the head nor the custom fields hold the `taxonomy:` line. */
  lemma NoTaxonomyAround(o: Options, now: string)
    ensures Translation.TaxonomyOpen !in HeadLines(o, now)
    ensures Translation.TaxonomyOpen !in CustomLines(o) + [Translation.Fence]
  {
    var head := HeadLines(o, now);
    var rest := CustomLines(o) + [Translation.Fence];
    HeadLinesOpen(o, now);
    CustomLinesOpen(o);
    forall i | 0 <= i < |head| ensures head[i] != Translation.TaxonomyOpen {
      assert head[i][0] != 't' || head[i][1] != 'a';
    }
    forall i | 0 <= i < |rest| ensures rest[i] != Translation.TaxonomyOpen {
      if i < |rest| - 1 {
        assert rest[i] == CustomLines(o)[i];
        assert rest[i] == CustomFieldsLine || rest[i][0] == ' ';
      }
      assert rest[i][0] != 't';
    }
  }

  /** Under `taxonomy:`, the category key and its items come first, in input order, then the tag key and its items. */
  lemma TaxonomyBlock(o: Options, now: string)
    requires o.categories != [] || o.tags != []
    ensures Translation.TaxonomyLines(o.categories, o.tags)
            == [Translation.TaxonomyOpen]
               + (if o.categories != [] then ["    category:"] + Translation.ItemLineSeq(o.categories) else [])
               + (if o.tags != [] then ["    post_tag:"] + Translation.ItemLineSeq(o.tags) else [])
    ensures forall i :: 0 <= i < |o.categories| ==> Translation.ItemLineSeq(o.categories)[i] == "        - " + o.categories[i]
  {
    assert Translation.KeyLine(Translation.CategoryKey) == "    category:";
    assert Translation.KeyLine(Translation.TagKey) == "    post_tag:";
  }

  // ---------------------------------------------------------------------------
  // The lines between the fences
  // ---------------------------------------------------------------------------

  /** The lines between the opening and the closing `---`. */
  function InnerLines(o: Options, now: string): seq<string>
  {
    [TitleLine(o), StatusLine(o), DateLine(o, now)]
      + Translation.LineIf(o.excerpt != "", ExcerptLine(o))
      + Translation.LineIf(o.featuredImage != "", FeaturedLine(o))
      + Translation.TaxonomyLines(o.categories, o.tags) + CustomLines(o)
  }

  /** The header is `---`, the inner lines joined by line breaks, and `---`. */
  lemma FrontmatterTextFenced(o: Options, now: string)
    ensures FrontmatterLines(o, now) == [Translation.Fence] + InnerLines(o, now) + [Translation.Fence]
    ensures FrontmatterText(o, now) == "---\n" + Join(InnerLines(o, now), "\n") + "\n---\n"
  {
    var e := Translation.LineIf(o.excerpt != "", ExcerptLine(o));
    var f := Translation.LineIf(o.featuredImage != "", FeaturedLine(o));
    var tx := Translation.TaxonomyLines(o.categories, o.tags);
    Refence(FrontmatterLines(o, now), Translation.Fence, [TitleLine(o), StatusLine(o), DateLine(o, now)], e, f, tx, CustomLines(o),
            InnerLines(o, now));
    FencedJoinText(InnerLines(o, now));
  }

  lemma Refence(x: seq<string>, fence: string, fixed: seq<string>, e: seq<string>, f: seq<string>, tx: seq<string>, c: seq<string>,
                inner: seq<string>)
    requires x == ([fence] + fixed + e + f) + (tx + c + [fence])
    requires inner == fixed + e + f + tx + c
    ensures x == [fence] + inner + [fence]
  {
  }

  lemma FencedJoinText(inner: seq<string>)
    requires inner != []
    ensures Join([Translation.Fence] + inner + [Translation.Fence], "\n") + "\n" == "---\n" + Join(inner, "\n") + "\n---\n"
  {
    var fence := Translation.Fence;
    JoinAppend(inner, [fence], "\n");
    assert [fence] + inner + [fence] == [fence] + (inner + [fence]);
    JoinCons(fence, inner + [fence], "\n");
    assert Join([fence], "\n") == fence;
  }

  /** No value the header writes holds a line break. */
  predicate SingleLine(o: Options, now: string)
  {
    && '\n' !in o.title && '\n' !in StatusOf(o) && '\n' !in o.date && '\n' !in now
    && '\n' !in o.excerpt && '\n' !in o.featuredImage && '\n' !in o.metaTitle && '\n' !in o.metaDescription
    && (forall k :: 0 <= k < |o.categories| ==> '\n' !in o.categories[k])
    && (forall k :: 0 <= k < |o.tags| ==> '\n' !in o.tags[k])
  }

  /** `yamlValue` adds no line break. */
  lemma YamlValueSingleLine(v: string)
    requires '\n' !in v
    ensures '\n' !in YamlValue(v)
  {
  }

  /** A line that is a key followed by a value holds no line break when neither does. */
  lemma KeyedSingleLine(key: string, v: string)
    requires '\n' !in key && '\n' !in v
    ensures '\n' !in key + v
  {
  }

  /** A line the reader can tell apart from a closing `---`: non-empty, not opening with '-', no line break. */
  predicate InnerLine(l: string)
  {
    l != [] && l[0] != '-' && '\n' !in l
  }

  predicate AllInner(ls: seq<string>)
  {
    forall i :: 0 <= i < |ls| ==> InnerLine(ls[i])
  }

  lemma AllInnerAppend(a: seq<string>, b: seq<string>)
    requires AllInner(a) && AllInner(b)
    ensures AllInner(a + b)
  {
    forall i | 0 <= i < |a + b| ensures InnerLine((a + b)[i]) {
      if i >= |a| {
        assert (a + b)[i] == b[i - |a|];
      } else {
        assert (a + b)[i] == a[i];
      }
    }
  }

  /** Inner lines of a header whose values hold no line break are non-empty single lines, none opening with '-'. */
  lemma InnerLinesShape(o: Options, now: string)
    requires SingleLine(o, now)
    ensures AllInner(InnerLines(o, now))
  {
    var e := Translation.LineIf(o.excerpt != "", ExcerptLine(o));
    var f := Translation.LineIf(o.featuredImage != "", FeaturedLine(o));
    var tx := Translation.TaxonomyLines(o.categories, o.tags);
    var cl := CustomLines(o);
    FixedSingleLines(o, now);
    OptionalSingleLines(o);
    TaxonomySingleLines(o.categories, o.tags);
    CustomSingleLines(o);
    var fixed := [TitleLine(o), StatusLine(o), DateLine(o, now)];
    AllInnerAppend(fixed, e);
    AllInnerAppend(fixed + e, f);
    AllInnerAppend(fixed + e + f, tx);
    AllInnerAppend(fixed + e + f + tx, cl);
  }

  lemma FixedSingleLines(o: Options, now: string)
    requires '\n' !in o.title && '\n' !in StatusOf(o) && '\n' !in o.date && '\n' !in now
    ensures AllInner([TitleLine(o), StatusLine(o), DateLine(o, now)])
  {
    LineChars(o, now);
    YamlValueSingleLine(o.title);
    KeyedSingleLine(TitleKey, YamlValue(o.title));
    KeyedSingleLine(StatusKey, StatusOf(o));
    KeyedSingleLine(DateKey, if o.date != "" then o.date else now);
  }

  lemma OptionalSingleLines(o: Options)
    requires '\n' !in o.excerpt && '\n' !in o.featuredImage
    ensures AllInner(Translation.LineIf(o.excerpt != "", ExcerptLine(o)))
    ensures AllInner(Translation.LineIf(o.featuredImage != "", FeaturedLine(o)))
  {
    LineChars(o, "");
    YamlValueSingleLine(o.excerpt);
    KeyedSingleLine(ExcerptKey, YamlValue(o.excerpt));
    KeyedSingleLine(FeaturedKey, o.featuredImage);
  }

  lemma CustomSingleLines(o: Options)
    requires '\n' !in o.metaTitle && '\n' !in o.metaDescription
    ensures AllInner(CustomLines(o))
  {
    CustomLinesOpen(o);
    var cl := CustomLines(o);
    YamlValueSingleLine(o.metaTitle);
    YamlValueSingleLine(o.metaDescription);
    KeyedSingleLine(MetaTitleKey, YamlValue(o.metaTitle));
    KeyedSingleLine(MetaDescriptionKey, YamlValue(o.metaDescription));
    forall i | 0 <= i < |cl| ensures InnerLine(cl[i]) {
      if i > 0 {
        assert cl[i] == MetaTitleLine(o) || cl[i] == MetaDescriptionLine(o);
      }
    }
  }

  lemma TaxonomySingleLines(categories: seq<string>, tags: seq<string>)
    requires forall k :: 0 <= k < |categories| ==> '\n' !in categories[k]
    requires forall k :: 0 <= k < |tags| ==> '\n' !in tags[k]
    ensures AllInner(Translation.TaxonomyLines(categories, tags))
  {
    TaxonomyLinesOpen(categories, tags);
    GroupSingleLines(Translation.CategoryKey, categories);
    GroupSingleLines(Translation.TagKey, tags);
    var ls := Translation.TaxonomyLines(categories, tags);
    if categories != [] || tags != [] {
      var gc := Translation.GroupLines(Translation.CategoryKey, categories);
      var gt := Translation.GroupLines(Translation.TagKey, tags);
      assert ls == [Translation.TaxonomyOpen] + gc + gt;
      forall i | 0 <= i < |ls| ensures '\n' !in ls[i] {
        if 0 < i <= |gc| {
          assert ls[i] == gc[i - 1];
        } else if i > |gc| {
          assert ls[i] == gt[i - 1 - |gc|];
        }
      }
    }
  }

  lemma GroupSingleLines(key: string, items: seq<string>)
    requires '\n' !in key
    requires forall k :: 0 <= k < |items| ==> '\n' !in items[k]
    ensures forall i :: 0 <= i < |Translation.GroupLines(key, items)| ==> '\n' !in Translation.GroupLines(key, items)[i]
  {
    var g := Translation.GroupLines(key, items);
    if items != [] {
      forall i | 0 <= i < |g| ensures '\n' !in g[i] {
        if i > 0 {
          assert g[i] == Translation.ItemIndent + items[i - 1];
        }
      }
    }
  }
}
