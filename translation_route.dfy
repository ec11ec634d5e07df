/**
 * The translate handler of the article server (routes/translation.js).
 * For each target language it flattens every translatable string of the
 * article into one ordered batch, recording a [start, end) range per
 * field, hands the batch to the translation provider, and maps the
 * provider's strings back into a translated article.
 */
module TranslationRoute {
  import opened Strings
  import opened Slug
  import opened ImageRefs
  import opened Translation
  import opened Paragraphs
  import opened RouteImages
  import DeepL

  // ---------------------------------------------------------------------------
  // The batch and its index record
  // ---------------------------------------------------------------------------

  /** The `indices` record; -1 marks a field that is not in the batch. */
  datatype Indices = Indices(
    title: int, excerpt: int, bodyStart: int, bodyEnd: int,
    catsStart: int, catsEnd: int, tagsStart: int, tagsEnd: int,
    altsStart: int, altsEnd: int, titlesStart: int, titlesEnd: int)

  // The fields in the order they are pushed.
  const TitleField: nat := 0
  const ExcerptField: nat := 1
  const BodyField: nat := 2
  const CatsField: nat := 3
  const TagsField: nat := 4
  const AltsField: nat := 5
  const TitlesField: nat := 6
  const FieldCount: nat := 7

  /** `humanizeSlug` applied to every term. */
  function HumanizeAll(xs: seq<string>): (r: seq<string>)
    ensures |r| == |xs|
    ensures forall i :: 0 <= i < |xs| ==> r[i] == Humanize(xs[i])
  {
    seq(|xs|, i requires 0 <= i < |xs| => Humanize(xs[i]))
  }

  function OneIf(cond: bool, x: string): (r: seq<string>)
    ensures |r| == if cond then 1 else 0
    ensures cond ==> r[0] == x
  {
    if cond then [x] else []
  }

  /** The paragraph chunks of the body with its images replaced by placeholders; none for an empty body. */
  function BodyChunks(body: string): seq<string>
  {
    if body != "" then Chunks(StrippedText(body)) else []
  }

  /** The image records kept aside while the body is translated. */
  function StrippedImagesOf(body: string): seq<StoredImage>
  {
    if body != "" then StoreAll(ImagesOf(body)) else []
  }

  /** What each field contributes to the batch, in push order. */
  function Parts(s: Segments): (r: seq<seq<string>>)
    ensures |r| == FieldCount
    ensures forall k :: 0 <= k < FieldCount ==> r[k] == Part(s, k)
  {
    seq(FieldCount, k requires 0 <= k < FieldCount => Part(s, k))
  }

  /** The entries field `k` pushes. */
  function Part(s: Segments, k: nat): seq<string>
    requires k < FieldCount
  {
    if k == TitleField then OneIf(s.title != "", s.title)
    else if k == ExcerptField then OneIf(s.excerpt != "", s.excerpt)
    else if k == BodyField then BodyChunks(s.body)
    else if k == CatsField then HumanizeAll(s.categories)
    else if k == TagsField then HumanizeAll(s.tags)
    else if k == AltsField then s.imageAlts
    else s.imageTitles
  }

  /** Which fields take part: non-empty strings, and non-empty lists. */
  function Present(s: Segments): (r: seq<bool>)
    ensures |r| == FieldCount
    ensures forall k :: 0 <= k < FieldCount ==> r[k] == IsPresent(s, k)
  {
    seq(FieldCount, k requires 0 <= k < FieldCount => IsPresent(s, k))
  }

  /** Whether field `k` takes part. */
  predicate IsPresent(s: Segments, k: nat)
    requires k < FieldCount
  {
    if k == TitleField then s.title != ""
    else if k == ExcerptField then s.excerpt != ""
    else if k == BodyField then s.body != ""
    else if k == CatsField then s.categories != []
    else if k == TagsField then s.tags != []
    else if k == AltsField then s.imageAlts != []
    else s.imageTitles != []
  }

  /** The concatenation of the parts, built by appending one part after another. */
  function Flatten(parts: seq<seq<string>>): seq<string>
  {
    if parts == [] then [] else Flatten(parts[..|parts| - 1]) + parts[|parts| - 1]
  }

  /** Where part `k` starts in the flattened sequence. */
  function Offset(parts: seq<seq<string>>, k: nat): nat
    requires k <= |parts|
  {
    |Flatten(parts[..k])|
  }

  /** The batch sent to the provider. */
  function BatchOf(s: Segments): seq<string>
  {
    Flatten(Parts(s))
  }

  /** Where a field's range starts, -1 when the field is absent. */
  function StartOf(p: seq<seq<string>>, q: seq<bool>, k: nat): int
    requires |p| == |q| && k < |p|
  {
    if q[k] then Offset(p, k) else -1
  }

  /** Where a field's range ends, -1 when the field is absent. */
  function EndOf(p: seq<seq<string>>, q: seq<bool>, k: nat): int
    requires |p| == |q| && k < |p|
  {
    if q[k] then Offset(p, k + 1) else -1
  }

  /** The index record of the parts `p` with presence flags `q`. */
  function IndicesFrom(p: seq<seq<string>>, q: seq<bool>): Indices
    requires |p| == |q| == FieldCount
  {
    Indices(StartOf(p, q, TitleField), StartOf(p, q, ExcerptField), StartOf(p, q, BodyField), EndOf(p, q, BodyField),
            StartOf(p, q, CatsField), EndOf(p, q, CatsField), StartOf(p, q, TagsField), EndOf(p, q, TagsField),
            StartOf(p, q, AltsField), EndOf(p, q, AltsField), StartOf(p, q, TitlesField), EndOf(p, q, TitlesField))
  }

  /** The index record the handler fills in while it builds the batch. */
  function IndicesOf(s: Segments): Indices
  {
    IndicesFrom(Parts(s), Present(s))
  }

  /** Absent fields contribute nothing; a present title or excerpt contributes one entry. */
  predicate WellFormed(p: seq<seq<string>>, q: seq<bool>)
  {
    && |p| == |q| == FieldCount
    && (forall k :: 0 <= k < FieldCount && !q[k] ==> p[k] == [])
    && (q[TitleField] ==> |p[TitleField]| == 1)
    && (q[ExcerptField] ==> |p[ExcerptField]| == 1)
  }

  lemma PartsWellFormed(s: Segments)
    ensures WellFormed(Parts(s), Present(s))
  {
  }

  lemma FlattenSnoc(parts: seq<seq<string>>, k: nat)
    requires k < |parts|
    ensures Flatten(parts[..k + 1]) == Flatten(parts[..k]) + parts[k]
  {
    assert parts[..k + 1][..k] == parts[..k];
  }

  /** An earlier prefix of the parts flattens to a prefix of a later one. */
  lemma {:induction false} FlattenGrows(parts: seq<seq<string>>, j: nat, k: nat)
    requires j <= k <= |parts|
    ensures |Flatten(parts[..j])| <= |Flatten(parts[..k])|
    ensures Flatten(parts[..k])[..|Flatten(parts[..j])|] == Flatten(parts[..j])
    decreases k - j
  {
    if j < k {
      FlattenGrows(parts, j, k - 1);
      FlattenSnoc(parts, k - 1);
    }
  }

  /** Part `k` sits in the flattened sequence between its offset and the next. */
  lemma FieldSlot(parts: seq<seq<string>>, k: nat)
    requires k < |parts|
    ensures Offset(parts, k) + |parts[k]| == Offset(parts, k + 1) <= |Flatten(parts)|
    ensures Flatten(parts)[Offset(parts, k)..Offset(parts, k + 1)] == parts[k]
  {
    FlattenSnoc(parts, k);
    FlattenGrows(parts, k + 1, |parts|);
    assert parts[..|parts|] == parts;
    var whole, upto := Flatten(parts), Flatten(parts[..k + 1]);
    assert whole[Offset(parts, k)..Offset(parts, k + 1)] == upto[Offset(parts, k)..];
  }

  /** Field `k` is the slice of the batch between its start and end, or -1/-1 when absent. */
  predicate Slot(batch: seq<string>, start: int, end: int, present: bool, part: seq<string>)
  {
    if present then 0 <= start <= end <= |batch| && batch[start..end] == part
    else start == -1 && end == -1
  }

  lemma FieldLayout(p: seq<seq<string>>, q: seq<bool>, k: nat)
    requires |p| == |q| && k < |p|
    ensures Slot(Flatten(p), StartOf(p, q, k), EndOf(p, q, k), q[k], p[k])
  {
    FieldSlot(p, k);
  }

  /**
   * Every present field is the slice of the batch its indices name: the
   * title and the excerpt one entry each, the body its paragraph chunks
   * (none at all for a body of blanks), the categories and tags their
   * humanized terms, the alts and titles themselves. An absent field keeps
   * -1.
   */
  lemma IndicesLayout(s: Segments)
    ensures (IndicesOf(s).title >= 0 <==> s.title != "")
            && (s.title != "" ==> IndicesOf(s).title == 0 < |BatchOf(s)| && BatchOf(s)[0] == s.title)
    ensures (IndicesOf(s).excerpt >= 0 <==> s.excerpt != "")
            && (s.excerpt != "" ==> IndicesOf(s).excerpt < |BatchOf(s)|
                                    && BatchOf(s)[IndicesOf(s).excerpt] == s.excerpt)
    ensures Slot(BatchOf(s), IndicesOf(s).bodyStart, IndicesOf(s).bodyEnd, s.body != "", BodyChunks(s.body))
    ensures Slot(BatchOf(s), IndicesOf(s).catsStart, IndicesOf(s).catsEnd, s.categories != [],
                 HumanizeAll(s.categories))
    ensures Slot(BatchOf(s), IndicesOf(s).tagsStart, IndicesOf(s).tagsEnd, s.tags != [], HumanizeAll(s.tags))
    ensures Slot(BatchOf(s), IndicesOf(s).altsStart, IndicesOf(s).altsEnd, s.imageAlts != [], s.imageAlts)
    ensures Slot(BatchOf(s), IndicesOf(s).titlesStart, IndicesOf(s).titlesEnd, s.imageTitles != [],
                 s.imageTitles)
  {
    var p, q := Parts(s), Present(s);
    FieldLayout(p, q, TitleField);
    assert Offset(p, 0) == 0;
    FieldLayout(p, q, ExcerptField);
    FieldLayout(p, q, BodyField);
    FieldLayout(p, q, CatsField);
    FieldLayout(p, q, TagsField);
    FieldLayout(p, q, AltsField);
    FieldLayout(p, q, TitlesField);
  }

  /** The [start, end) range of a field, when it is present. */
  function Span(start: int, end: int): seq<(int, int)>
  {
    if start >= 0 then [(start, end)] else []
  }

  /** The ranges of the present fields, in push order; the title and excerpt take one entry each. */
  function Ranges(ix: Indices): seq<(int, int)>
  {
    Span(ix.title, ix.title + 1) + (Span(ix.excerpt, ix.excerpt + 1) + (Span(ix.bodyStart, ix.bodyEnd)
    + (Span(ix.catsStart, ix.catsEnd) + (Span(ix.tagsStart, ix.tagsEnd)
    + (Span(ix.altsStart, ix.altsEnd) + Span(ix.titlesStart, ix.titlesEnd))))))
  }

  /** The ranges lie end to end, without gap or overlap, from `from` to `to`. */
  predicate Tiles(rs: seq<(int, int)>, from: int, to: int)
    decreases |rs|
  {
    if rs == [] then from == to else rs[0].0 == from <= rs[0].1 && Tiles(rs[1..], rs[0].1, to)
  }

  lemma {:induction false} TilesAppend(a: seq<(int, int)>, b: seq<(int, int)>, x: int, y: int, z: int)
    requires Tiles(a, x, y) && Tiles(b, y, z)
    ensures Tiles(a + b, x, z)
    decreases |a|
  {
    if a != [] {
      TilesAppend(a[1..], b, a[0].1, y, z);
      assert (a + b)[1..] == a[1..] + b;
    } else {
      assert a + b == b;
    }
  }

  /** Where the range of field `k` ends: one past its start for the title and the excerpt. */
  function FieldEnd(p: seq<seq<string>>, q: seq<bool>, k: nat): int
    requires |p| == |q| && k < |p|
  {
    if k <= ExcerptField then StartOf(p, q, k) + 1 else EndOf(p, q, k)
  }

  /** The ranges of the fields from `k` on, in push order. */
  function RangesFrom(p: seq<seq<string>>, q: seq<bool>, k: nat): seq<(int, int)>
    requires |p| == |q| && k <= |p|
    decreases |p| - k
  {
    if k == |p| then [] else Span(StartOf(p, q, k), FieldEnd(p, q, k)) + RangesFrom(p, q, k + 1)
  }

  /** A present part tiles its own slot; an absent, empty part tiles the empty interval at its offset. */
  lemma FieldTiles(p: seq<seq<string>>, q: seq<bool>, k: nat)
    requires WellFormed(p, q) && k < FieldCount
    ensures Tiles(Span(StartOf(p, q, k), FieldEnd(p, q, k)), Offset(p, k), Offset(p, k + 1))
  {
    FieldSlot(p, k);
  }

  /** The ranges of the fields from `k` on tile the rest of the flattened parts. */
  lemma {:induction false} RangesFromTile(p: seq<seq<string>>, q: seq<bool>, k: nat)
    requires WellFormed(p, q) && k <= FieldCount
    ensures Tiles(RangesFrom(p, q, k), Offset(p, k), Offset(p, FieldCount))
    decreases FieldCount - k
  {
    if k < FieldCount {
      FieldTiles(p, q, k);
      RangesFromTile(p, q, k + 1);
      TilesAppend(Span(StartOf(p, q, k), FieldEnd(p, q, k)), RangesFrom(p, q, k + 1),
                  Offset(p, k), Offset(p, k + 1), Offset(p, FieldCount));
    }
  }

  /** The index record's ranges are the ranges of all fields. */
  lemma RangesOfIndices(p: seq<seq<string>>, q: seq<bool>)
    requires |p| == |q| == FieldCount
    ensures Ranges(IndicesFrom(p, q)) == RangesFrom(p, q, 0)
  {
    RangesUnfold(p, q);
  }

  /** The ranges of all fields, written out one field at a time. */
  lemma RangesUnfold(p: seq<seq<string>>, q: seq<bool>)
    requires |p| == |q| == FieldCount
    ensures RangesFrom(p, q, 0)
            == Span(StartOf(p, q, 0), StartOf(p, q, 0) + 1) + (Span(StartOf(p, q, 1), StartOf(p, q, 1) + 1)
               + (Span(StartOf(p, q, 2), EndOf(p, q, 2)) + (Span(StartOf(p, q, 3), EndOf(p, q, 3))
               + (Span(StartOf(p, q, 4), EndOf(p, q, 4)) + (Span(StartOf(p, q, 5), EndOf(p, q, 5))
               + Span(StartOf(p, q, 6), EndOf(p, q, 6)))))))
  {
    assert RangesFrom(p, q, 6) == Span(StartOf(p, q, 6), EndOf(p, q, 6)) + RangesFrom(p, q, 7);
    assert Span(StartOf(p, q, 6), EndOf(p, q, 6)) + [] == Span(StartOf(p, q, 6), EndOf(p, q, 6));
    assert RangesFrom(p, q, 5) == Span(StartOf(p, q, 5), EndOf(p, q, 5)) + RangesFrom(p, q, 6);
    assert RangesFrom(p, q, 4) == Span(StartOf(p, q, 4), EndOf(p, q, 4)) + RangesFrom(p, q, 5);
    assert RangesFrom(p, q, 3) == Span(StartOf(p, q, 3), EndOf(p, q, 3)) + RangesFrom(p, q, 4);
    assert RangesFrom(p, q, 2) == Span(StartOf(p, q, 2), EndOf(p, q, 2)) + RangesFrom(p, q, 3);
    assert RangesFrom(p, q, 1) == Span(StartOf(p, q, 1), StartOf(p, q, 1) + 1) + RangesFrom(p, q, 2);
  }

  /**
   * The field ranges cover the flattened parts end to end: they start at 0,
   * each starts where the previous one ends, and the last ends at the
   * length.
   */
  lemma RangesTile(p: seq<seq<string>>, q: seq<bool>)
    requires WellFormed(p, q)
    ensures Tiles(Ranges(IndicesFrom(p, q)), 0, |Flatten(p)|)
  {
    RangesFromTile(p, q, 0);
    RangesOfIndices(p, q);
    assert p[..0] == [];
    assert p[..FieldCount] == p;
  }

  /** The summed sizes of the ranges. */
  function SizeSum(rs: seq<(int, int)>): int
  {
    if rs == [] then 0 else rs[0].1 - rs[0].0 + SizeSum(rs[1..])
  }

  /**
   * Ranges that tile an interval are ordered and disjoint, lie inside it,
   * and their sizes add up to its length.
   */
  lemma {:induction false} TilesMeaning(rs: seq<(int, int)>, from: int, to: int)
    requires Tiles(rs, from, to)
    ensures SizeSum(rs) == to - from
    ensures forall i :: 0 <= i < |rs| ==> from <= rs[i].0 <= rs[i].1 <= to
    ensures forall i, j :: 0 <= i < j < |rs| ==> rs[i].1 <= rs[j].0
    decreases |rs|
  {
    if rs != [] {
      var rest := rs[1..];
      TilesMeaning(rest, rs[0].1, to);
      assert forall i :: 1 <= i < |rs| ==> rs[i] == rest[i - 1];
    }
  }

  /**
   * The field ranges of the batch are contiguous from 0, ordered and
   * disjoint, and their sizes add up to the batch's length.
   */
  lemma BatchTiles(s: Segments)
    ensures Tiles(Ranges(IndicesOf(s)), 0, |BatchOf(s)|)
    ensures SizeSum(Ranges(IndicesOf(s))) == |BatchOf(s)|
    ensures forall i, j :: 0 <= i < j < |Ranges(IndicesOf(s))| ==> Ranges(IndicesOf(s))[i].1 <= Ranges(IndicesOf(s))[j].0
  {
    PartsWellFormed(s);
    RangesTile(Parts(s), Present(s));
    TilesMeaning(Ranges(IndicesOf(s)), 0, |BatchOf(s)|);
  }

  /** A concatenation is empty exactly when every part is. */
  lemma {:induction false} FlattenEmpty(parts: seq<seq<string>>)
    ensures Flatten(parts) == [] <==> forall k :: 0 <= k < |parts| ==> parts[k] == []
    decreases |parts|
  {
    if parts != [] {
      var init := parts[..|parts| - 1];
      FlattenEmpty(init);
      assert forall k :: 0 <= k < |init| ==> init[k] == parts[k];
    }
  }

  /** The batch is empty exactly when no field contributes an entry. */
  lemma EmptyBatch(s: Segments)
    ensures BatchOf(s) == [] <==>
              s.title == "" && s.excerpt == "" && BodyChunks(s.body) == [] && s.categories == [] && s.tags == []
              && s.imageAlts == [] && s.imageTitles == []
  {
    var p := Parts(s);
    FlattenEmpty(p);
    assert p[0] == OneIf(s.title != "", s.title) && p[1] == OneIf(s.excerpt != "", s.excerpt);
    assert p[2] == BodyChunks(s.body);
    assert p[3] == HumanizeAll(s.categories) && p[4] == HumanizeAll(s.tags);
    assert p[5] == s.imageAlts && p[6] == s.imageTitles;
  }

  // ---------------------------------------------------------------------------
  // Building the batch
  // ---------------------------------------------------------------------------

  /** `for (const x of items) batch.push(x)`. */
  method PushAll(batch: seq<string>, items: seq<string>) returns (out: seq<string>)
    ensures out == batch + items
  {
    out := batch;
    for i := 0 to |items|
      invariant out == batch + items[..i]
    {
      out := out + [items[i]];
      assert items[..i + 1] == items[..i] + [items[i]];
    }
    assert items[..|items|] == items;
  }

  /** `for (const t of terms) batch.push(humanizeSlug(t))`. */
  method PushHumanized(batch: seq<string>, terms: seq<string>) returns (out: seq<string>)
    ensures out == batch + HumanizeAll(terms)
  {
    out := batch;
    for i := 0 to |terms|
      invariant out == batch + HumanizeAll(terms[..i])
    {
      out := out + [Humanize(terms[i])];
      assert HumanizeAll(terms[..i + 1]) == HumanizeAll(terms[..i]) + [Humanize(terms[i])];
    }
    assert terms[..|terms|] == terms;
  }

  /** `if (x) { at = batch.length; batch.push(x); }`, for the title and the excerpt. */
  method PushText(batch: seq<string>, x: string) returns (out: seq<string>, at: int)
    ensures out == batch + OneIf(x != "", x)
    ensures at == if x != "" then |batch| else -1
  {
    out, at := batch, -1;
    if x != "" {
      at := |out|;
      out := out + [x];
    }
  }

  /**
   * The body step: a non-empty body has its images replaced by placeholders
   * and its paragraph chunks pushed, recording the range they take.
   */
  method PushBody(batch: seq<string>, body: string)
    returns (out: seq<string>, start: int, end: int, strippedImages: seq<StoredImage>)
    ensures out == batch + BodyChunks(body)
    ensures start == (if body != "" then |batch| else -1) && end == (if body != "" then |out| else -1)
    ensures strippedImages == StrippedImagesOf(body)
  {
    out, start, end, strippedImages := batch, -1, -1, [];
    if body != "" {
      var stripped, images := StripImageReferences(body);
      strippedImages := images;
      var bodyChunks := SplitMarkdownParagraphs(stripped);
      start := |out|;
      out := PushAll(out, bodyChunks);
      end := |out|;
    }
  }

  /** A taxonomy step: a non-empty term list is pushed humanized, recording its range. */
  method PushTerms(batch: seq<string>, terms: seq<string>) returns (out: seq<string>, start: int, end: int)
    ensures out == batch + HumanizeAll(terms)
    ensures start == (if terms != [] then |batch| else -1) && end == (if terms != [] then |out| else -1)
  {
    out, start, end := batch, -1, -1;
    if |terms| > 0 {
      start := |out|;
      out := PushHumanized(out, terms);
      end := |out|;
    }
  }

  /** An image-text step: a non-empty list is pushed as it is, recording its range. */
  method PushTexts(batch: seq<string>, texts: seq<string>) returns (out: seq<string>, start: int, end: int)
    ensures out == batch + texts
    ensures start == (if texts != [] then |batch| else -1) && end == (if texts != [] then |out| else -1)
  {
    out, start, end := batch, -1, -1;
    if |texts| > 0 {
      start := |out|;
      out := PushAll(out, texts);
      end := |out|;
    }
  }

  /**
   * The batch building of the translate handler: each present field is
   * pushed in turn and its start (and end) recorded; the body has its
   * images replaced by placeholders and is split into paragraph chunks.
   */
  method BuildBatch(segments: Segments) returns (batch: seq<string>, indices: Indices, strippedImages: seq<StoredImage>)
    ensures batch == BatchOf(segments) && indices == IndicesOf(segments)
    ensures strippedImages == StrippedImagesOf(segments.body)
  {
    var b0: seq<string> := [];
    var b1, title := PushText(b0, segments.title);
    var b2, excerpt := PushText(b1, segments.excerpt);
    var b3, bodyStart, bodyEnd, images := PushBody(b2, segments.body);
    var b4, catsStart, catsEnd := PushTerms(b3, segments.categories);
    var b5, tagsStart, tagsEnd := PushTerms(b4, segments.tags);
    var b6, altsStart, altsEnd := PushTexts(b5, segments.imageAlts);
    var b7, titlesStart, titlesEnd := PushTexts(b6, segments.imageTitles);
    SegmentSteps(segments, b1, title, b2, excerpt, b3, bodyStart, bodyEnd, b4, catsStart, catsEnd,
               b5, tagsStart, tagsEnd, b6, altsStart, altsEnd, b7, titlesStart, titlesEnd);
    batch := b7;
    indices := Indices(title, excerpt, bodyStart, bodyEnd, catsStart, catsEnd,
                       tagsStart, tagsEnd, altsStart, altsEnd, titlesStart, titlesEnd);
    strippedImages := images;
  }

  /** The push steps of `BuildBatch`, stated on the segment record's fields, build its batch and index record. */
  lemma SegmentSteps(s: Segments, b1: seq<string>, title: int, b2: seq<string>, excerpt: int,
                     b3: seq<string>, bodyStart: int, bodyEnd: int, b4: seq<string>, catsStart: int, catsEnd: int,
                     b5: seq<string>, tagsStart: int, tagsEnd: int, b6: seq<string>, altsStart: int, altsEnd: int,
                     b7: seq<string>, titlesStart: int, titlesEnd: int)
    requires b1 == [] + OneIf(s.title != "", s.title) && title == (if s.title != "" then 0 else -1)
    requires b2 == b1 + OneIf(s.excerpt != "", s.excerpt) && excerpt == (if s.excerpt != "" then |b1| else -1)
    requires b3 == b2 + BodyChunks(s.body)
    requires bodyStart == (if s.body != "" then |b2| else -1) && bodyEnd == (if s.body != "" then |b3| else -1)
    requires b4 == b3 + HumanizeAll(s.categories)
    requires catsStart == (if s.categories != [] then |b3| else -1) && catsEnd == (if s.categories != [] then |b4| else -1)
    requires b5 == b4 + HumanizeAll(s.tags)
    requires tagsStart == (if s.tags != [] then |b4| else -1) && tagsEnd == (if s.tags != [] then |b5| else -1)
    requires b6 == b5 + s.imageAlts
    requires altsStart == (if s.imageAlts != [] then |b5| else -1) && altsEnd == (if s.imageAlts != [] then |b6| else -1)
    requires b7 == b6 + s.imageTitles
    requires titlesStart == (if s.imageTitles != [] then |b6| else -1)
    requires titlesEnd == (if s.imageTitles != [] then |b7| else -1)
    ensures b7 == BatchOf(s)
    ensures Indices(title, excerpt, bodyStart, bodyEnd, catsStart, catsEnd, tagsStart, tagsEnd,
                    altsStart, altsEnd, titlesStart, titlesEnd) == IndicesOf(s)
  {
    var p, q := Parts(s), Present(s);
    assert p[0] == Part(s, 0) && q[0] == IsPresent(s, 0);
    assert p[1] == Part(s, 1) && q[1] == IsPresent(s, 1);
    assert p[2] == Part(s, 2) && q[2] == IsPresent(s, 2);
    assert p[3] == Part(s, 3) && q[3] == IsPresent(s, 3);
    assert p[4] == Part(s, 4) && q[4] == IsPresent(s, 4);
    assert p[5] == Part(s, 5) && q[5] == IsPresent(s, 5);
    assert p[6] == Part(s, 6) && q[6] == IsPresent(s, 6);
    BatchSteps(p, q, b1, title, b2, excerpt, b3, bodyStart, bodyEnd, b4, catsStart, catsEnd,
               b5, tagsStart, tagsEnd, b6, altsStart, altsEnd, b7, titlesStart, titlesEnd);
  }

  /** The seven push steps, taken in order, build the flattened parts and their index record. */
  lemma BatchSteps(p: seq<seq<string>>, q: seq<bool>, b1: seq<string>, title: int, b2: seq<string>, excerpt: int,
                   b3: seq<string>, bodyStart: int, bodyEnd: int, b4: seq<string>, catsStart: int, catsEnd: int,
                   b5: seq<string>, tagsStart: int, tagsEnd: int, b6: seq<string>, altsStart: int, altsEnd: int,
                   b7: seq<string>, titlesStart: int, titlesEnd: int)
    requires |p| == |q| == FieldCount
    requires b1 == [] + p[0] && title == (if q[0] then 0 else -1)
    requires b2 == b1 + p[1] && excerpt == (if q[1] then |b1| else -1)
    requires b3 == b2 + p[2] && bodyStart == (if q[2] then |b2| else -1) && bodyEnd == (if q[2] then |b3| else -1)
    requires b4 == b3 + p[3] && catsStart == (if q[3] then |b3| else -1) && catsEnd == (if q[3] then |b4| else -1)
    requires b5 == b4 + p[4] && tagsStart == (if q[4] then |b4| else -1) && tagsEnd == (if q[4] then |b5| else -1)
    requires b6 == b5 + p[5] && altsStart == (if q[5] then |b5| else -1) && altsEnd == (if q[5] then |b6| else -1)
    requires b7 == b6 + p[6] && titlesStart == (if q[6] then |b6| else -1) && titlesEnd == (if q[6] then |b7| else -1)
    ensures b7 == Flatten(p)
    ensures Indices(title, excerpt, bodyStart, bodyEnd, catsStart, catsEnd, tagsStart, tagsEnd,
                    altsStart, altsEnd, titlesStart, titlesEnd) == IndicesFrom(p, q)
  {
    BuiltInOrder(p, [], b1, b2, b3, b4, b5, b6, b7);
  }

  /** Appending the parts one after another flattens them, each part starting at its offset. */
  lemma BuiltInOrder(p: seq<seq<string>>, b0: seq<string>, b1: seq<string>, b2: seq<string>, b3: seq<string>,
                     b4: seq<string>, b5: seq<string>, b6: seq<string>, b7: seq<string>)
    requires |p| == FieldCount
    requires b0 == [] && b1 == b0 + p[0] && b2 == b1 + p[1] && b3 == b2 + p[2]
    requires b4 == b3 + p[3] && b5 == b4 + p[4] && b6 == b5 + p[5] && b7 == b6 + p[6]
    ensures b7 == Flatten(p)
    ensures |b0| == Offset(p, 0) && |b1| == Offset(p, 1) && |b2| == Offset(p, 2)
    ensures |b3| == Offset(p, 3) && |b4| == Offset(p, 4) && |b5| == Offset(p, 5)
    ensures |b6| == Offset(p, 6) && |b7| == Offset(p, 7)
  {
    assert b0 == Flatten(p[..0]);
    FlattenSnoc(p, 0);
    FlattenSnoc(p, 1);
    FlattenSnoc(p, 2);
    FlattenSnoc(p, 3);
    FlattenSnoc(p, 4);
    FlattenSnoc(p, 5);
    FlattenSnoc(p, 6);
    assert p[..7] == p;
  }
}
