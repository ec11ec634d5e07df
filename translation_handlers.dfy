/**
 * The request handlers of the translation routes (routes/translation.js):
 * the per-language translate step and the article loop around it, the cost
 * estimate, and the source-language guess of the status route.
 *
 * Files, the HTTP layer and the translation service stay outside: the
 * article's text (or its absence), whether the service is configured, the
 * service's quota answer and the service itself are parameters.
 */
module TranslationHandlers {
  import opened Strings
  import opened Slug
  import opened ImageRefs
  import opened Translation
  import opened RouteImages
  import opened TranslationRoute
  import DeepL

  /** The translation service: texts, source code, target code and formality in, one reply out. */
  type Service = (seq<string>, Option<string>, string, Option<string>) -> DeepL.Reply

  /** The service answers every batch with one result per text. */
  ghost predicate OnePerText(service: Service)
  {
    forall texts, source, target, formality ::
      |DeepL.ResultArray(service(texts, source, target, formality))| == |texts|
  }

  // ---------------------------------------------------------------------------
  // Language codes
  // ---------------------------------------------------------------------------

  /** `DISPLAY_TO_DEEPL[code.toLowerCase()] || code.toUpperCase()`. */
  function DeeplCode(code: string): string
  {
    if Lower(code) in DeepL.DisplayToDeepl then DeepL.DisplayToDeepl[Lower(code)] else Upper(code)
  }

  /** `DEEPL_TO_DIR[deeplTarget] || targetLang.toLowerCase()`. */
  function DirCode(code: string): string
  {
    if DeeplCode(code) in DeepL.DeeplToDir then DeepL.DeeplToDir[DeeplCode(code)] else Lower(code)
  }

  /** A known display code, in any case, names its own directory, and its DeepL code is the tabled one. */
  lemma DisplayCodeDir(code: string)
    requires Lower(code) in DeepL.DisplayToDeepl
    ensures DeeplCode(code) == DeepL.DisplayToDeepl[Lower(code)]
    ensures DirCode(code) == Lower(code)
  {
    DeepL.DisplayDirRoundTrip(Lower(code));
  }

  /** An unknown code is sent upper-cased and filed lower-cased, unless its upper-cased form is a DeepL code. */
  lemma UnknownCodeDir(code: string)
    requires Lower(code) !in DeepL.DisplayToDeepl && Upper(code) !in DeepL.DeeplToDir
    ensures DeeplCode(code) == Upper(code) && DirCode(code) == Lower(code)
  {
  }

  /** `sourceLang ? (DISPLAY_TO_DEEPL[...] || sourceLang.toUpperCase()) : null`. */
  function DeeplSource(sourceLang: string): (r: Option<string>)
    ensures r.None? <==> sourceLang == ""
  {
    if sourceLang == "" then None else Some(DeeplCode(sourceLang))
  }

  // ---------------------------------------------------------------------------
  // Mapping the translated batch back
  // ---------------------------------------------------------------------------

  /** A recorded single index lies inside a batch of `n` entries. */
  predicate InBatch(i: int, n: nat)
  {
    i >= 0 ==> i < n
  }

  /** A recorded range lies inside a batch of `n` entries. */
  predicate RangeIn(start: int, end: int, n: nat)
  {
    start >= 0 ==> start <= end <= n
  }

  /** Every recorded index and range of `ix` lies inside a batch of `n` entries. */
  predicate Fits(ix: Indices, n: nat)
  {
    && InBatch(ix.title, n) && InBatch(ix.excerpt, n)
    && RangeIn(ix.bodyStart, ix.bodyEnd, n) && RangeIn(ix.catsStart, ix.catsEnd, n)
    && RangeIn(ix.tagsStart, ix.tagsEnd, n) && RangeIn(ix.altsStart, ix.altsEnd, n)
    && RangeIn(ix.titlesStart, ix.titlesEnd, n)
  }

  /** The index record of a batch fits the batch, and so fits any answer with one text per entry. */
  lemma IndicesFit(s: Segments)
    ensures Fits(IndicesOf(s), |BatchOf(s)|)
  {
    IndicesLayout(s);
  }

  /** `indices.x >= 0 ? texts[indices.x] : fallback`. */
  function Entry(texts: seq<string>, i: int, fallback: string): string
    requires InBatch(i, |texts|)
  {
    if i >= 0 then texts[i] else fallback
  }

  /** `indices.start >= 0 ? texts.slice(start, end) : fallback`. */
  function Slice(texts: seq<string>, start: int, end: int, fallback: seq<string>): seq<string>
    requires RangeIn(start, end, |texts|)
  {
    if start >= 0 then texts[start..end] else fallback
  }

  /** `.map((t) => generateSlug(t))`. */
  function SlugAll(xs: seq<string>): (r: seq<string>)
    ensures |r| == |xs|
    ensures forall i :: 0 <= i < |xs| ==> r[i] == GenerateSlug(xs[i], DefaultMaxLength)
  {
    seq(|xs|, i requires 0 <= i < |xs| => GenerateSlug(xs[i], DefaultMaxLength))
  }

  /** The translated terms, slugified again, or the original slugs when the field was absent. */
  function SlugSlice(texts: seq<string>, start: int, end: int, fallback: seq<string>): seq<string>
    requires RangeIn(start, end, |texts|)
  {
    if start >= 0 then SlugAll(texts[start..end]) else fallback
  }

  /** The translated chunks joined by blank lines, or the original body when it was absent. */
  function BodyText(texts: seq<string>, start: int, end: int, fallback: string): string
    requires RangeIn(start, end, |texts|)
  {
    if start >= 0 then Join(texts[start..end], "\n\n") else fallback
  }

  /** `if (strippedImages.length > 0) translatedBody = reinsertImages(...)`; `None` when the reinsertion throws. */
  function WithImages(body: string, images: seq<StoredImage>, alts: seq<string>, titles: seq<string>): Option<string>
  {
    if |images| > 0 then ReinsertedText(body, images, alts, titles) else Some(body)
  }

  /**
   * The translated record handed to `reassembleTranslation`, read off the
   * provider's texts through the index record; `None` when reinserting the
   * images throws.
   */
  function TranslatedFrom(s: Segments, ix: Indices, texts: seq<string>, images: seq<StoredImage>): Option<Translated>
    requires Fits(ix, |texts|)
  {
    var alts := Slice(texts, ix.altsStart, ix.altsEnd, []);
    var titles := Slice(texts, ix.titlesStart, ix.titlesEnd, []);
    match WithImages(BodyText(texts, ix.bodyStart, ix.bodyEnd, s.body), images, alts, titles)
    case None => None
    case Some(body) =>
      Some(Translated(Entry(texts, ix.title, s.title), Entry(texts, ix.excerpt, ""), body,
                      SlugSlice(texts, ix.catsStart, ix.catsEnd, s.categories),
                      SlugSlice(texts, ix.tagsStart, ix.tagsEnd, s.tags), [], []))
  }

  /** What `reassembleTranslation` returns: the new header, a blank line, the body with its images rewritten. */
  function ArticleText(original: Segments, t: Translated, dirCode: string, slug: string): string
  {
    HeaderText(HeaderOf(original, t, dirCode, slug)) + "\n" + ReplacedText(t.body, t.imageAlts, t.imageTitles)
  }

  /** The translated article for one language, or `None` when reinserting the images throws. */
  function ContentFrom(s: Segments, slug: string, dirCode: string, ix: Indices, texts: seq<string>,
                       images: seq<StoredImage>): Option<string>
    requires Fits(ix, |texts|)
  {
    match TranslatedFrom(s, ix, texts, images)
    case None => None
    case Some(t) => Some(ArticleText(s, t, dirCode, slug))
  }

  /** The reassembly after the provider call, in the handler's order. */
  method Reassemble(s: Segments, slug: string, dirCode: string, ix: Indices, texts: seq<string>,
                    images: seq<StoredImage>) returns (content: Option<string>)
    requires Fits(ix, |texts|)
    ensures content == ContentFrom(s, slug, dirCode, ix, texts, images)
  {
    var translatedTitle := if ix.title >= 0 then texts[ix.title] else s.title;
    var translatedExcerpt := if ix.excerpt >= 0 then texts[ix.excerpt] else "";
    var translatedBody := if ix.bodyStart >= 0 then Join(texts[ix.bodyStart..ix.bodyEnd], "\n\n") else s.body;
    var translatedCats := if ix.catsStart >= 0 then SlugAll(texts[ix.catsStart..ix.catsEnd]) else s.categories;
    var translatedTags := if ix.tagsStart >= 0 then SlugAll(texts[ix.tagsStart..ix.tagsEnd]) else s.tags;
    var translatedAlts := if ix.altsStart >= 0 then texts[ix.altsStart..ix.altsEnd] else [];
    var translatedTitles := if ix.titlesStart >= 0 then texts[ix.titlesStart..ix.titlesEnd] else [];
    ghost var reinserted := WithImages(translatedBody, images, translatedAlts, translatedTitles);
    TranslatedFromParts(s, ix, texts, images, translatedTitle, translatedExcerpt, translatedBody, translatedCats,
                        translatedTags, translatedAlts, translatedTitles, reinserted);
    if |images| > 0 {
      var r := ReinsertImages(translatedBody, images, translatedAlts, translatedTitles);
      if r.None? {
        return None;
      }
      translatedBody := r.value;
    }
    var t := Translated(translatedTitle, translatedExcerpt, translatedBody, translatedCats, translatedTags, [], []);
    var fullContent := ReassembleTranslation(s, t, dirCode, slug);
    ContentIs(s, slug, dirCode, ix, texts, images, t, fullContent);
    content := Some(fullContent);
  }

  /** Reassembling the record that `TranslatedFrom` yields gives the content `ContentFrom` names. */
  lemma ContentIs(s: Segments, slug: string, dirCode: string, ix: Indices, texts: seq<string>,
                  images: seq<StoredImage>, t: Translated, full: string)
    requires Fits(ix, |texts|)
    requires TranslatedFrom(s, ix, texts, images) == Some(t)
    requires full == HeaderText(HeaderOf(s, t, dirCode, slug)) + "\n" + ReplacedText(t.body, t.imageAlts, t.imageTitles)
    ensures ContentFrom(s, slug, dirCode, ix, texts, images) == Some(full)
  {
  }

  /** The values the handler computes field by field are those of `TranslatedFrom`. */
  lemma TranslatedFromParts(s: Segments, ix: Indices, texts: seq<string>, images: seq<StoredImage>,
                            title: string, excerpt: string, body: string, cats: seq<string>, tags: seq<string>,
                            alts: seq<string>, titles: seq<string>, reinserted: Option<string>)
    requires Fits(ix, |texts|)
    requires title == Entry(texts, ix.title, s.title) && excerpt == Entry(texts, ix.excerpt, "")
    requires body == BodyText(texts, ix.bodyStart, ix.bodyEnd, s.body)
    requires cats == SlugSlice(texts, ix.catsStart, ix.catsEnd, s.categories)
    requires tags == SlugSlice(texts, ix.tagsStart, ix.tagsEnd, s.tags)
    requires alts == Slice(texts, ix.altsStart, ix.altsEnd, [])
    requires titles == Slice(texts, ix.titlesStart, ix.titlesEnd, [])
    requires reinserted == WithImages(body, images, alts, titles)
    ensures reinserted.None? ==> TranslatedFrom(s, ix, texts, images) == None
    ensures reinserted.Some? ==>
              TranslatedFrom(s, ix, texts, images) == Some(Translated(title, excerpt, reinserted.value, cats, tags, [], []))
  {
  }

  /**
   * The fallbacks of the reassembly: an absent title keeps the original
   * (empty) title, an absent excerpt gives '', an absent body keeps the
   * original (empty) body, absent categories or tags keep the original
   * (empty) lists; a present field is read at its index.
   */
  lemma ReassemblyFallbacks(s: Segments, texts: seq<string>, t: Translated)
    requires Fits(IndicesOf(s), |texts|)
    requires TranslatedFrom(s, IndicesOf(s), texts, StrippedImagesOf(s.body)) == Some(t)
    ensures s.title == "" ==> t.title == ""
    ensures s.title != "" ==> 0 < |texts| && t.title == texts[0]
    ensures s.excerpt == "" ==> t.excerpt == ""
    ensures s.excerpt != "" ==> 0 <= IndicesOf(s).excerpt < |texts| && t.excerpt == texts[IndicesOf(s).excerpt]
    ensures s.body == "" ==> t.body == ""
    ensures s.categories == [] ==> t.categories == []
    ensures s.tags == [] ==> t.tags == []
    ensures t.imageAlts == [] && t.imageTitles == []
  {
    IndicesLayout(s);
  }

  /** The sizes of the recorded ranges of the list fields. */
  lemma RangeSizes(s: Segments)
    ensures var ix := IndicesOf(s);
            && (s.categories != [] ==> 0 <= ix.catsStart <= ix.catsEnd && ix.catsEnd - ix.catsStart == |s.categories|)
            && (s.categories == [] ==> ix.catsStart == -1)
            && (s.tags != [] ==> 0 <= ix.tagsStart <= ix.tagsEnd && ix.tagsEnd - ix.tagsStart == |s.tags|)
            && (s.tags == [] ==> ix.tagsStart == -1)
            && (s.imageAlts != [] ==> 0 <= ix.altsStart <= ix.altsEnd && ix.altsEnd - ix.altsStart == |s.imageAlts|)
            && (s.imageAlts == [] ==> ix.altsStart == -1)
            && (s.imageTitles != [] ==>
                  0 <= ix.titlesStart <= ix.titlesEnd && ix.titlesEnd - ix.titlesStart == |s.imageTitles|)
            && (s.imageTitles == [] ==> ix.titlesStart == -1)
  {
    IndicesLayout(s);
  }

  /** The taxonomy fields of the translated record are the re-slugified slices. */
  lemma TranslatedTerms(s: Segments, ix: Indices, texts: seq<string>, images: seq<StoredImage>, t: Translated)
    requires Fits(ix, |texts|)
    requires TranslatedFrom(s, ix, texts, images) == Some(t)
    ensures t.categories == SlugSlice(texts, ix.catsStart, ix.catsEnd, s.categories)
    ensures t.tags == SlugSlice(texts, ix.tagsStart, ix.tagsEnd, s.tags)
  {
  }

  /**
   * `r` holds, for a present list of `terms`, the slug of each translated
   * term read from `start` on: one per term, each well formed and at most
   * 60 characters long.
   */
  predicate SluggedFrom(terms: seq<string>, texts: seq<string>, start: int, r: seq<string>)
  {
    terms != [] ==>
      && |r| == |terms|
      && forall i :: 0 <= i < |terms| ==>
           && 0 <= start + i < |texts|
           && r[i] == GenerateSlug(texts[start + i], DefaultMaxLength)
           && IsSlug(r[i]) && |r[i]| <= DefaultMaxLength
  }

  /** A present list's slice is re-slugified term by term into well-formed slugs of at most 60 characters. */
  lemma SlugSliceShape(terms: seq<string>, texts: seq<string>, start: int, end: int, r: seq<string>)
    requires RangeIn(start, end, |texts|)
    requires terms != [] ==> 0 <= start && end - start == |terms|
    requires r == SlugSlice(texts, start, end, terms)
    ensures SluggedFrom(terms, texts, start, r)
  {
    if terms != [] {
      forall i | 0 <= i < |terms|
        ensures r[i] == GenerateSlug(texts[start + i], DefaultMaxLength) && IsSlug(r[i]) && |r[i]| <= DefaultMaxLength
      {
        GenerateSlugIsSlug(texts[start + i], DefaultMaxLength);
      }
    }
  }

  /**
   * Present categories and tags come back as the slugs of the translated
   * terms, one per original term, each a well-formed slug of at most 60
   * characters.
   */
  lemma TermsResluggified(s: Segments, texts: seq<string>, t: Translated)
    requires Fits(IndicesOf(s), |texts|)
    requires TranslatedFrom(s, IndicesOf(s), texts, StrippedImagesOf(s.body)) == Some(t)
    ensures SluggedFrom(s.categories, texts, IndicesOf(s).catsStart, t.categories)
    ensures SluggedFrom(s.tags, texts, IndicesOf(s).tagsStart, t.tags)
  {
    var ix := IndicesOf(s);
    RangeSizes(s);
    TranslatedTerms(s, ix, texts, StrippedImagesOf(s.body), t);
    SlugSliceShape(s.categories, texts, ix.catsStart, ix.catsEnd, t.categories);
    SlugSliceShape(s.tags, texts, ix.tagsStart, ix.tagsEnd, t.tags);
  }

  /** Slugs of at most 60 characters come back unchanged when the provider returns the humanized terms as they are. */
  lemma SlugsSurviveIdentity(terms: seq<string>, t: seq<string>)
    requires forall i :: 0 <= i < |terms| ==> IsSlug(terms[i]) && |terms[i]| <= DefaultMaxLength
    requires t == SlugAll(HumanizeAll(terms))
    ensures t == terms
  {
    forall i | 0 <= i < |terms| ensures t[i] == terms[i] {
      HumanizeRoundTrip(terms[i], DefaultMaxLength);
    }
  }

  /**
   * When the provider hands the batch back unchanged, the title, the
   * excerpt and the taxonomy slugs (each at most 60 characters) are kept.
   */
  lemma IdentityKeepsHeader(s: Segments, t: Translated)
    requires Fits(IndicesOf(s), |BatchOf(s)|)
    requires TranslatedFrom(s, IndicesOf(s), BatchOf(s), StrippedImagesOf(s.body)) == Some(t)
    requires forall i :: 0 <= i < |s.categories| ==> IsSlug(s.categories[i]) && |s.categories[i]| <= DefaultMaxLength
    requires forall i :: 0 <= i < |s.tags| ==> IsSlug(s.tags[i]) && |s.tags[i]| <= DefaultMaxLength
    ensures t.title == s.title && t.excerpt == s.excerpt
    ensures t.categories == s.categories && t.tags == s.tags
  {
    IndicesLayout(s);
    if s.categories != [] {
      SlugsSurviveIdentity(s.categories, t.categories);
    }
    if s.tags != [] {
      SlugsSurviveIdentity(s.tags, t.tags);
    }
  }

  /** How many stored records have a non-empty alt. */
  function StoredAltCount(images: seq<StoredImage>): nat
  {
    if images == [] then 0 else (if images[0].alt != "" then 1 else 0) + StoredAltCount(images[1..])
  }

  /** How many stored records have a non-empty title. */
  function StoredTitleCount(images: seq<StoredImage>): nat
  {
    if images == [] then 0 else (if images[0].title != "" then 1 else 0) + StoredTitleCount(images[1..])
  }

  /** Storing the images keeps exactly as many non-empty alts and titles as the extraction lists. */
  lemma {:induction false} StoredCountsMatch(imgs: seq<Image>)
    ensures StoredAltCount(StoreAll(imgs)) == |AltTexts(imgs)|
    ensures StoredTitleCount(StoreAll(imgs)) == |TitleTexts(imgs)|
  {
    if imgs != [] {
      StoredCountsMatch(imgs[1..]);
      StoreAllCons(imgs[0], imgs[1..]);
      assert [imgs[0]] + imgs[1..] == imgs;
    }
  }

  /**
   * The two image patterns agree, so the translated alt (title) range of an
   * extracted article is exactly as long as the number of stored images
   * with a non-empty alt (title): the reinsertion consumes the whole range.
   */
  lemma RangesMatchStoredImages(raw: string, s: Segments)
    requires ExtractTranslatableSegments(raw) == Some(s)
    ensures var ix := IndicesOf(s);
            && (if ix.altsStart >= 0 then ix.altsEnd - ix.altsStart else 0) == StoredAltCount(StrippedImagesOf(s.body))
            && (if ix.titlesStart >= 0 then ix.titlesEnd - ix.titlesStart else 0)
               == StoredTitleCount(StrippedImagesOf(s.body))
  {
    RangeSizes(s);
    StoredCountsMatch(ImagesOf(s.body));
    if s.body == "" {
      assert Scan(s.body, 0) == [];
    }
  }

  // ---------------------------------------------------------------------------
  // One target language
  // ---------------------------------------------------------------------------

  /** One entry of the `translations` answer. */
  datatype LangResult = LangResult(lang: string, deeplLang: string, content: string, billedChars: nat,
                                   detectedSourceLang: Option<string>, error: Option<string>)

  const NoContent: string := "No translatable content"

  /** What the runtime reports when a placeholder names an image that was never stored. */
  const MissingImageError: string := "Cannot read properties of undefined (reading 'alt')"

  /** The record of a language whose batch is empty. */
  function NoContentResult(targetLang: string): LangResult
  {
    LangResult(DirCode(targetLang), DeeplCode(targetLang), "", 0, None, Some(NoContent))
  }

  /** The body of the language loop for one target; `None` when the step throws. */
  function LangOutcome(s: Segments, slug: string, targetLang: string, sourceLang: string,
                       formality: Option<string>, service: Service): Option<LangResult>
    requires OnePerText(service)
  {
    var batch := BatchOf(s);
    if batch == [] then Some(NoContentResult(targetLang))
    else
      var t := DeepL.TranslateTexts(service, batch, DeeplCode(targetLang), DeeplSource(sourceLang), formality);
      IndicesFit(s);
      match ContentFrom(s, slug, DirCode(targetLang), IndicesOf(s), t.texts, StrippedImagesOf(s.body))
      case None => None
      case Some(c) => Some(LangResult(DirCode(targetLang), DeeplCode(targetLang), c, t.billedChars,
                                      Some(t.detectedLang), None))
  }

  /** One pass of the language loop: build the batch, call the provider unless it is empty, reassemble. */
  method TranslateInto(s: Segments, slug: string, targetLang: string, sourceLang: string,
                       formality: Option<string>, service: Service) returns (r: Option<LangResult>)
    requires OnePerText(service)
    ensures r == LangOutcome(s, slug, targetLang, sourceLang, formality, service)
  {
    var deeplTarget := DeeplCode(targetLang);
    var dirCode := DirCode(targetLang);
    var batch, indices, strippedImages := BuildBatch(s);
    if |batch| == 0 {
      return Some(LangResult(dirCode, deeplTarget, "", 0, None, Some(NoContent)));
    }
    var deeplSource := DeeplSource(sourceLang);
    var translated := DeepL.TranslateTexts(service, batch, deeplTarget, deeplSource, formality);
    IndicesFit(s);
    var content := Reassemble(s, slug, dirCode, indices, translated.texts, strippedImages);
    if content.None? {
      return None;
    }
    r := Some(LangResult(dirCode, deeplTarget, content.value, translated.billedChars,
                         Some(translated.detectedLang), None));
  }

  /** An empty batch yields the "No translatable content" record without consulting the provider. */
  lemma EmptyBatchSkipsProvider(s: Segments, slug: string, targetLang: string, sourceLang: string,
                                formality: Option<string>, service: Service, other: Service)
    requires OnePerText(service) && OnePerText(other)
    requires BatchOf(s) == []
    ensures LangOutcome(s, slug, targetLang, sourceLang, formality, service)
            == LangOutcome(s, slug, targetLang, sourceLang, formality, other)
            == Some(LangResult(DirCode(targetLang), DeeplCode(targetLang), "", 0, None, Some(NoContent)))
  {
  }

  /** The provider sees exactly the batch, the target's DeepL code, the source's DeepL code and the formality. */
  lemma ProviderSeesBatch(s: Segments, slug: string, targetLang: string, sourceLang: string,
                          formality: Option<string>, service: Service, other: Service)
    requires OnePerText(service) && OnePerText(other)
    requires BatchOf(s) != []
    requires service(BatchOf(s), DeeplSource(sourceLang), DeeplCode(targetLang), DeepL.SentFormality(formality))
             == other(BatchOf(s), DeeplSource(sourceLang), DeeplCode(targetLang), DeepL.SentFormality(formality))
    ensures LangOutcome(s, slug, targetLang, sourceLang, formality, service)
            == LangOutcome(s, slug, targetLang, sourceLang, formality, other)
  {
  }

  // ---------------------------------------------------------------------------
  // The article handler
  // ---------------------------------------------------------------------------

  /** The `{ translations, totalBilledChars }` answer. */
  datatype ArticleResult = ArticleResult(translations: seq<LangResult>, totalBilledChars: nat)

  /** A handler's answer: a value, or an HTTP status with an error message. */
  datatype Outcome<T> = Ok(value: T) | Failed(status: nat, error: string)

  /** The per-language outcomes of the loop, one per target language. */
  function Outcomes(s: Segments, slug: string, langs: seq<string>, sourceLang: string,
                    formality: Option<string>, service: Service): (r: seq<Option<LangResult>>)
    requires OnePerText(service)
    ensures |r| == |langs|
    ensures forall i :: 0 <= i < |langs| ==> r[i] == LangOutcome(s, slug, langs[i], sourceLang, formality, service)
  {
    seq(|langs|, i requires 0 <= i < |langs| => LangOutcome(s, slug, langs[i], sourceLang, formality, service))
  }

  /** The loop's accumulation of `results` and `totalBilledChars`, stopping at the first outcome that throws. */
  function Fold(outs: seq<Option<LangResult>>): Option<ArticleResult>
    decreases |outs|
  {
    if outs == [] then Some(ArticleResult([], 0))
    else
      match Fold(outs[..|outs| - 1])
      case None => None
      case Some(acc) =>
        match outs[|outs| - 1]
        case None => None
        case Some(x) => Some(ArticleResult(acc.translations + [x], acc.totalBilledChars + x.billedChars))
  }

  lemma FoldSnoc(outs: seq<Option<LangResult>>, x: Option<LangResult>)
    ensures Fold(outs + [x]) == match Fold(outs)
                                case None => None
                                case Some(acc) =>
                                  match x
                                  case None => None
                                  case Some(y) => Some(ArticleResult(acc.translations + [y],
                                                                     acc.totalBilledChars + y.billedChars))
  {
    assert (outs + [x])[..|outs|] == outs;
  }

  /** Once an outcome throws, the whole loop does. */
  lemma {:induction false} FoldStops(outs: seq<Option<LangResult>>, k: nat)
    requires k <= |outs| && Fold(outs[..k]).None?
    ensures Fold(outs).None?
    decreases |outs| - k
  {
    if k == |outs| {
      assert outs[..k] == outs;
    } else {
      assert outs[..k + 1][..k] == outs[..k];
      FoldStops(outs, k + 1);
    }
  }

  /** One pass of the language loop, on any outcomes. */
  lemma FoldStep(all: seq<Option<LangResult>>, i: nat, one: Option<LangResult>, results: seq<LangResult>, total: nat)
    requires i < |all| && one == all[i]
    requires Fold(all[..i]) == Some(ArticleResult(results, total))
    ensures one.None? ==> Fold(all).None?
    ensures one.Some? ==>
              Fold(all[..i + 1]) == Some(ArticleResult(results + [one.value], total + one.value.billedChars))
  {
    assert all[..i + 1] == all[..i] + [all[i]];
    FoldSnoc(all[..i], one);
    if one.None? {
      FoldStops(all, i + 1);
    }
  }

  /** The summed billed characters of the per-language records. */
  function SumBilled(rs: seq<LangResult>): nat
  {
    if rs == [] then 0 else SumBilled(rs[..|rs| - 1]) + rs[|rs| - 1].billedChars
  }

  /**
   * A loop that finishes answers one record per outcome, in order, and its
   * total is the sum of the records' billed characters.
   */
  lemma {:induction false} FoldAligned(outs: seq<Option<LangResult>>)
    requires Fold(outs).Some?
    ensures |Fold(outs).value.translations| == |outs|
    ensures forall i :: 0 <= i < |outs| ==> outs[i] == Some(Fold(outs).value.translations[i])
    ensures Fold(outs).value.totalBilledChars == SumBilled(Fold(outs).value.translations)
    decreases |outs|
  {
    if outs != [] {
      var init := outs[..|outs| - 1];
      FoldAligned(init);
      var a := Fold(outs).value;
      assert a.translations == Fold(init).value.translations + [outs[|outs| - 1].value];
      assert a.translations[..|a.translations| - 1] == Fold(init).value.translations;
    }
  }

  /**
   * `POST /api/translate-article`: the request checks in the handler's
   * order, then the language loop; a throw inside the loop becomes a 500.
   * `file` is the source article's text, `None` when the file is missing.
   */
  function ArticleOutcome(slug: string, targetLangs: seq<string>, configured: bool, file: Option<string>,
                          sourceLang: string, formality: Option<string>, service: Service): Outcome<ArticleResult>
    requires OnePerText(service)
  {
    if slug == "" then Failed(400, "slug is required")
    else if targetLangs == [] then Failed(400, "targetLangs is required")
    else if !configured then Failed(503, "DEEPL_API_KEY is not configured")
    else if file.None? then Failed(404, "Source article " + slug + ".md not found")
    else
      match ExtractTranslatableSegments(file.value)
      case None => Failed(400, "Failed to parse article front matter")
      case Some(s) =>
        match Fold(Outcomes(s, slug, targetLangs, sourceLang, formality, service))
        case None => Failed(500, "Translation failed: " + MissingImageError)
        case Some(a) => Ok(a)
  }

  /** The handler: the checks, then the loop accumulating `results` and `totalBilledChars`. */
  method TranslateArticle(slug: string, targetLangs: seq<string>, configured: bool, file: Option<string>,
                          sourceLang: string, formality: Option<string>, service: Service)
    returns (r: Outcome<ArticleResult>)
    requires OnePerText(service)
    ensures r == ArticleOutcome(slug, targetLangs, configured, file, sourceLang, formality, service)
  {
    if slug == "" {
      return Failed(400, "slug is required");
    }
    if |targetLangs| == 0 {
      return Failed(400, "targetLangs is required");
    }
    if !configured {
      return Failed(503, "DEEPL_API_KEY is not configured");
    }
    if file.None? {
      return Failed(404, "Source article " + slug + ".md not found");
    }
    var segments := ExtractTranslatableSegments(file.value);
    if segments.None? {
      return Failed(400, "Failed to parse article front matter");
    }
    var translations := TranslateAll(segments.value, slug, targetLangs, sourceLang, formality, service);
    if translations.None? {
      return Failed(500, "Translation failed: " + MissingImageError);
    }
    r := Ok(translations.value);
  }

  /** `x` is the outcome of translating into `lang`. */
  predicate IsOutcome(x: Option<LangResult>, s: Segments, slug: string, lang: string, sourceLang: string,
                      formality: Option<string>, service: Service)
    requires OnePerText(service)
  {
    x == LangOutcome(s, slug, lang, sourceLang, formality, service)
  }

  /** `outs` holds the outcome of each target language, in order. */
  predicate OutcomesOf(outs: seq<Option<LangResult>>, s: Segments, slug: string, langs: seq<string>,
                       sourceLang: string, formality: Option<string>, service: Service)
    requires OnePerText(service)
  {
    && |outs| == |langs|
    && forall k {:trigger IsOutcome(outs[k], s, slug, langs[k], sourceLang, formality, service)} ::
         0 <= k < |outs| ==> IsOutcome(outs[k], s, slug, langs[k], sourceLang, formality, service)
  }

  /** `Outcomes` is the only sequence of outcomes. */
  lemma OutcomesOfUnique(outs: seq<Option<LangResult>>, s: Segments, slug: string, langs: seq<string>,
                         sourceLang: string, formality: Option<string>, service: Service)
    requires OnePerText(service)
    ensures OutcomesOf(outs, s, slug, langs, sourceLang, formality, service)
            <==> outs == Outcomes(s, slug, langs, sourceLang, formality, service)
  {
    var all := Outcomes(s, slug, langs, sourceLang, formality, service);
    if OutcomesOf(outs, s, slug, langs, sourceLang, formality, service) {
      forall k | 0 <= k < |outs| ensures outs[k] == all[k] {
        assert IsOutcome(outs[k], s, slug, langs[k], sourceLang, formality, service);
      }
    }
    if outs == all {
      forall k | 0 <= k < |outs| ensures IsOutcome(outs[k], s, slug, langs[k], sourceLang, formality, service) {
      }
    }
  }

  /** The language loop, accumulating `results` and `totalBilledChars`; `None` when a step throws. */
  method TranslateAll(s: Segments, slug: string, targetLangs: seq<string>, sourceLang: string,
                      formality: Option<string>, service: Service) returns (r: Option<ArticleResult>)
    requires OnePerText(service)
    ensures r == Fold(Outcomes(s, slug, targetLangs, sourceLang, formality, service))
  {
    OutcomesOfUnique(Outcomes(s, slug, targetLangs, sourceLang, formality, service),
                     s, slug, targetLangs, sourceLang, formality, service);
    ghost var all :| OutcomesOf(all, s, slug, targetLangs, sourceLang, formality, service);
    r := TranslateEach(s, slug, targetLangs, sourceLang, formality, service, all);
    OutcomesOfUnique(all, s, slug, targetLangs, sourceLang, formality, service);
  }

  /** The loop itself, over outcomes `all` known only through `OutcomesOf`. */
  method TranslateEach(s: Segments, slug: string, targetLangs: seq<string>, sourceLang: string,
                       formality: Option<string>, service: Service, ghost all: seq<Option<LangResult>>)
    returns (r: Option<ArticleResult>)
    requires OnePerText(service)
    requires OutcomesOf(all, s, slug, targetLangs, sourceLang, formality, service)
    ensures r == Fold(all)
  {
    var results: seq<LangResult> := [];
    var totalBilledChars: nat := 0;
    for i := 0 to |targetLangs|
      invariant Fold(all[..i]) == Some(ArticleResult(results, totalBilledChars))
    {
      var one := TranslateNext(s, slug, targetLangs, sourceLang, formality, service, all, i, results, totalBilledChars);
      if one.None? {
        return None;
      }
      results := results + [one.value];
      totalBilledChars := totalBilledChars + one.value.billedChars;
    }
    assert all[..|targetLangs|] == all;
    r := Some(ArticleResult(results, totalBilledChars));
  }

  /** One pass of the loop: the `i`-th language's outcome, and the accumulation it leads to. */
  method TranslateNext(s: Segments, slug: string, targetLangs: seq<string>, sourceLang: string,
                       formality: Option<string>, service: Service, ghost all: seq<Option<LangResult>>,
                       i: nat, ghost results: seq<LangResult>, ghost total: nat)
    returns (one: Option<LangResult>)
    requires OnePerText(service)
    requires OutcomesOf(all, s, slug, targetLangs, sourceLang, formality, service)
    requires i < |targetLangs| && Fold(all[..i]) == Some(ArticleResult(results, total))
    ensures one == all[i]
    ensures one.None? ==> Fold(all).None?
    ensures one.Some? ==>
              Fold(all[..i + 1]) == Some(ArticleResult(results + [one.value], total + one.value.billedChars))
  {
    one := TranslateInto(s, slug, targetLangs[i], sourceLang, formality, service);
    assert IsOutcome(all[i], s, slug, targetLangs[i], sourceLang, formality, service);
    FoldStep(all, i, one, results, total);
  }

  /**
   * A finished loop answers one record per target language, in order, each
   * with that language's directory and DeepL codes, and the total is the sum
   * of the records' billed characters.
   */
  lemma ResultsAligned(s: Segments, slug: string, langs: seq<string>, sourceLang: string,
                       formality: Option<string>, service: Service)
    requires OnePerText(service)
    requires Fold(Outcomes(s, slug, langs, sourceLang, formality, service)).Some?
    ensures var a := Fold(Outcomes(s, slug, langs, sourceLang, formality, service)).value;
            && |a.translations| == |langs|
            && (forall i :: 0 <= i < |langs| ==>
                  a.translations[i].lang == DirCode(langs[i]) && a.translations[i].deeplLang == DeeplCode(langs[i]))
            && a.totalBilledChars == SumBilled(a.translations)
  {
    var outs := Outcomes(s, slug, langs, sourceLang, formality, service);
    FoldAligned(outs);
    var a := Fold(outs).value;
    forall i | 0 <= i < |langs|
      ensures a.translations[i].lang == DirCode(langs[i]) && a.translations[i].deeplLang == DeeplCode(langs[i])
    {
      LangCodes(s, slug, langs[i], sourceLang, formality, service, a.translations[i]);
    }
  }

  /** Each record carries its target's directory and DeepL codes. */
  lemma LangCodes(s: Segments, slug: string, targetLang: string, sourceLang: string,
                  formality: Option<string>, service: Service, x: LangResult)
    requires OnePerText(service)
    requires LangOutcome(s, slug, targetLang, sourceLang, formality, service) == Some(x)
    ensures x.lang == DirCode(targetLang) && x.deeplLang == DeeplCode(targetLang)
  {
  }

  // ---------------------------------------------------------------------------
  // The status route: guessing the source language
  // ---------------------------------------------------------------------------

  /** ô ĺ ŕ ľ: letters of Slovak and not of Czech. */
  const SlovakOnlyLetters: string := "\U{00F4}\U{013A}\U{0155}\U{013E}"

  /** ě ř ů: letters of Czech and not of Slovak. */
  const CzechLetters: string := "\U{011B}\U{0159}\U{016F}"

  /** á č ď é í ň ó š ť ú ý ž: letters the two languages share. */
  const SharedLetters: string :=
    "\U{00E1}\U{010D}\U{010F}\U{00E9}\U{00ED}\U{0148}\U{00F3}\U{0161}\U{0165}\U{00FA}\U{00FD}\U{017E}"

  /** `c` matches the class of letters `cls` case-insensitively: both upper-case to the same letter. */
  predicate InClass(c: char, cls: string)
  {
    exists j :: 0 <= j < |cls| && ToUpperChar(cls[j]) == ToUpperChar(c)
  }

  /** `/[cls]/i.test(text)`. */
  predicate Mentions(text: string, cls: string)
  {
    exists i :: 0 <= i < |text| && InClass(text[i], cls)
  }

  /** The guess from a text: Slovak-only letters first, then Czech letters, then the shared ones. */
  function GuessFromText(text: string): (r: string)
    ensures r == "EN" || r == "SK" || r == "CS"
    ensures r == "CS" ==> Mentions(text, CzechLetters) && !Mentions(text, SlovakOnlyLetters)
    ensures r == "EN" <==> !Mentions(text, SlovakOnlyLetters) && !Mentions(text, CzechLetters)
                           && !Mentions(text, SharedLetters)
  {
    if Mentions(text, SlovakOnlyLetters) then "SK"
    else if Mentions(text, CzechLetters) then "CS"
    else if Mentions(text, SharedLetters) then "SK"
    else "EN"
  }

  /** The status route's guess: English unless the title or excerpt shows Slovak or Czech letters. */
  function GuessSourceLang(segments: Option<Segments>): (r: string)
    ensures r == "EN" || r == "SK" || r == "CS"
    ensures segments.None? ==> r == "EN"
  {
    match segments
    case None => "EN"
    case Some(s) => GuessFromText(s.title + " " + s.excerpt)
  }

  /** A Slovak-only letter decides for Slovak, whatever Czech letters the text also holds. */
  lemma SlovakLettersFirst(text: string, i: nat)
    requires i < |text| && InClass(text[i], SlovakOnlyLetters)
    ensures GuessFromText(text) == "SK"
  {
  }

  /** Upper-casing is idempotent on the modelled letters. */
  lemma UpperTwice(c: char)
    ensures ToUpperChar(ToUpperChar(c)) == ToUpperChar(c)
  {
  }

  /** The match ignores case: an upper-cased text gets the same guess. */
  lemma GuessIgnoresCase(text: string)
    ensures GuessFromText(Upper(text)) == GuessFromText(text)
  {
    var u := Upper(text);
    forall i, cls | 0 <= i < |text| ensures InClass(u[i], cls) <==> InClass(text[i], cls) {
      UpperTwice(text[i]);
    }
    forall cls ensures Mentions(u, cls) <==> Mentions(text, cls) {
      if Mentions(u, cls) {
        var i :| 0 <= i < |u| && InClass(u[i], cls);
        assert InClass(text[i], cls);
      }
      if Mentions(text, cls) {
        var i :| 0 <= i < |text| && InClass(text[i], cls);
        assert InClass(u[i], cls);
      }
    }
  }

  /** No ASCII character belongs to a class of non-ASCII letters. */
  lemma AsciiOutsideClass(c: char, cls: string)
    requires c < '\U{0080}'
    requires forall j :: 0 <= j < |cls| ==> '\U{00C0}' <= ToUpperChar(cls[j])
    ensures !InClass(c, cls)
  {
  }

  /** A plain ASCII title and excerpt are guessed to be English. */
  lemma AsciiIsEnglish(text: string)
    requires forall i :: 0 <= i < |text| ==> text[i] < '\U{0080}'
    ensures GuessFromText(text) == "EN"
  {
    forall i | 0 <= i < |text|
      ensures !InClass(text[i], SlovakOnlyLetters) && !InClass(text[i], CzechLetters)
              && !InClass(text[i], SharedLetters)
    {
      AsciiOutsideClass(text[i], SlovakOnlyLetters);
      AsciiOutsideClass(text[i], CzechLetters);
      AsciiOutsideClass(text[i], SharedLetters);
    }
  }

  /** `getDefaultTargets(sourceLang).map((l) => DEEPL_TO_DIR[l] || l.toLowerCase())`. */
  function DefaultTargetDirs(sourceLang: string): (r: seq<string>)
    ensures |r| == |DeepL.GetDefaultTargets(sourceLang)|
  {
    var targets := DeepL.GetDefaultTargets(sourceLang);
    seq(|targets|, i requires 0 <= i < |targets| =>
      if targets[i] in DeepL.DeeplToDir then DeepL.DeeplToDir[targets[i]] else Lower(targets[i]))
  }

  /**
   * The directories offered for the guessed language: the other two of
   * en, sk and cs, never the guessed language's own.
   */
  lemma GuessedTargets(segments: Option<Segments>)
    ensures var g := GuessSourceLang(segments);
            && (g == "SK" ==> DefaultTargetDirs(g) == ["en", "cs"])
            && (g == "EN" ==> DefaultTargetDirs(g) == ["sk", "cs"])
            && (g == "CS" ==> DefaultTargetDirs(g) == ["sk", "en"])
            && Lower(g) !in DefaultTargetDirs(g)
  {
    var g := GuessSourceLang(segments);
    if g == "SK" {
      SlovakTargets();
    } else if g == "EN" {
      EnglishTargets();
    } else {
      CzechTargets();
    }
  }

  lemma SlovakTargets()
    ensures DefaultTargetDirs("SK") == ["en", "cs"] && Lower("SK") == "sk"
  {
    assert Upper("SK") == "SK";
    DeepL.NormalizePlain("SK");
  }

  lemma EnglishTargets()
    ensures DefaultTargetDirs("EN") == ["sk", "cs"] && Lower("EN") == "en"
  {
    assert Upper("EN") == "EN";
    DeepL.NormalizePlain("EN");
  }

  lemma CzechTargets()
    ensures DefaultTargetDirs("CS") == ["sk", "en"] && Lower("CS") == "cs"
  {
    assert Upper("CS") == "CS";
    DeepL.NormalizePlain("CS");
  }

  /** The status answer, without the per-language file list. */
  datatype Status = Status(slug: string, sourceLang: string, defaultTargets: seq<string>, charsEstimate: nat)

  /**
   * `GET /api/translation-status/:slug`: 404 without a source article;
   * otherwise the guessed source, the directories offered by default and
   * the characters per language (0 when the header does not parse).
   */
  function StatusOutcome(slug: string, file: Option<string>): (r: Outcome<Status>)
    ensures r.Failed? <==> file.None?
    ensures r.Ok? ==> |r.value.defaultTargets| == 2 && Lower(r.value.sourceLang) !in r.value.defaultTargets
    ensures r.Ok? && ExtractTranslatableSegments(file.value).None? ==>
              r.value.sourceLang == "EN" && r.value.charsEstimate == 0
  {
    if file.None? then Failed(404, "Source article " + slug + ".md not found")
    else
      var segments := ExtractTranslatableSegments(file.value);
      var sourceLang := GuessSourceLang(segments);
      GuessedTargets(segments);
      Ok(Status(slug, sourceLang, DefaultTargetDirs(sourceLang),
                match segments case Some(s) => TranslatableChars(s) case None => 0))
  }

  // ---------------------------------------------------------------------------
  // The estimate route
  // ---------------------------------------------------------------------------

  /** The `quota` part of the estimate. */
  datatype Quota = Quota(used: nat, limit: nat, remaining: int, sufficient: bool)

  /** The estimate answer, without the usage percentage. */
  datatype Estimate = Estimate(slug: string, charsPerLang: nat, numLangs: nat, totalEstimate: nat, quota: Quota)

  /** `(targetLangs || []).length || 2`. */
  function LangCount(targetLangs: seq<string>): (r: nat)
    ensures r >= 1
    ensures targetLangs != [] ==> r == |targetLangs|
  {
    if |targetLangs| == 0 then 2 else |targetLangs|
  }

  /**
   * The estimate from the characters per language: times the number of
   * languages, set against the quota the service reports.
   */
  function EstimateFor(slug: string, chars: nat, targetLangs: seq<string>, usage: Option<DeepL.CharacterUsage>)
    : (e: Estimate)
    ensures e.charsPerLang == chars
    ensures e.numLangs == (if targetLangs == [] then 2 else |targetLangs|)
    ensures e.totalEstimate == e.charsPerLang * e.numLangs
    ensures e.quota.used == DeepL.UsageCounts(usage).0 && e.quota.limit == DeepL.UsageCounts(usage).1
    ensures e.quota.remaining == e.quota.limit - e.quota.used
    ensures e.quota.sufficient <==> e.quota.remaining >= e.totalEstimate
  {
    var n := LangCount(targetLangs);
    var usedLimit := DeepL.UsageCounts(usage);
    Estimate(slug, chars, n, chars * n,
             Quota(usedLimit.0, usedLimit.1, usedLimit.1 - usedLimit.0, usedLimit.1 - usedLimit.0 >= chars * n))
  }

  /**
   * `POST /api/estimate-translation`: the checks in the handler's order,
   * then the estimate. `usage` is the quota the service reports.
   */
  function EstimateOutcome(slug: string, targetLangs: seq<string>, configured: bool, file: Option<string>,
                           usage: Option<DeepL.CharacterUsage>): (r: Outcome<Estimate>)
    ensures r.Failed? <==> slug == "" || !configured || file.None? || ExtractTranslatableSegments(file.value).None?
    ensures r.Failed? ==> r.status == (if !configured && slug != "" then 503 else if file.None? && slug != "" then 404
                                      else 400)
  {
    if slug == "" then Failed(400, "slug is required")
    else if !configured then Failed(503, "DEEPL_API_KEY is not configured")
    else if file.None? then Failed(404, "Source article " + slug + ".md not found")
    else
      match ExtractTranslatableSegments(file.value)
      case None => Failed(400, "Failed to parse article front matter")
      case Some(s) => Ok(EstimateFor(slug, TranslatableChars(s), targetLangs, usage))
  }

  /** The handler, counting the characters with `countTranslatableChars`. */
  method EstimateTranslation(slug: string, targetLangs: seq<string>, configured: bool, file: Option<string>,
                             usage: Option<DeepL.CharacterUsage>) returns (r: Outcome<Estimate>)
    ensures r == EstimateOutcome(slug, targetLangs, configured, file, usage)
  {
    if slug == "" {
      return Failed(400, "slug is required");
    }
    if !configured {
      return Failed(503, "DEEPL_API_KEY is not configured");
    }
    if file.None? {
      return Failed(404, "Source article " + slug + ".md not found");
    }
    var segments := ExtractTranslatableSegments(file.value);
    if segments.None? {
      return Failed(400, "Failed to parse article front matter");
    }
    var charsPerLang := CountTranslatableChars(segments.value);
    r := Ok(EstimateFor(slug, charsPerLang, targetLangs, usage));
  }

  /** Asking for no languages is estimated as asking for two. */
  lemma NoTargetsCountAsTwo(slug: string, a: string, b: string, configured: bool, file: Option<string>,
                            usage: Option<DeepL.CharacterUsage>)
    ensures EstimateOutcome(slug, [], configured, file, usage) == EstimateOutcome(slug, [a, b], configured, file, usage)
  {
  }

  /** A quota sufficient for some languages is sufficient for fewer. */
  lemma SufficientForFewer(slug: string, more: seq<string>, fewer: seq<string>, configured: bool,
                           file: Option<string>, usage: Option<DeepL.CharacterUsage>)
    requires 0 < |fewer| <= |more|
    requires EstimateOutcome(slug, more, configured, file, usage).Ok?
    requires EstimateOutcome(slug, more, configured, file, usage).value.quota.sufficient
    ensures EstimateOutcome(slug, fewer, configured, file, usage).Ok?
    ensures EstimateOutcome(slug, fewer, configured, file, usage).value.quota.sufficient
  {
    var chars := TranslatableChars(ExtractTranslatableSegments(file.value).value);
    assert chars * |fewer| <= chars * |more| by {
      MulMono(chars, |fewer|, |more|);
    }
  }

  lemma MulMono(a: nat, b: nat, c: nat)
    requires b <= c
    ensures a * b <= a * c
  {
  }
}
