/**
 * Image protection in the translate route (`web/server/routes/translation.js`):
 * `stripImageReferences` swaps every image reference of the body for a
 * numbered placeholder `__IMG_k__` before the body is sent for translation,
 * and `reinsertImages` puts image references back in place of the
 * placeholders, with the translated alt and title texts.
 *
 * The image pattern is the one `ImageRefs` scans. The placeholder pattern
 * `/__IMG_(\d+)__/g` is modelled as a scanner as well: the marker "__IMG_",
 * a run of digits, and "__". The digit run is always the maximal one, since
 * '_' is not a digit and backtracking cannot help.
 */
module RouteImages {
  import opened Strings
  import opened ImageRefs
  import opened Translation

  /** `{ alt, path: imgPath, title: title || '' }`, the record kept for an image. */
  datatype StoredImage = StoredImage(alt: string, path: string, title: string)

  /** The record kept for a scanned image. */
  function Store(img: Image): StoredImage
  {
    StoredImage(img.alt, img.path, TitleText(img.title))
  }

  /** The records of a list of images, index for index. */
  function StoreAll(imgs: seq<Image>): (r: seq<StoredImage>)
    ensures |r| == |imgs|
    ensures forall k :: 0 <= k < |imgs| ==> r[k] == Store(imgs[k])
  {
    seq(|imgs|, k requires 0 <= k < |imgs| => Store(imgs[k]))
  }

  lemma StoreAllCons(img: Image, rest: seq<Image>)
    ensures StoreAll([img] + rest) == [Store(img)] + StoreAll(rest)
  {
    assert forall k :: 1 <= k < |rest| + 1 ==> ([img] + rest)[k] == rest[k - 1];
  }

  /** The text before the number of a placeholder. */
  const Marker: string := "__IMG_"

  /** The text after the number of a placeholder. */
  const Closer: string := "__"

  /** `__IMG_${k}__`. */
  function Placeholder(k: nat): (r: string)
    ensures |r| == |Marker| + |Decimal(k)| + |Closer|
  {
    Marker + Decimal(k) + Closer
  }

  // ---------------------------------------------------------------------------
  // `stripImageReferences`
  // ---------------------------------------------------------------------------

  /** The scanned pieces with every image swapped for its placeholder, the next image numbered `k`. */
  function StripPieces(pieces: seq<Piece>, k: nat): string
  {
    if pieces == [] then ""
    else
      match pieces[0]
      case Chr(c) => [c] + StripPieces(pieces[1..], k)
      case Img(_) => Placeholder(k) + StripPieces(pieces[1..], k + 1)
  }

  /** The `stripped` text of `stripImageReferences(body)`. */
  function StrippedText(body: string): string
  {
    StripPieces(Scan(body, 0), 0)
  }

  /** The strip so far wrote `out` and kept `images`; the rest from `p` adds what remains. */
  predicate StripInv(body: string, p: nat, out: string, images: seq<StoredImage>)
  {
    && p <= |body|
    && out + StripPieces(Scan(body, p), |images|) == StrippedText(body)
    && images + StoreAll(Images(Scan(body, p))) == StoreAll(ImagesOf(body))
  }

  /**
   * `stripImageReferences(body)`: the k-th image reference from the left
   * becomes `__IMG_k__` and its alt, path and title (or '') are kept at index k.
   */
  method StripImageReferences(body: string) returns (stripped: string, images: seq<StoredImage>)
    ensures stripped == StrippedText(body)
    ensures images == StoreAll(ImagesOf(body))
  {
    images := [];
    stripped := "";
    var p := 0;
    StripStart(body);
    while p < |body|
      invariant StripInv(body, p, stripped, images)
      decreases |body| - p
    {
      p, stripped, images := StripStep(body, p, stripped, images);
    }
    StripDone(body, p, stripped, images);
  }

  lemma StripStart(body: string)
    ensures StripInv(body, 0, "", [])
  {
    assert "" + StrippedText(body) == StrippedText(body);
    assert [] + StoreAll(ImagesOf(body)) == StoreAll(ImagesOf(body));
  }

  lemma StripDone(body: string, p: nat, out: string, images: seq<StoredImage>)
    requires p >= |body| && StripInv(body, p, out, images)
    ensures out == StrippedText(body) && images == StoreAll(ImagesOf(body))
  {
    assert Scan(body, p) == [];
    assert out + "" == out;
    assert images + [] == images;
  }

  /** One step of the replace from `p`: a matched image is numbered and kept, any other character copied. */
  method StripStep(body: string, p: nat, out: string, images: seq<StoredImage>)
    returns (p': nat, out': string, images': seq<StoredImage>)
    requires p < |body| && StripInv(body, p, out, images)
    ensures p < p' && StripInv(body, p', out', images')
  {
    var m := MatchAt(body, p);
    if m.Some? {
      var idx := |images|;
      images' := images + [StoredImage(m.value.img.alt, m.value.img.path, TitleText(m.value.img.title))];
      var placeholder := "__IMG_" + Decimal(idx) + "__";
      out' := out + placeholder;
      p' := m.value.end;
      StripStepImg(body, p, out, images, m.value);
    } else {
      StripStepChr(body, p, out, images);
      out' := out + [body[p]];
      p', images' := p + 1, images;
    }
  }

  lemma StripStepImg(body: string, p: nat, out: string, images: seq<StoredImage>, m: Match)
    requires p < |body| && MatchAt(body, p) == Some(m)
    requires StripInv(body, p, out, images)
    ensures StripInv(body, m.end, out + Placeholder(|images|), images + [Store(m.img)])
  {
    var rest := Scan(body, m.end);
    assert Scan(body, p) == [Img(m.img)] + rest;
    StripPiecesImg(m.img, rest, |images|);
    Regroup(out, Placeholder(|images|), StripPieces(Scan(body, p), |images|), StripPieces(rest, |images| + 1),
            StrippedText(body));
    StoreImagesImg(m.img, rest);
    Regroup(images, [Store(m.img)], StoreAll(Images(Scan(body, p))), StoreAll(Images(rest)), StoreAll(ImagesOf(body)));
  }

  lemma StripPiecesImg(img: Image, rest: seq<Piece>, k: nat)
    ensures StripPieces([Img(img)] + rest, k) == Placeholder(k) + StripPieces(rest, k + 1)
  {
    assert ([Img(img)] + rest)[1..] == rest;
  }

  lemma StoreImagesImg(img: Image, rest: seq<Piece>)
    ensures StoreAll(Images([Img(img)] + rest)) == [Store(img)] + StoreAll(Images(rest))
  {
    ImagesCons(Img(img), rest);
    StoreAllCons(img, Images(rest));
  }

  lemma StripStepChr(body: string, p: nat, out: string, images: seq<StoredImage>)
    requires p < |body| && MatchAt(body, p).None?
    requires StripInv(body, p, out, images)
    ensures StripInv(body, p + 1, out + [body[p]], images)
  {
    var rest := Scan(body, p + 1);
    assert Scan(body, p) == [Chr(body[p])] + rest;
    assert ([Chr(body[p])] + rest)[1..] == rest;
    Regroup(out, [body[p]], StripPieces(Scan(body, p), |images|), StripPieces(rest, |images|), StrippedText(body));
    ImagesCons(Chr(body[p]), rest);
    assert Images(Scan(body, p)) == Images(rest);
  }

  // ---------------------------------------------------------------------------
  // The placeholder scanner
  // ---------------------------------------------------------------------------

  /** The length of the run of digits at the start of `t`. */
  function DigitRun(t: string): (r: nat)
    ensures r <= |t|
    ensures forall j :: 0 <= j < r ==> IsDigit(t[j])
    ensures r == |t| || !IsDigit(t[r])
  {
    if t != [] && IsDigit(t[0]) then 1 + DigitRun(t[1..]) else 0
  }

  /** A placeholder match at the start of `t`: its number and its length. */
  function PlaceholderAt(t: string): (r: Option<(nat, nat)>)
    ensures r.Some? ==> |Marker| + |Closer| < r.value.1 <= |t|
    ensures r.Some? ==> OccursAt(t, Marker, 0) && IsDigit(t[|Marker|])
  {
    if OccursAt(t, Marker, 0) then
      var d := |Marker| + DigitRun(t[|Marker|..]);
      if d > |Marker| && OccursAt(t, Closer, d) then Some((DigitsValue(t[|Marker|..d]), d + |Closer|))
      else None
    else None
  }

  /** What the placeholder scan sees: literal characters and placeholder numbers. */
  datatype Mark = Lit(c: char) | Ref(n: nat)

  /** The global placeholder scan of `t`, left to right. */
  function PScan(t: string): seq<Mark>
    decreases |t|
  {
    if t == [] then []
    else
      match PlaceholderAt(t)
      case Some((n, len)) => [Ref(n)] + PScan(t[len..])
      case None => [Lit(t[0])] + PScan(t[1..])
  }

  /** A placeholder at the start of a text is read back with its own number. */
  lemma PlaceholderRead(k: nat, rest: string)
    ensures PlaceholderAt(Placeholder(k) + rest) == Some((k, |Placeholder(k)|))
  {
    var t := Placeholder(k) + rest;
    var d := Decimal(k);
    assert t[..|Marker|] == Marker;
    assert t[|Marker|..] == d + Closer + rest;
    DigitRunOf(d, Closer + rest);
    assert t[|Marker|..|Marker| + |d|] == d;
    assert t[|Marker| + |d|..|Marker| + |d| + |Closer|] == Closer;
    DigitsValueDecimal(k);
  }

  lemma DigitRunOf(d: string, rest: string)
    requires forall j :: 0 <= j < |d| ==> IsDigit(d[j])
    requires rest != [] && !IsDigit(rest[0])
    ensures DigitRun(d + rest) == |d|
  {
    assert (d + rest)[|d|] == rest[0];
    assert forall j :: 0 <= j < |d| ==> (d + rest)[j] == d[j];
  }

  // ---------------------------------------------------------------------------
  // `reinsertImages`
  // ---------------------------------------------------------------------------

  /** The image a kept record stands for: a title is written after a single space. */
  function ImageOf(s: StoredImage): (r: Image)
    ensures r.alt == s.alt && r.path == s.path && TitleText(r.title) == s.title
  {
    Image(s.alt, s.path, if s.title == "" then None else Some(Title(" ", s.title)))
  }

  /** `out` followed by the rest, when there is a rest (`None` is a thrown error). */
  function Then(out: string, rest: Option<string>): Option<string>
  {
    match rest
    case None => None
    case Some(s) => Some(out + s)
  }

  /**
   * The text the replace builds from the scanned marks, the counters at `ai`
   * and `ti`. A placeholder whose number is not an index of `images` makes
   * the callback read a field of `undefined`, which throws: `None`.
   */
  function ReinsertMarks(marks: seq<Mark>, images: seq<StoredImage>, alts: seq<string>, titles: seq<string>,
                         ai: nat, ti: nat): Option<string>
  {
    if marks == [] then Some("")
    else
      match marks[0]
      case Lit(c) => Then([c], ReinsertMarks(marks[1..], images, alts, titles, ai, ti))
      case Ref(n) =>
        if n >= |images| then None
        else
          var img := ImageOf(images[n]);
          Then(ImageText(NewImage(img, alts, titles, ai, ti)),
               ReinsertMarks(marks[1..], images, alts, titles, ai + AltStep(img), ti + TitleStep(img)))
  }

  /** What `reinsertImages(body, images, translatedAlts, translatedTitles)` returns, `None` when it throws. */
  function ReinsertedText(body: string, images: seq<StoredImage>, alts: seq<string>, titles: seq<string>): Option<string>
  {
    ReinsertMarks(PScan(body), images, alts, titles, 0, 0)
  }

  /** The replace so far wrote `out`, and the text `rest` still to scan is rewritten with the counters at `ai` and `ti`. */
  predicate ReinsertInv(body: string, images: seq<StoredImage>, alts: seq<string>, titles: seq<string>,
                        rest: string, out: string, ai: nat, ti: nat)
  {
    Then(out, ReinsertMarks(PScan(rest), images, alts, titles, ai, ti)) == ReinsertedText(body, images, alts, titles)
  }

  /** `reinsertImages(body, images, translatedAlts, translatedTitles)`; `None` when it throws. */
  method ReinsertImages(body: string, images: seq<StoredImage>, translatedAlts: seq<string>, translatedTitles: seq<string>)
    returns (r: Option<string>)
    ensures r == ReinsertedText(body, images, translatedAlts, translatedTitles)
  {
    var altIdx := 0;
    var titleIdx := 0;
    var out := "";
    var rest := body;
    ReinsertStart(body, images, translatedAlts, translatedTitles);
    while rest != []
      invariant ReinsertInv(body, images, translatedAlts, translatedTitles, rest, out, altIdx, titleIdx)
      decreases |rest|
    {
      var failed;
      rest, out, altIdx, titleIdx, failed := ReinsertStep(body, images, translatedAlts, translatedTitles, rest, out, altIdx, titleIdx);
      if failed {
        return None;
      }
    }
    ReinsertDone(body, images, translatedAlts, translatedTitles, out, altIdx, titleIdx);
    r := Some(out);
  }

  lemma ReinsertStart(body: string, images: seq<StoredImage>, alts: seq<string>, titles: seq<string>)
    ensures ReinsertInv(body, images, alts, titles, body, "", 0, 0)
  {
    var o := ReinsertedText(body, images, alts, titles);
    if o.Some? {
      assert "" + o.value == o.value;
    }
  }

  lemma ReinsertDone(body: string, images: seq<StoredImage>, alts: seq<string>, titles: seq<string>,
                     out: string, ai: nat, ti: nat)
    requires ReinsertInv(body, images, alts, titles, [], out, ai, ti)
    ensures ReinsertedText(body, images, alts, titles) == Some(out)
  {
    assert out + "" == out;
  }

  /** One step of the replace: a placeholder at the start of `rest` is handed to the callback, any other character copied. */
  method ReinsertStep(body: string, images: seq<StoredImage>, translatedAlts: seq<string>, translatedTitles: seq<string>,
                      rest: string, out: string, altIdx: nat, titleIdx: nat)
    returns (rest': string, out': string, altIdx': nat, titleIdx': nat, failed: bool)
    requires rest != [] && ReinsertInv(body, images, translatedAlts, translatedTitles, rest, out, altIdx, titleIdx)
    ensures failed ==> ReinsertedText(body, images, translatedAlts, translatedTitles) == None
    ensures !failed ==> |rest'| < |rest| && ReinsertInv(body, images, translatedAlts, translatedTitles, rest', out', altIdx', titleIdx')
  {
    var m := PlaceholderAt(rest);
    match m
    case Some((n, len)) =>
      if n >= |images| {
        ReinsertStepFail(body, images, translatedAlts, translatedTitles, rest, out, altIdx, titleIdx, n, len);
        rest', out', altIdx', titleIdx', failed := rest, out, altIdx, titleIdx, true;
      } else {
        var piece, ai, ti := ReinsertCallback(images[n], translatedAlts, translatedTitles, altIdx, titleIdx);
        ReinsertStepRef(body, images, translatedAlts, translatedTitles, rest, out, altIdx, titleIdx, n, len, piece, ai, ti);
        rest', out', altIdx', titleIdx', failed := rest[len..], out + piece, ai, ti, false;
      }
    case None =>
      ReinsertStepLit(body, images, translatedAlts, translatedTitles, rest, out, altIdx, titleIdx);
      rest', out', altIdx', titleIdx', failed := rest[1..], out + [rest[0]], altIdx, titleIdx, false;
  }

  /** The scan at a placeholder: its number, then the scan after it. */
  lemma PScanRef(t: string, n: nat, len: nat)
    requires PlaceholderAt(t) == Some((n, len))
    ensures PScan(t) != [] && PScan(t)[0] == Ref(n) && PScan(t)[1..] == PScan(t[len..])
  {
    assert PScan(t) == [Ref(n)] + PScan(t[len..]);
  }

  /** The scan at a character that starts no placeholder. */
  lemma PScanLit(t: string)
    requires t != [] && PlaceholderAt(t).None?
    ensures PScan(t) != [] && PScan(t)[0] == Lit(t[0]) && PScan(t)[1..] == PScan(t[1..])
  {
    assert PScan(t) == [Lit(t[0])] + PScan(t[1..]);
  }

  lemma ReinsertStepFail(body: string, images: seq<StoredImage>, alts: seq<string>, titles: seq<string>,
                         rest: string, out: string, ai: nat, ti: nat, n: nat, len: nat)
    requires PlaceholderAt(rest) == Some((n, len)) && n >= |images|
    requires ReinsertInv(body, images, alts, titles, rest, out, ai, ti)
    ensures ReinsertedText(body, images, alts, titles) == None
  {
    PScanRef(rest, n, len);
  }

  lemma ReinsertStepRef(body: string, images: seq<StoredImage>, alts: seq<string>, titles: seq<string>,
                        rest: string, out: string, ai: nat, ti: nat, n: nat, len: nat, piece: string, ai': nat, ti': nat)
    requires PlaceholderAt(rest) == Some((n, len)) && n < |images|
    requires piece == ImageText(NewImage(ImageOf(images[n]), alts, titles, ai, ti))
    requires ai' == ai + AltStep(ImageOf(images[n])) && ti' == ti + TitleStep(ImageOf(images[n]))
    requires ReinsertInv(body, images, alts, titles, rest, out, ai, ti)
    ensures ReinsertInv(body, images, alts, titles, rest[len..], out + piece, ai', ti')
  {
    PScanRef(rest, n, len);
    MarksRef(PScan(rest), images, alts, titles, ai, ti, n, ai', ti');
    ThenRegroup(out, piece, ReinsertMarks(PScan(rest[len..]), images, alts, titles, ai', ti'));
  }

  lemma MarksRef(marks: seq<Mark>, images: seq<StoredImage>, alts: seq<string>, titles: seq<string>,
                 ai: nat, ti: nat, n: nat, ai': nat, ti': nat)
    requires marks != [] && marks[0] == Ref(n) && n < |images|
    requires ai' == ai + AltStep(ImageOf(images[n])) && ti' == ti + TitleStep(ImageOf(images[n]))
    ensures ReinsertMarks(marks, images, alts, titles, ai, ti)
              == Then(ImageText(NewImage(ImageOf(images[n]), alts, titles, ai, ti)),
                      ReinsertMarks(marks[1..], images, alts, titles, ai', ti'))
  {
  }

  lemma ReinsertStepLit(body: string, images: seq<StoredImage>, alts: seq<string>, titles: seq<string>,
                        rest: string, out: string, ai: nat, ti: nat)
    requires rest != [] && PlaceholderAt(rest).None?
    requires ReinsertInv(body, images, alts, titles, rest, out, ai, ti)
    ensures ReinsertInv(body, images, alts, titles, rest[1..], out + [rest[0]], ai, ti)
  {
    PScanLit(rest);
    ThenRegroup(out, [rest[0]], ReinsertMarks(PScan(rest[1..]), images, alts, titles, ai, ti));
  }

  lemma ThenRegroup(out: string, piece: string, rest: Option<string>)
    ensures Then(out, Then(piece, rest)) == Then(out + piece, rest)
  {
    if rest.Some? {
      assert out + (piece + rest.value) == (out + piece) + rest.value;
    }
  }

  /**
   * The callback of the replace for a kept image: an alt is taken from the
   * translated alts only when the original alt is non-empty, a title likewise,
   * each falling back to the original.
   */
  method ReinsertCallback(img: StoredImage, translatedAlts: seq<string>, translatedTitles: seq<string>,
                          altIdx: nat, titleIdx: nat)
    returns (piece: string, altIdx': nat, titleIdx': nat)
    ensures piece == ImageText(NewImage(ImageOf(img), translatedAlts, translatedTitles, altIdx, titleIdx))
    ensures altIdx' == altIdx + AltStep(ImageOf(img)) && titleIdx' == titleIdx + TitleStep(ImageOf(img))
  {
    altIdx', titleIdx' := altIdx, titleIdx;
    var alt := "";
    if img.alt != "" {
      alt := Pick(translatedAlts, altIdx', img.alt);
      altIdx' := altIdx' + 1;
    }
    var title := "";
    if img.title != "" {
      title := Pick(translatedTitles, titleIdx', img.title);
      titleIdx' := titleIdx' + 1;
    }
    ReplacementText(ImageOf(img), alt, title);
    if title != "" {
      piece := "![" + alt + "](" + img.path + " \"" + title + "\")";
    } else {
      piece := "![" + alt + "](" + img.path + ")";
    }
  }

  // ---------------------------------------------------------------------------
  // Stripping, then reinserting
  // ---------------------------------------------------------------------------

  /** The marks the placeholder scan should find in a stripped text, the next image numbered `k`. */
  function Marks(pieces: seq<Piece>, k: nat): seq<Mark>
  {
    if pieces == [] then []
    else
      match pieces[0]
      case Chr(c) => [Lit(c)] + Marks(pieces[1..], k)
      case Img(_) => [Ref(k)] + Marks(pieces[1..], k + 1)
  }

  /** The first `n` pieces are characters. */
  predicate CharPrefix(pieces: seq<Piece>, n: nat)
  {
    n <= |pieces| && forall i :: 0 <= i < n ==> pieces[i].Chr?
  }

  /** The index of the first image piece, or the length when there is none. */
  function FirstImg(pieces: seq<Piece>): (r: nat)
    ensures CharPrefix(pieces, r)
    ensures r < |pieces| ==> pieces[r].Img?
  {
    if pieces == [] || pieces[0].Img? then 0
    else
      var r := 1 + FirstImg(pieces[1..]);
      assert forall i :: 1 <= i < r ==> pieces[i] == pieces[1..][i - 1];
      r
  }

  /** Over a prefix of characters the stripped text and the original text agree. */
  lemma {:induction false} PrefixAgree(pieces: seq<Piece>, k: nat, n: nat)
    requires CharPrefix(pieces, n)
    ensures |StripPieces(pieces, k)| >= n && |Unparse(pieces)| >= n
    ensures StripPieces(pieces, k)[..n] == Unparse(pieces)[..n]
    ensures StripPieces(pieces, k)[n..] == StripPieces(pieces[n..], k)
    decreases n
  {
    if n > 0 {
      var c := pieces[0].c;
      var rest := pieces[1..];
      assert pieces == [Chr(c)] + rest;
      assert CharPrefix(rest, n - 1) by {
        forall i | 0 <= i < n - 1
          ensures rest[i].Chr?
        {
          assert rest[i] == pieces[i + 1];
        }
      }
      PrefixAgree(rest, k, n - 1);
      UnparseCons(Chr(c), rest);
      var x, y := StripPieces(rest, k), Unparse(rest);
      assert StripPieces(pieces, k) == [c] + x;
      assert ([c] + x)[..n] == [c] + x[..n - 1];
      assert ([c] + y)[..n] == [c] + y[..n - 1];
      assert ([c] + x)[n..] == x[n - 1..];
      assert rest[n - 1..] == pieces[n..];
    }
  }

  /** No placeholder starts at a character of the body when the body holds no "__IMG_". */
  lemma NoPlaceholderAtChar(pieces: seq<Piece>, k: nat)
    requires pieces != [] && pieces[0].Chr?
    requires !Contains(Unparse(pieces), Marker)
    ensures PlaceholderAt(StripPieces(pieces, k)).None?
  {
    var j := FirstImg(pieces);
    if j >= |Marker| + 1 {
      NoPlaceholderLongRun(pieces, k);
    } else if j == |pieces| {
      PrefixAgree(pieces, k, j);
      assert pieces[j..] == [];
    } else {
      NoPlaceholderNearImg(pieces, k, j);
    }
  }

  /** Seven leading characters: the stripped text starts as the body does, which is not with "__IMG_". */
  lemma NoPlaceholderLongRun(pieces: seq<Piece>, k: nat)
    requires CharPrefix(pieces, |Marker| + 1)
    requires !Contains(Unparse(pieces), Marker)
    ensures !OccursAt(StripPieces(pieces, k), Marker, 0)
  {
    var t, u := StripPieces(pieces, k), Unparse(pieces);
    PrefixAgree(pieces, k, |Marker| + 1);
    assert !OccursAt(u, Marker, 0);
    assert t[..|Marker|] == t[..|Marker| + 1][..|Marker|];
    assert u[..|Marker|] == u[..|Marker| + 1][..|Marker|];
  }

  /** An image within the first seven pieces puts a placeholder character, never a digit, at index 6. */
  lemma NoPlaceholderNearImg(pieces: seq<Piece>, k: nat, j: nat)
    requires 1 <= j <= |Marker| && j < |pieces| && CharPrefix(pieces, j) && pieces[j].Img?
    ensures |StripPieces(pieces, k)| > |Marker| && !IsDigit(StripPieces(pieces, k)[|Marker|])
  {
    var t := StripPieces(pieces, k);
    PrefixAgree(pieces, k, j);
    assert pieces[j..] == [Img(pieces[j].img)] + pieces[j + 1..];
    StripPiecesImg(pieces[j].img, pieces[j + 1..], k);
    var ph := Placeholder(k);
    assert t[j..] == ph + StripPieces(pieces[j + 1..], k + 1);
    assert t[|Marker|] == t[j..][|Marker| - j] == ph[|Marker| - j];
    assert ph[|Marker| - j] == Marker[|Marker| - j];
  }

  lemma NoMarkerSuffix(x: string, y: string)
    requires !Contains(x + y, Marker)
    ensures !Contains(y, Marker)
  {
    forall i: nat | i <= |y|
      ensures !OccursAt(y, Marker, i)
    {
      assert !OccursAt(x + y, Marker, |x| + i);
      if i + |Marker| <= |y| {
        assert (x + y)[|x| + i..|x| + i + |Marker|] == y[i..i + |Marker|];
      }
    }
  }

  /** The placeholder scan of a stripped text finds each body character and each image's number, in order. */
  lemma {:induction false} PScanStripped(pieces: seq<Piece>, k: nat)
    requires !Contains(Unparse(pieces), Marker)
    ensures PScan(StripPieces(pieces, k)) == Marks(pieces, k)
    decreases |pieces|
  {
    if pieces != [] {
      var rest := pieces[1..];
      assert pieces == [pieces[0]] + rest;
      UnparseCons(pieces[0], rest);
      NoMarkerSuffix(PieceText(pieces[0]), Unparse(rest));
      match pieces[0]
      case Chr(c) =>
        var t := StripPieces(pieces, k);
        NoPlaceholderAtChar(pieces, k);
        PScanLit(t);
        PScanStripped(rest, k);
      case Img(img) =>
        StripPiecesImg(img, rest, k);
        PlaceholderRead(k, StripPieces(rest, k + 1));
        var t := StripPieces(pieces, k);
        PScanRef(t, k, |Placeholder(k)|);
        assert t[|Placeholder(k)|..] == StripPieces(rest, k + 1);
        PScanStripped(rest, k + 1);
    }
  }

  /** A kept record rebuilds the same replacement, and advances the counters alike, as the scanned image. */
  lemma StoredNewImage(img: Image, alts: seq<string>, titles: seq<string>, ai: nat, ti: nat)
    ensures NewImage(ImageOf(Store(img)), alts, titles, ai, ti) == NewImage(img, alts, titles, ai, ti)
    ensures AltStep(ImageOf(Store(img))) == AltStep(img) && TitleStep(ImageOf(Store(img))) == TitleStep(img)
  {
  }

  /** Reinserting from the marks of a stripped text rewrites the images as the library replace does. */
  lemma {:induction false} ReinsertMarksOf(pieces: seq<Piece>, k: nat, all: seq<Image>,
                                           alts: seq<string>, titles: seq<string>, ai: nat, ti: nat)
    requires k <= |all| && Images(pieces) == all[k..]
    ensures ReinsertMarks(Marks(pieces, k), StoreAll(all), alts, titles, ai, ti)
              == Some(Unparse(RewritePieces(pieces, alts, titles, ai, ti)))
    decreases |pieces|
  {
    if pieces != [] {
      var rest := pieces[1..];
      assert pieces == [pieces[0]] + rest;
      ImagesCons(pieces[0], rest);
      match pieces[0]
      case Chr(c) =>
        ReinsertMarksOf(rest, k, all, alts, titles, ai, ti);
        ReinsertMarksChr(c, rest, k, all, alts, titles, ai, ti);
      case Img(img) =>
        assert all[k..] == [img] + Images(rest);
        assert all[k] == img && all[k + 1..] == all[k..][1..];
        var ai', ti' := ai + AltStep(img), ti + TitleStep(img);
        ReinsertMarksOf(rest, k + 1, all, alts, titles, ai', ti');
        ReinsertMarksImg(img, rest, k, all, alts, titles, ai, ti, ai', ti');
    }
  }

  lemma ReinsertMarksChr(c: char, rest: seq<Piece>, k: nat, all: seq<Image>,
                         alts: seq<string>, titles: seq<string>, ai: nat, ti: nat)
    requires ReinsertMarks(Marks(rest, k), StoreAll(all), alts, titles, ai, ti)
               == Some(Unparse(RewritePieces(rest, alts, titles, ai, ti)))
    ensures ReinsertMarks(Marks([Chr(c)] + rest, k), StoreAll(all), alts, titles, ai, ti)
              == Some(Unparse(RewritePieces([Chr(c)] + rest, alts, titles, ai, ti)))
  {
    assert ([Chr(c)] + rest)[1..] == rest;
    assert Marks([Chr(c)] + rest, k) == [Lit(c)] + Marks(rest, k);
    assert ([Lit(c)] + Marks(rest, k))[1..] == Marks(rest, k);
    RewriteConsChr(c, rest, alts, titles, ai, ti);
    UnparseCons(Chr(c), RewritePieces(rest, alts, titles, ai, ti));
  }

  lemma ReinsertMarksImg(img: Image, rest: seq<Piece>, k: nat, all: seq<Image>,
                         alts: seq<string>, titles: seq<string>, ai: nat, ti: nat, ai': nat, ti': nat)
    requires k < |all| && all[k] == img
    requires ai' == ai + AltStep(img) && ti' == ti + TitleStep(img)
    requires ReinsertMarks(Marks(rest, k + 1), StoreAll(all), alts, titles, ai', ti')
               == Some(Unparse(RewritePieces(rest, alts, titles, ai', ti')))
    ensures ReinsertMarks(Marks([Img(img)] + rest, k), StoreAll(all), alts, titles, ai, ti)
              == Some(Unparse(RewritePieces([Img(img)] + rest, alts, titles, ai, ti)))
  {
    var ni := NewImage(img, alts, titles, ai, ti);
    var tail := Unparse(RewritePieces(rest, alts, titles, ai', ti'));
    ReinsertRefHead(img, rest, k, all, alts, titles, ai, ti, ai', ti', ni, tail);
    RewriteImgHead(img, rest, alts, titles, ai, ti, ai', ti', ni);
  }

  lemma ReinsertRefHead(img: Image, rest: seq<Piece>, k: nat, all: seq<Image>,
                        alts: seq<string>, titles: seq<string>, ai: nat, ti: nat, ai': nat, ti': nat,
                        ni: Image, tail: string)
    requires k < |all| && all[k] == img
    requires ai' == ai + AltStep(img) && ti' == ti + TitleStep(img)
    requires ni == NewImage(img, alts, titles, ai, ti)
    requires ReinsertMarks(Marks(rest, k + 1), StoreAll(all), alts, titles, ai', ti') == Some(tail)
    ensures ReinsertMarks(Marks([Img(img)] + rest, k), StoreAll(all), alts, titles, ai, ti)
              == Some(ImageText(ni) + tail)
  {
    assert ([Img(img)] + rest)[1..] == rest;
    var marks := Marks([Img(img)] + rest, k);
    assert marks == [Ref(k)] + Marks(rest, k + 1);
    assert marks[1..] == Marks(rest, k + 1);
    var stored := StoreAll(all);
    assert stored[k] == Store(img);
    StoredNewImage(img, alts, titles, ai, ti);
    MarksRef(marks, stored, alts, titles, ai, ti, k, ai', ti');
  }

  lemma RewriteImgHead(img: Image, rest: seq<Piece>, alts: seq<string>, titles: seq<string>,
                       ai: nat, ti: nat, ai': nat, ti': nat, ni: Image)
    requires ai' == ai + AltStep(img) && ti' == ti + TitleStep(img)
    requires ni == NewImage(img, alts, titles, ai, ti)
    ensures Unparse(RewritePieces([Img(img)] + rest, alts, titles, ai, ti))
              == ImageText(ni) + Unparse(RewritePieces(rest, alts, titles, ai', ti'))
  {
    RewriteConsImg(img, rest, alts, titles, ai, ti);
    UnparseCons(Img(ni), RewritePieces(rest, alts, titles, ai', ti'));
  }

  /**
   * When the body holds no "__IMG_" and the placeholders come back intact,
   * reinserting the images into the stripped body gives exactly what
   * `replaceImageAltTitle` makes of the original body with the same
   * translated alts and titles: each placeholder gets its own image back,
   * path unchanged, and the alt and title counters consume the same entries.
   */
  lemma StripReinsertRoundTrip(body: string, alts: seq<string>, titles: seq<string>)
    requires !Contains(body, Marker)
    ensures ReinsertedText(StrippedText(body), StoreAll(ImagesOf(body)), alts, titles)
              == Some(ReplacedText(body, alts, titles))
  {
    var pieces := Scan(body, 0);
    ScanRoundTrip(body, 0);
    assert body[0..] == body;
    PScanStripped(pieces, 0);
    ReinsertMarksOf(pieces, 0, ImagesOf(body), alts, titles, 0, 0);
  }
}
