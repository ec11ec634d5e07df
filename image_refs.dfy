/**
 * Markdown image references as both translation modules find them, with the
 * pattern `!\[([^\]]*)\]\(([^)]+?)(?:\s+"([^"]*)")?\)` applied globally.
 *
 * The pattern is modelled as an explicit left-to-right scanner. At a start
 * position it reads "![", the alt text up to the first ']', then "(". The path
 * is lazy: after each path character the scanner first tries the optional
 * title group (a whitespace run, a double-quoted text and ')'), then a bare
 * ')', and otherwise takes one more path character, which must not be ')'.
 * A global search resumes after each match, and one character further on
 * when no match starts at the current position.
 */
module ImageRefs {
  import opened Strings

  /** The optional title group: the whitespace before it and the quoted text. */
  datatype Title = Title(sep: string, text: string)

  /** One image reference: alt text, path and optional title. */
  datatype Image = Image(alt: string, path: string, title: Option<Title>)

  /** A match: the image and the position just after its ')'. */
  datatype Match = Match(img: Image, end: nat)

  /** A scanned text: literal characters and image references, in order. */
  datatype Piece = Chr(c: char) | Img(img: Image)

  /** The title text, '' when the title group did not take part (`m[3] || ''`). */
  function TitleText(t: Option<Title>): string
  {
    match t
    case None => ""
    case Some(x) => x.text
  }

  /** What the title group matched, '' when it did not take part. */
  function TitleSource(t: Option<Title>): string
  {
    match t
    case None => ""
    case Some(x) => x.sep + "\"" + x.text + "\""
  }

  /** The matched text of an image reference (`m[0]`). */
  function ImageText(img: Image): string
  {
    "![" + img.alt + "](" + img.path + TitleSource(img.title) + ")"
  }

  /** The first index at or after `from` holding `c`, or `|s|`. */
  function CharFrom(s: string, c: char, from: nat): (r: nat)
    requires from <= |s|
    ensures from <= r <= |s|
    ensures forall k :: from <= k < r ==> s[k] != c
    ensures r == |s| || s[r] == c
    decreases |s| - from
  {
    if from < |s| && s[from] != c then CharFrom(s, c, from + 1) else from
  }

  /** The title group `\s+"([^"]*)"` followed by ')' at `j`: its opening and closing quotes. */
  function TitleAt(s: string, j: nat): (r: Option<(nat, nat)>)
    requires j <= |s|
    ensures r.Some? ==> j < r.value.0 < r.value.1 && r.value.1 + 1 < |s|
    ensures r.Some? ==> r.value.0 == SkipSpace(s, j) && s[r.value.0] == '"'
    ensures r.Some? ==> r.value.1 == CharFrom(s, '"', r.value.0 + 1) && s[r.value.1 + 1] == ')'
  {
    var q := SkipSpace(s, j);
    if q == j || q >= |s| || s[q] != '"' then None
    else
      var c := CharFrom(s, '"', q + 1);
      if c + 1 < |s| && s[c + 1] == ')' then Some((q, c)) else None
  }

  /** No ')' in `s[b..j]`. */
  predicate NoClose(s: string, b: nat, j: nat)
    requires j <= |s|
  {
    forall k :: b <= k < j ==> s[k] != ')'
  }

  /** The lazy path `[^)]+?` from `b`, currently ending at `j`, and what follows it. */
  function PathScan(s: string, b: nat, j: nat): (r: Option<(nat, Option<Title>, nat)>)
    requires b < j <= |s|
    requires NoClose(s, b, j)
    ensures r.Some? ==> b < r.value.0 < r.value.2 <= |s|
    ensures r.Some? ==> NoClose(s, b, r.value.0)
    decreases |s| - j
  {
    if j >= |s| then None
    else
      match TitleAt(s, j)
      case Some((q, c)) => Some((j, Some(Title(s[j..q], s[q + 1..c])), c + 2))
      case None =>
        if s[j] == ')' then Some((j, None, j + 1))
        else PathScan(s, b, j + 1)
  }

  /** The match of the image pattern that starts at `p`, if any. */
  function MatchAt(s: string, p: nat): (r: Option<Match>)
    requires p <= |s|
    ensures r.Some? ==> p < r.value.end <= |s|
    ensures r.Some? ==> r.value.img.path != []
  {
    if p + 2 <= |s| && s[p] == '!' && s[p + 1] == '[' then
      var k := CharFrom(s, ']', p + 2);
      if k + 2 < |s| && s[k + 1] == '(' && s[k + 2] != ')' then
        match PathScan(s, k + 2, k + 3)
        case None => None
        case Some((e, t, end)) => Some(Match(Image(s[p + 2..k], s[k + 2..e], t), end))
      else None
    else None
  }

  /** A matched alt holds no ']' and a matched path no ')'. */
  lemma MatchCharset(s: string, p: nat)
    requires p <= |s| && MatchAt(s, p).Some?
    ensures ']' !in MatchAt(s, p).value.img.alt && ')' !in MatchAt(s, p).value.img.path
  {
    var k, e := MatchParts(s, p);
    SliceWithout(s, p + 2, k, ']');
    SliceWithout(s, k + 2, e, ')');
  }

  lemma SliceWithout(s: string, a: nat, e: nat, c: char)
    requires a <= e <= |s|
    requires forall k :: a <= k < e ==> s[k] != c
    ensures c !in s[a..e]
  {
    forall i | 0 <= i < e - a
      ensures s[a..e][i] != c
    {
      assert s[a..e][i] == s[a + i];
    }
  }

  /** The global scan from `p`: every match in order, with the text between kept as characters. */
  function Scan(s: string, p: nat): (r: seq<Piece>)
    requires p <= |s|
    decreases |s| - p
  {
    if p == |s| then []
    else
      match MatchAt(s, p)
      case Some(m) => [Img(m.img)] + Scan(s, m.end)
      case None => [Chr(s[p])] + Scan(s, p + 1)
  }

  /** The text of a sequence of pieces. */
  function Unparse(pieces: seq<Piece>): string
  {
    if pieces == [] then "" else PieceText(pieces[0]) + Unparse(pieces[1..])
  }

  /** The text of one piece. */
  function PieceText(x: Piece): string
  {
    match x
    case Chr(c) => [c]
    case Img(img) => ImageText(img)
  }

  /** The image references among the pieces, in order. */
  function Images(pieces: seq<Piece>): (r: seq<Image>)
    ensures |r| <= |pieces|
  {
    if pieces == [] then []
    else (match pieces[0] case Chr(_) => [] case Img(img) => [img]) + Images(pieces[1..])
  }

  /** Every image reference of a text, in document order. */
  function ImagesOf(s: string): seq<Image>
  {
    Images(Scan(s, 0))
  }

  // ---------------------------------------------------------------------------
  // The scan loses nothing
  // ---------------------------------------------------------------------------

  /** A text that is the slice `s[p..e]` followed by the suffix from `e` is the suffix from `p`. */
  lemma Glue(s: string, p: nat, e: nat, x: string, u: string, v: string)
    requires p <= e <= |s| && s[p..e] == x && v == s[e..] && u == x + v
    ensures u == s[p..]
  {
    SliceSplit(s, p, e, |s|);
  }

  lemma SliceSplit(s: string, a: nat, b: nat, c: nat)
    requires a <= b <= c <= |s|
    ensures s[a..c] == s[a..b] + s[b..c]
  {
  }

  /** The text a path scan covers is the path, the title group and ')'. */
  lemma {:induction false} PathScanText(s: string, b: nat, j: nat, e: nat, t: Option<Title>, end: nat)
    requires b < j <= |s|
    requires NoClose(s, b, j)
    requires PathScan(s, b, j) == Some((e, t, end))
    ensures b < e < end <= |s|
    ensures s[b..end] == s[b..e] + TitleSource(t) + ")"
    decreases |s| - j
  {
    if TitleAt(s, j).Some? {
      PathScanTitle(s, b, j, e, t, end);
    } else if s[j] == ')' {
      PathScanClose(s, b, j, e, t, end);
    } else {
      PathScanNext(s, b, j);
      PathScanText(s, b, j + 1, e, t, end);
    }
  }

  lemma PathScanTitle(s: string, b: nat, j: nat, e: nat, t: Option<Title>, end: nat)
    requires b < j <= |s|
    requires NoClose(s, b, j)
    requires PathScan(s, b, j) == Some((e, t, end)) && TitleAt(s, j).Some?
    ensures b < e < end <= |s|
    ensures s[b..end] == s[b..e] + TitleSource(t) + ")"
  {
    var q, c := TitleAt(s, j).value.0, TitleAt(s, j).value.1;
    assert e == j && end == c + 2 && t == Some(Title(s[j..q], s[q + 1..c]));
    TitleCaseText(s, b, j, q, c);
  }

  lemma PathScanClose(s: string, b: nat, j: nat, e: nat, t: Option<Title>, end: nat)
    requires b < j < |s| && s[j] == ')'
    requires NoClose(s, b, j)
    requires PathScan(s, b, j) == Some((e, t, end)) && TitleAt(s, j).None?
    ensures b < e < end <= |s|
    ensures s[b..end] == s[b..e] + TitleSource(t) + ")"
  {
    assert e == j && end == j + 1 && t.None?;
    SliceSplit(s, b, j, j + 1);
  }

  lemma PathScanNext(s: string, b: nat, j: nat)
    requires b < j < |s| && s[j] != ')'
    requires NoClose(s, b, j)
    requires TitleAt(s, j).None?
    ensures NoClose(s, b, j + 1)
    ensures PathScan(s, b, j + 1) == PathScan(s, b, j)
  {
  }

  lemma TitleCaseText(s: string, b: nat, j: nat, q: nat, c: nat)
    requires b <= j < q < c && c + 1 < |s| && s[q] == '"' && s[c] == '"' && s[c + 1] == ')'
    ensures s[b..c + 2] == s[b..j] + TitleSource(Some(Title(s[j..q], s[q + 1..c]))) + ")"
  {
    TitleGroupText(s, j, q, c);
    SliceSplit(s, b, j, c + 2);
  }

  lemma TitleGroupText(s: string, j: nat, q: nat, c: nat)
    requires j < q < c && c + 1 < |s| && s[q] == '"' && s[c] == '"' && s[c + 1] == ')'
    ensures s[j..c + 2] == TitleSource(Some(Title(s[j..q], s[q + 1..c]))) + ")"
  {
    var x, y := s[j..q], s[q + 1..c];
    var rhs := x + "\"" + y + "\"" + ")";
    assert TitleSource(Some(Title(x, y))) + ")" == rhs;
    assert |rhs| == c + 2 - j;
    forall i | 0 <= i < c + 2 - j ensures s[j..c + 2][i] == rhs[i] {
      if i < q - j {
        assert rhs[i] == x[i];
      } else if i == q - j {
      } else if i < c - j {
        assert rhs[i] == y[i - (q - j) - 1];
      }
    }
  }

  /** The parts of a match: where its alt ends, where its path ends, and the path scan that found them. */
  lemma MatchParts(s: string, p: nat) returns (k: nat, e: nat)
    requires p <= |s| && MatchAt(s, p).Some?
    ensures p + 2 <= k && k + 3 <= |s| && s[p] == '!' && s[p + 1] == '[' && s[k] == ']' && s[k + 1] == '('
    ensures NoClose(s, k + 2, k + 3)
    ensures var m := MatchAt(s, p).value;
            && PathScan(s, k + 2, k + 3) == Some((e, m.img.title, m.end))
            && m.img.alt == s[p + 2..k] && m.img.path == s[k + 2..e]
  {
    k := CharFrom(s, ']', p + 2);
    e := PathScan(s, k + 2, k + 3).value.0;
  }

  /** The text a match covers is exactly the image reference it reports. */
  lemma MatchText(s: string, p: nat)
    requires p <= |s| && MatchAt(s, p).Some?
    ensures s[p..MatchAt(s, p).value.end] == ImageText(MatchAt(s, p).value.img)
  {
    var m := MatchAt(s, p).value;
    var k, e := MatchParts(s, p);
    PartsText(s, p, k, e, m.end, m.img);
  }

  lemma PartsText(s: string, p: nat, k: nat, e: nat, end: nat, img: Image)
    requires p + 2 <= k && k + 3 <= |s| && s[p] == '!' && s[p + 1] == '[' && s[k] == ']' && s[k + 1] == '('
    requires NoClose(s, k + 2, k + 3)
    requires PathScan(s, k + 2, k + 3) == Some((e, img.title, end))
    requires img.alt == s[p + 2..k] && img.path == s[k + 2..e]
    ensures end <= |s| && s[p..end] == ImageText(img)
  {
    PathScanText(s, k + 2, k + 3, e, img.title, end);
    HeadText(s, p, k, end);
    ImageTextParts(img);
    assert s[k + 2..end] == img.path + TitleSource(img.title) + ")";
  }

  lemma ImageTextParts(img: Image)
    ensures ImageText(img) == "![" + img.alt + "](" + (img.path + TitleSource(img.title) + ")")
  {
  }

  lemma HeadText(s: string, p: nat, k: nat, end: nat)
    requires p + 2 <= k && k + 2 <= end <= |s|
    requires s[p] == '!' && s[p + 1] == '[' && s[k] == ']' && s[k + 1] == '('
    ensures s[p..end] == "![" + s[p + 2..k] + "](" + s[k + 2..end]
  {
    SliceSplit(s, p, p + 2, end);
    SliceSplit(s, p + 2, k, end);
    SliceSplit(s, k, k + 2, end);
    assert s[p..p + 2] == "![";
    assert s[k..k + 2] == "](";
  }

  lemma UnparseCons(x: Piece, rest: seq<Piece>)
    ensures Unparse([x] + rest) == PieceText(x) + Unparse(rest)
  {
    assert ([x] + rest)[1..] == rest;
  }

  /** Printing the scanned pieces gives back the text: the scan is faithful. */
  lemma {:induction false} ScanRoundTrip(s: string, p: nat)
    requires p <= |s|
    ensures Unparse(Scan(s, p)) == s[p..]
    decreases |s| - p
  {
    if p < |s| {
      match MatchAt(s, p)
      case Some(m) =>
        ScanRoundTrip(s, m.end);
        UnparseStepImg(s, p);
      case None =>
        ScanRoundTrip(s, p + 1);
        UnparseStepChr(s, p);
    }
  }

  lemma UnparseStepImg(s: string, p: nat)
    requires p < |s| && MatchAt(s, p).Some?
    requires Unparse(Scan(s, MatchAt(s, p).value.end)) == s[MatchAt(s, p).value.end..]
    ensures Unparse(Scan(s, p)) == s[p..]
  {
    UnparseScan(s, p);
    MatchText(s, p);
    Glue(s, p, MatchAt(s, p).value.end, ImageText(MatchAt(s, p).value.img),
         Unparse(Scan(s, p)), Unparse(Scan(s, MatchAt(s, p).value.end)));
  }

  lemma UnparseStepChr(s: string, p: nat)
    requires p < |s| && MatchAt(s, p).None?
    requires Unparse(Scan(s, p + 1)) == s[p + 1..]
    ensures Unparse(Scan(s, p)) == s[p..]
  {
    UnparseScan(s, p);
    OneChar(s, p);
    Glue(s, p, p + 1, [s[p]], Unparse(Scan(s, p)), Unparse(Scan(s, p + 1)));
  }

  lemma OneChar(s: string, p: nat)
    requires p < |s|
    ensures s[p..p + 1] == [s[p]]
  {
  }

  /** The text of the scan from `p`: the text of the first piece, then the rest. */
  lemma UnparseScan(s: string, p: nat)
    requires p < |s|
    ensures MatchAt(s, p).Some? ==>
              Unparse(Scan(s, p)) == ImageText(MatchAt(s, p).value.img) + Unparse(Scan(s, MatchAt(s, p).value.end))
    ensures MatchAt(s, p).None? ==> Unparse(Scan(s, p)) == [s[p]] + Unparse(Scan(s, p + 1))
  {
    match MatchAt(s, p)
    case Some(m) =>
      UnparseCons(Img(m.img), Scan(s, m.end));
    case None =>
      UnparseCons(Chr(s[p]), Scan(s, p + 1));
  }

  lemma ImagesCons(x: Piece, rest: seq<Piece>)
    ensures Images([x] + rest) == Images([x]) + Images(rest)
  {
    assert ([x] + rest)[1..] == rest;
  }

  // ---------------------------------------------------------------------------
  // `extractImageRefs`
  // ---------------------------------------------------------------------------

  /** One element of `extractImageRefs`' result. */
  datatype ImageRef = ImageRef(alt: string, path: string, title: string, fullMatch: string)

  function RefOf(img: Image): (r: ImageRef)
    ensures r.fullMatch == ImageText(img) && r.path == img.path && r.alt == img.alt
  {
    ImageRef(img.alt, img.path, TitleText(img.title), ImageText(img))
  }

  /** `refs` are the references of `imgs`, one for one. */
  predicate RefsOf(refs: seq<ImageRef>, imgs: seq<Image>)
  {
    |refs| == |imgs| && forall i :: 0 <= i < |imgs| ==> refs[i] == RefOf(imgs[i])
  }

  /** `extractImageRefs(body)`: `re.exec` in a loop, pushing one record per match. */
  method ExtractImageRefs(body: string) returns (refs: seq<ImageRef>)
    ensures RefsOf(refs, ImagesOf(body))
  {
    refs := [];
    var p := 0;
    while p < |body|
      invariant p <= |body|
      invariant refs + MapRefs(Images(Scan(body, p))) == MapRefs(ImagesOf(body))
      decreases |body| - p
    {
      var m := MatchAt(body, p);
      if m.Some? {
        RefsStepImg(body, p, refs);
        refs := refs + [RefOf(m.value.img)];
        p := m.value.end;
      } else {
        RefsStepChr(body, p);
        p := p + 1;
      }
    }
  }

  /** A match at `p` contributes its reference, and the scan resumes after it. */
  lemma RefsStepImg(s: string, p: nat, refs: seq<ImageRef>)
    requires p < |s| && MatchAt(s, p).Some?
    ensures (refs + [RefOf(MatchAt(s, p).value.img)]) + MapRefs(Images(Scan(s, MatchAt(s, p).value.end))) ==
              refs + MapRefs(Images(Scan(s, p)))
  {
    var m := MatchAt(s, p).value;
    var rest := Images(Scan(s, m.end));
    ImagesStep(s, p);
    MapRefsCons(m.img, rest);
    SeqAssoc(refs, [RefOf(m.img)], MapRefs(rest));
  }

  /** No match at `p`: the scan moves on by one character and finds the same references. */
  lemma RefsStepChr(s: string, p: nat)
    requires p < |s| && MatchAt(s, p).None?
    ensures MapRefs(Images(Scan(s, p + 1))) == MapRefs(Images(Scan(s, p)))
  {
    ImagesStep(s, p);
  }

  /** One step of the global scan, as seen in the list of images. */
  lemma ImagesStep(s: string, p: nat)
    requires p < |s|
    ensures MatchAt(s, p).Some? ==>
              Images(Scan(s, p)) == [MatchAt(s, p).value.img] + Images(Scan(s, MatchAt(s, p).value.end))
    ensures MatchAt(s, p).None? ==> Images(Scan(s, p)) == Images(Scan(s, p + 1))
  {
    match MatchAt(s, p)
    case Some(m) => ImagesCons(Img(m.img), Scan(s, m.end));
    case None => ImagesCons(Chr(s[p]), Scan(s, p + 1));
  }

  function MapRefs(imgs: seq<Image>): (r: seq<ImageRef>)
    ensures RefsOf(r, imgs)
  {
    if imgs == [] then [] else [RefOf(imgs[0])] + MapRefs(imgs[1..])
  }

  lemma MapRefsCons(x: Image, rest: seq<Image>)
    ensures MapRefs([x] + rest) == [RefOf(x)] + MapRefs(rest)
  {
    assert ([x] + rest)[1..] == rest;
  }

  // ---------------------------------------------------------------------------
  // Alt and title texts
  // ---------------------------------------------------------------------------

  /** `refs.map(r => r.alt).filter(Boolean)` over the images. */
  function AltTexts(imgs: seq<Image>): (r: seq<string>)
    ensures |r| <= |imgs|
    ensures forall i :: 0 <= i < |r| ==> r[i] != ""
  {
    if imgs == [] then []
    else (if imgs[0].alt != "" then [imgs[0].alt] else []) + AltTexts(imgs[1..])
  }

  /** `refs.map(r => r.title).filter(Boolean)` over the images. */
  function TitleTexts(imgs: seq<Image>): (r: seq<string>)
    ensures |r| <= |imgs|
    ensures forall i :: 0 <= i < |r| ==> r[i] != ""
  {
    if imgs == [] then []
    else (if TitleText(imgs[0].title) != "" then [TitleText(imgs[0].title)] else []) + TitleTexts(imgs[1..])
  }
}
