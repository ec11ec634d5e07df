/**
 * The DOCX converter of _converter/lib/docx_converter.py.
 *
 * mammoth turns the document into HTML, calling the image handler once per
 * embedded image; markdownify turns the HTML into Markdown. Neither library is
 * part of this model: the handler is modelled on the image's bytes and content
 * type, the title on the texts BeautifulSoup finds, and the heading removal on
 * the Markdown text markdownify produced.
 *
 * The image list the handler closes over is the field of `ImageCollector`; the
 * line list `_remove_first_heading` edits in place is an array.
 */
module DocxConverter {
  import opened Strings
  import ConverterText
  import ImagesPy

  /** A byte of image data. */
  newtype byte = b: int | 0 <= b < 256

  // ---------------------------------------------------------------------------
  // handle_image
  // ---------------------------------------------------------------------------

  /** One collected image: `{'data': data, 'ext': ext, 'index': idx}`. */
  datatype ImageRecord = ImageRecord(data: seq<byte>, ext: string, index: nat)

  /** One call of the image handler: the image's bytes and its content type. */
  datatype ImageCall = ImageCall(data: seq<byte>, contentType: string)

  /** The Windows metafile kinds the handler skips. */
  predicate IsMetafile(ext: string)
  {
    ext == "x-wmf" || ext == "x-emf" || ext == "wmf" || ext == "emf"
  }

  /** `content_type.split('/')[-1]`. */
  function Subtype(contentType: string): (r: string)
    ensures '/' !in r
  {
    var parts := Split(contentType, '/');
    SplitNoSep(contentType, '/');
    parts[|parts| - 1]
  }

  /**
   * The extension the handler records for a content type: 'jpeg' becomes
   * 'jpg', a metafile gives None (the image is skipped), anything else is
   * kept as it is.
   */
  function ImageExt(contentType: string): (r: Option<string>)
    ensures r.None? <==> IsMetafile(Subtype(contentType))
    ensures r.Some? ==> '/' !in r.value && r.value != "jpeg" && !IsMetafile(r.value)
    ensures r.Some? && r.value != "jpg" ==> r.value == Subtype(contentType)
  {
    var ext := Subtype(contentType);
    if ext == "jpeg" then Some("jpg")
    else if IsMetafile(ext) then None
    else Some(ext)
  }

  /** The image list after a sequence of handler calls. */
  function Collect(calls: seq<ImageCall>): seq<ImageRecord>
  {
    if calls == [] then []
    else
      var before := Collect(calls[..|calls| - 1]);
      var last := calls[|calls| - 1];
      match ImageExt(last.contentType)
      case None => before
      case Some(ext) => before + [ImageRecord(last.data, ext, |before|)]
  }

  /** The number of calls whose image is not a metafile. */
  function Kept(calls: seq<ImageCall>): nat
  {
    if calls == [] then 0
    else Kept(calls[..|calls| - 1]) + (if ImageExt(calls[|calls| - 1].contentType).Some? then 1 else 0)
  }

  /**
   * The collected list numbers its images 0, 1, 2, … in order, holds one
   * image per call that was not a metafile, and records no metafile and no
   * 'jpeg' extension.
   */
  lemma {:induction false} CollectIndexed(calls: seq<ImageCall>)
    ensures |Collect(calls)| == Kept(calls)
    ensures forall k :: 0 <= k < |Collect(calls)| ==> Collect(calls)[k].index == k
    ensures forall k :: 0 <= k < |Collect(calls)| ==>
      Collect(calls)[k].ext != "jpeg" && !IsMetafile(Collect(calls)[k].ext)
  {
    if calls != [] {
      CollectIndexed(calls[..|calls| - 1]);
    }
  }

  /** Every collected image comes from a call with the same bytes. */
  lemma {:induction false} CollectFromCalls(calls: seq<ImageCall>, k: nat)
    requires k < |Collect(calls)|
    ensures exists j :: 0 <= j < |calls| && Collect(calls)[k].data == calls[j].data
                        && ImageExt(calls[j].contentType) == Some(Collect(calls)[k].ext)
  {
    var init := calls[..|calls| - 1];
    if k < |Collect(init)| {
      CollectFromCalls(init, k);
      var j :| 0 <= j < |init| && Collect(init)[k].data == init[j].data
               && ImageExt(init[j].contentType) == Some(Collect(init)[k].ext);
      assert calls[j] == init[j];
    } else {
      assert Collect(calls)[k].data == calls[|calls| - 1].data;
    }
  }

  /** The image list `convert_docx` builds through its handler. */
  class ImageCollector {
    var images: seq<ImageRecord>
    ghost var calls: seq<ImageCall>

    ghost predicate Valid()
      reads this
    {
      images == Collect(calls)
    }

    constructor ()
      ensures Valid() && calls == [] && images == []
    {
      images := [];
      calls := [];
    }

    /**
     * `handle_image(image)`: a metafile gives `{}` and leaves the list alone;
     * any other image is appended under the next index and gives the `src`
     * placeholder for that index.
     */
    method HandleImage(data: seq<byte>, contentType: string) returns (src: Option<string>)
      requires Valid()
      modifies this
      ensures Valid() && calls == old(calls) + [ImageCall(data, contentType)]
      ensures IsMetafile(Subtype(contentType)) ==> images == old(images) && src == None
      ensures !IsMetafile(Subtype(contentType)) ==>
        images == old(images) + [ImageRecord(data, ImageExt(contentType).value, |old(images)|)]
        && src == Some(ImagesPy.Placeholder(|old(images)|))
    {
      var ext := Subtype(contentType);
      CollectSnoc(calls, ImageCall(data, contentType));
      if ext == "jpeg" {
        ext := "jpg";
      } else if ext == "x-wmf" || ext == "x-emf" || ext == "wmf" || ext == "emf" {
        calls := calls + [ImageCall(data, contentType)];
        return None;
      }
      var idx := |images|;
      images := images + [ImageRecord(data, ext, idx)];
      calls := calls + [ImageCall(data, contentType)];
      src := Some(ImagesPy.Placeholder(idx));
    }
  }

  /** One more handler call extends the collected list by the image it keeps, if any. */
  lemma CollectSnoc(calls: seq<ImageCall>, c: ImageCall)
    ensures ImageExt(c.contentType).None? ==> Collect(calls + [c]) == Collect(calls)
    ensures ImageExt(c.contentType).Some? ==>
      Collect(calls + [c]) == Collect(calls) + [ImageRecord(c.data, ImageExt(c.contentType).value, |Collect(calls)|)]
  {
    assert (calls + [c])[..|calls|] == calls;
  }

  /** Two collected images never share a placeholder. */
  lemma PlaceholdersDistinct(i: nat, j: nat)
    requires i != j
    ensures ImagesPy.Placeholder(i) != ImagesPy.Placeholder(j)
  {
    if ImagesPy.Placeholder(i) == ImagesPy.Placeholder(j) {
      var p := ImagesPy.Placeholder(i);
      assert Decimal(i) == p[8..|p| - 2];
      assert Decimal(j) == p[8..|p| - 2];
      DecimalInjective(i, j);
    }
  }

  // ---------------------------------------------------------------------------
  // _extract_title
  // ---------------------------------------------------------------------------

  /**
   * `_extract_title(html, filepath)`, on the stripped texts of the first
   * `h1`, `h2` and `h3` elements and of the first `strong`/`b` element (None
   * when the HTML has no such element).
   */
  function ExtractTitle(h1: Option<string>, h2: Option<string>, h3: Option<string>,
                        bold: Option<string>, filepath: string): (r: string)
    ensures h1.Some? ==> r == h1.value
    ensures h1.None? && h2.Some? ==> r == h2.value
    ensures h1.None? && h2.None? && h3.Some? ==> r == h3.value
    ensures h1.None? && h2.None? && h3.None? ==>
      r == (if bold.Some? && |bold.value| > 5 then bold.value else ConverterText.FilenameTitle(filepath))
  {
    if h1.Some? then h1.value
    else if h2.Some? then h2.value
    else if h3.Some? then h3.value
    else if bold.Some? && |bold.value| > 5 then bold.value
    else ConverterText.FilenameTitle(filepath)
  }

  /** The title is a heading's text, a bold text longer than five characters, or the file-name title. */
  lemma TitleSource(h1: Option<string>, h2: Option<string>, h3: Option<string>,
                    bold: Option<string>, filepath: string)
    ensures var r := ExtractTitle(h1, h2, h3, bold, filepath);
      Some(r) in [h1, h2, h3] || (Some(r) == bold && |r| > 5) || r == ConverterText.FilenameTitle(filepath)
    ensures h1.None? && h2.None? && h3.None? && (bold.None? || |bold.value| <= 5) ==>
      ExtractTitle(h1, h2, h3, bold, filepath) == ConverterText.FilenameTitle(filepath)
  {
  }

  // ---------------------------------------------------------------------------
  // _remove_first_heading
  // ---------------------------------------------------------------------------

  /** The line is a heading (stripped, it starts with '#') whose text is `title`. */
  predicate IsTitleHeading(line: string, title: string)
  {
    var stripped := PyStrip(line);
    |stripped| > 0 && stripped[0] == '#' && PyStrip(LStripChar(stripped, '#')) == title
  }

  /** The first line at or after `k` that is a heading for `title`. */
  function FirstTitleHeading(lines: seq<string>, title: string, k: nat): (r: Option<nat>)
    requires k <= |lines|
    ensures r.Some? ==> k <= r.value < |lines| && IsTitleHeading(lines[r.value], title)
    ensures r.Some? ==> NoneBetween(lines, title, k, r.value)
    ensures r.None? ==> NoneBetween(lines, title, k, |lines|)
    decreases |lines| - k
  {
    if k == |lines| then None
    else if IsTitleHeading(lines[k], title) then Some(k)
    else
      NotHeadingNext(lines, title, k);
      FirstTitleHeading(lines, title, k + 1)
  }

  lemma NotHeadingNext(lines: seq<string>, title: string, k: nat)
    requires k < |lines| && !IsTitleHeading(lines[k], title)
    ensures forall j :: k + 1 <= j <= |lines| && NoneBetween(lines, title, k + 1, j) ==> NoneBetween(lines, title, k, j)
  {
  }

  /** No line from `a` up to `b` is a heading for `title`. */
  predicate NoneBetween(lines: seq<string>, title: string, a: nat, b: nat)
    requires b <= |lines|
  {
    forall m :: a <= m < b ==> !IsTitleHeading(lines[m], title)
  }

  /**
   * The lines after `_remove_first_heading`: the first heading for `title`
   * becomes empty, and so does the line after it when that one is blank.
   */
  function HeadingRemoved(lines: seq<string>, title: string): seq<string>
  {
    match FirstTitleHeading(lines, title, 0)
    case None => lines
    case Some(i) => ConverterText.BlankFrom(lines, i)
  }

  /**
   * The removal keeps the number of lines and changes at most the first
   * heading for the title and the blank line right after it, both to empty
   * lines; without such a heading nothing changes.
   */
  lemma HeadingRemovedShape(lines: seq<string>, title: string)
    ensures |HeadingRemoved(lines, title)| == |lines|
    ensures forall k :: 0 <= k < |lines| && HeadingRemoved(lines, title)[k] != lines[k] ==>
      HeadingRemoved(lines, title)[k] == ""
      && FirstTitleHeading(lines, title, 0).Some?
      && var i := FirstTitleHeading(lines, title, 0).value;
         k == i || (k == i + 1 && PyStrip(lines[k]) == "")
    ensures FirstTitleHeading(lines, title, 0).None? ==> HeadingRemoved(lines, title) == lines
    ensures FirstTitleHeading(lines, title, 0).Some? ==>
      HeadingRemoved(lines, title)[FirstTitleHeading(lines, title, 0).value] == ""
  {
    var first := FirstTitleHeading(lines, title, 0);
    if first.Some? {
      ConverterText.BlankFromShape(lines, first.value);
    }
  }

  /** `_remove_first_heading` on the line list, in place: the loop with its `break`. */
  method BlankFirstHeading(a: array<string>, title: string)
    modifies a
    ensures a[..] == HeadingRemoved(old(a[..]), title)
  {
    ghost var lines := a[..];
    var i := 0;
    while i < a.Length
      invariant 0 <= i <= a.Length
      invariant a[..] == lines
      invariant FirstTitleHeading(lines, title, i) == FirstTitleHeading(lines, title, 0)
    {
      var stripped := PyStrip(a[i]);
      if |stripped| > 0 && stripped[0] == '#' {
        var headingText := PyStrip(LStripChar(stripped, '#'));
        if headingText == title {
          assert IsTitleHeading(lines[i], title);
          a[i] := "";
          if i + 1 < a.Length && PyStrip(a[i + 1]) == "" {
            a[i + 1] := "";
          }
          return;
        }
      }
      assert !IsTitleHeading(lines[i], title);
      i := i + 1;
    }
  }

  /** `_remove_first_heading(markdown, title)`. */
  method RemoveFirstHeading(markdown: string, title: string) returns (r: string)
    ensures r == Join(HeadingRemoved(Split(markdown, '\n'), title), "\n")
  {
    var lines := Split(markdown, '\n');
    var a := new string[|lines|](k requires 0 <= k < |lines| => lines[k]);
    assert a[..] == lines;
    BlankFirstHeading(a, title);
    r := Join(a[..], "\n");
  }

  /** The Markdown after the removal has exactly the lines of `HeadingRemoved`, so as many as before. */
  lemma RemovalKeepsLines(markdown: string, title: string)
    ensures var lines := Split(markdown, '\n');
      Split(Join(HeadingRemoved(lines, title), "\n"), '\n') == HeadingRemoved(lines, title)
      && |HeadingRemoved(lines, title)| == |lines|
  {
    var lines := Split(markdown, '\n');
    HeadingRemovedShape(lines, title);
    SplitNoSep(markdown, '\n');
    ConverterText.BlankedLinesRejoin(lines, HeadingRemoved(lines, title));
  }

  /** Without a heading for the title the Markdown comes back unchanged. */
  lemma NoHeadingUnchanged(markdown: string, title: string)
    requires forall k :: 0 <= k < |Split(markdown, '\n')| ==> !IsTitleHeading(Split(markdown, '\n')[k], title)
    ensures Join(HeadingRemoved(Split(markdown, '\n'), title), "\n") == markdown
  {
    NoTitleHeading(Split(markdown, '\n'), title, 0);
    SplitThenJoin(markdown, '\n');
  }

  lemma {:induction false} NoTitleHeading(lines: seq<string>, title: string, k: nat)
    requires k <= |lines|
    requires forall m :: k <= m < |lines| ==> !IsTitleHeading(lines[m], title)
    ensures FirstTitleHeading(lines, title, k) == None
    decreases |lines| - k
  {
    if k < |lines| {
      NoTitleHeading(lines, title, k + 1);
    }
  }

  /** A text without line breaks, '#' at its start or whitespace at either end. */
  predicate PlainTitle(title: string)
  {
    '\n' !in title && (title == [] || (title[0] != '#' && !IsPySpace(title[0]) && !IsPySpace(title[|title| - 1])))
  }

  /** `# title` is a heading for `title`. */
  lemma HeadingForTitle(title: string)
    requires PlainTitle(title)
    ensures IsTitleHeading("# " + title, title)
  {
    var line := "# " + title;
    LStripKeeps(line);
    if title == [] {
      assert line == "# " && line[..1] == "#";
      RStripKeeps("#");
      assert PyStrip(line) == "#";
      assert "#"[1..] == "";
      assert LStripChar("#", '#') == LStripChar("", '#') == "";
      assert PyStrip(LStripChar(PyStrip(line), '#')) == title;
    } else {
      assert line[|line| - 1] == title[|title| - 1];
      RStripKeeps(line);
      assert PyStrip(line) == line;
      var rest := " " + title;
      assert line[1..] == rest;
      assert LStripChar(line, '#') == LStripChar(rest, '#') == rest;
      assert rest[1..] == title;
      LStripKeeps(title);
      assert PyLStrip(rest) == title;
      RStripKeeps(title);
      assert PyStrip(rest) == title;
      assert PyStrip(LStripChar(PyStrip(line), '#')) == title;
    }
  }

  /**
   * A document that opens with `# title` loses that line and, when the next
   * line is blank, that one too; everything after is kept.
   */
  lemma OpeningHeadingRemoved(title: string, more: seq<string>)
    requires PlainTitle(title)
    ensures HeadingRemoved(["# " + title] + more, title)
      == [""] + (if more != [] && PyStrip(more[0]) == "" then [""] + more[1..] else more)
  {
    var lines := ["# " + title] + more;
    HeadingForTitle(title);
    FirstAtStart(lines, title);
    ConverterText.BlankFromFirst("# " + title, more);
  }

  lemma FirstAtStart(lines: seq<string>, title: string)
    requires lines != [] && IsTitleHeading(lines[0], title)
    ensures HeadingRemoved(lines, title) == ConverterText.BlankFrom(lines, 0)
  {
    assert FirstTitleHeading(lines, title, 0) == Some(0);
  }

  // ---------------------------------------------------------------------------
  // convert_docx
  // ---------------------------------------------------------------------------

  /**
   * The last steps of `convert_docx`, after mammoth and markdownify: the title
   * from the HTML, and the Markdown without its heading for that title.
   */
  method ConvertDocx(markdown: string, h1: Option<string>, h2: Option<string>, h3: Option<string>,
                     bold: Option<string>, filepath: string) returns (title: string, content: string)
    ensures title == ExtractTitle(h1, h2, h3, bold, filepath)
    ensures Split(content, '\n') == HeadingRemoved(Split(markdown, '\n'), title)
  {
    title := ExtractTitle(h1, h2, h3, bold, filepath);
    content := RemoveFirstHeading(markdown, title);
    RemovalKeepsLines(markdown, title);
  }
}
