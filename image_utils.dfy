/**
 * The prompt helpers of the image server (`web/server/image-utils.js`): a
 * generation prompt becomes a file name slug, an alt text and a title.
 *
 * The file name is the slug pipeline of the front end without the
 * Slovak/Czech transliteration: lower-case, trim, every run outside
 * `[a-z0-9]` becomes one '-', one hyphen comes off each end, and an over-long
 * slug is cut back to its last hyphen. An empty result becomes 'gen-001'.
 * Alt text and title trim the prompt, drop trailing dots, upper-case the
 * first character and shorten an over-long text at a word boundary with '...'.
 */
module ImageUtils {
  import opened Strings
  import opened Slug

  const FallbackName := "gen-001"
  const AltMaxLen: nat := 125
  const TitleMaxLen: nat := 200
  const FilenameMaxLen: nat := 60

  // ---------------------------------------------------------------------------
  // promptToFilename
  // ---------------------------------------------------------------------------

  /** `replace(/^-|-$/g, '')`: one hyphen off the front and one off the back. */
  function StripEndHyphens(s: string): string
  {
    var a := if |s| > 0 && s[0] == '-' then s[1..] else s;
    if |a| > 0 && a[|a| - 1] == '-' then a[..|a| - 1] else a
  }

  /** `replace(/-[^-]*$/, '')`: the last hyphen and everything after it go. */
  function CutAtLastHyphen(t: string): string
  {
    var h := LastIndexOf(t, '-');
    if h >= 0 then t[..h] else t
  }

  /** Lower-cased prompt to slug: trim, collapse separators, strip one hyphen at each end. */
  function PromptSlug(x: string): string
  {
    StripEndHyphens(CollapseSeparators(Trim(x)))
  }

  /** `if (slug.length > maxLen) slug = slug.slice(0, maxLen).replace(/-[^-]*$/, '')`. */
  function Shorten(slug: string, maxLen: nat): string
  {
    if |slug| > maxLen then CutAtLastHyphen(slug[..maxLen]) else slug
  }

  /** The slug of `promptToFilename` before the 'gen-001' fallback. */
  function FilenameSlug(prompt: string, maxLen: nat): string
  {
    Shorten(PromptSlug(Lower(prompt)), maxLen)
  }

  /** No character of `s` is in `[a-z0-9]`. */
  predicate NoSlugChar(s: string)
  {
    forall i :: 0 <= i < |s| ==> !IsSlugChar(s[i])
  }

  /**
   * `promptToFilename(prompt, maxLen)`: 'gen-001' exactly when nothing of the
   * slug survives, which is always the case for a prompt without a-z0-9 after
   * lower-casing; otherwise a well-formed slug of at most `maxLen` characters.
   */
  function PromptToFilename(prompt: string, maxLen: nat): (r: string)
    ensures r == FallbackName || (IsSlug(r) && 0 < |r| <= maxLen)
    ensures NoSlugChar(Lower(prompt)) ==> r == FallbackName
    ensures !NoSlugChar(Lower(prompt)) && maxLen > 0 ==> IsSlug(r) && 0 < |r| <= maxLen
  {
    var slug := FilenameSlug(prompt, maxLen);
    SlugShape(Lower(prompt), maxLen);
    if slug == [] then FallbackName else slug
  }

  /** The letters and digits of `s`, in order. */
  function SlugChars(s: string): (r: string)
    ensures |r| <= |s|
  {
    if s == [] then [] else (if IsSlugChar(s[0]) then [s[0]] else []) + SlugChars(s[1..])
  }

  lemma {:induction false} SlugCharsConcat(a: string, b: string)
    ensures SlugChars(a + b) == SlugChars(a) + SlugChars(b)
  {
    if a != [] {
      assert (a + b)[0] == a[0];
      assert (a + b)[1..] == a[1..] + b;
      SlugCharsConcat(a[1..], b);
    } else {
      assert a + b == b;
    }
  }

  lemma {:induction false} SlugCharsNone(s: string)
    requires NoSlugChar(s)
    ensures SlugChars(s) == []
  {
    if s != [] {
      SlugCharsNone(s[1..]);
    }
  }

  lemma {:induction false} SlugCharsEmpty(s: string)
    requires SlugChars(s) == []
    ensures NoSlugChar(s)
  {
    if s != [] {
      SlugCharsEmpty(s[1..]);
    }
  }

  lemma {:induction false} DropKeepsSlugChars(s: string)
    ensures SlugChars(DropSeparators(s)) == SlugChars(s)
  {
    if |s| > 0 && !IsSlugChar(s[0]) {
      DropKeepsSlugChars(s[1..]);
    }
  }

  /** Collapsing separators keeps every letter and digit, in order. */
  lemma {:induction false} CollapseKeepsSlugChars(s: string)
    ensures SlugChars(CollapseSeparators(s)) == SlugChars(s)
    decreases |s|
  {
    if s == [] {
    } else if IsSlugChar(s[0]) {
      CollapseKeepsSlugChars(s[1..]);
      SlugCharsConcat([s[0]], CollapseSeparators(s[1..]));
    } else {
      var d := DropSeparators(s[1..]);
      CollapseKeepsSlugChars(d);
      DropKeepsSlugChars(s[1..]);
      SlugCharsConcat("-", CollapseSeparators(d));
    }
  }

  lemma TrimKeepsSlugChars(s: string)
    ensures SlugChars(Trim(s)) == SlugChars(s)
  {
    var front, back := TrimParts(s);
    SlugCharsConcat(front, Trim(s));
    SlugCharsConcat(front + Trim(s), back);
    SlugCharsNone(front);
    SlugCharsNone(back);
  }

  lemma StripKeepsSlugChars(s: string)
    ensures SlugChars(StripEndHyphens(s)) == SlugChars(s)
  {
    var a := if |s| > 0 && s[0] == '-' then s[1..] else s;
    if |s| > 0 && s[0] == '-' {
      assert s == "-" + a;
      SlugCharsConcat("-", a);
    }
    if |a| > 0 && a[|a| - 1] == '-' {
      assert a == a[..|a| - 1] + "-";
      SlugCharsConcat(a[..|a| - 1], "-");
    }
  }

  /** A slug in which no letter or digit is left is empty. */
  lemma SlugWithoutLetters(s: string)
    requires IsSlug(s) && SlugChars(s) == []
    ensures s == []
  {
    SlugCharsEmpty(s);
  }

  /** The separators are single hyphens after collapsing, so stripping one at each end strips them all. */
  lemma StripEndIsTrim(s: string)
    requires forall i :: 0 <= i < |s| ==> IsSlugChar(s[i]) || s[i] == '-'
    requires forall i :: 0 <= i < |s| - 1 ==> !(s[i] == '-' && s[i + 1] == '-')
    ensures StripEndHyphens(s) == TrimHyphens(s)
  {
    var a := LStripChar(s, '-');
    if |s| > 0 && s[0] == '-' {
      assert |s| == 1 || s[1] != '-';
      assert a == s[1..];
    } else {
      assert a == s;
    }
    var b := RStripChar(a, '-');
    if |a| > 0 && a[|a| - 1] == '-' {
      assert |a| == 1 || a[|a| - 2] == s[|s| - |a| + |a| - 2];
      assert b == a[..|a| - 1];
    } else {
      assert b == a;
    }
  }

  /** On a slug, the cut of `promptToFilename` is the front end's truncation. */
  lemma CutIsTruncate(slug: string, maxLen: nat)
    requires IsSlug(slug) && |slug| > maxLen
    ensures CutAtLastHyphen(slug[..maxLen]) == Truncate(slug, maxLen)
  {
    var t := slug[..maxLen];
    assert maxLen > 0 ==> t[0] == slug[0];
  }

  /** The collapsed and stripped prompt is a slug with the prompt's letters and digits. */
  lemma StrippedSlug(x: string)
    ensures IsSlug(PromptSlug(x))
    ensures PromptSlug(x) == TrimHyphens(CollapseSeparators(Trim(x)))
    ensures SlugChars(PromptSlug(x)) == SlugChars(x)
  {
    var c := CollapseSeparators(Trim(x));
    StripEndIsTrim(c);
    StripKeepsSlugChars(c);
    CollapseKeepsSlugChars(Trim(x));
    TrimKeepsSlugChars(x);
  }

  /** Shortening keeps a slug a slug within the limit, and a non-empty one non-empty when the limit is positive. */
  lemma ShortenShape(slug: string, maxLen: nat)
    requires IsSlug(slug)
    ensures IsSlug(Shorten(slug, maxLen)) && (|Shorten(slug, maxLen)| <= maxLen || Shorten(slug, maxLen) == slug)
    ensures |slug| <= maxLen ==> Shorten(slug, maxLen) == slug
    ensures slug != [] && maxLen > 0 ==> Shorten(slug, maxLen) != []
    ensures Shorten(slug, maxLen) <= slug
  {
    if |slug| > maxLen {
      CutIsTruncate(slug, maxLen);
    }
  }

  lemma SlugShape(x: string, maxLen: nat)
    ensures IsSlug(Shorten(PromptSlug(x), maxLen)) && |Shorten(PromptSlug(x), maxLen)| <= maxLen
    ensures NoSlugChar(x) ==> Shorten(PromptSlug(x), maxLen) == []
    ensures !NoSlugChar(x) && maxLen > 0 ==> Shorten(PromptSlug(x), maxLen) != []
  {
    var slug := PromptSlug(x);
    StrippedSlug(x);
    ShortenShape(slug, maxLen);
    if NoSlugChar(x) {
      SlugCharsNone(x);
      SlugWithoutLetters(slug);
    } else if slug == [] {
      SlugCharsEmpty(x);
    }
  }

  /** The letters and digits of a prefix are a prefix of the letters and digits. */
  lemma PrefixSlugChars(r: string, s: string)
    requires r <= s
    ensures SlugChars(r) <= SlugChars(s)
  {
    assert s == r + s[|r|..];
    SlugCharsConcat(r, s[|r|..]);
  }

  /**
   * The letters and digits of the file name are a prefix of the lower-cased
   * prompt's, and all of them when the slug was not shortened: any other
   * character, an accented letter included, only ever separates words.
   */
  lemma FilenameLetters(prompt: string, maxLen: nat)
    ensures SlugChars(FilenameSlug(prompt, maxLen)) <= SlugChars(Lower(prompt))
    ensures |PromptSlug(Lower(prompt))| <= maxLen ==>
              SlugChars(FilenameSlug(prompt, maxLen)) == SlugChars(Lower(prompt))
  {
    var slug := PromptSlug(Lower(prompt));
    StrippedSlug(Lower(prompt));
    ShortenShape(slug, maxLen);
    PrefixSlugChars(Shorten(slug, maxLen), slug);
  }

  /** Every leading and trailing hyphen removed, whatever the text. */
  function StripHyphens(s: string): string
  {
    RStripChar(LStripChar(s, '-'), '-')
  }

  /** Leading separators never reach the stripped slug. */
  lemma {:induction false} DropPrefix(w: string, s: string)
    requires NoSlugChar(w)
    ensures DropSeparators(w + s) == DropSeparators(s)
  {
    if w != [] {
      assert (w + s)[0] == w[0];
      assert (w + s)[1..] == w[1..] + s;
      DropPrefix(w[1..], s);
    } else {
      assert w + s == s;
    }
  }

  /** A text that starts with a separator collapses to '-' and the rest after the separator run. */
  lemma CollapseSeparatorHead(t: string)
    requires t != [] && !IsSlugChar(t[0])
    ensures CollapseSeparators(t) == "-" + CollapseSeparators(DropSeparators(t))
  {
  }

  lemma LStripHyphenHead(y: string)
    ensures LStripChar("-" + y, '-') == LStripChar(y, '-')
  {
    assert ("-" + y)[1..] == y;
  }

  /** A text and its collapsed separator-free start differ at most by a leading '-'. */
  lemma CollapseFromDrop(s: string)
    ensures LStripChar(CollapseSeparators(s), '-') == LStripChar(CollapseSeparators(DropSeparators(s)), '-')
  {
    if s != [] && !IsSlugChar(s[0]) {
      CollapseSeparatorHead(s);
      LStripHyphenHead(CollapseSeparators(DropSeparators(s)));
    }
  }

  lemma CollapseOuterFront(w: string, s: string)
    requires NoSlugChar(w)
    ensures LStripChar(CollapseSeparators(w + s), '-') == LStripChar(CollapseSeparators(s), '-')
  {
    DropPrefix(w, s);
    CollapseFromDrop(w + s);
    CollapseFromDrop(s);
  }

  lemma {:induction false} DropAllSeparators(w: string)
    requires NoSlugChar(w)
    ensures DropSeparators(w) == []
  {
    if w != [] {
      DropAllSeparators(w[1..]);
    }
  }

  lemma {:induction false} DropSuffix(s: string, w: string)
    requires NoSlugChar(w)
    ensures DropSeparators(s + w) == (if DropSeparators(s) == [] then [] else DropSeparators(s) + w)
  {
    if s == [] {
      assert s + w == w;
      DropAllSeparators(w);
    } else if !IsSlugChar(s[0]) {
      assert (s + w)[1..] == s[1..] + w;
      DropSuffix(s[1..], w);
    }
  }

  /** Trailing separators add at most one '-' to the collapsed text. */
  lemma {:induction false} CollapseOuterBack(s: string, w: string)
    requires NoSlugChar(w) && w != []
    ensures CollapseSeparators(s + w) == CollapseSeparators(s)
         || CollapseSeparators(s + w) == CollapseSeparators(s) + "-"
    decreases |s|
  {
    if s == [] {
      assert s + w == w;
      DropAllSeparators(w[1..]);
      CollapseSeparatorHead(w);
    } else if IsSlugChar(s[0]) {
      assert (s + w)[1..] == s[1..] + w;
      CollapseOuterBack(s[1..], w);
    } else {
      assert (s + w)[1..] == s[1..] + w;
      DropSuffix(s[1..], w);
      var d := DropSeparators(s[1..]);
      if d != [] {
        CollapseOuterBack(d, w);
      }
    }
  }

  lemma {:induction false} LStripAppend(b: string)
    ensures LStripChar(b, '-') != [] ==> LStripChar(b + "-", '-') == LStripChar(b, '-') + "-"
    ensures LStripChar(b, '-') == [] ==> LStripChar(b + "-", '-') == [] || LStripChar(b + "-", '-') == "-"
  {
    if b != [] {
      assert (b + "-")[1..] == b[1..] + "-";
      if b[0] == '-' {
        LStripAppend(b[1..]);
      }
    }
  }

  lemma RStripHyphen(x: string)
    ensures RStripChar(x + "-", '-') == RStripChar(x, '-')
  {
    assert (x + "-")[..|x|] == x;
  }

  /** One more trailing hyphen is stripped with the others. */
  lemma HyphenAfter(b: string)
    ensures StripHyphens(b + "-") == StripHyphens(b)
  {
    LStripAppend(b);
    var l := LStripChar(b, '-');
    if l == [] {
      assert RStripChar("-", '-') == [];
    } else {
      RStripHyphen(l);
    }
  }

  lemma CollapseIgnoresFront(w: string, s: string)
    requires NoSlugChar(w)
    ensures StripHyphens(CollapseSeparators(w + s)) == StripHyphens(CollapseSeparators(s))
  {
    CollapseOuterFront(w, s);
  }

  lemma CollapseIgnoresBack(s: string, w: string)
    requires NoSlugChar(w)
    ensures StripHyphens(CollapseSeparators(s + w)) == StripHyphens(CollapseSeparators(s))
  {
    if w == [] {
      assert s + w == s;
    } else {
      CollapseOuterBack(s, w);
      if CollapseSeparators(s + w) != CollapseSeparators(s) {
        HyphenAfter(CollapseSeparators(s));
      }
    }
  }

  /**
   * Characters outside `[a-z0-9]` at either end of the text do not change the
   * collapsed text once its end hyphens are stripped.
   */
  lemma CollapseIgnoresEnds(front: string, mid: string, back: string)
    requires NoSlugChar(front) && NoSlugChar(back)
    ensures StripHyphens(CollapseSeparators(front + mid + back)) == StripHyphens(CollapseSeparators(mid))
  {
    SeqAssoc(front, mid, back);
    CollapseIgnoresBack(mid, back);
    CollapseIgnoresFront(front, mid + back);
  }

  lemma JsSpaceNotSlug(c: char)
    requires IsJsSpace(c)
    ensures !IsSlugChar(c)
  {
  }

  /** JavaScript whitespace is never a letter or digit. */
  lemma SpacesNoSlug(s: string)
    requires forall i :: 0 <= i < |s| ==> IsJsSpace(s[i])
    ensures NoSlugChar(s)
  {
    forall i | 0 <= i < |s|
      ensures !IsSlugChar(s[i])
    {
      JsSpaceNotSlug(s[i]);
    }
  }

  /** What `trim` removes: whitespace before and after, never a letter or digit. */
  lemma TrimParts(x: string) returns (front: string, back: string)
    ensures x == front + Trim(x) + back
    ensures NoSlugChar(front) && NoSlugChar(back)
  {
    var a := TrimStart(x);
    var b := TrimEnd(a);
    front := StartParts(x);
    back := EndParts(a);
    SeqAssoc(front, b, back);
  }

  lemma StartParts(x: string) returns (front: string)
    ensures x == front + TrimStart(x) && NoSlugChar(front)
  {
    front := x[..|x| - |TrimStart(x)|];
    SpacesNoSlug(front);
  }

  lemma EndParts(a: string) returns (back: string)
    ensures a == TrimEnd(a) + back && NoSlugChar(back)
  {
    back := a[|TrimEnd(a)|..];
    SpacesNoSlug(back);
  }

  /** Trimming before collapsing is immaterial. */
  lemma TrimImmaterial(x: string)
    ensures StripHyphens(CollapseSeparators(Trim(x))) == StripHyphens(CollapseSeparators(x))
  {
    var front, back := TrimParts(x);
    CollapseIgnoresEnds(front, Trim(x), back);
  }

  /**
   * The file name is the front end's slug without transliteration: for a
   * prompt without Slovak or Czech letters both give the same slug, and the
   * file name falls back to 'gen-001' where the slug is empty.
   */
  lemma FilenameIsSlugWithoutTransliteration(prompt: string, maxLen: nat)
    requires Transliterate(Lower(prompt)) == Lower(prompt)
    ensures FilenameSlug(prompt, maxLen) == GenerateSlug(prompt, maxLen)
    ensures PromptToFilename(prompt, maxLen) ==
              (if GenerateSlug(prompt, maxLen) == [] then FallbackName else GenerateSlug(prompt, maxLen))
  {
    var x := Lower(prompt);
    StrippedSlug(x);
    TrimImmaterial(x);
    var slug := PromptSlug(x);
    assert slug == TrimHyphens(CollapseSeparators(x));
    if |slug| > maxLen {
      CutIsTruncate(slug, maxLen);
    }
  }

  /** 'Káva': the front end's slug transliterates to 'kava', the file name splits the word. */
  lemma KavaExample()
    ensures PromptToFilename("Káva", 60) == "k-va"
    ensures GenerateSlug("Káva", 60) == "kava"
  {
    LowerKava();
    KavaSlug();
    KavaFrontEnd();
  }

  lemma LowerKava()
    ensures Lower("Káva") == "káva"
  {
    assert ToLowerChar('K') == 'k';
    assert ToLowerChar('\U{00E1}') == '\U{00E1}';
  }

  lemma KavaSlug()
    ensures PromptSlug("káva") == "k-va"
  {
    TrimKava();
    CollapseKava();
  }

  lemma TrimKava()
    ensures Trim("káva") == "káva"
  {
    NothingToTrim("káva");
  }

  lemma NothingToTrim(s: string)
    requires s != [] && !IsJsSpace(s[0]) && !IsJsSpace(s[|s| - 1])
    ensures Trim(s) == s
  {
    assert TrimStart(s) == s;
  }

  lemma CollapseKava()
    ensures CollapseSeparators("káva") == "k-va"
  {
    assert "káva" == ['k'] + (['\U{00E1}'] + "va");
    assert AllSlugChars("va");
    CollapseOneSeparator('k', '\U{00E1}', "va");
  }

  /** Only letters and digits. */
  predicate AllSlugChars(s: string)
  {
    forall i :: 0 <= i < |s| ==> IsSlugChar(s[i])
  }

  /** A letter, one separator and letters: the separator becomes '-'. */
  lemma CollapseOneSeparator(a: char, b: char, rest: string)
    requires IsSlugChar(a) && !IsSlugChar(b) && rest != [] && AllSlugChars(rest)
    ensures CollapseSeparators([a] + ([b] + rest)) == [a] + ("-" + rest)
  {
    var u := [b] + rest;
    ConsTail(a, u);
    CollapseSlugHead([a] + u);
    ConsTail(b, rest);
    CollapseSeparatorHead(u);
    assert IsSlugChar(rest[0]);
    assert DropSeparators(rest) == rest;
    CollapsePlain(rest);
  }

  lemma ConsTail(x: char, s: string)
    ensures ([x] + s)[0] == x && ([x] + s)[1..] == s
  {
  }

  lemma CollapseSlugHead(t: string)
    requires t != [] && IsSlugChar(t[0])
    ensures CollapseSeparators(t) == [t[0]] + CollapseSeparators(t[1..])
  {
  }

  lemma KavaFrontEnd()
    ensures TrimHyphens(CollapseSeparators(Transliterate("káva"))) == "kava"
  {
    TransliterateKava();
    assert AllSlugChars("kava");
    CollapsePlain("kava");
    NoHyphensToStrip("kava");
  }

  lemma NoHyphensToStrip(s: string)
    requires AllSlugChars(s) && s != []
    ensures TrimHyphens(s) == s
  {
    assert LStripChar(s, '-') == s;
  }

  lemma TransliterateKava()
    ensures Transliterate("káva") == "kava"
  {
    assert SkCz('\U{00E1}') == 'a';
  }

  /** Letters and digits only: collapsing and stripping change nothing. */
  lemma {:induction false} CollapsePlain(s: string)
    requires AllSlugChars(s)
    ensures CollapseSeparators(s) == s
  {
    if s != [] {
      CollapsePlain(s[1..]);
    }
  }

  // ---------------------------------------------------------------------------
  // promptToAlt / promptToTitle
  // ---------------------------------------------------------------------------

  /** `alt[0] === alt[0].toLowerCase()` then `alt[0].toUpperCase()`: the first character, upper-cased. */
  function CapitalFirst(c: char): (r: char)
    ensures ToUpperChar(r) == r
    ensures r == c || r == ToUpperChar(c)
  {
    if ToLowerChar(c) == c then UpperIdempotent(c); ToUpperChar(c)
    else UpperOfUpper(c); c
  }

  lemma UpperIdempotent(c: char)
    ensures ToUpperChar(ToUpperChar(c)) == ToUpperChar(c)
  {
  }

  lemma UpperOfUpper(c: char)
    requires ToLowerChar(c) != c
    ensures ToUpperChar(c) == c
  {
  }

  /**
   * `prompt.trim().replace(/\.+$/, '')` with its first character upper-cased:
   * the trimmed prompt without its trailing dots, only the first character
   * possibly changed.
   */
  function CleanCaption(prompt: string): (r: string)
    ensures var a := RStripChar(Trim(prompt), '.');
            && |r| == |a| && (r != [] ==> r[1..] == a[1..])
            && (r != [] ==> r[0] == a[0] || r[0] == ToUpperChar(a[0]))
            && (r != [] ==> ToUpperChar(r[0]) == r[0])
            && (a != [] ==> a[|a| - 1] != '.')
  {
    var a := RStripChar(Trim(prompt), '.');
    if a != [] then [CapitalFirst(a[0])] + a[1..] else a
  }

  /** The end index of `slice(0, end)` on a text of length `len`; a negative end counts from the back. */
  function SliceEnd(len: nat, end: int): (r: nat)
    ensures r <= len
    ensures end >= 0 ==> r == if end < len then end else len
  {
    if end >= 0 then (if end < len then end else len)
    else if len + end >= 0 then len + end else 0
  }

  /** The index of the last JavaScript whitespace character, -1 when there is none. */
  function LastSpace(s: string): (r: int)
    ensures -1 <= r < |s|
    ensures r >= 0 ==> IsJsSpace(s[r])
    ensures forall j :: r < j < |s| ==> !IsJsSpace(s[j])
  {
    if s == [] then -1
    else if IsJsSpace(s[|s| - 1]) then |s| - 1
    else LastSpace(s[..|s| - 1])
  }

  /**
   * `replace(/\s+\S*$/, '')`: the last whitespace run and the word after it
   * are removed. The result is a prefix; when `t` holds whitespace it stops
   * just before a whitespace run that is followed only by non-whitespace,
   * and does not itself end in whitespace.
   */
  function DropLastWord(t: string): (r: string)
    ensures |r| <= |t| && r == t[..|r|]
    ensures (forall i :: 0 <= i < |t| ==> !IsJsSpace(t[i])) ==> r == t
    ensures (exists i :: 0 <= i < |t| && IsJsSpace(t[i])) ==>
              && |r| < |t| && IsJsSpace(t[|r|])
              && (r == [] || !IsJsSpace(r[|r| - 1]))
              && (forall i, j :: |r| <= i < j < |t| && !IsJsSpace(t[i]) ==> !IsJsSpace(t[j]))
  {
    var q := LastSpace(t);
    if q < 0 then t
    else
      var r := TrimEnd(t[..q + 1]);
      assert forall i :: |r| <= i <= q ==> IsJsSpace(t[i]);
      r
  }

  /**
   * The shared body of `promptToAlt` and `promptToTitle`: the clean caption
   * when it fits, otherwise its first `maxLen - 3` characters cut back to a
   * word boundary, followed by '...'.
   */
  function Caption(prompt: string, maxLen: nat): (r: string)
    ensures |CleanCaption(prompt)| <= maxLen ==> r == CleanCaption(prompt)
    ensures |CleanCaption(prompt)| > maxLen ==>
              |r| >= 3 && r[|r| - 3..] == "..." && r[..|r| - 3] <= CleanCaption(prompt)
    ensures maxLen >= 3 ==> |r| <= maxLen
  {
    var c := CleanCaption(prompt);
    if |c| > maxLen then
      var t := c[..SliceEnd(|c|, maxLen - 3)];
      var k := DropLastWord(t);
      assert (k + "...")[..|k|] == k;
      k + "..."
    else c
  }

  /** `promptToAlt(prompt, maxLen = 125)`. */
  function PromptToAlt(prompt: string, maxLen: nat): (r: string)
    ensures maxLen >= 3 ==> |r| <= maxLen
    ensures |CleanCaption(prompt)| <= maxLen ==> r == CleanCaption(prompt)
    ensures |CleanCaption(prompt)| > maxLen ==> |r| >= 3 && r[|r| - 3..] == "..." && r[..|r| - 3] <= CleanCaption(prompt)
  {
    Caption(prompt, maxLen)
  }

  /** `promptToTitle(prompt, maxLen = 200)`: the same transformation as `promptToAlt`. */
  function PromptToTitle(prompt: string, maxLen: nat): (r: string)
    ensures maxLen >= 3 ==> |r| <= maxLen
    ensures r == PromptToAlt(prompt, maxLen)
  {
    Caption(prompt, maxLen)
  }

  /** With the default limits, alt texts stay within 125 characters and titles within 200. */
  lemma DefaultCaptionLimits(prompt: string)
    ensures |PromptToAlt(prompt, AltMaxLen)| <= 125
    ensures |PromptToTitle(prompt, TitleMaxLen)| <= 200
  {
  }
}
