/**
 * Slovak/Czech slug generation of the web front end (`web/src/lib/slug.js`).
 *
 * A slug is lower-case ASCII letters and digits separated by single hyphens.
 * `GenerateSlug` lowercases, transliterates the fixed Slovak/Czech table,
 * turns every run of other characters into one '-', strips the hyphens at the
 * ends and cuts an over-long result back to a hyphen boundary.
 */
module Slug {
  import opened Strings

  /** The transliteration table SK_CZ_MAP: `SK_CZ_MAP[c] || c` for one character. */
  function SkCz(c: char): char
  {
    match c
    case 'á' => 'a' case 'č' => 'c' case 'ď' => 'd' case 'é' => 'e' case 'ě' => 'e'
    case 'í' => 'i' case 'ĺ' => 'l' case 'ľ' => 'l' case 'ň' => 'n' case 'ó' => 'o'
    case 'ô' => 'o' case 'ŕ' => 'r' case 'ř' => 'r' case 'š' => 's' case 'ť' => 't'
    case 'ú' => 'u' case 'ů' => 'u' case 'ý' => 'y' case 'ž' => 'z' case 'ä' => 'a'
    case 'Á' => 'a' case 'Č' => 'c' case 'Ď' => 'd' case 'É' => 'e' case 'Ě' => 'e'
    case 'Í' => 'i' case 'Ĺ' => 'l' case 'Ľ' => 'l' case 'Ň' => 'n' case 'Ó' => 'o'
    case 'Ô' => 'o' case 'Ŕ' => 'r' case 'Ř' => 'r' case 'Š' => 's' case 'Ť' => 't'
    case 'Ú' => 'u' case 'Ů' => 'u' case 'Ý' => 'y' case 'Ž' => 'z' case 'Ä' => 'a'
    case _ => c
  }

  const DefaultMaxLength: nat := 60

  /** `SK_CZ_MAP[c] || c`, character by character. */
  function Transliterate(s: string): (r: string)
    ensures |r| == |s|
    ensures forall i :: 0 <= i < |s| ==> r[i] == SkCz(s[i])
  {
    seq(|s|, i requires 0 <= i < |s| => SkCz(s[i]))
  }

  /** A well-formed slug: `[a-z0-9]` runs separated by single hyphens. */
  predicate IsSlug(s: string)
  {
    && (forall i :: 0 <= i < |s| ==> IsSlugChar(s[i]) || s[i] == '-')
    && (s == [] || (s[0] != '-' && s[|s| - 1] != '-'))
    && (forall i :: 0 <= i < |s| - 1 ==> !(s[i] == '-' && s[i + 1] == '-'))
  }

  /** Drops the leading run of characters outside `[a-z0-9]`. */
  function DropSeparators(s: string): (r: string)
    ensures |r| <= |s| && r == s[|s| - |r|..]
    ensures r == [] || IsSlugChar(r[0])
  {
    if |s| > 0 && !IsSlugChar(s[0]) then DropSeparators(s[1..]) else s
  }

  /** `replace(/[^a-z0-9]+/g, '-')`: every maximal run outside `[a-z0-9]` becomes one '-'. */
  function CollapseSeparators(s: string): (r: string)
    ensures forall i :: 0 <= i < |r| ==> IsSlugChar(r[i]) || r[i] == '-'
    ensures forall i :: 0 <= i < |r| - 1 ==> !(r[i] == '-' && r[i + 1] == '-')
    ensures |r| <= |s|
    decreases |s|
  {
    if s == [] then []
    else if IsSlugChar(s[0]) then [s[0]] + CollapseSeparators(s[1..])
    else
      var rest := CollapseSeparators(DropSeparators(s[1..]));
      assert rest != [] ==> IsSlugChar(rest[0]) by {
        var d := DropSeparators(s[1..]);
        if d != [] { assert IsSlugChar(d[0]); }
      }
      "-" + rest
  }

  /** `replace(/^-+|-+$/g, '')`. */
  function TrimHyphens(s: string): (r: string)
    requires forall i :: 0 <= i < |s| ==> IsSlugChar(s[i]) || s[i] == '-'
    requires forall i :: 0 <= i < |s| - 1 ==> !(s[i] == '-' && s[i + 1] == '-')
    ensures IsSlug(r)
    ensures |r| <= |s|
  {
    var a := LStripChar(s, '-');
    var b := RStripChar(a, '-');
    assert forall i :: 0 <= i < |b| ==> b[i] == s[i + (|s| - |a|)];
    b
  }

  /** The over-long case: cut at `maxLength`, then back to the last hyphen after position 0. */
  function Truncate(s: string, maxLength: nat): (r: string)
    requires IsSlug(s)
    ensures IsSlug(r)
    ensures |r| <= maxLength || (r == s && |s| <= maxLength)
    ensures |s| <= maxLength ==> r == s
    ensures r <= s
  {
    if |s| > maxLength then
      var t := s[..maxLength];
      var h := LastIndexOf(t, '-');
      if h > 0 then
        assert t[h - 1] != '-';
        t[..h]
      else
        t
    else s
  }

  /** `generateSlug(title, maxLength)`. */
  function GenerateSlug(title: string, maxLength: nat): (r: string)
  {
    Truncate(TrimHyphens(CollapseSeparators(Transliterate(Lower(title)))), maxLength)
  }

  /** The result is a well-formed slug no longer than `maxLength`. */
  lemma GenerateSlugIsSlug(title: string, maxLength: nat)
    ensures IsSlug(GenerateSlug(title, maxLength))
    ensures |GenerateSlug(title, maxLength)| <= maxLength
  {
  }

  /** An over-long slug is cut to `maxLength`, then back to its last hyphen when one lies after position 0. */
  lemma GenerateSlugTruncation(title: string, maxLength: nat)
    ensures var s := TrimHyphens(CollapseSeparators(Transliterate(Lower(title))));
            var r := GenerateSlug(title, maxLength);
            && (|s| <= maxLength ==> r == s)
            && (|s| > maxLength ==>
                  var t := s[..maxLength];
                  var h := LastIndexOf(t, '-');
                  (h > 0 ==> r == t[..h]) && (h <= 0 ==> r == t))
  {
  }

  /** `slug.replace(/-/g, ' ')` from the translation module, kept here for the round trip below. */
  function Humanize(slug: string): (r: string)
    ensures |r| == |slug|
    ensures forall i :: 0 <= i < |slug| ==> r[i] == if slug[i] == '-' then ' ' else slug[i]
  {
    seq(|slug|, i requires 0 <= i < |slug| => if slug[i] == '-' then ' ' else slug[i])
  }

  /** Replaces every hyphen by `sep`. */
  function SwapHyphen(s: string, sep: char): (r: string)
    ensures |r| == |s|
  {
    seq(|s|, i requires 0 <= i < |s| => if s[i] == '-' then sep else s[i])
  }

  /** A slug, except that it may start with a hyphen. */
  predicate HyphenWord(s: string)
  {
    && (forall i :: 0 <= i < |s| ==> IsSlugChar(s[i]) || s[i] == '-')
    && (forall i :: 0 <= i < |s| - 1 ==> !(s[i] == '-' && s[i + 1] == '-'))
    && (s == [] || s[|s| - 1] != '-')
  }

  /**
   * A hyphen-separated `[a-z0-9]` string whose hyphens have been replaced by any
   * separator character collapses back to itself.
   */
  lemma {:induction false} CollapseRestoresHyphens(s: string, sep: char)
    requires !IsSlugChar(sep) && HyphenWord(s)
    ensures CollapseSeparators(SwapHyphen(s, sep)) == s
    decreases |s|
  {
    if s != [] {
      var w := SwapHyphen(s, sep);
      SwapTail(s, sep);
      HyphenWordTail(s);
      CollapseRestoresHyphens(s[1..], sep);
      CollapseHead(w);
      HeadTail(s);
    }
  }

  lemma SwapTail(s: string, sep: char)
    requires s != []
    ensures SwapHyphen(s, sep)[1..] == SwapHyphen(s[1..], sep)
    ensures SwapHyphen(s, sep)[0] == if s[0] == '-' then sep else s[0]
  {
  }

  lemma HyphenWordTail(s: string)
    requires s != [] && HyphenWord(s)
    ensures HyphenWord(s[1..])
    ensures IsSlugChar(s[0]) || s[0] == '-'
    ensures s[0] == '-' ==> |s| > 1 && IsSlugChar(s[1])
  {
    var t := s[1..];
    assert forall i :: 0 <= i < |t| ==> t[i] == s[i + 1];
  }

  /** One step of the collapse: a kept character, or one separator before a kept character. */
  lemma CollapseHead(w: string)
    requires w != []
    requires !IsSlugChar(w[0]) ==> |w| > 1 && IsSlugChar(w[1])
    ensures IsSlugChar(w[0]) ==> CollapseSeparators(w) == [w[0]] + CollapseSeparators(w[1..])
    ensures !IsSlugChar(w[0]) ==> CollapseSeparators(w) == "-" + CollapseSeparators(w[1..])
  {
    if !IsSlugChar(w[0]) {
      assert DropSeparators(w[1..]) == w[1..];
    }
  }

  lemma LowerTransliterateSlug(s: string, sep: char)
    requires forall i :: 0 <= i < |s| ==> IsSlugChar(s[i]) || s[i] == '-'
    requires sep == ' ' || sep == '-'
    ensures Transliterate(Lower(SwapHyphen(s, sep))) == SwapHyphen(s, sep)
  {
  }

  /** `generateSlug` leaves a well-formed slug within the length limit unchanged. */
  lemma SlugFixedPoint(s: string, maxLength: nat)
    requires IsSlug(s) && |s| <= maxLength
    ensures GenerateSlug(s, maxLength) == s
  {
    assert SwapHyphen(s, '-') == s;
    LowerTransliterateSlug(s, '-');
    CollapseRestoresHyphens(s, '-');
  }

  /** Idempotence: slugifying a slug changes nothing. */
  lemma GenerateSlugIdempotent(title: string, maxLength: nat)
    ensures GenerateSlug(GenerateSlug(title, maxLength), maxLength) == GenerateSlug(title, maxLength)
  {
    GenerateSlugIsSlug(title, maxLength);
    SlugFixedPoint(GenerateSlug(title, maxLength), maxLength);
  }

  /**
   * Humanizing a slug and slugifying the result gives the slug back, so an
   * identity translation leaves taxonomy slugs unchanged.
   */
  lemma HumanizeRoundTrip(s: string, maxLength: nat)
    requires IsSlug(s) && |s| <= maxLength
    ensures GenerateSlug(Humanize(s), maxLength) == s
  {
    assert Humanize(s) == SwapHyphen(s, ' ');
    LowerTransliterateSlug(s, ' ');
    CollapseRestoresHyphens(s, ' ');
  }

  lemma LowerCafe()
    ensures Lower("Café Řízek") == "café řízek"
  {
    var x, l := "Café Řízek", Lower("Café Řízek");
    forall i | 0 <= i < |l| ensures l[i] == "café řízek"[i] {
      assert l[i] == ToLowerChar(x[i]);
    }
  }

  lemma TransliterateCafe()
    ensures Transliterate("café řízek") == "cafe rizek"
  {
    var x, t := "café řízek", Transliterate("café řízek");
    forall i | 0 <= i < |t| ensures t[i] == "cafe rizek"[i] {
      assert t[i] == SkCz(x[i]);
    }
  }

  /** Czech and Slovak letters lose their diacritics: "Café Řízek" becomes "cafe-rizek". */
  lemma CafeRizek()
    ensures GenerateSlug("Café Řízek", DefaultMaxLength) == "cafe-rizek"
  {
    LowerCafe();
    TransliterateCafe();
    var slug := "cafe-rizek";
    assert IsSlug(slug);
    assert Humanize(slug) == "cafe rizek";
    HumanizeRoundTrip(slug, DefaultMaxLength);
    LowerTransliterateSlug(slug, ' ');
    assert SwapHyphen(slug, ' ') == "cafe rizek";
  }
}
