/**
 * Slug generation of the command-line converter (`lib/slug.py`).
 *
 * `generate_slug` runs the same steps as the web front end's `generateSlug`,
 * with a transliteration pass through `unidecode` between the Slovak/Czech
 * table and the separator collapse. `unidecode` is a parameter here.
 * `unique_slug` appends `-2`, `-3`, ... until the slug no longer collides
 * with an existing file name.
 */
module SlugPy {
  import opened Strings
  import opened Slug

  /** `slug[:max_length].rsplit('-', 1)[0]` when over-long, else the slug. */
  function TruncatePy(s: string, maxLength: nat): (r: string)
    requires IsSlug(s)
    ensures IsSlug(r)
    ensures |r| <= maxLength || r == s
    ensures |s| <= maxLength ==> r == s
  {
    if |s| > maxLength then
      var t := s[..maxLength];
      var h := LastIndexOf(t, '-');
      if h >= 0 then
        assert h > 0;
        assert t[h - 1] != '-';
        t[..h]
      else t
    else s
  }

  /** `generate_slug(title, max_length)` with `unidecode` supplied by the caller. */
  function GenerateSlugPy(title: string, maxLength: nat, unidecode: string -> string): string
  {
    TruncatePy(TrimHyphens(CollapseSeparators(unidecode(Transliterate(Lower(title))))), maxLength)
  }

  /** Whatever `unidecode` returns, the result is a well-formed slug within the length limit. */
  lemma GenerateSlugPyIsSlug(title: string, maxLength: nat, unidecode: string -> string)
    ensures IsSlug(GenerateSlugPy(title, maxLength, unidecode))
    ensures |GenerateSlugPy(title, maxLength, unidecode)| <= maxLength
  {
  }

  /**
   * An over-long slug is cut to `max_length` and then back to the last hyphen
   * of that prefix; a prefix without a hyphen is kept whole.
   */
  lemma GenerateSlugPyTruncation(title: string, maxLength: nat, unidecode: string -> string)
    ensures var s := TrimHyphens(CollapseSeparators(unidecode(Transliterate(Lower(title)))));
            var r := GenerateSlugPy(title, maxLength, unidecode);
            && (|s| <= maxLength ==> r == s)
            && (|s| > maxLength && '-' in s[..maxLength] ==>
                  r == s[..LastIndexOf(s[..maxLength], '-')])
            && (|s| > maxLength && '-' !in s[..maxLength] ==> r == s[..maxLength])
  {
    TruncatePyCases(TrimHyphens(CollapseSeparators(unidecode(Transliterate(Lower(title))))), maxLength);
  }

  lemma TruncatePyCases(s: string, maxLength: nat)
    requires IsSlug(s)
    ensures |s| <= maxLength ==> TruncatePy(s, maxLength) == s
    ensures |s| > maxLength && '-' in s[..maxLength] ==>
              TruncatePy(s, maxLength) == s[..LastIndexOf(s[..maxLength], '-')]
    ensures |s| > maxLength && '-' !in s[..maxLength] ==> TruncatePy(s, maxLength) == s[..maxLength]
  {
    if |s| > maxLength {
      var t := s[..maxLength];
      var h := LastIndexOf(t, '-');
      if h >= 0 {
        assert t[..h] == s[..h];
      }
    }
  }

  /**
   * On slugs, Python's `rsplit` truncation and the front end's `lastIndexOf`
   * truncation agree (a slug never starts with '-').
   */
  lemma TruncateAgrees(s: string, maxLength: nat)
    requires IsSlug(s)
    ensures TruncatePy(s, maxLength) == Truncate(s, maxLength)
  {
  }

  /**
   * When `unidecode` leaves the transliterated title alone, the Python and the
   * JavaScript slug generators produce the same slug.
   */
  lemma GenerateSlugPyAgrees(title: string, maxLength: nat, unidecode: string -> string)
    requires unidecode(Transliterate(Lower(title))) == Transliterate(Lower(title))
    ensures GenerateSlugPy(title, maxLength, unidecode) == GenerateSlug(title, maxLength)
  {
    TruncateAgrees(TrimHyphens(CollapseSeparators(Transliterate(Lower(title)))), maxLength);
  }

  /** A title that folds to a humanized slug within the limit yields that slug. */
  lemma FoldsToSlug(title: string, slug: string, maxLength: nat, unidecode: string -> string)
    requires IsSlug(slug) && |slug| <= maxLength
    requires Transliterate(Lower(title)) == Humanize(slug)
    requires forall s :: IsAscii(s) ==> unidecode(s) == s
    ensures GenerateSlugPy(title, maxLength, unidecode) == slug
  {
    assert IsAscii(Humanize(slug));
    GenerateSlugPyAgrees(title, maxLength, unidecode);
    assert Humanize(slug) == SwapHyphen(slug, ' ');
    LowerTransliterateSlug(slug, ' ');
    HumanizeRoundTrip(slug, maxLength);
  }

  // ---------------------------------------------------------------------------
  // unique_slug
  // ---------------------------------------------------------------------------

  /** `f.removesuffix('.md')`. */
  function RemoveMd(f: string): (r: string)
    ensures r == f || f == r + ".md"
    ensures |f| >= 3 && f[|f| - 3..] == ".md" ==> f == r + ".md"
  {
    if |f| >= 3 && f[|f| - 3..] == ".md" then f[..|f| - 3] else f
  }

  /** `{f.removesuffix('.md') for f in existing_files}`. */
  function Stems(existingFiles: seq<string>): set<string>
  {
    set f | f in existingFiles :: RemoveMd(f)
  }

  /** `f'{slug}-{counter}'`. */
  function Candidate(slug: string, n: nat): string
  {
    slug + "-" + Decimal(n)
  }

  lemma CandidateInjective(slug: string, a: nat, b: nat)
    requires Candidate(slug, a) == Candidate(slug, b)
    ensures a == b
  {
    var ca, cb := Candidate(slug, a), Candidate(slug, b);
    assert Decimal(a) == ca[|slug| + 1..];
    assert Decimal(b) == cb[|slug| + 1..];
    DecimalInjective(a, b);
  }

  /** The candidates `slug-2`, ..., `slug-(n-1)` tried before `slug-n`. */
  ghost function Tried(slug: string, n: nat): set<string>
    requires n >= 2
  {
    if n == 2 then {} else Tried(slug, n - 1) + {Candidate(slug, n - 1)}
  }

  lemma {:induction false} TriedFacts(slug: string, n: nat, existing: set<string>)
    requires n >= 2
    requires forall k :: 2 <= k < n ==> Candidate(slug, k) in existing
    ensures Tried(slug, n) <= existing
    ensures |Tried(slug, n)| == n - 2
    ensures Candidate(slug, n) !in Tried(slug, n)
  {
    if n > 2 {
      TriedFacts(slug, n - 1, existing);
      if Candidate(slug, n) in Tried(slug, n) {
        if Candidate(slug, n) == Candidate(slug, n - 1) {
          CandidateInjective(slug, n, n - 1);
        } else {
          TriedExcludesLater(slug, n - 1, n);
        }
        assert false;
      }
    }
  }

  lemma {:induction false} TriedExcludesLater(slug: string, n: nat, m: nat)
    requires 2 <= n <= m
    ensures Candidate(slug, m) !in Tried(slug, n)
  {
    if n > 2 {
      TriedExcludesLater(slug, n - 1, m);
      if Candidate(slug, m) == Candidate(slug, n - 1) {
        CandidateInjective(slug, m, n - 1);
      }
    }
  }

  /** `unique_slug(slug, existing_files)`. */
  method UniqueSlug(slug: string, existingFiles: seq<string>) returns (r: string)
    ensures r !in Stems(existingFiles)
    ensures slug !in Stems(existingFiles) ==> r == slug
    ensures slug in Stems(existingFiles) ==>
              exists n :: n >= 2 && r == Candidate(slug, n) &&
                          forall k :: 2 <= k < n ==> Candidate(slug, k) in Stems(existingFiles)
  {
    var existing := Stems(existingFiles);
    if slug !in existing {
      return slug;
    }
    var counter := 2;
    while Candidate(slug, counter) in existing
      invariant counter >= 2
      invariant forall k :: 2 <= k < counter ==> Candidate(slug, k) in existing
      invariant counter - 2 <= |existing|
      decreases |existing| - (counter - 2)
    {
      TriedFacts(slug, counter + 1, existing);
      SubsetCard(Tried(slug, counter + 1), existing);
      counter := counter + 1;
    }
    r := Candidate(slug, counter);
  }

  lemma SubsetCard<T>(a: set<T>, b: set<T>)
    requires a <= b
    ensures |a| <= |b|
  {
    assert b == a + (b - a);
  }
}
