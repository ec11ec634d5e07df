// Two places where the image generator script does not do what it evidently
// means to: images lost when there are few headings, and a forced featured
// image update on an empty `featured_image:` line that swallows the next line.
// Each comes with the behaviour as written and a corrected definition.

module GenerateImagesFinding {
  import opened Strings
  import opened GenerateImages
  import Cleanup

  // ---------------------------------------------------------------------------
  // Images lost before sections
  // ---------------------------------------------------------------------------

  /**
   * Corrected slot: as written while there are more available headings than
   * remaining images; otherwise the `j`-th remaining image goes before the
   * `j`-th available heading (the last one once they run out).
   */
  function SpreadSlot(j: nat, count: nat, remaining: nat): (r: nat)
    requires count > 0
    ensures r < count
  {
    if remaining < count then SlotFor(j, StepFor(count, remaining), count)
    else if j < count - 1 then j else count - 1
  }

  /** The corrected insertion map once the first `n` remaining images have been distributed. */
  function Spread(hero: map<nat, GenImage>, available: seq<nat>, remaining: seq<GenImage>, n: nat): map<nat, GenImage>
    requires available != [] && n <= |remaining|
  {
    if n == 0 then hero
    else Spread(hero, available, remaining, n - 1)[available[SpreadSlot(n - 1, |available|, |remaining|)] := remaining[n - 1]]
  }

  /** The corrected insertion map of `_place_before_sections`. */
  function InsertionsSpread(lines: seq<string>, images: seq<GenImage>): map<nat, GenImage>
    requires images != []
  {
    var hero := map[0 := images[0]];
    var remaining := images[1..];
    var headings := HeadingIndices(lines);
    if remaining != [] && headings != [] then Spread(hero, Available(headings), remaining, |remaining|)
    else hero
  }

  /** The `j`-th remaining image sits before the heading the corrected slot names. */
  predicate SpreadKept(d: map<nat, GenImage>, available: seq<nat>, remaining: seq<GenImage>, j: nat)
    requires available != [] && j < |remaining|
  {
    && available[SpreadSlot(j, |available|, |remaining|)] in d
    && d[available[SpreadSlot(j, |available|, |remaining|)]] == remaining[j]
  }

  /** The corrected slots grow strictly when every remaining image has a heading. */
  lemma SpreadSlotsApart(i: nat, j: nat, count: nat, remaining: nat)
    requires i < j < remaining <= count
    ensures SpreadSlot(i, count, remaining) < SpreadSlot(j, count, remaining)
  {
    if remaining < count {
      SlotFits(count, remaining, i);
      SlotFits(count, remaining, j);
      SlotsApart(i, j, StepFor(count, remaining));
    }
  }

  /** With a heading for every remaining image, no image is overwritten by a later one. */
  lemma {:induction false} SpreadKeepsAll(hero: map<nat, GenImage>, available: seq<nat>, remaining: seq<GenImage>, n: nat)
    requires |remaining| <= |available| && n <= |remaining| && Increasing(available)
    ensures forall j :: 0 <= j < n ==> SpreadKept(Spread(hero, available, remaining, n), available, remaining, j)
  {
    if n > 0 {
      SpreadKeepsAll(hero, available, remaining, n - 1);
      var d := Spread(hero, available, remaining, n - 1);
      var key := available[SpreadSlot(n - 1, |available|, |remaining|)];
      var d' := d[key := remaining[n - 1]];
      forall j | 0 <= j < n - 1
        ensures SpreadKept(d', available, remaining, j)
      {
        SpreadSlotsApart(j, n - 1, |available|, |remaining|);
      }
    }
  }

  /** The hero image stays when line 0 is not an available heading. */
  lemma {:induction false} SpreadKeepsHero(hero: map<nat, GenImage>, available: seq<nat>, remaining: seq<GenImage>, n: nat)
    requires available != [] && n <= |remaining| && 0 in hero && 0 !in available
    ensures 0 in Spread(hero, available, remaining, n) && Spread(hero, available, remaining, n)[0] == hero[0]
  {
    if n > 0 {
      SpreadKeepsHero(hero, available, remaining, n - 1);
    }
  }

  /** Available headings inherit the order of the heading list. */
  lemma AvailableIncreasing(headings: seq<nat>)
    requires Increasing(headings)
    ensures Increasing(Available(headings))
  {
  }

  /**
   * Corrected: whenever there are at least as many available headings as
   * remaining images (and line 0 is not one of them), the hero image stays
   * at line 0 and every other image has a heading of its own.
   */
  lemma SpreadPlacesEveryImage(lines: seq<string>, images: seq<GenImage>)
    requires images != []
    requires |images| - 1 <= |Available(HeadingIndices(lines))| && 0 !in Available(HeadingIndices(lines))
    ensures 0 in InsertionsSpread(lines, images) && InsertionsSpread(lines, images)[0] == images[0]
    ensures forall j :: 0 <= j < |images| - 1 ==>
              SpreadKept(InsertionsSpread(lines, images), Available(HeadingIndices(lines)), images[1..], j)
  {
    var remaining := images[1..];
    var headings := HeadingIndices(lines);
    if remaining != [] && headings != [] {
      var available := Available(headings);
      AvailableIncreasing(headings);
      SpreadKeepsAll(map[0 := images[0]], available, remaining, |remaining|);
      SpreadKeepsHero(map[0 := images[0]], available, remaining, |remaining|);
    }
  }

  /** Where the script has room for every image, the corrected map is the one it builds. */
  lemma {:induction false} SpreadIsDistribute(hero: map<nat, GenImage>, available: seq<nat>, remaining: seq<GenImage>,
                                              n: nat)
    requires |remaining| < |available| && n <= |remaining|
    ensures Spread(hero, available, remaining, n)
            == Distribute(hero, available, remaining, StepFor(|available|, |remaining|), n)
  {
    if n > 0 {
      SpreadIsDistribute(hero, available, remaining, n - 1);
    }
  }

  /** With more available headings than remaining images, the correction changes nothing. */
  lemma SpreadAgreesWithRoom(lines: seq<string>, images: seq<GenImage>)
    requires images != [] && |images| - 1 < |Available(HeadingIndices(lines))|
    ensures InsertionsSpread(lines, images) == Insertions(lines, images)
  {
    var remaining := images[1..];
    var headings := HeadingIndices(lines);
    if remaining != [] && headings != [] {
      SpreadIsDistribute(map[0 := images[0]], Available(headings), remaining, |remaining|);
    }
  }

  // ---------------------------------------------------------------------------
  // A forced update on an empty featured_image line
  // ---------------------------------------------------------------------------

  /** Front matter whose `featured_image:` line has no value. */
  const EmptyFeatured: string := "---" + "\n" + FeaturedKey + "\n" + "---"

  /** The pattern does not match before the `featured_image:` line of the sample. */
  lemma SampleNoEarlierMatch()
    ensures FeaturedMatchAt(EmptyFeatured, 0).None? && FeaturedMatchAt(EmptyFeatured, 1).None?
    ensures FeaturedMatchAt(EmptyFeatured, 2).None? && FeaturedMatchAt(EmptyFeatured, 3).None?
  {
    assert EmptyFeatured[0] == '-';
    assert !OccursAt(EmptyFeatured, FeaturedKey, 0);
    assert EmptyFeatured[0] != '\n' && EmptyFeatured[1] != '\n' && EmptyFeatured[2] != '\n';
  }

  /** Without a match at `i`, the first match from `i` is the first from `i + 1`. */
  lemma FirstAfter(s: string, i: nat, at: nat)
    requires i < |s| && FeaturedMatchAt(s, i).None? && FirstFeatured(s, i + 1) == Some(at)
    ensures FirstFeatured(s, i) == Some(at)
  {
  }

  /** `\s*` runs over the line break after the empty value and `.+` takes the closing "---". */
  lemma SampleMatch()
    ensures FeaturedMatchAt(EmptyFeatured, 4) == Some(|EmptyFeatured|)
  {
    var s := EmptyFeatured;
    assert |s| == 23;
    assert s[3] == '\n';
    assert s[4..19] == FeaturedKey;
    assert s[19] == '\n' && IsPySpace(s[19]);
    assert s[20] == '-' && !IsPySpace(s[20]);
    assert PySpaceEnd(s, 20) == 20;
    assert PySpaceEnd(s, 19) == 20;
    assert s[21] == '-' && s[22] == '-';
    assert LineEnd(s, 23) == 23;
    assert LineEnd(s, 22) == 23;
    assert LineEnd(s, 21) == 23;
    assert LineEnd(s, 20) == 23;
  }

  /**
   * As written: forced onto front matter with an empty `featured_image:`
   * line, the update replaces that line together with the closing "---",
   * which is lost. Unforced, the empty line counts as a value already set.
   */
  lemma ForcedUpdateEatsDelimiter(imagePath: string)
    ensures FirstFeatured(EmptyFeatured, 0).Some?
    ensures UpdateFeaturedImage(EmptyFeatured, imagePath, false) == EmptyFeatured
    ensures UpdateFeaturedImage(EmptyFeatured, imagePath, true) == "---\n" + FeaturedLine(imagePath)
  {
    SampleFirst();
    UpdateKeeps(EmptyFeatured, imagePath, false);
    UpdateForced(EmptyFeatured, imagePath);
    SampleRest(FeaturedLine(imagePath), UpdateFeaturedImage(EmptyFeatured, imagePath, true));
  }

  /** The first match in the sample is its `featured_image:` line, and it runs to the end. */
  lemma SampleFirst()
    ensures FirstFeatured(EmptyFeatured, 0) == Some(4)
    ensures FeaturedMatchAt(EmptyFeatured, 4) == Some(|EmptyFeatured|)
  {
    SampleNoEarlierMatch();
    SampleMatch();
    var s := EmptyFeatured;
    assert FirstFeatured(s, 4) == Some(4);
    FirstAfter(s, 3, 4);
    FirstAfter(s, 2, 4);
    FirstAfter(s, 1, 4);
    FirstAfter(s, 0, 4);
  }

  /** What is kept of the sample around the replaced match. */
  lemma SampleRest(line: string, r: string)
    requires r == EmptyFeatured[..4] + line + SubFeatured(EmptyFeatured, |EmptyFeatured|, line)
    ensures r == "---\n" + line
  {
    assert EmptyFeatured[..4] == "---\n";
  }

  /** A line that starts with `featured_image:`. */
  predicate IsFeaturedLine(line: string)
  {
    |line| >= |FeaturedKey| && line[..|FeaturedKey|] == FeaturedKey
  }

  /** Whether some line starts with `featured_image:` (the pattern `^featured_image:.*$`). */
  predicate HasFeaturedLine(frontmatter: string)
  {
    exists i | 0 <= i < |Split(frontmatter, '\n')| :: IsFeaturedLine(Split(frontmatter, '\n')[i])
  }

  /** The corrected substitution for one line. */
  function FixLine(rep: string): string -> string
  {
    line => if IsFeaturedLine(line) then rep else line
  }

  /**
   * Corrected `update_featured_image`: the pattern stays within its line
   * (`^featured_image:.*$`), so a forced update replaces only the
   * `featured_image:` lines.
   */
  function UpdateFeaturedLine(frontmatter: string, imagePath: string, force: bool): string
  {
    var line := FeaturedLine(imagePath);
    if HasFeaturedLine(frontmatter) && !force then frontmatter
    else if HasFeaturedLine(frontmatter) then Cleanup.MapLines(frontmatter, FixLine(line))
    else InsertBeforeClose(frontmatter, line)
  }

  /**
   * Corrected: a forced update keeps the number of lines and every line that
   * does not start with `featured_image:`, the closing "---" included; those
   * that do become the new line.
   */
  lemma ForcedUpdateKeepsLines(frontmatter: string, imagePath: string)
    requires HasFeaturedLine(frontmatter) && '\n' !in imagePath
    ensures var before := Split(frontmatter, '\n');
            var after := Split(UpdateFeaturedLine(frontmatter, imagePath, true), '\n');
            && |after| == |before|
            && forall i :: 0 <= i < |before| ==>
                 after[i] == if IsFeaturedLine(before[i]) then FeaturedLine(imagePath) else before[i]
  {
    var line := FeaturedLine(imagePath);
    FeaturedLineSingle(imagePath);
    FixedLinesSingle(frontmatter, line);
    Cleanup.LinesOfMapped(frontmatter, FixLine(line));
  }

  /** The written line holds no line break when the path holds none. */
  lemma FeaturedLineSingle(imagePath: string)
    requires '\n' !in imagePath
    ensures '\n' !in FeaturedLine(imagePath)
  {
    var p := LStripChar(imagePath, '/');
    assert '\n' !in p by {
      assert p == imagePath[|imagePath| - |p|..];
    }
    LabelSingle();
    SingleConcat("featured_image: ", p);
  }

  lemma LabelSingle()
    ensures '\n' !in "featured_image: "
  {
    assert forall i :: 0 <= i < |"featured_image: "| ==> "featured_image: "[i] != '\n';
  }

  lemma SingleConcat(a: string, b: string)
    requires '\n' !in a && '\n' !in b
    ensures '\n' !in a + b
  {
  }

  /** Substituting a single line for the featured lines leaves every line single. */
  lemma FixedLinesSingle(md: string, line: string)
    requires '\n' !in line
    ensures forall i :: 0 <= i < |Split(md, '\n')| ==> '\n' !in FixLine(line)(Split(md, '\n')[i])
  {
    Cleanup.LinesHaveNoNewline(md);
  }

  /** Three lines joined by line breaks split back into those lines. */
  lemma ThreeLines(a: string, b: string, c: string)
    requires '\n' !in a && '\n' !in b && '\n' !in c
    ensures Split(a + "\n" + b + "\n" + c, '\n') == [a, b, c]
  {
    assert a + "\n" + b + "\n" + c == a + ['\n'] + (b + ['\n'] + c);
    SplitAround(a, b + ['\n'] + c, '\n');
    SplitAround(b, c, '\n');
    SplitWithout(a, '\n');
    SplitWithout(b, '\n');
    SplitWithout(c, '\n');
  }

  /** The sample's lines. */
  lemma EmptyFeaturedLines()
    ensures Split(EmptyFeatured, '\n') == ["---", FeaturedKey, "---"]
  {
    assert forall i :: 0 <= i < |FeaturedKey| ==> FeaturedKey[i] != '\n';
    ThreeLines("---", FeaturedKey, "---");
  }

  /** Corrected, the sample keeps its closing "---". */
  lemma ForcedUpdateKeepsDelimiter(imagePath: string)
    requires '\n' !in imagePath
    ensures Split(UpdateFeaturedLine(EmptyFeatured, imagePath, true), '\n') == ["---", FeaturedLine(imagePath), "---"]
  {
    var before := Split(EmptyFeatured, '\n');
    EmptyFeaturedLines();
    assert IsFeaturedLine(before[1]);
    assert !IsFeaturedLine(before[0]) && !IsFeaturedLine(before[2]);
    ForcedUpdateKeepsLines(EmptyFeatured, imagePath);
  }
}
