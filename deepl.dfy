/**
 * The language tables and the result shaping of the DeepL client wrapper
 * (`web/src/lib/deepl.js`).
 *
 * The translation service itself is a function parameter: it receives the
 * texts, the source and target codes and the options, and returns either one
 * result or a list of results.
 */
module DeepL {
  import opened Strings

  // ---------------------------------------------------------------------------
  // Language tables
  // ---------------------------------------------------------------------------

  /** `LANG_DEFAULTS`: default targets for a detected source language. */
  const LangDefaults: map<string, seq<string>> :=
    map["SK" := ["EN-US", "CS"], "EN" := ["SK", "CS"], "CS" := ["SK", "EN-US"]]

  /** `DISPLAY_TO_DEEPL`: short display codes to DeepL target codes. */
  const DisplayToDeepl: map<string, string> :=
    map["en" := "EN-US", "sk" := "SK", "cs" := "CS", "de" := "DE", "fr" := "FR",
        "es" := "ES", "pl" := "PL", "hu" := "HU"]

  /** `DEEPL_TO_DIR`: DeepL codes to the directory codes of translated files. */
  const DeeplToDir: map<string, string> :=
    map["SK" := "sk", "CS" := "cs", "EN-US" := "en", "EN-GB" := "en", "DE" := "de",
        "FR" := "fr", "ES" := "es", "PL" := "pl", "HU" := "hu"]

  /** The target used when the source has no entry in `LANG_DEFAULTS`. */
  const FallbackTarget: string := "EN-US"

  /**
   * Every display code maps to a DeepL code whose directory code is the
   * display code again.
   */
  lemma DisplayDirRoundTrip(c: string)
    requires c in DisplayToDeepl
    ensures DisplayToDeepl[c] in DeeplToDir && DeeplToDir[DisplayToDeepl[c]] == c
  {
  }

  /** The two English variants share one directory, so `DEEPL_TO_DIR` is not injective. */
  lemma DirNotInjective()
    ensures "EN-US" != "EN-GB" && DeeplToDir["EN-US"] == DeeplToDir["EN-GB"]
  {
  }

  // ---------------------------------------------------------------------------
  // getDefaultTargets
  // ---------------------------------------------------------------------------

  /**
   * `sourceLang.toUpperCase()` with the first match of the pattern `-.*`
   * removed: the upper-cased code loses its first '-' and the rest of that
   * line ('.' stops at '\n').
   */
  function Normalize(sourceLang: string): (r: string)
    ensures '-' in r ==> '\n' in r
  {
    var u := Upper(sourceLang);
    var i := IndexOfFrom(u, "-", 0);
    if i < 0 then
      NoHyphen(u);
      u
    else
      var e := LineEnd(u, i);
      FirstHyphen(u, i);
      assert '-' !in u[..i];
      assert e < |u| ==> (u[..i] + u[e..])[i] == '\n';
      u[..i] + u[e..]
  }

  lemma NoHyphen(u: string)
    requires IndexOfFrom(u, "-", 0) < 0
    ensures '-' !in u
  {
    if '-' in u {
      var j :| 0 <= j < |u| && u[j] == '-';
      assert OccursAt(u, "-", j);
    }
  }

  lemma FirstHyphen(u: string, i: int)
    requires i == IndexOfFrom(u, "-", 0) && i >= 0
    ensures i < |u| && u[i] == '-' && '-' !in u[..i]
  {
    assert u[i..i + 1] == "-";
    forall j | 0 <= j < i
      ensures u[..i][j] != '-'
    {
      assert !OccursAt(u, "-", j);
      assert u[j..j + 1] == [u[j]];
    }
  }

  /** A code without '-' is only upper-cased. */
  lemma NormalizePlain(sourceLang: string)
    requires '-' !in Upper(sourceLang)
    ensures Normalize(sourceLang) == Upper(sourceLang)
  {
    var u := Upper(sourceLang);
    HyphenFound(u, IndexOfFrom(u, "-", 0));
  }

  /** The search for '-' finds one only when the code holds one. */
  lemma HyphenFound(u: string, i: int)
    requires i == IndexOfFrom(u, "-", 0)
    ensures i >= 0 ==> '-' in u
  {
    if i >= 0 {
      FirstHyphen(u, i);
    }
  }

  /** The code is cut at its first '-' when no '\n' follows. */
  lemma NormalizeCut(sourceLang: string, i: nat)
    requires i < |sourceLang| && ToUpperChar(sourceLang[i]) == '-'
    requires forall j :: 0 <= j < i ==> ToUpperChar(sourceLang[j]) != '-'
    requires forall j :: i < j < |sourceLang| ==> ToUpperChar(sourceLang[j]) != '\n'
    ensures Normalize(sourceLang) == Upper(sourceLang)[..i]
  {
    var u := Upper(sourceLang);
    var k := IndexOfFrom(u, "-", 0);
    assert OccursAt(u, "-", i) by {
      assert u[i..i + 1] == [u[i]];
    }
    FirstHyphen(u, k);
    assert k == i;
    assert LineEnd(u, i) == |u|;
  }

  /** `getDefaultTargets(sourceLang)`. */
  function GetDefaultTargets(sourceLang: string): (r: seq<string>)
    ensures |r| >= 1
  {
    var n := Normalize(sourceLang);
    if n in LangDefaults then LangDefaults[n] else [FallbackTarget]
  }

  /** The default targets never include the normalised source language. */
  lemma DefaultTargetsExcludeSource(sourceLang: string)
    ensures Normalize(sourceLang) !in GetDefaultTargets(sourceLang)
  {
    var n := Normalize(sourceLang);
    if n !in LangDefaults {
      assert '-' in FallbackTarget && '\n' !in FallbackTarget;
    }
  }

  /** The three known sources, and every other source, get the tabled targets. */
  lemma DefaultTargetsTable(sourceLang: string)
    ensures Normalize(sourceLang) == "SK" ==> GetDefaultTargets(sourceLang) == ["EN-US", "CS"]
    ensures Normalize(sourceLang) == "EN" ==> GetDefaultTargets(sourceLang) == ["SK", "CS"]
    ensures Normalize(sourceLang) == "CS" ==> GetDefaultTargets(sourceLang) == ["SK", "EN-US"]
    ensures Normalize(sourceLang) !in {"SK", "EN", "CS"} ==> GetDefaultTargets(sourceLang) == ["EN-US"]
  {
  }

  /** A regional suffix is dropped: 'en-us' and 'EN-GB' both look up EN. */
  lemma RegionalVariants()
    ensures GetDefaultTargets("en-us") == ["SK", "CS"]
    ensures GetDefaultTargets("EN-GB") == ["SK", "CS"]
  {
    NormalizeCut("en-us", 2);
    assert Upper("en-us")[..2] == "EN";
    NormalizeCut("EN-GB", 2);
    assert Upper("EN-GB")[..2] == "EN";
  }

  // ---------------------------------------------------------------------------
  // translateTexts
  // ---------------------------------------------------------------------------

  /** One result of the service: the text, the detected source and the billed characters when reported. */
  datatype TextResult = TextResult(text: string, detectedSourceLang: string, billedCharacters: Option<nat>)

  /** The service answers a single text with one result and a list with a list. */
  datatype Reply = Single(result: TextResult) | Many(results: seq<TextResult>)

  /** What `translateTexts` resolves to. */
  datatype Translated = Translated(texts: seq<string>, detectedLang: string, billedChars: nat)

  /** `options.formality && options.formality !== 'default'`: the formality that is sent, if any. */
  function SentFormality(formality: Option<string>): (r: Option<string>)
    ensures r.Some? <==> formality.Some? && formality.value != "" && formality.value != "default"
    ensures r.Some? ==> r == formality
  {
    match formality
    case Some(f) => if f != "" && f != "default" then formality else None
    case None => None
  }

  /** `Array.isArray(results) ? results : [results]`. */
  function ResultArray(reply: Reply): (r: seq<TextResult>)
    ensures reply.Single? ==> r == [reply.result]
    ensures reply.Many? ==> r == reply.results
  {
    match reply
    case Single(x) => [x]
    case Many(xs) => xs
  }

  /** `r.billedCharacters || 0`. */
  function BilledOf(x: TextResult): nat
  {
    match x.billedCharacters
    case Some(n) => n
    case None => 0
  }

  /** `resultArray.reduce((sum, r) => sum + (r.billedCharacters || 0), 0)`, folded from the left. */
  function Billed(rs: seq<TextResult>): nat
  {
    if rs == [] then 0 else Billed(rs[..|rs| - 1]) + BilledOf(rs[|rs| - 1])
  }

  /** The billed count of two consecutive runs of results is the sum of their counts. */
  lemma {:induction false} BilledAppend(a: seq<TextResult>, b: seq<TextResult>)
    ensures Billed(a + b) == Billed(a) + Billed(b)
    decreases |b|
  {
    if b != [] {
      var b' := b[..|b| - 1];
      assert (a + b)[..|a + b| - 1] == a + b';
      BilledAppend(a, b');
    } else {
      assert a + b == a;
    }
  }

  /** Every reported count is part of the total, and unreported counts add nothing. */
  lemma {:induction false} BilledBounds(rs: seq<TextResult>, i: nat)
    requires i < |rs|
    ensures Billed(rs) >= BilledOf(rs[i])
    ensures rs[i].billedCharacters.None? ==> Billed(rs) == Billed(rs[..i]) + Billed(rs[i + 1..])
  {
    assert rs == rs[..i] + [rs[i]] + rs[i + 1..];
    BilledAppend(rs[..i] + [rs[i]], rs[i + 1..]);
    BilledAppend(rs[..i], [rs[i]]);
    assert [rs[i]][..0] == [];
  }

  /** The texts of the results, in order. */
  function TextsOf(rs: seq<TextResult>): (r: seq<string>)
    ensures |r| == |rs|
    ensures forall i :: 0 <= i < |rs| ==> r[i] == rs[i].text
  {
    seq(|rs|, i requires 0 <= i < |rs| => rs[i].text)
  }

  /** The shaping of the service's reply. */
  function Shape(reply: Reply): (t: Translated)
  {
    var rs := ResultArray(reply);
    Translated(TextsOf(rs), if rs == [] then "" else rs[0].detectedSourceLang, Billed(rs))
  }

  /**
   * `translateTexts(client, texts, targetLang, sourceLang, { formality })`
   * with the service as a parameter.
   */
  function TranslateTexts(service: (seq<string>, Option<string>, string, Option<string>) -> Reply,
                          texts: seq<string>, targetLang: string, sourceLang: Option<string>,
                          formality: Option<string>): Translated
  {
    Shape(service(texts, sourceLang, targetLang, SentFormality(formality)))
  }

  /**
   * One text per result, in order; the detected language is the first
   * result's, or '' when there is none; the billed count is the sum over the
   * results with missing counts taken as 0.
   */
  lemma TranslateTextsShape(service: (seq<string>, Option<string>, string, Option<string>) -> Reply,
                            texts: seq<string>, targetLang: string, sourceLang: Option<string>,
                            formality: Option<string>)
    ensures var rs := ResultArray(service(texts, sourceLang, targetLang, SentFormality(formality)));
            var t := TranslateTexts(service, texts, targetLang, sourceLang, formality);
            && |t.texts| == |rs|
            && (forall i :: 0 <= i < |rs| ==> t.texts[i] == rs[i].text)
            && (rs == [] ==> t.detectedLang == "" && t.billedChars == 0)
            && (rs != [] ==> t.detectedLang == rs[0].detectedSourceLang)
            && (forall i :: 0 <= i < |rs| ==> t.billedChars >= BilledOf(rs[i]))
  {
    var rs := ResultArray(service(texts, sourceLang, targetLang, SentFormality(formality)));
    forall i | 0 <= i < |rs|
      ensures Billed(rs) >= BilledOf(rs[i])
    {
      BilledBounds(rs, i);
    }
  }

  // ---------------------------------------------------------------------------
  // getUsage
  // ---------------------------------------------------------------------------

  /** The character quota as the service reports it; any part may be missing. */
  datatype CharacterUsage = CharacterUsage(count: Option<nat>, limit: Option<nat>)

  /** The limit assumed when the service reports none. */
  const DefaultLimit: nat := 500000

  /** `usage.character?.count ?? 0` and `usage.character?.limit ?? 500000`. */
  function UsageCounts(character: Option<CharacterUsage>): (r: (nat, nat))
    ensures character.None? ==> r == (0, DefaultLimit)
    ensures character.Some? && character.value.count.Some? ==> r.0 == character.value.count.value
    ensures character.Some? && character.value.count.None? ==> r.0 == 0
    ensures character.Some? && character.value.limit.Some? ==> r.1 == character.value.limit.value
    ensures character.Some? && character.value.limit.None? ==> r.1 == DefaultLimit
  {
    match character
    case None => (0, DefaultLimit)
    case Some(c) =>
      (match c.count case Some(n) => n case None => 0,
       match c.limit case Some(n) => n case None => DefaultLimit)
  }

  /** The counts read from a report are what a full report of those counts reads back. */
  lemma UsageCountsReported(character: Option<CharacterUsage>)
    ensures var r := UsageCounts(character);
            UsageCounts(Some(CharacterUsage(Some(r.0), Some(r.1)))) == r
    ensures character.Some? && character.value.count.Some? && character.value.limit.Some? ==>
            UsageCounts(character) == (character.value.count.value, character.value.limit.value)
  {
  }
}
