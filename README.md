# A verified model of the article converter and translator

The repository converts Word, PDF and RTF documents into Markdown blog posts
with YAML front matter, cleans the Markdown up, generates illustrations for
the posts, and translates finished articles into other languages through the
DeepL service. This project models the core of that pipeline in Dafny, module
by module, and proves what the code promises about it.

Modules and what they model:

- `Strings` (strings.dfy): the character classes (JavaScript `\s`, Python `\s`,
  ASCII digits), trimming, case mapping, splitting on '\n' and joining, shared
  by every other module.
- `Slug` and `SlugPy` (slug.dfy, slug_py.dfy): Slovak/Czech slug generation in
  `web/src/lib/slug.js` and `lib/slug.py`, including `unique_slug`'s search
  loop. Every result is a well-formed slug within the length limit, and the two
  implementations agree when `unidecode` leaves the text alone.
- `DeepL` (deepl.dfy): the language tables of `web/src/lib/deepl.js`, the
  normalisation of language codes, the default targets and the shaping of the
  service's replies.
- `ImageUtils` (image_utils.dfy): the prompt helpers of the image server, which
  turn a prompt into a file name, an alt text and a title.
- `Cleanup`, `CleanupPy` and `CleanupFinding` (cleanup.dfy, cleanup_py.dfy):
  the Markdown cleanup passes in JavaScript and Python. The loops of
  `fix_heading_hierarchy` and `fix_broken_headings` are methods proved against
  specification functions.
- `Frontmatter`, `FrontmatterParser` and `FrontmatterPy` (frontmatter_js.dfy,
  frontmatter_parser.dfy, frontmatter_py.dfy): writing the front matter of a
  new post; reading the listing fields and the taxonomy of stored posts;
  `extract_excerpt`.
- `Translation` and `ImageRefs` (translation_lib.dfy, image_refs.dfy): the
  translation library. It splits an article into front matter and body, reads
  the scalar and taxonomy fields, finds image references, collects the
  translatable segments, rewrites alt texts and titles, reassembles the
  translated article and counts translatable characters. Each regular
  expression is an explicit scanner that follows the JavaScript engine's
  backtracking. The front matter written by `buildTranslatedFrontmatter` reads
  back to the same fields (`FieldRoundTrip`, `TaxRoundTrip`).
- `Paragraphs`, `RouteImages`, `TranslationRoute` and `TranslationHandlers`
  (paragraphs.dfy, route_images.dfy, translation_route.dfy,
  translation_handlers.dfy): the translation routes of the server. They cover
  paragraph splitting around fenced code, image protection with `__IMG_k__`
  placeholders and its round trip, the batching of segments with their index
  ranges, the per-language translate loop, the estimate and the status guess.
- `GenerateImages`, `GenerateImagesFinding` and `ImagesPy` (generate_images.dfy,
  generate_images_finding.dfy, images_py.dfy): the illustration script. It
  splits front matter, builds prompts and file names, places the generated
  images after the introduction and before sections, and updates the featured
  image. The image helpers of the converter replace `__IMAGE_n__`
  placeholders and pick the first image.
- `ConverterText`, `RtfConverter`, `DocxConverter` and `PdfConverter`
  (converter_text.dfy, rtf_converter.dfy, docx_converter.dfy,
  pdf_converter.dfy): the document converters. They cover the title each
  converter chooses, the RTF line heuristic (a while loop with a
  `title_removed` flag), the DOCX image handler as a class whose image list
  grows, the in-place removal of the first heading or title line on an array
  of lines, the lookup keys and fuzzy search of the PDF font table, and the
  first-heading search.

Everything is modelled on Unicode strings (`seq<char>`). Network calls, the
clock, files and the document libraries are parameters or are left out, as
listed below.

One behaviour of the translation library is modelled as it is written:
`yamlField` matches `^field:\s*(.+)$` with the m flag. The `\s*` may cross a
line break, so a field written with an empty value (`title: `) reads back as
the whole next line. `Translation.EmptyValueReadsNextLine` states this.
`Translation.FieldRoundTrip` is proved for every non-empty one-line value
without quotes and without whitespace at either end.

## Model

| member | source | states |
|---|---|---|
| Slug.GenerateSlug | _converter/web/src/lib/slug.js:25-49 | `generateSlug(title, maxLength)`: lower-case, transliterate, turn each run of non-`[a-z0-9]` into one hyphen, strip end hyphens, cut an over-long slug back to its last hyphen; GenerateSlugIsSlug, GenerateSlugTruncation, SlugFixedPoint and GenerateSlugIdempotent state that the result is always a well-formed slug within the limit, that a slug is its own slug, and how the cut falls |
| Slug.SkCz | _converter/web/src/lib/slug.js:6-16 | the SK_CZ_MAP lookup `SK_CZ_MAP[c] or c` for one character; Transliterate and CafeRizek state its effect on a title |
| SlugPy.GenerateSlugPy | _converter/lib/slug.py:19-38 | `generate_slug` with `unidecode` as a parameter; GenerateSlugPyIsSlug, GenerateSlugPyTruncation and GenerateSlugPyAgrees state that any `unidecode` gives a well-formed slug within `max_length`, how the cut falls, and that it agrees with the JavaScript slug when `unidecode` leaves the text alone |
| SlugPy.Stems | _converter/lib/slug.py:46 | the set of existing file names without '.md'; UniqueSlug states that the result is never one of them |
| SlugPy.Candidate | _converter/lib/slug.py:50-52 | the numbered candidate `slug-n`; CandidateInjective states that different numbers give different candidates |
| Slug.Transliterate | _converter/web/src/lib/slug.js:28-31 | one output character per input character, each one mapped through the Slovak/Czech table or kept |
| Slug.CollapseSeparators | _converter/web/src/lib/slug.js:33-34 | the result holds only `[a-z0-9]` and '-', never two hyphens in a row, and is no longer than its input |
| Slug.TrimHyphens | _converter/web/src/lib/slug.js:36-37 | stripping the end hyphens of a collapsed string leaves a well-formed slug |
| Slug.Truncate | _converter/web/src/lib/slug.js:39-46 | the cut slug is still a slug and a prefix of the original; it is within the limit, and a slug within the limit is unchanged |
| Slug.GenerateSlugIsSlug | _converter/web/src/lib/slug.js:25-49 | every title yields a well-formed slug of at most `maxLength` characters |
| Slug.GenerateSlugTruncation | _converter/web/src/lib/slug.js:39-46 | an over-long slug is cut to `maxLength` and then back to its last hyphen after position 0 |
| Slug.SlugFixedPoint | _converter/web/src/lib/slug.js:25-49 | a well-formed slug within the limit is its own slug |
| Slug.GenerateSlugIdempotent | _converter/web/src/lib/slug.js:25-49 | slugifying a slug changes nothing |
| Slug.HumanizeRoundTrip | _converter/web/src/lib/translation.js:229-231 | replacing a slug's hyphens by spaces and slugifying again gives the slug back |
| Slug.CafeRizek | _converter/web/src/lib/slug.js:6-16 | "Café Řízek" becomes "cafe-rizek" |
| SlugPy.TruncatePy | _converter/lib/slug.py:36-37 | `rsplit('-', 1)[0]` after the cut keeps a slug, within the limit, and leaves a short slug alone |
| SlugPy.GenerateSlugPyIsSlug | _converter/lib/slug.py:19-38 | whatever `unidecode` returns, the result is a well-formed slug within `max_length` |
| SlugPy.GenerateSlugPyTruncation | _converter/lib/slug.py:36-37 | an over-long slug is cut to `max_length` and back to the last hyphen of that prefix; a prefix without a hyphen stays whole |
| SlugPy.TruncateAgrees | _converter/lib/slug.py:36-37 | on slugs the Python `rsplit` cut equals the front end's `lastIndexOf` cut |
| SlugPy.GenerateSlugPyAgrees | _converter/lib/slug.py:19-38 | when `unidecode` leaves the transliterated title alone, Python and JavaScript produce the same slug |
| SlugPy.FoldsToSlug | _converter/lib/slug.py:19-38 | a title that folds to a humanized slug within the limit yields that slug |
| SlugPy.CandidateInjective | _converter/lib/slug.py:50-52 | two numbered candidates `slug-n` are equal only for equal numbers |
| SlugPy.UniqueSlug | _converter/lib/slug.py:41-52 | the result is not an existing stem; a free slug is returned as is, otherwise `slug-n` with every `slug-k` for 2 ≤ k < n taken |
| SlugPy.TruncatePyCases | _converter/lib/slug.py:36-37 | the three cases of the cut: short slug unchanged, cut back to the last hyphen of the prefix, or the prefix itself when it has no hyphen |
| SlugPy.RemoveMd | _converter/lib/slug.py:46 | `removesuffix('.md')`: the name is unchanged or is the result plus ".md", and a name ending in ".md" loses exactly that |
| DeepL.TranslateTexts | _converter/web/src/lib/deepl.js:96-112 | `translateTexts` with the client's `translateText` as a parameter, the formality sent only when it is given and not 'default', a single result wrapped in a list; TranslateTextsShape states one text per result in order, the first result's detected language or '', and a billed total that bounds every result's count |
| DeepL.Billed | _converter/web/src/lib/deepl.js:110 | the billed-characters reduce, a missing count adding 0; BilledAppend and BilledBounds state that it adds over concatenation and bounds every count |
| DeepL.DisplayDirRoundTrip | _converter/web/src/lib/deepl.js:37-60 | every display code maps to a DeepL code whose directory code is the display code again |
| DeepL.DirNotInjective | _converter/web/src/lib/deepl.js:50-60 | EN-US and EN-GB share the directory "en" |
| DeepL.Normalize | _converter/web/src/lib/deepl.js:145 | the normalised code keeps a '-' only when a line break stopped the `-.*` match |
| DeepL.NormalizePlain | _converter/web/src/lib/deepl.js:145 | a code without '-' is only upper-cased |
| DeepL.NormalizeCut | _converter/web/src/lib/deepl.js:145 | a code is cut at its first '-' when no line break follows |
| DeepL.HyphenFound | _converter/web/src/lib/deepl.js:145 | the search for '-' succeeds only when the code holds one |
| DeepL.GetDefaultTargets | _converter/web/src/lib/deepl.js:144-147 | there is always at least one default target |
| DeepL.DefaultTargetsExcludeSource | _converter/web/src/lib/deepl.js:12-17 | the default targets never include the normalised source language |
| DeepL.DefaultTargetsTable | _converter/web/src/lib/deepl.js:12-17 | SK, EN and CS get their tabled targets; every other source gets ["EN-US"] |
| DeepL.RegionalVariants | _converter/web/src/lib/deepl.js:140-145 | "en-us" and "EN-GB" both look up EN |
| DeepL.SentFormality | _converter/web/src/lib/deepl.js:97-100 | a formality is sent exactly when it is present, non-empty and not 'default', and then unchanged |
| DeepL.ResultArray | _converter/web/src/lib/deepl.js:104-105 | a single result becomes a one-element list, a list is kept |
| DeepL.BilledAppend | _converter/web/src/lib/deepl.js:110 | the billed count of two runs of results is the sum of their counts |
| DeepL.BilledBounds | _converter/web/src/lib/deepl.js:110 | every reported count is part of the total; a missing count adds nothing |
| DeepL.TextsOf | _converter/web/src/lib/deepl.js:108 | one text per result, in order |
| DeepL.TranslateTextsShape | _converter/web/src/lib/deepl.js:96-112 | one text per result in order; detected language of the first result or ''; billed total bounds every result's count and is 0 without results |
| DeepL.UsageCounts | _converter/web/src/lib/deepl.js:123-126 | count defaults to 0 and limit to 500000 when missing, otherwise the reported values |
| DeepL.UsageCountsReported | _converter/web/src/lib/deepl.js:123-126 | the `??` defaults are a fixed point: a full report of the counts read back gives the same counts, and a full report is read as it is |
| ImageUtils.FilenameSlug | _converter/web/server/image-utils.js:16-20 | the slug `promptToFilename` builds before its 'gen-001' fallback; FilenameLetters and FilenameIsSlugWithoutTransliteration state which letters and digits it keeps and that it is the front end's slug for prompts without Slovak or Czech letters |
| ImageUtils.PromptSlug | _converter/web/server/image-utils.js:16-17 | lower-case and trim, collapse every non-`[a-z0-9]` run to one hyphen, drop one hyphen at each end; StrippedSlug and SlugShape state that it is a well-formed slug of exactly the prompt's letters and digits |
| ImageUtils.StripEndHyphens | _converter/web/server/image-utils.js:17 | the end-hyphen replace of line 17, one hyphen off the front and one off the back; StripEndIsTrim states that after collapsing it strips every end hyphen |
| ImageUtils.Shorten | _converter/web/server/image-utils.js:18-20 | the over-long cut `slice(0, maxLen)` then `replace(/-[^-]*$/, '')`; ShortenShape states that a slug stays a slug within the limit and a non-empty one non-empty |
| ImageUtils.CutAtLastHyphen | _converter/web/server/image-utils.js:19 | `replace(/-[^-]*$/, '')`: the last hyphen and what follows go; CutIsTruncate states that on a slug it equals the front end's truncation |
| ImageUtils.PromptToFilename | _converter/web/server/image-utils.js:15-22 | the result is 'gen-001' or a non-empty well-formed slug within `maxLen`; a prompt without `[a-z0-9]` after lower-casing always gives 'gen-001', any other prompt (with a positive limit) a slug |
| ImageUtils.SlugShape | _converter/web/server/image-utils.js:16-20 | the collapsed, stripped and shortened slug is well formed, within `maxLen`, empty without letters or digits and non-empty with them |
| ImageUtils.StrippedSlug | _converter/web/server/image-utils.js:16-17 | the collapsed and stripped prompt is a slug holding exactly the prompt's letters and digits |
| ImageUtils.StripEndIsTrim | _converter/web/server/image-utils.js:17 | after collapsing, removing one hyphen at each end strips every end hyphen, as the front end's strip of all end hyphens does |
| ImageUtils.ShortenShape | _converter/web/server/image-utils.js:18-20 | shortening keeps a slug a slug within the limit and a non-empty one non-empty |
| ImageUtils.CutIsTruncate | _converter/web/server/image-utils.js:19 | on a slug, `replace(/-[^-]*$/, '')` after the cut equals the front end's truncation |
| ImageUtils.CollapseKeepsSlugChars | _converter/web/server/image-utils.js:17 | collapsing separators keeps every letter and digit, in order |
| ImageUtils.FilenameLetters | _converter/web/server/image-utils.js:16-20 | the file name's letters and digits are a prefix of the lower-cased prompt's, and all of them when not shortened; accented letters only separate words |
| ImageUtils.TrimImmaterial | _converter/web/server/image-utils.js:16-17 | trimming before collapsing changes nothing once the end hyphens are stripped |
| ImageUtils.CollapseIgnoresEnds | _converter/web/server/image-utils.js:17 | separators at either end of the text do not change the stripped, collapsed text |
| ImageUtils.FilenameIsSlugWithoutTransliteration | _converter/web/server/image-utils.js:15-22 | for a prompt without Slovak or Czech letters the file name is the front end's slug, or 'gen-001' when that slug is empty |
| ImageUtils.KavaExample | _converter/web/server/image-utils.js:16-17 | "Káva" gives the file name "k-va", while the front end's slug is "kava" |
| ImageUtils.CapitalFirst | _converter/web/server/image-utils.js:26-27 | the first character is upper-cased when it equals its lower-case form, and the result is upper-case stable |
| ImageUtils.CleanCaption | _converter/web/server/image-utils.js:25-28 | the trimmed prompt without trailing dots, same length, only the first character possibly upper-cased |
| ImageUtils.SliceEnd | _converter/web/server/image-utils.js:30 | `slice(0, end)` ends within the text, at `end` when it is non-negative and in range |
| ImageUtils.LastSpace | _converter/web/server/image-utils.js:30 | the index of the last whitespace character, no whitespace after it, -1 when none |
| ImageUtils.DropLastWord | _converter/web/server/image-utils.js:30 | `replace(/\s+\S*$/, '')` leaves a prefix: the whole text without whitespace, otherwise the text before its last whitespace run that is followed only by non-whitespace |
| ImageUtils.Caption | _converter/web/server/image-utils.js:24-44 | a fitting caption is the clean caption; an over-long one is a prefix of it followed by '...'; the result is within `maxLen` (for `maxLen` ≥ 3) |
| ImageUtils.PromptToAlt | _converter/web/server/image-utils.js:24-33 | within `maxLen`; the clean caption when it fits, else a prefix of it plus '...' |
| ImageUtils.PromptToTitle | _converter/web/server/image-utils.js:35-44 | the same transformation as `promptToAlt`, within `maxLen` |
| ImageUtils.DefaultCaptionLimits | _converter/web/server/image-utils.js:24-35 | with the default limits, alt texts have at most 125 characters and titles at most 200 |
| Cleanup.HasH1 | _converter/web/src/lib/cleanup.js:12 | `/^# [^#]/m` finds a line starting "# " and a character other than '#'; HierarchyIdentity states that without one the text is unchanged |
| Cleanup.IsHeading | _converter/web/src/lib/cleanup.js:18 | the line matches `^(#{lo,hi}) (.+)$`; Demote states that a level 1-5 heading gains one '#' and every other line is kept |
| Cleanup.FixHeadingHierarchy | _converter/web/src/lib/cleanup.js:11-25 | `fixHeadingHierarchy`; HierarchyIdentity and HierarchyLines state that without an H1 the text is unchanged and otherwise the line count is kept and only level 1-5 headings gain one '#' |
| Cleanup.QuoteFix | _converter/web/src/lib/cleanup.js:34-36 | the five quote replacements, one character at a time: the double quotes „ “ ” become '"', the single quotes ‘ ’ become an apostrophe; TypographyClean states that none is left |
| Cleanup.DashesFrom | _converter/web/src/lib/cleanup.js:37-38 | the two dash replacements `\s*—\s*` and `\s*–\s*` with " -- ", scanning left to right; DashesAvoid states that every dash of the kind goes and only ' ' and '-' come in |
| Cleanup.LateFix | _converter/web/src/lib/cleanup.js:39-41 | the last three replacements: '…' to "...", U+00A0 and U+202F to ' '; TypographyClean states that none is left |
| Cleanup.Typography | _converter/web/src/lib/cleanup.js:33-43 | `fixCzechTypography` with the `\s` class as a parameter; TypographyClean and TypographyIdentity state that no typographic character is left and text without one is unchanged |
| Cleanup.ListLineJs | _converter/web/src/lib/cleanup.js:51 | `replace(/^(\s*)[*+] /gm, '$1- ')` on one line with JavaScript's `\s`; ListLine's contract states that the length is kept and only a leading bullet becomes '-' |
| Cleanup.FixListFormatting | _converter/web/src/lib/cleanup.js:50-52 | `fixListFormatting`; ListLines states that the line count is kept and each line changes only at its leading bullet |
| Cleanup.IsEscapeHeading | _converter/web/src/lib/cleanup.js:71 | the line starts like `#{1,6} `, one to six '#' and a space, the lines `fixHeadingEscapes` can touch; EscapeLines states that other lines are unchanged |
| Cleanup.EscapeLine | _converter/web/src/lib/cleanup.js:71 | one line of `replace(/^(#{1,6} .*)\\(\.)/gm, '$1$2')`: the greedy `.*` reaches the last "\." of a heading line and only that backslash goes; EscapeLines states this per line |
| Cleanup.FixHeadingEscapes | _converter/web/src/lib/cleanup.js:70-72 | `fixHeadingEscapes`; EscapeLines states that the line count is kept, non-heading lines and headings without "\." are unchanged, and otherwise only the backslash of the last "\." goes |
| Cleanup.StripTrailingWhitespace | _converter/web/src/lib/cleanup.js:79-84 | `stripTrailingWhitespace`, `trimEnd` on every line; StripLines states that the line count is kept and each line loses exactly its trailing whitespace |
| Cleanup.LinesOfMapped | _converter/web/src/lib/cleanup.js:15-24 | mapping every line with a function that adds no line break keeps the lines apart: splitting the result gives the mapped lines |
| Cleanup.Level | _converter/web/src/lib/cleanup.js:18 | the number of leading '#' characters of a line |
| Cleanup.Demote | _converter/web/src/lib/cleanup.js:17-23 | a heading of level 1-5 gains one '#', keeps its text and becomes a heading of level 2-6; any other line is unchanged |
| Cleanup.HierarchyIdentity | _converter/web/src/lib/cleanup.js:12-14 | without a line starting "# " and a non-'#' character the text is returned as it is |
| Cleanup.HierarchyLines | _converter/web/src/lib/cleanup.js:15-24 | with an H1 the line count is kept; headings of level 1-5 gain one '#', every other line, level 6 included, is unchanged |
| Cleanup.DashesAvoid | _converter/web/src/lib/cleanup.js:37-38 | the dash pass removes every dash of its kind and brings in only ' ' and '-' |
| Cleanup.DashMatchesAt | _converter/web/src/lib/cleanup.js:37-38 | a dash cannot be swallowed by the whitespace run before it, so every dash is replaced |
| Cleanup.TypographyClean | _converter/web/src/lib/cleanup.js:33-43 | none of „ “ ” ‘ ’ — – … U+00A0 U+202F is left after the typography pass |
| Cleanup.TypographyIdentity | _converter/web/src/lib/cleanup.js:33-43 | text without those characters passes through unchanged |
| Cleanup.FixCzechTypography | _converter/web/src/lib/cleanup.js:33-43 | none of the typographic characters remains, and text without them is unchanged |
| Cleanup.ListLine | _converter/web/src/lib/cleanup.js:51 | same length; a character changes only when it is a '*' or '+' bullet preceded only by whitespace and followed by a space, and every such bullet becomes '-' |
| Cleanup.ListLines | _converter/web/src/lib/cleanup.js:50-52 | the line count is kept and each line is rewritten only at its leading bullet |
| Cleanup.CollapseBlankLines | _converter/web/src/lib/cleanup.js:59-61 | a text that starts with another character than '\n' keeps its first character |
| Cleanup.CollapseLeavesNoFour | _converter/web/src/lib/cleanup.js:59-61 | after the collapse no run of four or more '\n' remains |
| Cleanup.CollapseIdentity | _converter/web/src/lib/cleanup.js:59-61 | text without four consecutive '\n' is unchanged |
| Cleanup.LastEscapedDot | _converter/web/src/lib/cleanup.js:71 | the greedy `.*` picks the last "\." of the line after the marker, or none |
| Cleanup.EscapeLines | _converter/web/src/lib/cleanup.js:70-72 | the line count is kept; a non-heading line, or a heading without "\." after its marker, is unchanged; otherwise only the backslash of the last "\." is removed |
| Cleanup.StripLines | _converter/web/src/lib/cleanup.js:79-84 | the line count is kept; each line loses exactly its trailing whitespace, so no line ends in whitespace |
| Cleanup.EnsureFinalNewline | _converter/web/src/lib/cleanup.js:91-93 | the text ends in exactly one '\n'; only trailing '\n' characters are removed before it |
| Cleanup.FinalNewlineIdempotent | _converter/web/src/lib/cleanup.js:91-93 | a second application changes nothing |
| Cleanup.CleanupMarkdown | _converter/web/src/lib/cleanup.js:104-113 | the seven passes in their order; the result ends in exactly one '\n' |
| CleanupFinding.MapLinesIdentity | _converter/web/src/lib/cleanup.js:80-83 | a per-line pass that fixes every line changes nothing |
| CleanupFinding.CollapseBeforeStrip | _converter/web/src/lib/cleanup.js:104-113 | on "a\n\n\n \nb" the collapse finds no run of four '\n', yet the cleaned text has one |
| CleanupFinding.FinalNewlineKeepsNoFour | _converter/web/src/lib/cleanup.js:91-93 | the final-newline pass cannot create four consecutive '\n' |
| CleanupFinding.CleanupMarkdownStripFirst | _converter/web/src/lib/cleanup.js:55-113 | with whitespace stripped before the collapse, the cleaned text ends in exactly one '\n' and has no run of four '\n' |
| CleanupPy.IsBlankPy | _converter/lib/cleanup.py:82 | `line.strip() == ''`; NextNonBlank states where the look-ahead stops |
| CleanupPy.HeadingText | _converter/lib/cleanup.py:76-79 | group 2 of `^(#{2,6}) (.+)$`, the heading's text; MergeAcrossBlanks states that the merged heading appends the second text to the first |
| CleanupPy.MergeAt | _converter/lib/cleanup.py:84-87 | heading i absorbs heading j: a same-level heading after blank lines only whose text reads as a continuation; MergeAcrossBlanks and KeptWithoutContinuation state what is appended either way |
| CleanupPy.BrokenFrom | _converter/lib/cleanup.py:71-96 | the lines `fix_broken_headings` appends from index i on; MergeAcrossBlanks, KeptWithoutContinuation, BrokenNeverLonger and BrokenKeepsPlainLines state the merge, the kept lines, that the output never has more lines and that plain lines survive in order |
| CleanupPy.ListLinePy | _converter/lib/cleanup.py:120 | `re.sub(r'^(\s*)[*+] ', r'\1- ', …, flags=re.MULTILINE)` on one line with Python's `\s`; ListLine's contract states that only a leading bullet becomes '-' |
| CleanupPy.FixListFormatting | _converter/lib/cleanup.py:117-121 | `fix_list_formatting`; ListLines states that the line count is kept and a '*' or '+' after leading whitespace and before a space becomes '-', nothing else |
| CleanupPy.StripTrailingWhitespace | _converter/lib/cleanup.py:129-131 | `strip_trailing_whitespace`, `rstrip()` on every line; StripLines states that the line count is kept and each line loses exactly its trailing whitespace |
| CleanupPy.FixHeadingHierarchy | _converter/lib/cleanup.py:18-37 | the appending loop computes the same text as the JavaScript pass, so without an H1 the text is unchanged and otherwise headings of level 1-5 gain one '#' with the line count kept |
| CleanupPy.FixCzechTypography | _converter/lib/cleanup.py:40-58 | none of the typographic characters remains (with Python's `\s` around the dashes), and text without them is unchanged |
| CleanupPy.ListLines | _converter/lib/cleanup.py:117-121 | the line count is kept; a '*' or '+' after leading whitespace only and before a space becomes '-', nothing else changes |
| CleanupPy.NextNonBlank | _converter/lib/cleanup.py:81-83 | the first line at or after `j` that is not blank, every line before it blank |
| CleanupPy.LooksLikeContinuation | _converter/lib/cleanup.py:99-114 | false for an empty second part; true when it starts with a lower-case letter or one of `,:;%)-`, or when the first part ends in a digit; false otherwise |
| CleanupPy.StepAt | _converter/lib/cleanup.py:75-95 | one iteration advances `i`, and either appends line `i` unchanged or consumes only headings and blank lines and appends a heading |
| CleanupPy.NextOutput | _converter/lib/cleanup.py:75-95 | the loop body, look-ahead loop included, appends the line and moves to the index of the step function |
| CleanupPy.FixBrokenHeadings | _converter/lib/cleanup.py:61-96 | the while loop over `i` yields the joined lines of the step function applied from line 0 |
| CleanupPy.MergeAcrossBlanks | _converter/lib/cleanup.py:84-91 | a heading followed, after blank lines only, by a same-level continuation heading becomes one line: the first heading plus the second heading's text, the blank lines dropped |
| CleanupPy.KeptWithoutContinuation | _converter/lib/cleanup.py:92-95 | a line that is no heading, or a heading without a same-level continuation after the blank lines, is appended unchanged |
| CleanupPy.MergedIsHeading | _converter/lib/cleanup.py:89 | the merged line is still a heading of the same level |
| CleanupPy.BrokenNeverLonger | _converter/lib/cleanup.py:71-96 | the output never has more lines than the input |
| CleanupPy.BrokenKeepsPlainLines | _converter/lib/cleanup.py:71-96 | every non-blank, non-heading line comes out unchanged and in order |
| CleanupPy.BrokenHeadingsLines | _converter/lib/cleanup.py:61-96 | on the whole text the line count never grows and the plain lines are kept in order |
| CleanupPy.StripLines | _converter/lib/cleanup.py:129-131 | the line count is kept; each line loses exactly its trailing whitespace |
| CleanupPy.CleanupMarkdown | _converter/lib/cleanup.py:6-15 | the seven passes in the Python order; the result ends in exactly one '\n' |
| Frontmatter.FixedLines | _converter/web/src/lib/frontmatter.js:62-66 | the fence and the title, status and date lines every header opens with, status defaulting to 'draft' and the date to `now`; FixedLinesFirst states their order and defaults |
| Frontmatter.CustomLines | _converter/web/src/lib/frontmatter.js:92-100 | the `custom_fields:` block, present only with a meta title or description; CustomFieldsPresence and PushCustomFields state when it is written and that the pushes append exactly it |
| Frontmatter.TailLines | _converter/web/src/lib/frontmatter.js:76-102 | the taxonomy block, the custom fields and the closing fence; TaxonomyPresence and CustomFieldsPresence state when each block appears |
| Frontmatter.FrontmatterLines | _converter/web/src/lib/frontmatter.js:62-102 | the lines `buildFrontmatter` pushes, in order; FixedLinesFirst, ExcerptLinePresence, FeaturedLinePresence, TaxonomyPresence and CustomFieldsPresence state which lines are written and when |
| Frontmatter.FrontmatterText | _converter/web/src/lib/frontmatter.js:51-104 | the text `buildFrontmatter` returns; BuildFrontmatter, FrontmatterFrame and FrontmatterTextFenced state that the pushes build it and that it is fenced by "---\n" and "\n---\n" |
| Frontmatter.YamlValue | _converter/web/src/lib/frontmatter.js:32-34 | double quotes exactly when the value holds ':', and no escaping |
| Frontmatter.YamlValueReadBack | _converter/web/src/lib/frontmatter.js:32-34 | a single-line value without surrounding whitespace (and, without ':', not itself quoted) is read back by trim and unquote as itself |
| Frontmatter.StatusOf | _converter/web/src/lib/frontmatter.js:53 | a missing status becomes 'draft', a given one is kept |
| Frontmatter.BuildFrontmatter | _converter/web/src/lib/frontmatter.js:51-104 | the pushes build the header text: fence, fixed lines, optional lines, taxonomy block, custom fields, fence, joined with '\n' plus a final '\n' |
| Frontmatter.PushHead | _converter/web/src/lib/frontmatter.js:62-74 | the pushes before the taxonomy block give the fence, title, status, date and the optional excerpt and featured-image lines |
| Frontmatter.PushCustomFields | _converter/web/src/lib/frontmatter.js:92-100 | the custom-fields pushes append exactly the custom-fields block |
| Frontmatter.FrontmatterFrame | _converter/web/src/lib/frontmatter.js:62-103 | the header starts with "---\n" and ends with "\n---\n" |
| Frontmatter.FixedLinesFirst | _converter/web/src/lib/frontmatter.js:53-66 | after the fence come the title, status and date lines in that order; the status defaults to 'draft', the date to `now` |
| Frontmatter.ExcerptLinePresence | _converter/web/src/lib/frontmatter.js:68-70 | a `post_excerpt:` line is written exactly when the excerpt is non-empty |
| Frontmatter.FeaturedLinePresence | _converter/web/src/lib/frontmatter.js:72-74 | a `featured_image:` line is written exactly when a featured image is given |
| Frontmatter.TaxonomyPresence | _converter/web/src/lib/frontmatter.js:76-90 | the `taxonomy:` line is written exactly when there is a category or a tag |
| Frontmatter.TaxonomyBlock | _converter/web/src/lib/frontmatter.js:76-90 | under `taxonomy:` the 4-space `category:` key and its 8-space `- ` items in input order come first, then `post_tag:` and its items |
| Frontmatter.CustomFieldsPresence | _converter/web/src/lib/frontmatter.js:92-100 | the `custom_fields:` line is written exactly when a meta title or description is given |
| Frontmatter.FrontmatterTextFenced | _converter/web/src/lib/frontmatter.js:62-103 | the header is "---\n", the inner lines joined by '\n', and "\n---\n" |
| Frontmatter.InnerLinesShape | _converter/web/src/lib/frontmatter.js:64-100 | when no value holds a line break, every inner line is a non-empty single line that does not open with '-' |
| FrontmatterParser.FieldMatches | _converter/web/server/frontmatter-parser.js:21 | `^field:\s*(.+)$` with the m flag matches; UnmatchedReadsEmpty and TitleLineRead state what is read with and without a match |
| FrontmatterParser.ListingFrom | _converter/web/server/frontmatter-parser.js:18-39 | the listing fields of a front-matter text, the title falling back to the slug only when its pattern does not match; QuotesStrippedExceptStatus states that title and date lose one pair of quotes and the status is only trimmed |
| FrontmatterParser.ListingOf | _converter/web/server/frontmatter-parser.js:11-43 | `parseListingFields` with the file's text, None for a file that cannot be read; ParseListingFields, ListingDefaults and WrittenTitleListed state the defaults and that a written title is listed |
| FrontmatterParser.HeadIndex | _converter/web/server/frontmatter-parser.js:59 | the first line equal to the key line (`    category:` or `    post_tag:`) that has a line after it, as `^ {4}category:\n` needs, -1 when none; HeadFirstAt states that it is the first such key line |
| FrontmatterParser.ItemLine | _converter/web/server/frontmatter-parser.js:59 | a line of `^ {8}- .+`; RunShape and ItemLineOf state that the run read is the longest one of such lines and that a written item line is one |
| FrontmatterParser.ItemValue | _converter/web/server/frontmatter-parser.js:61-63 | `m[1].trim()` of an item line; ItemLineOf states that a written item reads back as its term |
| FrontmatterParser.ItemRun | _converter/web/server/frontmatter-parser.js:59-64 | the values of the item lines that directly follow a key line; ItemRunShape and AddRun state what is read and that the loop adds every one |
| FrontmatterParser.ContentTerms | _converter/web/server/frontmatter-parser.js:53-74 | the items under a key in a file's front matter, none without a block; NoBlockNoTerms, WrittenTaxonomyRecovered and ExtractWritten state that written terms are read back in order |
| FrontmatterParser.FrontMatterBlock | _converter/web/server/frontmatter-parser.js:18-54 | the block is found exactly when `splitFrontmatter` finds one, and is its YAML text |
| FrontmatterParser.BlockOfFenced | _converter/web/server/frontmatter-parser.js:54-57 | when no inner line opens with '-' or holds a line break, the block of "---", the joined lines and "---" is exactly those lines |
| FrontmatterParser.HeadIndexFrom | _converter/web/server/frontmatter-parser.js:59-67 | the first line from `from` on that equals the group key and is followed by a line break, or -1 when there is none |
| FrontmatterParser.RunShape | _converter/web/server/frontmatter-parser.js:59-69 | the run read after a key is the longest one: every line in it is an 8-space item line, the line after it is not |
| FrontmatterParser.ItemRunShape | _converter/web/server/frontmatter-parser.js:59-72 | what is read under a key line: the trimmed texts of the item lines that directly follow it |
| FrontmatterParser.Elems | _converter/web/server/frontmatter-parser.js:63-71 | the elements of a list as a set |
| FrontmatterParser.TaxonomySets.ExtractTaxonomy | _converter/web/server/frontmatter-parser.js:53-74 | both sets gain exactly the items of their group, and nothing is removed; without a front-matter block nothing changes |
| FrontmatterParser.CollectGroup | _converter/web/server/frontmatter-parser.js:59-65 | one group block adds exactly the items under its key |
| FrontmatterParser.AddRun | _converter/web/server/frontmatter-parser.js:61-64 | the loop adds the trimmed value of every item line in the run |
| FrontmatterParser.NoBlockNoTerms | _converter/web/server/frontmatter-parser.js:54-55 | content without a front-matter block yields no terms and leaves the set as it was |
| FrontmatterParser.HeadFirstAt | _converter/web/server/frontmatter-parser.js:59 | the first key line followed by another line is the one the search finds |
| FrontmatterParser.KeyAbsent | _converter/web/server/frontmatter-parser.js:59-60 | a key on no line yields no items |
| FrontmatterParser.RunOfItems | _converter/web/server/frontmatter-parser.js:59-64 | item lines written for `items`, followed by a non-item line, read back as `items` |
| FrontmatterParser.ItemLineOf | _converter/web/server/frontmatter-parser.js:61-63 | a written item line is an item line whose trimmed value is the term |
| FrontmatterParser.WrittenBlockLines | _converter/web/server/frontmatter-parser.js:54-57 | the block of a header written by `buildFrontmatter` is its inner lines joined, and splits back into them |
| FrontmatterParser.WrittenTaxonomyRecovered | _converter/web/server/frontmatter-parser.js:53-74 | every category and tag `buildFrontmatter` writes is read back, in order |
| FrontmatterParser.ExtractWritten | _converter/web/server/frontmatter-parser.js:53-74 | after reading a written post each set holds what it held plus exactly the post's terms |
| FrontmatterParser.TaxonomyRecovered | _converter/web/server/frontmatter-parser.js:59-73 | around a written taxonomy block with no other key line, both groups read back in order |
| FrontmatterParser.ParseListingFields | _converter/web/server/frontmatter-parser.js:11-43 | starting from the defaults, each field is overwritten only when its pattern matches, giving the listing of the file |
| FrontmatterParser.UnmatchedReadsEmpty | _converter/web/server/frontmatter-parser.js:21-31 | a field whose pattern does not match captures nothing |
| FrontmatterParser.ListingDefaults | _converter/web/server/frontmatter-parser.js:12-42 | a file that cannot be read, or has no front-matter block, lists the slug as its title and empty status and date |
| FrontmatterParser.QuotesStrippedExceptStatus | _converter/web/server/frontmatter-parser.js:21-38 | title and date lose one pair of matching quotes; the status is only trimmed |
| FrontmatterParser.WrittenTitleListed | _converter/web/server/frontmatter-parser.js:21-28 | a title written by `buildFrontmatter` (single line, no surrounding whitespace) is the title the listing shows |
| FrontmatterParser.TitleLineRead | _converter/web/server/frontmatter-parser.js:21-28 | front matter that opens with `title: w`, where `w` is what `yamlValue` wrote for `v`, reads back `v` |
| FrontmatterPy.HeaderLines | _converter/lib/frontmatter.py:19-55 | the lines `build_frontmatter` appends, in order; FixedHeaderLines, OptionalLinesPresence, TaxonomyAndCustomPresence and SameAsWebWriter state each line and that the web writer writes the same lines |
| FrontmatterPy.HeaderText | _converter/lib/frontmatter.py:6-56 | the text `build_frontmatter` returns; BuildFrontmatter, HeaderFenced and HeaderReadBack state that the appends build it, that it is fenced and that the web reader gets its title and terms back |
| FrontmatterPy.Meaningful | _converter/lib/frontmatter.py:65 | a stripped line that is non-empty and does not start with '#'; KeptFrom and KeptClean state that only such lines make the excerpt |
| FrontmatterPy.Gather | _converter/lib/frontmatter.py:62-68 | what the loop gathers: each meaningful stripped line, up to the first that brings the joined text to `max_length`; GatherLines, GatherStep and GatherPrefix state the loop and its `break` |
| FrontmatterPy.PeriodBeyondMiddle | _converter/lib/frontmatter.py:75-77 | some '.' of the first `max_length` characters lies beyond `max_length // 2`; CutLong states the cut it selects |
| FrontmatterPy.Cut | _converter/lib/frontmatter.py:70-79 | the text if it fits, else cut after its last '.' beyond the middle or at its last space plus "..."; CutShort, CutLong and CutReadsPrefix state both cases and the `max_length + 3` bound |
| FrontmatterPy.ExcerptOf | _converter/lib/frontmatter.py:59-79 | `extract_excerpt(content, max_length)`; ExtractExcerpt, BreakHarmless, ShortExcerptWhole, ExactLengthNoEllipsis and ExcerptBound state that the loop computes it, when the early `break` matters, and that it never exceeds `max_length + 3` |
| FrontmatterPy.AsWebOptions | _converter/lib/frontmatter.py:6-14 | the web writer's options for the same post carry no SEO fields and the same status |
| FrontmatterPy.BuildFrontmatter | _converter/lib/frontmatter.py:6-56 | the appends build the header text: fence, title (quoted when it holds ':'), status, date or `now`, optional excerpt and featured image, taxonomy block, fence, joined with '\n' plus a final '\n' |
| FrontmatterPy.SameAsWebWriter | _converter/lib/frontmatter.py:19-56 | without SEO fields the web writer writes the very same header, line for line |
| FrontmatterPy.HeaderFenced | _converter/lib/frontmatter.py:19-56 | the header starts with "---\n" and ends with "\n---\n" |
| FrontmatterPy.FixedHeaderLines | _converter/lib/frontmatter.py:21-32 | the title line is second, quoted exactly when the title holds ':'; post_status is third and post_date fourth, with `now` for a missing date |
| FrontmatterPy.OptionalLinesPresence | _converter/lib/frontmatter.py:34-42 | a `post_excerpt:` line exactly when the excerpt is non-empty, a `featured_image:` line exactly when an image is given |
| FrontmatterPy.TaxonomyAndCustomPresence | _converter/lib/frontmatter.py:44-53 | the `taxonomy:` line exactly when there is a category or a tag; never a `custom_fields:` line |
| FrontmatterPy.HeaderReadBack | _converter/lib/frontmatter.py:44-56 | the web reader gets back the categories and tags in order, and the listing shows the title written, when no value spans lines and none has surrounding whitespace |
| FrontmatterPy.KeptFrom | _converter/lib/frontmatter.py:63-66 | every line kept is non-empty and does not open with '#' |
| FrontmatterPy.PyStripClean | _converter/lib/frontmatter.py:64 | `strip()` leaves no whitespace at either end |
| FrontmatterPy.KeptClean | _converter/lib/frontmatter.py:62-66 | the lines the excerpt is made of are non-empty, stripped and do not open with '#' |
| FrontmatterPy.BeforeLastSpace | _converter/lib/frontmatter.py:79 | `rsplit(' ', 1)[0]`: the text before the last space, no space after it, or the whole text without a space |
| FrontmatterPy.ExtractExcerpt | _converter/lib/frontmatter.py:59-79 | the loop and the cut compute the excerpt of the content |
| FrontmatterPy.GatherLines | _converter/lib/frontmatter.py:62-68 | the loop with its early `break` gathers the stripped meaningful lines up to the first that brings the joined text to `max_length` |
| FrontmatterPy.GatherStep | _converter/lib/frontmatter.py:63-68 | one iteration: a meaningful line is appended, and the loop stops when the joined text reaches `max_length`; other lines are skipped |
| FrontmatterPy.CutShort | _converter/lib/frontmatter.py:70-72 | a text within the limit is returned unchanged |
| FrontmatterPy.CutLong | _converter/lib/frontmatter.py:74-79 | an over-long text is cut just after its last '.' within the limit when that lies beyond `max_length // 2`; otherwise at its last space within the limit with "..." appended; never longer than `max_length + 3` |
| FrontmatterPy.GatherPrefix | _converter/lib/frontmatter.py:62-68 | the loop gathers a prefix of the meaningful lines and stops early only when the break test holds |
| FrontmatterPy.JoinExtends | _converter/lib/frontmatter.py:67-70 | joining more non-empty lines gives a strictly longer text that extends the shorter one |
| FrontmatterPy.CutReadsPrefix | _converter/lib/frontmatter.py:74-79 | the cut of an over-long text depends only on its first `max_length` characters |
| FrontmatterPy.BreakHarmless | _converter/lib/frontmatter.py:62-79 | unless the gathered text is exactly `max_length` long with more lines to come, the excerpt is the cut of all meaningful lines joined |
| FrontmatterPy.ShortExcerptWhole | _converter/lib/frontmatter.py:70-72 | when all meaningful lines joined fit the limit, they are the excerpt |
| FrontmatterPy.ExactLengthNoEllipsis | _converter/lib/frontmatter.py:67-72 | a first meaningful line exactly `max_length` long stops the loop and is returned whole without "...", while the cut of all lines would end in "..." |
| FrontmatterPy.ExcerptBound | _converter/lib/frontmatter.py:59-79 | the excerpt is never longer than `max_length + 3` characters |
| Translation.YamlField | _converter/web/src/lib/translation.js:34-44 | `yamlField(yaml, field)`: the trimmed value after the first line starting `field:`, one pair of matching quotes removed, '' when no line matches; FieldMissing and FieldRoundTrip state the missing case and that a plain value written with `yamlValue` reads back |
| Translation.TaxGroup | _converter/web/src/lib/translation.js:54 | capture group 1 of `key:\s*\n((?:\s+-\s+.+\n?)*)`, None when the pattern does not match; TaxRoundTrip states that a written group is captured and read back |
| Translation.TaxList | _converter/web/src/lib/translation.js:54-60 | the terms of the captured group, the trimmed `^\s+-\s+(.+)` value of each of its lines, none when there is no group; YamlTaxonomy, CollectTerms and TaxRoundTrip state that the loop pushes them in order and that written terms read back |
| Translation.NeedsQuotes | _converter/web/src/lib/translation.js:148 | the value holds ':', '#' or '"'; YamlValue states that exactly such values are quoted with their '"' escaped |
| Translation.HeaderLines | _converter/web/src/lib/translation.js:168-192 | the lines `buildTranslatedFrontmatter` pushes, in order; HeaderFrame and HeaderTaxonomy state the fences, the closing custom-fields lines and when each taxonomy line appears |
| Translation.HeaderText | _converter/web/src/lib/translation.js:157-194 | the text `buildTranslatedFrontmatter` returns, its lines joined by '\n' plus a final '\n'; BuildTranslatedFrontmatter and HeaderFrame state that the pushes build it and how it is framed |
| Translation.AltCounter | _converter/web/src/lib/translation.js:211 | the value of `altIdx` when the replace reaches a given match, advanced by each earlier image with an alt |
| Translation.AltCounterCount | _converter/web/src/lib/translation.js:211 | `altIdx` at a match is its start value plus the number of earlier images that have an alt, so each alt is consumed in order |
| Translation.TitleCounter | _converter/web/src/lib/translation.js:213-214 | the value of `titleIdx` when the replace reaches a given match, advanced by each earlier image with a title |
| Translation.TitleCounterCount | _converter/web/src/lib/translation.js:213-214 | `titleIdx` at a match is its start value plus the number of earlier images that have a title, so each title is consumed in order |
| Translation.ReplacedText | _converter/web/src/lib/translation.js:204-222 | the text `replaceImageAltTitle(body, alts, titles)` returns; ReplaceImageAltTitle and ReplaceIdentity state that the counting scan computes it and that an identity translation gives the body back |
| Translation.SumLengths | _converter/web/src/lib/translation.js:283-287 | the summed lengths of a list of strings; AddLengths states that the loops add it and that humanizing keeps each length |
| Translation.TranslatableChars | _converter/web/src/lib/translation.js:278-289 | the summed lengths of title, excerpt, body, every humanized term, every alt and every title; CountTranslatableChars states that the loops compute it |
| Translation.SplitFrontmatter | _converter/web/src/lib/translation.js:14-25 | no split exactly when the text does not open with "---\n" or has no later "\n---"; otherwise the YAML is everything up to the first "\n---" after the opening, and the body is the rest after one optional line break |
| Translation.SplitFrontmatterRebuilds | _converter/web/src/lib/translation.js:14-25 | the article is the opening fence, the YAML, the closing delimiter, at most one line break and the body: nothing else is lost |
| Translation.FieldCapture | _converter/web/src/lib/translation.js:35-37 | the capture is empty when no line starts with `field:`, and never spans a line break |
| Translation.RawField | _converter/web/src/lib/translation.js:38 | the trimmed capture has no whitespace at either end |
| Translation.Unquote | _converter/web/src/lib/translation.js:40-42 | one pair of equal surrounding quotes is removed; a lone quote gives ''; any other value is unchanged |
| Translation.FieldMissing | _converter/web/src/lib/translation.js:35-37 | a field no line starts with reads as '' |
| Translation.EscapeQuotes | _converter/web/src/lib/translation.js:149 | a value without '"' is unchanged, and escaping never shortens |
| Translation.YamlValue | _converter/web/src/lib/translation.js:147-152 | a value holding ':', '#' or '"' is quoted with its '"' escaped; any other is written as it is |
| Translation.FieldRoundTrip | _converter/web/src/lib/translation.js:34-44 | a plain value written as `field: <yamlValue(v)>` on the first line starting with `field:` is read back as `v` by `yamlField` |
| Translation.EmptyValueReadsNextLine | _converter/web/src/lib/translation.js:35-38 | an empty value, written as `field: `, reads back as the trimmed next line, because `\s*` crosses the line break |
| Translation.TaxLine | _converter/web/src/lib/translation.js:57-58 | the value of a matching item line is trimmed |
| Translation.YamlTaxonomy | _converter/web/src/lib/translation.js:50-71 | the two lists are the terms the `category:` and `post_tag:` groups hold, in order |
| Translation.CollectTerms | _converter/web/src/lib/translation.js:54-60 | the loop over the group's lines pushes the value of every matching line, in order |
| Translation.TaxRoundTrip | _converter/web/src/lib/translation.js:50-71 | a written `    key:` line followed by `        - term` lines reads back as the same terms, when the text before holds no `key:` and no further item follows |
| Translation.Pick | _converter/web/src/lib/translation.js:211-214 | the translated text when it is not empty, else the original, so never empty when the original is not |
| Translation.NewImage | _converter/web/src/lib/translation.js:210-220 | the callback keeps the path, leaves an empty alt empty, writes a title exactly when the image had a non-empty one, after a single space |
| Translation.ReplaceImageAltTitle | _converter/web/src/lib/translation.js:204-222 | the scan with its two counters computes the global replace |
| Translation.ReplaceStep | _converter/web/src/lib/translation.js:208-221 | one step of the scan keeps the replace invariant and makes progress |
| Translation.ReplaceCallback | _converter/web/src/lib/translation.js:210-220 | the callback's text is the new image, and each counter advances exactly when the image has a non-empty alt or title |
| Translation.RewriteKeepsImages | _converter/web/src/lib/translation.js:204-222 | the replace keeps every image in place with its path and keeps all other text; an alt stays empty exactly when it was, and a title exists exactly when the original had a non-empty one |
| Translation.RewriteChoosesByCounter | _converter/web/src/lib/translation.js:205-215 | the image at position k takes the translated alt whose index is the number of non-empty alts before it, and likewise for titles |
| Translation.RewriteWithOwnTexts | _converter/web/src/lib/translation.js:204-222 | fed the alts and titles extraction found, or none at all, the replace rewrites each image written with one space before its title to itself |
| Translation.ReplaceIdentity | _converter/web/src/lib/translation.js:204-222 | an identity translation (or none) gives back the body when its titles are written after one space |
| Translation.StatusOf | _converter/web/src/lib/translation.js:117 | the status is never empty, and is the field's value when that is non-empty |
| Translation.ExtractTranslatableSegments | _converter/web/src/lib/translation.js:109-138 | no segments exactly when there is no front matter; the status is never empty; the YAML and body rebuild the article |
| Translation.SegmentsDefaults | _converter/web/src/lib/translation.js:114-118 | a missing `post_status` reads as "publish" and missing title, excerpt, featured image and date as '' |
| Translation.SegmentsImageTexts | _converter/web/src/lib/translation.js:121-123 | there is one non-empty alt per image with an alt and one non-empty title per image with a title, never more than the images |
| Translation.BuildTranslatedFrontmatter | _converter/web/src/lib/translation.js:157-194 | the pushes and the join build the header text of the translated article |
| Translation.PushTaxonomy | _converter/web/src/lib/translation.js:176-186 | the taxonomy block is appended to the lines |
| Translation.PushGroup | _converter/web/src/lib/translation.js:178-185 | a key line and its item lines are appended exactly when the list is non-empty |
| Translation.PushItems | _converter/web/src/lib/translation.js:180-184 | one `        - item` line per item, in order |
| Translation.HeaderFrame | _converter/web/src/lib/translation.js:168-193 | the header opens with "---\n", ends with "\n---\n", and its last lines are `custom_fields:`, the group line, the language line and the fence |
| Translation.HeaderTaxonomy | _converter/web/src/lib/translation.js:176-186 | `taxonomy:` is written exactly when there is a category or a tag, and each key line exactly when its list is non-empty |
| Translation.HeaderOf | _converter/web/src/lib/translation.js:250-260 | the translated header keeps the original status, date and featured image, takes the translated title, excerpt, categories and tags, and the source slug and target language |
| Translation.ReassembleTranslation | _converter/web/src/lib/translation.js:249-269 | the output is the translated header, a blank line and the translated body with its image texts replaced |
| Translation.CountTranslatableChars | _converter/web/src/lib/translation.js:278-289 | the loops sum the lengths of title, excerpt, body, every term humanized, every alt and every title |
| Translation.AddLengths | _converter/web/src/lib/translation.js:283-287 | one of the loops adds the summed lengths; humanizing keeps each length |
| TranslationRoute.BodyChunks | _converter/web/server/routes/translation.js:215-218 | the paragraph chunks of the body with its images replaced by placeholders, none for an empty body; PushBody and IndicesLayout state that they fill the body's range |
| TranslationRoute.StrippedImagesOf | _converter/web/server/routes/translation.js:214-217 | the image records kept aside while the body is translated, none for an empty body; PushBody states that they are returned with the chunks |
| TranslationRoute.Flatten | _converter/web/server/routes/translation.js:204-248 | the parts appended one after another, as the pushes build the batch; RangesTile and BatchSteps state that each part starts where the previous one ends |
| TranslationRoute.BatchOf | _converter/web/server/routes/translation.js:201-248 | the batch sent to the provider: title, excerpt, body chunks, humanized categories and tags, alts, titles; IndicesLayout, BatchTiles and EmptyBatch state where each field sits and when the batch is empty |
| TranslationRoute.IndicesOf | _converter/web/server/routes/translation.js:202-248 | the index record filled in while the batch is built, -1 for absent fields; IndicesLayout and BatchTiles state that an index is non-negative exactly when its field is present and that the ranges tile the batch |
| TranslationRoute.HumanizeAll | _converter/web/server/routes/translation.js:228-234 | each term of the list is humanized, in order, and the list keeps its length |
| TranslationRoute.Parts | _converter/web/server/routes/translation.js:204-248 | what each of the seven fields contributes to the batch, in push order |
| TranslationRoute.Present | _converter/web/server/routes/translation.js:204-244 | which fields take part: the non-empty strings and the non-empty lists |
| TranslationRoute.IndicesLayout | _converter/web/server/routes/translation.js:202-248 | an index is non-negative exactly when its field is present; the title and the excerpt sit at their indices, and each range holds exactly its field's entries: the body's paragraph chunks, the humanized categories and tags, the alts and titles |
| TranslationRoute.RangesTile | _converter/web/server/routes/translation.js:202-248 | the field ranges cover the batch end to end, each starting where the previous one ends |
| TranslationRoute.TilesMeaning | _converter/web/server/routes/translation.js:202-248 | ranges that tile an interval are ordered, disjoint, inside it, and their sizes add up to its length |
| TranslationRoute.BatchTiles | _converter/web/server/routes/translation.js:202-248 | the ranges the handler slices are contiguous from 0, ordered and disjoint, and their sizes add up to the batch's length |
| TranslationRoute.EmptyBatch | _converter/web/server/routes/translation.js:250-253 | the batch is empty exactly when the title and excerpt are empty, the body has no chunk and every list is empty |
| TranslationRoute.PushAll | _converter/web/server/routes/translation.js:240-246 | the loop appends the items in order |
| TranslationRoute.PushHumanized | _converter/web/server/routes/translation.js:228-234 | the loop appends every term humanized, in order |
| TranslationRoute.PushText | _converter/web/server/routes/translation.js:204-212 | a non-empty text is appended with its index; an empty one leaves the batch and an index of -1 |
| TranslationRoute.PushBody | _converter/web/server/routes/translation.js:214-224 | a non-empty body has its images replaced by placeholders and its paragraph chunks appended, with the range they take; the stripped images are returned |
| TranslationRoute.PushTerms | _converter/web/server/routes/translation.js:226-236 | a non-empty term list is appended humanized with its range; an empty one leaves -1 |
| TranslationRoute.PushTexts | _converter/web/server/routes/translation.js:238-248 | a non-empty alt or title list is appended as it is with its range; an empty one leaves -1 |
| TranslationRoute.BuildBatch | _converter/web/server/routes/translation.js:201-248 | the pushes build the batch and index record of the segments |
| TranslationRoute.SegmentSteps | _converter/web/server/routes/translation.js:204-248 | the seven push steps on the segment record's fields build its batch and index record |
| TranslationRoute.BatchSteps | _converter/web/server/routes/translation.js:204-248 | seven appends in order flatten the parts, each starting at its recorded offset |
| Paragraphs.IsFenceLine | _converter/web/server/routes/translation.js:38 | `line.trim().startsWith('```')`; FencedBlockStaysWhole states that a fenced block stays in one chunk |
| Paragraphs.Blank | _converter/web/server/routes/translation.js:41-42 | `s.trim() === ''`, the blank-line test and, negated, the keep-chunk test; ChunksNotBlank states that no chunk is blank |
| Paragraphs.AddLines | _converter/web/server/routes/translation.js:40-45 | the current chunk with lines added, each after a '\n' unless the chunk is empty; InsideFence and FencedBlockStaysWhole state how a fenced block is added |
| Paragraphs.Chunked | _converter/web/server/routes/translation.js:37-48 | the chunks made from the remaining lines given the current chunk and fence state; InsideFence, RunThenBlank and ChunkedGood state what a fence, a blank line and a plain run do |
| Paragraphs.Chunks | _converter/web/server/routes/translation.js:32-50 | the chunks `splitMarkdownParagraphs(body)` returns; SplitMarkdownParagraphs, ChunksNotBlank, ParagraphsRoundTrip and RejoinRoundTrip state that the loop computes them and that joining with "\n\n" and splitting again gives them back |
| Paragraphs.AddLine | _converter/web/server/routes/translation.js:40-45 | a line starts an empty chunk, and is added after a '\n' to a non-empty one |
| Paragraphs.Flush | _converter/web/server/routes/translation.js:42-48 | the current chunk is pushed exactly when it is not blank |
| Paragraphs.SplitMarkdownParagraphs | _converter/web/server/routes/translation.js:32-50 | the loop over the lines computes the paragraph chunks of the body |
| Paragraphs.SplitStep | _converter/web/server/routes/translation.js:38-46 | one line of the loop: a fence line toggles the code-block state and joins the chunk; a blank line outside a fence closes the chunk; any other line joins it |
| Paragraphs.ChunksNotBlank | _converter/web/server/routes/translation.js:42-48 | no chunk is all whitespace |
| Paragraphs.InsideFence | _converter/web/server/routes/translation.js:38-46 | inside a fence, every line that is not a fence line joins the current chunk, blank or not |
| Paragraphs.FencedBlockStaysWhole | _converter/web/server/routes/translation.js:29-46 | a fenced block is added to the current chunk whole, whatever blank lines it holds, and the fence is closed after it |
| Paragraphs.RunThenBlank | _converter/web/server/routes/translation.js:41-45 | a non-blank run of lines followed by a blank line becomes one chunk, the run joined by '\n' |
| Paragraphs.ChunkedGood | _converter/web/server/routes/translation.js:37-48 | without fence lines every chunk is a non-blank run of non-blank lines |
| Paragraphs.RejoinRoundTrip | _converter/web/server/routes/translation.js:32-50 | joining such chunks with "\n\n", as the translated body is joined, and splitting again gives the same chunks |
| Paragraphs.ParagraphsRoundTrip | _converter/web/server/routes/translation.js:32-50 | for a body without fence lines, joining its chunks with "\n\n" and splitting again gives the same chunks |
| RouteImages.Store | _converter/web/server/routes/translation.js:60 | the record `{ alt, path: imgPath, title: title or '' }` kept for one image; StoreAll states one record per image, index for index |
| RouteImages.StrippedText | _converter/web/server/routes/translation.js:56-64 | the `stripped` text of `stripImageReferences(body)`; StripImageReferences states that the k-th image becomes `__IMG_k__` and all else is kept |
| RouteImages.PScan | _converter/web/server/routes/translation.js:73 | the global scan of `/__IMG_(\d+)__/g`, left to right; PScanStripped states that on a stripped body it finds each image's number in order |
| RouteImages.ReinsertedText | _converter/web/server/routes/translation.js:70-82 | what `reinsertImages` returns, None where a placeholder names no record and the callback throws; ReinsertImages and StripReinsertRoundTrip state that the scan computes it and that after stripping it never fails and matches `replaceImageAltTitle` |
| RouteImages.StoreAll | _converter/web/server/routes/translation.js:60 | one record per image, index for index, with its alt, path and title or '' |
| RouteImages.Placeholder | _converter/web/server/routes/translation.js:61 | `__IMG_k__` is the marker, the decimal digits of k and the closer |
| RouteImages.StripImageReferences | _converter/web/server/routes/translation.js:56-64 | the k-th image from the left becomes `__IMG_k__`, every other character is kept, and the records are the images in order |
| RouteImages.StripStep | _converter/web/server/routes/translation.js:58-62 | one step of the replace keeps the invariant and makes progress |
| RouteImages.PlaceholderAt | _converter/web/server/routes/translation.js:73 | a match of `__IMG_(\d+)__` opens with the marker and a digit and is longer than marker and closer |
| RouteImages.PlaceholderRead | _converter/web/server/routes/translation.js:61-74 | a written placeholder is read back with its own number and length |
| RouteImages.ImageOf | _converter/web/server/routes/translation.js:74-80 | a record stands for the image with its alt, path and title |
| RouteImages.ReinsertImages | _converter/web/server/routes/translation.js:70-82 | the scan computes the replace of every placeholder, or fails when a number names no record, as the callback throws there |
| RouteImages.ReinsertStep | _converter/web/server/routes/translation.js:73-81 | one step either finds the failure or keeps the invariant and makes progress |
| RouteImages.ReinsertCallback | _converter/web/server/routes/translation.js:74-81 | an alt is taken from the translated alts only when the original is non-empty, a title likewise, each falling back to the original; the counters advance accordingly |
| RouteImages.NoPlaceholderAtChar | _converter/web/server/routes/translation.js:61-73 | no placeholder starts at a body character when the body holds no "__IMG_" |
| RouteImages.PScanStripped | _converter/web/server/routes/translation.js:58-73 | the placeholder scan of a stripped body finds each body character and each image's number, in order |
| RouteImages.StripReinsertRoundTrip | _converter/web/server/routes/translation.js:56-82 | for a body without "__IMG_", reinserting into the stripped body never fails and gives what `replaceImageAltTitle` makes of the original body with the same translations (as _converter/web/src/lib/translation.js:204-222 does) |
| ImageRefs.ImageText | _converter/web/src/lib/translation.js:77 | the text a match of IMAGE_RE covers, `m[0]`; MatchText and RefOf state that a match covers exactly the reference it reports |
| ImageRefs.Scan | _converter/web/src/lib/translation.js:84-97 | the global IMAGE_RE scan from a position: every match in order, the text between kept as characters; ScanRoundTrip states that printing the pieces gives the text back |
| ImageRefs.Unparse | _converter/web/src/lib/translation.js:77 | the text of a sequence of scanned pieces; ScanRoundTrip states that it inverts the scan |
| ImageRefs.ImagesOf | _converter/web/src/lib/translation.js:84-97 | every image reference of a text in document order; ExtractImageRefs states that the `exec` loop pushes one record per reference |
| ImageRefs.RefsOf | _converter/web/src/lib/translation.js:88-95 | the records are those of the images, one for one; ExtractImageRefs and MapRefs state that the loop builds them |
| ImageRefs.CharFrom | _converter/web/src/lib/translation.js:77 | the first index at or after `from` holding the character, with none of it before; the length when there is none |
| ImageRefs.TitleAt | _converter/web/src/lib/translation.js:77 | the optional title group `\s+"([^"]*)"` followed by ')' opens after the whitespace at its start and closes at the next '"', just before ')' |
| ImageRefs.PathScan | _converter/web/src/lib/translation.js:77 | the lazy path `[^)]+?` ends before any ')' and is non-empty |
| ImageRefs.MatchAt | _converter/web/src/lib/translation.js:77 | a match at p ends inside the text and has a non-empty path |
| ImageRefs.MatchCharset | _converter/web/src/lib/translation.js:77 | a matched alt holds no ']' and a matched path no ')' |
| ImageRefs.MatchText | _converter/web/src/lib/translation.js:77-93 | the text a match covers is exactly the image reference it reports |
| ImageRefs.ScanRoundTrip | _converter/web/src/lib/translation.js:84-97 | printing the pieces of the global scan gives the text back |
| ImageRefs.Images | _converter/web/src/lib/translation.js:88-95 | the images among the scanned pieces, in order, never more than the pieces |
| ImageRefs.RefOf | _converter/web/src/lib/translation.js:89-94 | a record keeps the alt, the path and the full matched text |
| ImageRefs.MapRefs | _converter/web/src/lib/translation.js:88-95 | one record per image, in order |
| ImageRefs.ExtractImageRefs | _converter/web/src/lib/translation.js:84-97 | the `exec` loop pushes one record per image reference of the body, left to right |
| ImageRefs.AltTexts | _converter/web/src/lib/translation.js:122 | the non-empty alts, never more than the images |
| ImageRefs.TitleTexts | _converter/web/src/lib/translation.js:123 | the non-empty titles, never more than the images |
| TranslationHandlers.OnePerText | _converter/web/server/routes/translation.js:256-264 | the provider answers every batch with one text per entry, which the handler assumes when it indexes and slices the answer; TranslateInto, TranslateAll and TranslateArticle require it |
| TranslationHandlers.DeeplCode | _converter/web/server/routes/translation.js:198 | `DISPLAY_TO_DEEPL[code.toLowerCase()] or code.toUpperCase()`; DisplayCodeDir and UnknownCodeDir state the code sent for known and unknown display codes |
| TranslationHandlers.DirCode | _converter/web/server/routes/translation.js:199 | `DEEPL_TO_DIR[deeplTarget] or targetLang.toLowerCase()`; DisplayCodeDir and UnknownCodeDir state the directory a code is filed under |
| TranslationHandlers.TranslatedFrom | _converter/web/server/routes/translation.js:260-296 | the translated record read off the provider's texts through the index record, None when reinserting images throws; ReassemblyFallbacks, TermsResluggified and IdentityKeepsHeader state the fallbacks, the re-slugged terms and that an identity provider keeps the header |
| TranslationHandlers.ArticleText | _converter/web/src/lib/translation.js:249-269 | what `reassembleTranslation` returns: the new header, a blank line and the body with its images rewritten; ContentIs states that this is the content of a language's record |
| TranslationHandlers.ContentFrom | _converter/web/server/routes/translation.js:260-299 | the translated article of one language, None when reinserting images throws; Reassemble and ContentIs state that the handler's reassembly computes it |
| TranslationHandlers.NoContentResult | _converter/web/server/routes/translation.js:250-253 | the record of a language with an empty batch: its codes, no content, 0 billed characters, error "No translatable content"; EmptyBatchSkipsProvider states that an empty batch gives it whatever the provider |
| TranslationHandlers.LangOutcome | _converter/web/server/routes/translation.js:198-307 | one pass of the language loop, None when it throws; TranslateInto, EmptyBatchSkipsProvider, ProviderSeesBatch and LangCodes state that the pass computes it, when the provider is skipped, what it depends on and which codes it carries |
| TranslationHandlers.SumBilled | _converter/web/server/routes/translation.js:195-258 | the summed billed characters of the records; FoldAligned and ResultsAligned state that it is `totalBilledChars` |
| TranslationHandlers.Fold | _converter/web/server/routes/translation.js:194-310 | the loop's accumulation of `results` and `totalBilledChars`, stopping at the first outcome that throws; FoldStops, FoldAligned and TranslateAll state that a throw stops it, that records align with outcomes, and that the loop computes it |
| TranslationHandlers.ArticleOutcome | _converter/web/server/routes/translation.js:177-315 | `POST /api/translate-article` with the file's text and the provider as parameters; TranslateArticle states the request checks in order (400, 400, 503, 404, 400), the language loop and the 500 on a throw |
| TranslationHandlers.DisplayCodeDir | _converter/web/server/routes/translation.js:198-199 | a known display code, in any case, is sent as its tabled DeepL code and filed under its own lower-cased directory |
| TranslationHandlers.UnknownCodeDir | _converter/web/server/routes/translation.js:198-199 | an unknown code is sent upper-cased and filed lower-cased, unless its upper-cased form is a DeepL code |
| TranslationHandlers.DeeplSource | _converter/web/server/routes/translation.js:255 | no source language is sent exactly when none was given |
| TranslationHandlers.IndicesFit | _converter/web/server/routes/translation.js:202-248 | every index and range the reassembly reads lies inside the batch, and so inside any answer with one text per entry |
| TranslationHandlers.SlugAll | _converter/web/server/routes/translation.js:267-271 | every translated term is slugified, index for index |
| TranslationHandlers.Reassemble | _converter/web/server/routes/translation.js:260-299 | the reassembly computes the translated article of the language, or none when reinserting the images throws |
| TranslationHandlers.ContentIs | _converter/web/server/routes/translation.js:260-299 | the content is the new header, a blank line and the body, from the record the reassembly builds |
| TranslationHandlers.ReassemblyFallbacks | _converter/web/server/routes/translation.js:260-295 | an absent title, excerpt, body or list keeps the original (empty) value or ''; a present title or excerpt is read at its index; no alt or title lists are handed on |
| TranslationHandlers.TermsResluggified | _converter/web/server/routes/translation.js:226-272 | present categories and tags come back as the slugs of the translated terms, one per original term, each a well-formed slug of at most 60 characters |
| TranslationHandlers.SlugsSurviveIdentity | _converter/web/server/routes/translation.js:228-267 | slugs of at most 60 characters come back unchanged when the provider returns the humanized terms as they are |
| TranslationHandlers.IdentityKeepsHeader | _converter/web/server/routes/translation.js:204-272 | a provider that hands the batch back unchanged keeps the title, the excerpt and the taxonomy slugs |
| TranslationHandlers.RangesMatchStoredImages | _converter/web/server/routes/translation.js:274-284 | the translated alt (title) range is exactly as long as the number of stored images with a non-empty alt (title), so the reinsertion consumes exactly those ranges |
| TranslationHandlers.TranslateInto | _converter/web/server/routes/translation.js:198-307 | one pass of the language loop: the batch, the provider call unless the batch is empty, the reassembly |
| TranslationHandlers.EmptyBatchSkipsProvider | _converter/web/server/routes/translation.js:250-253 | an empty batch gives the "No translatable content" record with no content and 0 billed characters, whatever the provider |
| TranslationHandlers.ProviderSeesBatch | _converter/web/server/routes/translation.js:255-256 | the outcome depends on the provider only through its answer to the batch, the target's and source's DeepL codes and the formality |
| TranslationHandlers.FoldStops | _converter/web/server/routes/translation.js:197-315 | once one language throws, the whole handler does |
| TranslationHandlers.FoldAligned | _converter/web/server/routes/translation.js:194-310 | a finished loop answers one record per outcome, in order, and the total is the sum of the records' billed characters |
| TranslationHandlers.TranslateArticle | _converter/web/server/routes/translation.js:177-315 | the request checks in order (400 slug, 400 targetLangs, 503 not configured, 404 missing article, 400 unparsable header), then the language loop; a throw in the loop is a 500 |
| TranslationHandlers.TranslateAll | _converter/web/server/routes/translation.js:194-310 | the loop accumulating `results` and `totalBilledChars` computes the fold of the per-language outcomes |
| TranslationHandlers.ResultsAligned | _converter/web/server/routes/translation.js:194-310 | one record per target language, in order, each with that language's directory and DeepL codes, and the total is the sum of the billed characters |
| TranslationHandlers.LangCodes | _converter/web/server/routes/translation.js:198-199 | each record carries its target's directory and DeepL codes |
| TranslationHandlers.GuessFromText | _converter/web/server/routes/translation.js:104-107 | the guess is EN, SK or CS; CS needs a Czech letter and no Slovak-only letter; EN exactly when none of the three classes occurs |
| TranslationHandlers.GuessSourceLang | _converter/web/server/routes/translation.js:102-108 | the guess is EN, SK or CS, and EN when the header does not parse |
| TranslationHandlers.SlovakLettersFirst | _converter/web/server/routes/translation.js:105 | a Slovak-only letter decides for SK, whatever Czech letters the text also holds |
| TranslationHandlers.GuessIgnoresCase | _converter/web/server/routes/translation.js:105-107 | the `i` flag: an upper-cased text gets the same guess |
| TranslationHandlers.AsciiIsEnglish | _converter/web/server/routes/translation.js:102-108 | a plain ASCII title and excerpt are guessed to be EN |
| TranslationHandlers.DefaultTargetDirs | _converter/web/server/routes/translation.js:124 | one directory per default target |
| TranslationHandlers.GuessedTargets | _converter/web/server/routes/translation.js:124 | the directories offered are the other two of en, sk and cs, never the guessed language's own |
| TranslationHandlers.StatusOutcome | _converter/web/server/routes/translation.js:89-127 | 404 exactly when there is no source article; otherwise two default directories without the guessed language, and EN with 0 characters when the header does not parse |
| TranslationHandlers.LangCount | _converter/web/server/routes/translation.js:152 | the number of target languages asked for, or 2 when none are; so at least 1 |
| TranslationHandlers.EstimateFor | _converter/web/server/routes/translation.js:151-166 | the total is the characters per language times the number of languages (2 when none); the remaining quota is limit minus used, sufficient exactly when it covers the total |
| TranslationHandlers.EstimateOutcome | _converter/web/server/routes/translation.js:135-169 | fails exactly when the slug is empty, the service is not configured, the article is missing or its header does not parse, with 400, 503, 404 and 400 in the handler's order |
| TranslationHandlers.EstimateTranslation | _converter/web/server/routes/translation.js:135-169 | the handler, counting with `countTranslatableChars`, computes the outcome |
| TranslationHandlers.NoTargetsCountAsTwo | _converter/web/server/routes/translation.js:152 | asking for no languages is estimated as asking for two |
| TranslationHandlers.SufficientForFewer | _converter/web/server/routes/translation.js:152-166 | a quota sufficient for some languages is sufficient for fewer |
| GenerateImages.GenName | _converter/generate_images.py:284 | `f'gen-{index + 1:03d}'`; GenNamesDistinct and FirstGenName state that the names differ for different indices and that the first is 'gen-001' |
| GenerateImages.PromptSlugPy | _converter/generate_images.py:278-282 | the slug of `_prompt_to_filename` before the fallback; SlugAgrees and PromptToFilename state that it is the front end's slug and when the fallback is taken |
| GenerateImages.IsHeading | _converter/generate_images.py:336 | `re.match(r'^## ', line)`; HeadingIndices states that exactly such lines are collected, in order |
| GenerateImages.Available | _converter/generate_images.py:348 | the headings after the first, or the only one when there is just one; InsertionsShape and CrowdedLosesImage state where images can go and what crowding loses |
| GenerateImages.Distribute | _converter/generate_images.py:349-353 | the insertion map after the first n remaining images are placed at `min((j + 1) * step, len - 1)`; DistributeKeys, RoomForAll and DistributeLoop state that it only adds heading keys, that with room each image gets its own slot, and that the loop computes it |
| GenerateImages.Insertions | _converter/generate_images.py:339-353 | the insertion map of `_place_before_sections`, line number to image; InsertionsShape, InsertionsSize, CrowdedLosesImage and BuildInsertions state the hero at line 0, images only before headings, the loss under crowding and that the loop builds it |
| GenerateImages.BeforeSections | _converter/generate_images.py:326-360 | `_place_before_sections(body, images)`; BeforeSectionsLines and PlaceBeforeSections state that the blocks go before their lines, the body is otherwise kept, and the reverse-order inserts compute it |
| GenerateImages.ImageBlock | _converter/generate_images.py:369 | the images' Markdown joined by blank lines; AfterIntroBeforeHeading states that it is followed by a blank line and the first heading |
| GenerateImages.AfterIntroText | _converter/generate_images.py:368-375 | what `_place_after_intro` inserts: "\n\n" and the block after a body with no "## " heading, the block and "\n\n" before the first heading; AfterIntroLayout states that the body around it is unchanged |
| GenerateImages.PlaceAfterIntro | _converter/generate_images.py:363-375 | `_place_after_intro(body, images)`; AfterIntroLayout and AfterIntroBeforeHeading state that without images the body is kept and otherwise the block sits before the first "## " heading, or after the body, with the text around it unchanged |
| GenerateImages.FeaturedLine | _converter/generate_images.py:380-381 | the line `featured_image: <path>` with the path's leading '/' removed; FeaturedPathRelative states that the written path never starts with '/' |
| GenerateImages.SubFeatured | _converter/generate_images.py:389-394 | `re.sub(r'^featured_image:\s*.+$', line, flags=re.MULTILINE)` scanning left to right, `\s*` free to cross line breaks; UpdateForced states that the text before the first match is kept and the match becomes the new line |
| GenerateImages.InsertBeforeClose | _converter/generate_images.py:397-401 | `frontmatter.replace('\n---', f'\n{line}\n---', 1)`, the text unchanged without a "\n---"; UpdateInserts states that the line goes in just before the first "\n---" |
| GenerateImages.UpdateFeaturedImage | _converter/generate_images.py:378-401 | `update_featured_image(frontmatter, image_path, force)`; UpdateKeeps, UpdateForced, UpdateInserts, UpdateIdempotent and UpdateHasFeatured state when it keeps, replaces or inserts, that a second unforced update changes nothing, and that the result has a featured line |
| GenerateImagesFinding.Spread | _converter/generate_images.py:349-353 | the corrected distribution, each remaining image in a slot of its own; SpreadKeepsAll, SpreadKeepsHero and SpreadIsDistribute state that none is overwritten, the hero stays, and it equals the script's map where that has room |
| GenerateImagesFinding.InsertionsSpread | _converter/generate_images.py:339-353 | the corrected insertion map; SpreadPlacesEveryImage and SpreadAgreesWithRoom state that every image is placed and that nothing changes where the script had room |
| GenerateImagesFinding.IsFeaturedLine | _converter/generate_images.py:383 | a line starting `featured_image:`, the corrected pattern kept within its line; ForcedUpdateKeepsLines states that only such lines are replaced |
| GenerateImagesFinding.FixLine | _converter/generate_images.py:389-394 | the corrected substitution for one line: a featured-image line becomes the new line, any other is kept; ForcedUpdateKeepsLines states its effect on the whole text |
| GenerateImagesFinding.UpdateFeaturedLine | _converter/generate_images.py:383-401 | the corrected `update_featured_image`, substituting line by line; ForcedUpdateKeepsLines and ForcedUpdateKeepsDelimiter state that a forced update keeps the line count and the closing "---" |
| GenerateImages.SplitFrontmatter | _converter/generate_images.py:204-210 | without a front-matter block the script exits with status 2; otherwise the block opens with "---\n", ends with "\n---", and block, at most one line break and body make up the file |
| GenerateImages.SplitAgreesWithLibrary | _converter/generate_images.py:204-210 | the script and the translation library accept the same articles and cut them at the same place (as _converter/web/src/lib/translation.js:14-25 does) |
| GenerateImages.PromptToFilename | _converter/generate_images.py:271-285 | `gen-NNN` exactly when the lower-cased prompt has no `[a-z0-9]` character; otherwise a well-formed slug of 1 to `max_length` characters |
| GenerateImages.GenNamesDistinct | _converter/generate_images.py:284 | the fallback names start with "gen-", are at least three digits wide, and differ for different indices |
| GenerateImages.SlugAgrees | _converter/generate_images.py:278-282 | the script's slug of a prompt is the front end's: Python's `strip` before the replacement changes nothing (as _converter/web/server/image-utils.js:16-20 does) |
| GenerateImages.FilenameAgreesWithFrontEnd | _converter/generate_images.py:271-285 | the name of the first image is the front end's `promptToFilename` (as _converter/web/server/image-utils.js:15-22 does) |
| GenerateImages.FirstGenName | _converter/generate_images.py:284 | the first image's fallback is 'gen-001', the front end's fallback (as _converter/web/server/image-utils.js:21 does) |
| GenerateImages.CleanCaption | _converter/generate_images.py:291-303 | the prompt stripped, trailing '.' removed, first letter upper-cased when lower-case; nothing else changes |
| GenerateImages.BeforeLastSpace | _converter/generate_images.py:295-305 | `rsplit(' ', 1)[0]`: a prefix ending just before the last space, or the whole text without a space |
| GenerateImages.Caption | _converter/generate_images.py:288-306 | never longer than the limit; the clean caption when it fits, otherwise a cut of its first `limit - 3` characters followed by "..." |
| GenerateImages.PromptToAlt | _converter/generate_images.py:288-296 | at most 125 characters: the clean caption, or a cut of its first 122 characters with "..." |
| GenerateImages.PromptToTitle | _converter/generate_images.py:299-306 | at most 200 characters: the clean caption, or a cut of its first 197 characters with "..." |
| GenerateImages.ShortPromptSameCaptions | _converter/generate_images.py:288-306 | a prompt whose clean caption fits 125 characters gets the same alt text and title |
| GenerateImages.ImageMarkdown | _converter/generate_images.py:309-314 | `![alt](path "title")` adds eight characters to its parts |
| GenerateImages.ImageMarkdownReadBack | _converter/generate_images.py:309-314 | the reference written for an image is matched whole by the translation library's image pattern, with the same alt, path and title (as _converter/web/src/lib/translation.js:77 does) |
| GenerateImages.HeadingIndices | _converter/generate_images.py:336 | exactly the lines that start with "## ", in increasing order |
| GenerateImages.StepFor | _converter/generate_images.py:349 | the step is at least 1 |
| GenerateImages.SlotFor | _converter/generate_images.py:351 | the slot is a valid index of the available headings |
| GenerateImages.DistributeKeys | _converter/generate_images.py:350-353 | distributing keeps the earlier keys, adds only available headings, and leaves the images of untouched keys |
| GenerateImages.InsertionsShape | _converter/generate_images.py:339-353 | an image always goes at line 0, others only before "## " headings; with no heading or one image only the hero is placed; the hero stays unless the only heading is line 0, where the last image replaces it |
| GenerateImages.RoomForAll | _converter/generate_images.py:348-353 | with more available headings than remaining images, the j-th remaining image goes before the heading at `(j + 1) * step` and no later image takes its place |
| GenerateImages.CrowdedLosesImage | _converter/generate_images.py:345-353 | with at least two remaining images and no more available headings than remaining images, fewer images are placed than given |
| GenerateImages.Block | _converter/generate_images.py:357 | the inserted block holds a line break |
| GenerateImages.PlacedKeepsLines | _converter/generate_images.py:355-358 | taking out the inserted blocks gives back the original lines, in order |
| GenerateImages.PlacedCount | _converter/generate_images.py:355-358 | one block per key: the original lines plus one line per key |
| GenerateImages.InsertionsSize | _converter/generate_images.py:339-353 | the insertion map never holds more images than were given |
| GenerateImages.BeforeSectionsLines | _converter/generate_images.py:326-360 | the result is the joined placed lines; without the blocks it is the body; the first line is the hero block; one block per key, never more than the images |
| GenerateImages.PlaceBeforeSections | _converter/generate_images.py:326-360 | the map building and the reverse-order inserts compute the placement before sections |
| GenerateImages.BuildInsertions | _converter/generate_images.py:339-353 | the loop fills the insertion map: the hero, then the remaining images among the headings |
| GenerateImages.DistributeLoop | _converter/generate_images.py:350-353 | the `enumerate` loop assigns each remaining image to its slot, later ones overwriting |
| GenerateImages.InsertBlocks | _converter/generate_images.py:356-358 | inserting highest line first places every block before its original line |
| GenerateImages.InsertOne | _converter/generate_images.py:357-358 | one insert puts the block of the highest remaining key before its line and keeps the loop state |
| GenerateImages.IntroEnd | _converter/generate_images.py:368-374 | the first line start followed by "## ", or the end of the body when there is none |
| GenerateImages.AfterIntroLayout | _converter/generate_images.py:363-375 | without images the body is unchanged; otherwise the block goes in at the end of the intro, with the text before and after it unchanged |
| GenerateImages.AfterIntroBeforeHeading | _converter/generate_images.py:374-375 | the inserted block is followed by a blank line and the first heading |
| GenerateImages.InsertImages | _converter/generate_images.py:317-323 | "before-sections" and "after-intro" choose the placement; any other placement returns the body |
| GenerateImages.FeaturedMatchAt | _converter/generate_images.py:383 | a match of `^featured_image:\s*.+$` starts at a line start with the key and ends at a line end |
| GenerateImages.FirstFeatured | _converter/generate_images.py:383 | `re.search` finds the first position where the pattern matches, or reports that none does |
| GenerateImages.UpdateKeeps | _converter/generate_images.py:383-401 | the front matter is unchanged when it has a featured image and the update is not forced, or when it has none and no "\n---" |
| GenerateImages.UpdateForced | _converter/generate_images.py:388-394 | forced, the text before the first match is kept and the match becomes the new line |
| GenerateImages.UpdateInserts | _converter/generate_images.py:396-401 | without a featured image, the new line goes in just before the first "\n---", all else kept |
| GenerateImages.FeaturedPathRelative | _converter/generate_images.py:380-399 | the written path never starts with '/' |
| GenerateImages.UpdateHasFeatured | _converter/generate_images.py:378-401 | after an update of front matter with a "\n---", it has a featured image line |
| GenerateImages.UpdateIdempotent | _converter/generate_images.py:378-401 | a second unforced update changes nothing |
| GenerateImages.InsertedLineMatches | _converter/generate_images.py:383-401 | a `featured_image:` line inserted before "\n---" is found by the pattern |
| GenerateImagesFinding.SpreadSlot | _converter/generate_images.py:349-351 | the corrected slot is a valid index of the available headings |
| GenerateImagesFinding.SpreadSlotsApart | _converter/generate_images.py:349-351 | with a heading for every remaining image, the corrected slots grow strictly |
| GenerateImagesFinding.SpreadKeepsAll | _converter/generate_images.py:350-353 | with a heading for every remaining image, no image is overwritten by a later one |
| GenerateImagesFinding.SpreadKeepsHero | _converter/generate_images.py:342-353 | the hero stays when line 0 is not an available heading |
| GenerateImagesFinding.SpreadPlacesEveryImage | _converter/generate_images.py:339-353 | corrected: with as many available headings as remaining images, the hero stays at line 0 and every other image has a heading of its own |
| GenerateImagesFinding.SpreadIsDistribute | _converter/generate_images.py:349-353 | where the script has room for every image, the corrected map is the one it builds |
| GenerateImagesFinding.SpreadAgreesWithRoom | _converter/generate_images.py:339-353 | with more available headings than remaining images, the correction changes nothing |
| GenerateImagesFinding.ForcedUpdateEatsDelimiter | _converter/generate_images.py:383-394 | as written: an empty `featured_image:` line counts as set, and a forced update replaces it together with the closing "---" |
| GenerateImagesFinding.ForcedUpdateKeepsLines | _converter/generate_images.py:383-394 | corrected: a forced update keeps the number of lines and every line not starting with `featured_image:`; those that do become the new line |
| GenerateImagesFinding.ForcedUpdateKeepsDelimiter | _converter/generate_images.py:383-394 | corrected, the front matter with an empty `featured_image:` line keeps its closing "---" |
| ImagesPy.Placeholder | _converter/lib/images.py:72 | the placeholder `__IMAGE_n__` the converters leave for image n; NoPlaceholderLeft, SortKeyAsWrittenRaises and SortKeyCorrectedReads state what replacement and the sort key do with it |
| ImagesPy.Replace | _converter/lib/images.py:71-72 | `s.replace(pat, rep)`, every occurrence left to right without overlap; ReplaceKeepsAbsent and SubstituteAllRemoves state what it cannot create and that it removes the pattern |
| ImagesPy.SubstituteAll | _converter/lib/images.py:69-72 | the text after the loop over the mapping, in its order; SubstituteAllRemoves states that no placeholder of the mapping is left when no path holds one |
| ImagesPy.ImageRef | _converter/lib/images.py:72 | the Markdown `![image](path)`; ImgTagRewritten states that a reached tag becomes it |
| ImagesPy.ImgSub | _converter/lib/images.py:74-78 | `re.sub(r'<img[^>]*src="([^"]+)"[^>]*/?>', r'![image](\1)', …)` from a position on; ImgTagRewritten and ImgSubKeepsAbsent state what a reached tag becomes and what the rewrite cannot create |
| ImagesPy.ReplacedPlaceholders | _converter/lib/images.py:67-79 | `replace_image_placeholders(md, mapping)`; ReplaceImagePlaceholders and NoPlaceholderLeft state that the loop and the tag rewrite compute it and that no placeholder of the mapping is left |
| ImagesPy.ParseInt | _converter/lib/images.py:117 | `int(t)` on a non-empty run of decimal digits, None where `int()` raises ValueError; SortKeyAsWrittenRaises and SortKeyCorrectedReads rest on it |
| ImagesPy.SortKeyAsWritten | _converter/lib/images.py:117 | the key `int(k.split('_')[2].rstrip('_'))`, None where it raises; SortKeyAsWrittenRaises states that it raises for every placeholder |
| ImagesPy.SortKeyCorrected | _converter/lib/images.py:117 | the evidently intended key, the number in the placeholder; SortKeyCorrectedReads states that it reads n from `__IMAGE_n__` |
| ImagesPy.GetFirstImagePath | _converter/lib/images.py:112-120 | `get_first_image_path(mapping)` as written; AsWrittenAlwaysRaises states that every non-empty mapping raises and the empty one gives None |
| ImagesPy.GetFirstImagePathCorrected | _converter/lib/images.py:112-120 | `get_first_image_path` with the intended key; CorrectedFindsFirst states that it gives the path of the lowest-numbered image without its leading '/' |
| ImagesPy.DisjointFromPlaceholder | _converter/lib/images.py:71-72 | text of characters that never appear in a placeholder shares none with it |
| ImagesPy.ReplaceKeepsAbsent | _converter/lib/images.py:71-72 | `str.replace` with a replacement clean for a text never creates an occurrence of it: absent before, absent after |
| ImagesPy.ReplaceRemoves | _converter/lib/images.py:72 | after `str.replace` with a replacement clean for the pattern, the pattern is gone |
| ImagesPy.ReplaceFirst | _converter/lib/images.py:71-72 | the first occurrence is replaced, the text before it kept and the replacement resumes right after it |
| ImagesPy.SrcAt | _converter/lib/images.py:75 | a match of `src="([^"]+)"[^>]*/?>` has its value right after `src="`, non-empty, before the end |
| ImagesPy.LastSrc | _converter/lib/images.py:75 | the greedy `[^>]*` settles on a `src="` match within the range |
| ImagesPy.ImgTagAt | _converter/lib/images.py:75 | a match of the tag pattern has a non-empty value after `<img` and `src="`, inside the match |
| ImagesPy.ImgTagMatches | _converter/lib/images.py:75 | an `<img … src="value" …>` tag whose value is non-empty without '"', '>' or '=' and whose attributes hold no '>' is matched whole, the group being the value |
| ImagesPy.ImgTagRewritten | _converter/lib/images.py:74-78 | where the rewrite reaches such a tag, it becomes `![image](value)` and the rewrite resumes after it |
| ImagesPy.ImgSubKeepsAbsent | _converter/lib/images.py:74-78 | the tag rewrite never creates an occurrence of a text foreign to `![image](` and `)` |
| ImagesPy.ReplaceImagePlaceholders | _converter/lib/images.py:67-79 | the loop over the mapping and the final tag rewrite compute the replaced Markdown |
| ImagesPy.SubstituteAllRemoves | _converter/lib/images.py:69-72 | after the loop no placeholder of the mapping is left, when no path holds one |
| ImagesPy.NoPlaceholderLeft | _converter/lib/images.py:67-79 | after `replace_image_placeholders` no placeholder of the mapping is left, when no mapped path holds one |
| ImagesPy.MinIndex | _converter/lib/images.py:117 | `min(..., key=...)`: fails exactly when some key raises; otherwise the first entry with the least key |
| ImagesPy.FirstImagePathBy | _converter/lib/images.py:112-120 | no image exactly when the mapping is empty |
| ImagesPy.SortKeyAsWrittenRaises | _converter/lib/images.py:117 | as written, the key of every `__IMAGE_N__` raises: its third part is 'IMAGE' |
| ImagesPy.SortKeyCorrectedReads | _converter/lib/images.py:117 | the corrected key of `__IMAGE_N__` is N |
| ImagesPy.AsWrittenAlwaysRaises | _converter/lib/images.py:112-120 | as written, every non-empty mapping raises ValueError and the empty one gives None |
| ImagesPy.CorrectedFindsFirst | _converter/lib/images.py:112-120 | corrected, a non-empty mapping gives the path of the image with the smallest number, first among equals, without its leading '/' |
| ConverterText.PyIsUpper | _converter/lib/rtf_converter.py:114 | `str.isupper()`: at least one upper-case letter and no lower-case one; HeadingRules states the all-capitals heading rule it decides |
| ConverterText.FilenameTitle | _converter/lib/rtf_converter.py:69-71 | the title from the file name, `splitext(basename(path))[0]` with '-' and '_' as spaces, title-cased (also docx_converter.py:121-123 and pdf_converter.py:52-54); FilenameTitleShape states one character per stem character and no '-', '_' or '/' |
| ConverterText.BlankFrom | _converter/lib/docx_converter.py:138-141 | line i emptied, and line i + 1 too when it is blank (also pdf_converter.py:224-232); BlankFromShape states that the line count is kept and nothing else changes |
| ConverterText.LowerMapping | _converter/lib/rtf_converter.py:114-115 | lower-casing is idempotent and keeps a letter cased or uncased |
| ConverterText.UpperMapping | _converter/lib/rtf_converter.py:114-115 | upper-casing is idempotent and keeps a letter cased or uncased |
| ConverterText.CaseKeepsAscii | _converter/lib/rtf_converter.py:114-115 | case mapping leaves every ASCII character that is not a letter alone |
| ConverterText.PyTitle | _converter/lib/rtf_converter.py:115 | `str.title()` keeps the length |
| ConverterText.TitleIdempotent | _converter/lib/rtf_converter.py:115 | title-casing a title-cased text changes nothing |
| ConverterText.TitleKeepsAscii | _converter/lib/rtf_converter.py:71 | title-casing keeps every ASCII character that is not a letter where it was, and brings none in |
| ConverterText.Basename | _converter/lib/rtf_converter.py:70 | `os.path.basename`: the suffix of the path after its last '/', holding none |
| ConverterText.SplitExt | _converter/lib/rtf_converter.py:70 | `os.path.splitext`: root and extension make up the name; the extension is empty or one '.' followed by no other; a name with an extension has a root with a character other than '.' |
| ConverterText.DotFileHasNoExt | _converter/lib/rtf_converter.py:70 | a name whose last dot only follows dots has no extension |
| ConverterText.Respace | _converter/lib/rtf_converter.py:71 | every '-' and '_' becomes a space, every other character stays |
| ConverterText.FilenameTitleShape | _converter/lib/rtf_converter.py:69-71 | the title from the file name has one character per character of the stem, and no '-', '_' or '/' |
| ConverterText.BlankFromShape | _converter/lib/docx_converter.py:138-141 | blanking keeps the number of lines, empties line i, and changes nothing else but line i + 1 when that one is blank |
| ConverterText.BlankedLinesRejoin | _converter/lib/docx_converter.py:131-143 | lines without line breaks, some of them emptied, join and split back into the same lines |
| RtfConverter.Short | _converter/lib/rtf_converter.py:66 | a line whose stripped text has at most three characters; FirstLongLine and TitleFromName state how `_extract_title` skips such lines |
| RtfConverter.IsBullet | _converter/lib/rtf_converter.py:105 | the bullet class `[•‣◦\-*]`; BulletItem and BulletRoundTrip state what a bullet line gives |
| RtfConverter.EndsSentence | _converter/lib/rtf_converter.py:146 | the characters `.,:;!?)` that keep a short line from being a heading; HeadingRules states the rule |
| RtfConverter.IsHeadingCandidate | _converter/lib/rtf_converter.py:127-150 | `_is_heading_candidate(text, lines, index)`: over 80 characters never, all capitals and over 3 always, otherwise a next line that is blank, under 60 characters and no sentence end; HeadingRules states these rules |
| RtfConverter.HeadingLine | _converter/lib/rtf_converter.py:114-117 | the heading written for a candidate, "## " and the text, title-cased when it is all capitals and under 80 characters; HeadingRules states it |
| RtfConverter.Step | _converter/lib/rtf_converter.py:88-122 | one iteration of the loop on a classified line, with the `title_removed` flag; FormatLine states that the loop body computes it |
| RtfConverter.Run | _converter/lib/rtf_converter.py:86-122 | the state after the first n lines; FormatLines, RunRemoved and TitleDroppedOnce state that the loop computes it, when the flag is set, and that only the first title line is dropped |
| RtfConverter.Formatted | _converter/lib/rtf_converter.py:74-124 | the Markdown `_format_as_markdown(text, title)` returns; FormatAsMarkdown and FormattedSpacing state that the method computes it and that it never holds two empty lines in a row |
| RtfConverter.StripIsStripped | _converter/lib/rtf_converter.py:89 | a stripped line has no whitespace at either end |
| RtfConverter.LStripStripped | _converter/lib/rtf_converter.py:89 | stripping the front of a line ending in a non-space leaves a stripped, non-empty line |
| RtfConverter.LinesHaveNoBreak | _converter/lib/rtf_converter.py:82 | the lines `text.split('\n')` gives hold no line break |
| RtfConverter.FirstLongLine | _converter/lib/rtf_converter.py:64-67 | the first line whose stripped text is longer than three characters, or none when every line is short |
| RtfConverter.ExtractTitle | _converter/lib/rtf_converter.py:62-71 | the title is the first stripped line longer than three characters, or the title from the file name when there is none |
| RtfConverter.TitleFromLine | _converter/lib/rtf_converter.py:64-67 | the first long line, stripped, is a title |
| RtfConverter.TitleFromName | _converter/lib/rtf_converter.py:69-71 | with only short lines the file-name title is the title |
| RtfConverter.BulletItem | _converter/lib/rtf_converter.py:105 | the group of a bullet line is non-empty and stripped |
| RtfConverter.DigitRun | _converter/lib/rtf_converter.py:106 | the leading run of digits, up to the first non-digit |
| RtfConverter.NumberedItem | _converter/lib/rtf_converter.py:106 | a numbered line gives a non-empty run of digits and a non-empty stripped item |
| RtfConverter.BulletRoundTrip | _converter/lib/rtf_converter.py:105-109 | the list line written for an item is read back as a list line for the same item |
| RtfConverter.NumberedRoundTrip | _converter/lib/rtf_converter.py:106-111 | the numbered line written for an item is read back with the same number and item |
| RtfConverter.Emit | _converter/lib/rtf_converter.py:104-120 | what a non-blank line contributes: one non-empty line, or a heading line followed by one empty line |
| RtfConverter.HeadingRules | _converter/lib/rtf_converter.py:112-150 | a line over 80 characters is never a heading; an all-capitals line of 4 to 79 characters becomes a title-cased "## " heading; otherwise a heading exactly when the next line is blank, the line is under 60 characters and it does not end in sentence punctuation |
| RtfConverter.Classify | _converter/lib/rtf_converter.py:88-120 | a line is blank exactly when its stripped text is empty; otherwise it carries its stripped text and what it contributes |
| RtfConverter.FormatAsMarkdown | _converter/lib/rtf_converter.py:74-124 | the split, the loop and the join compute the formatted Markdown |
| RtfConverter.FormatLines | _converter/lib/rtf_converter.py:86-122 | the while loop computes the run over the classified lines |
| RtfConverter.FormatLine | _converter/lib/rtf_converter.py:88-122 | one pass of the loop body is one step of the run |
| RtfConverter.EmitLines | _converter/lib/rtf_converter.py:104-120 | the list, numbered, heading and plain branches append what the line contributes |
| RtfConverter.FormattedSpacing | _converter/lib/rtf_converter.py:91-96 | the Markdown never starts with an empty line and never holds two empty lines in a row |
| RtfConverter.RunRemoved | _converter/lib/rtf_converter.py:84-100 | `title_removed` is set exactly when a non-blank line equal to the title has been met |
| RtfConverter.TitleDroppedOnce | _converter/lib/rtf_converter.py:98-102 | only the first line equal to the title is dropped; every other non-blank line contributes its lines |
| RtfConverter.EmittedLines | _converter/lib/rtf_converter.py:89-120 | a non-blank line is classified with its stripped text and what that contributes |
| RtfConverter.ConvertText | _converter/lib/rtf_converter.py:9-38 | after reading and stripping the RTF: the title, the formatted Markdown with that title, and no images |
| DocxConverter.IsMetafile | _converter/lib/docx_converter.py:42 | the subtypes 'x-wmf', 'x-emf', 'wmf' and 'emf' the handler skips; ImageExt and CollectIndexed state that no metafile is collected |
| DocxConverter.Collect | _converter/lib/docx_converter.py:34-48 | the image list after a sequence of handler calls; CollectIndexed, CollectFromCalls and CollectSnoc state the 0, 1, 2 numbering, the provenance of each entry and one call's effect |
| DocxConverter.IsTitleHeading | _converter/lib/docx_converter.py:133-137 | a stripped line starting with '#' whose text after the '#' run, stripped, is the title; FirstTitleHeading and HeadingForTitle state which line is found and that `# title` is one |
| DocxConverter.PlainTitle | _converter/lib/docx_converter.py:136-137 | a title with no line break, no '#' at its start and no whitespace at either end; HeadingForTitle and OpeningHeadingRemoved assume it, so that `# title` is a heading for that title |
| DocxConverter.HeadingRemoved | _converter/lib/docx_converter.py:126-143 | the lines after `_remove_first_heading`; HeadingRemovedShape, NoHeadingUnchanged and OpeningHeadingRemoved state that the line count is kept, only the heading and a following blank line are emptied, and nothing changes without a heading |
| DocxConverter.Subtype | _converter/lib/docx_converter.py:38 | `content_type.split('/')[-1]` holds no '/' |
| DocxConverter.ImageExt | _converter/lib/docx_converter.py:38-45 | no extension exactly for a Windows metafile; otherwise the subtype, with 'jpeg' written 'jpg' |
| DocxConverter.ImageCollector.constructor | _converter/lib/docx_converter.py:32 | the image list starts empty |
| DocxConverter.ImageCollector.HandleImage | _converter/lib/docx_converter.py:34-48 | a metafile gives `{}` and leaves the list; any other image is appended under the next index with its bytes and extension, and gives the `src` placeholder for that index |
| DocxConverter.CollectSnoc | _converter/lib/docx_converter.py:42-48 | one more handler call extends the list by the image it keeps, if any |
| DocxConverter.CollectIndexed | _converter/lib/docx_converter.py:34-48 | the list numbers its images 0, 1, 2, … in order, one per call that was not a metafile, with no metafile and no 'jpeg' extension |
| DocxConverter.CollectFromCalls | _converter/lib/docx_converter.py:36-47 | every collected image has the bytes and extension of some handler call |
| DocxConverter.PlaceholdersDistinct | _converter/lib/docx_converter.py:46-48 | two collected images never share a placeholder |
| DocxConverter.ExtractTitle | _converter/lib/docx_converter.py:103-123 | the first h1, else h2, else h3 text; else a bold text longer than five characters; else the title from the file name |
| DocxConverter.TitleSource | _converter/lib/docx_converter.py:103-123 | the title is a heading's text, a bold text longer than five characters, or the file-name title, the last exactly when neither of the others is there |
| DocxConverter.FirstTitleHeading | _converter/lib/docx_converter.py:132-137 | the first line that is a heading for the title, with none before it, or none at all |
| DocxConverter.HeadingRemovedShape | _converter/lib/docx_converter.py:126-143 | the number of lines is kept; at most the first heading for the title and the blank line right after it change, both to empty lines; without such a heading nothing changes |
| DocxConverter.BlankFirstHeading | _converter/lib/docx_converter.py:132-142 | the loop with its `break` blanks the lines of the removal in place |
| DocxConverter.RemoveFirstHeading | _converter/lib/docx_converter.py:126-143 | the Markdown joined from the lines after the removal |
| DocxConverter.RemovalKeepsLines | _converter/lib/docx_converter.py:131-143 | the Markdown after the removal has exactly the lines of the removal, as many as before |
| DocxConverter.NoHeadingUnchanged | _converter/lib/docx_converter.py:126-143 | without a heading for the title the Markdown comes back unchanged |
| DocxConverter.HeadingForTitle | _converter/lib/docx_converter.py:133-137 | `# title` is a heading for the title |
| DocxConverter.OpeningHeadingRemoved | _converter/lib/docx_converter.py:126-143 | a document opening with `# title` loses that line and, when the next is blank, that one too; everything after is kept |
| DocxConverter.ConvertDocx | _converter/lib/docx_converter.py:77-83 | the title from the HTML, and the Markdown with its lines after the removal for that title |
| PdfConverter.Collapse | _converter/lib/pdf_converter.py:132 | `re.sub(r'\s+', ' ', s)`; CollapseShape, CollapseAround and CollapseKeeps state that no two spaces remain, runs between words become one space, and single-spaced text is kept |
| PdfConverter.FuzzyMatch | _converter/lib/pdf_converter.py:201 | `stored.startswith(short) or short.startswith(stored[:30])`; KeyMatchesItself, SharedPrefixMatches, ShortStoredKeyMatches and DifferentKeysDoNotMatch state when keys match |
| PdfConverter.TitleNorm | _converter/lib/pdf_converter.py:217 | `title.strip().lower()`; HeadingIsTitleLine states that a heading with that text is a title line |
| PdfConverter.IsTitleLine | _converter/lib/pdf_converter.py:219-229 | a heading of one to six '#' whose text is the title ignoring case, or among the first five lines the stripped text itself; FirstTitleLine and HeadingIsTitleLine state which line is found |
| PdfConverter.TitleRemoved | _converter/lib/pdf_converter.py:214-235 | the lines after `_remove_title_from_content`; TitleRemovedShape and TitleRemovalKeepsLines state that the line count is kept, only the title line and a following blank line are emptied, and a title line from the sixth on is a heading |
| PdfConverter.CollapseShape | _converter/lib/pdf_converter.py:132 | `re.sub(r'\s+', ' ', …)` leaves no two spaces in a row, is empty only for empty text, starts with a space exactly when the text starts with whitespace, and is never longer than the text |
| PdfConverter.StripSpacing | _converter/lib/pdf_converter.py:132 | stripping single-spaced text keeps it single-spaced and leaves no whitespace at either end |
| PdfConverter.LowerSpacing | _converter/lib/pdf_converter.py:132 | lower-casing stripped single-spaced text keeps its spacing and leaves no upper-case letter |
| PdfConverter.KeyPrefix | _converter/lib/pdf_converter.py:133 | cutting a normalised text to 60 characters keeps it a lookup key |
| PdfConverter.Normalize | _converter/lib/pdf_converter.py:129-133 | the lookup key is at most 60 characters, lower-case, single-spaced and does not start with whitespace |
| PdfConverter.CollapseAround | _converter/lib/pdf_converter.py:132 | any run of whitespace between two words becomes exactly one space |
| PdfConverter.NormalizeSpacing | _converter/lib/pdf_converter.py:129-133 | two texts that differ only in the whitespace run between two words get the same key |
| PdfConverter.CollapseKeeps | _converter/lib/pdf_converter.py:132 | single-spaced text is left as it is by the collapse |
| PdfConverter.NormalizeFixes | _converter/lib/pdf_converter.py:129-133 | a lookup key that does not end in a space normalises to itself |
| PdfConverter.Take | _converter/lib/pdf_converter.py:199 | a slice `[:n]` is a prefix of at most n characters, the whole text when that is short enough |
| PdfConverter.FuzzyFrom | _converter/lib/pdf_converter.py:200-202 | the first stored entry from a position on whose key matches the short key, with none before it, or none at all |
| PdfConverter.Fuzzy | _converter/lib/pdf_converter.py:194-203 | no match for a key under five characters; otherwise the value of the first entry whose key starts with the key's first 30 characters or whose first 30 characters start the short key, and no value exactly when no entry matches |
| PdfConverter.FuzzyFontLookup | _converter/lib/pdf_converter.py:194-203 | the loop returns the value of the first matching entry, the same as the reference definition |
| PdfConverter.KeyMatchesItself | _converter/lib/pdf_converter.py:201 | every key matches its own first 30 characters |
| PdfConverter.StoredKeyFound | _converter/lib/pdf_converter.py:194-203 | a key of five characters or more that is stored is always found |
| PdfConverter.SharedPrefixMatches | _converter/lib/pdf_converter.py:201 | keys that share their first 30 characters match |
| PdfConverter.ShortStoredKeyMatches | _converter/lib/pdf_converter.py:201 | a stored key of at most 30 characters that starts the key matches |
| PdfConverter.DifferentKeysDoNotMatch | _converter/lib/pdf_converter.py:201 | keys that differ in one of their first 30 characters do not match |
| PdfConverter.HashRun | _converter/lib/pdf_converter.py:208 | the run of '#' from a position ends at the first character that is not '#' |
| PdfConverter.SpaceEnd | _converter/lib/pdf_converter.py:208 | `\s+` consumes whitespace up to the first character that is not whitespace |
| PdfConverter.LastNonBreak | _converter/lib/pdf_converter.py:208 | the greedy `(.+)` ends at the last character before the line break |
| PdfConverter.HeadingMatch | _converter/lib/pdf_converter.py:208 | a heading match starts a line, has between the lower bound and six '#', then whitespace, and captures a non-empty text without a line break |
| PdfConverter.FirstHeadingAt | _converter/lib/pdf_converter.py:208 | the first position from a given one where a heading of level two to six matches, with none in between, or none at all |
| PdfConverter.ExtractFirstHeading | _converter/lib/pdf_converter.py:206-211 | the stripped text of the first heading of level two to six in multi-line mode, or nothing when no line matches |
| PdfConverter.SecondLevelHeadingFound | _converter/lib/pdf_converter.py:206-211 | a text opening with `## t` gives the stripped t |
| PdfConverter.BareHashesTakeNextLine | _converter/lib/pdf_converter.py:206-211 | `##` alone on a line takes the next line as the heading, since `\s+` also consumes the line break |
| PdfConverter.FirstLevelIgnored | _converter/lib/pdf_converter.py:208 | a first-level heading alone is not a heading for the title |
| PdfConverter.FirstTitleLine | _converter/lib/pdf_converter.py:218-234 | the first line that is a heading with the title's text, or one of the first five lines equal to the title, with none before it, or none at all |
| PdfConverter.TitleRemovedShape | _converter/lib/pdf_converter.py:214-235 | the number of lines is kept; only the title line and a blank line right after it change, both to empty; a title line from the sixth line on is a heading; without a title line nothing changes |
| PdfConverter.BlankTitleLine | _converter/lib/pdf_converter.py:218-234 | the loop with its `break` blanks the lines of the removal in place |
| PdfConverter.RemoveTitleFromContent | _converter/lib/pdf_converter.py:214-235 | the Markdown joined from the lines after the removal |
| PdfConverter.TitleRemovalKeepsLines | _converter/lib/pdf_converter.py:214-235 | the Markdown after the removal has exactly the lines of the removal, as many as before |
| PdfConverter.HeadingIsTitleLine | _converter/lib/pdf_converter.py:222-223 | `## t` is a title line whenever t lower-cased equals the title, at any position |
| PdfConverter.SecondLevelMatch | _converter/lib/pdf_converter.py:222 | the heading pattern captures t from `## t` |
| PdfConverter.MetadataTitle | _converter/lib/pdf_converter.py:66-73 | the stripped metadata title unless it is empty, 'untitled' or 'microsoft word' in any case; none exactly then |
| PdfConverter.PdfTitle | _converter/lib/pdf_converter.py:42-54 | the metadata title, else the first heading when not empty, else the first stripped line longer than three characters, else the title from the file name |
| PdfConverter.PdfTitleNonEmpty | _converter/lib/pdf_converter.py:42-54 | the title is empty only when the file-name title is empty too |
| PdfConverter.ConvertPdf | _converter/lib/pdf_converter.py:10-63 | the title of the fallback chain, and the Markdown with its lines after the removal for that title |
| Strings.Lower | _converter/web/src/lib/slug.js:26 | `toLowerCase` and `str.lower()` one character at a time: the length is kept and each character is mapped by the case table |
| Strings.Upper | _converter/web/server/image-utils.js:27 | `toUpperCase` and `str.upper()` one character at a time: the length is kept and each character is mapped by the case table |
| Strings.Trim | _converter/web/src/lib/translation.js:38 | `String.prototype.trim` over JavaScript's whitespace; TrimEmptyIffBlank states that it is empty exactly for blank text |
| Strings.PyStrip | _converter/lib/frontmatter.py:64 | `str.strip()` over Python's whitespace; FrontmatterPy.PyStripClean and RtfConverter.StripIsStripped state that no whitespace is left at either end |
| Strings.TrimEmptyIffBlank | _converter/web/server/routes/translation.js:41-42 | `s.trim()` is empty exactly when every character of `s` is JavaScript whitespace, so the blank-line and keep-chunk tests agree |

## Left out

- Translation.TranslatableChars: counts code points, while JavaScript's `.length` counts UTF-16 code units (translation.js:280-287). A title of "😀" counts 2 there and 1 here.
- Translation.CountTranslatableChars: counts code points, not UTF-16 code units, for the same reason as `TranslatableChars`.
- TranslationHandlers.EstimateFor: the character count behind the estimate is in code points, not UTF-16 code units.
- ImageUtils.Caption: the length limits of `promptToAlt` and `promptToTitle` (image-utils.js:29-31, 40-42) count code points. A prompt of 70 "😀" is 140 UTF-16 units long; JavaScript cuts it to 122 units plus "...", and the model keeps it whole.
- Cleanup.IsHeading: only '\n' ends a line. JavaScript's `.` and the m-flag `^`/`$` also stop at '\r', U+2028 and U+2029, so `/^(#{1,5}) (.+)$/` does not match "# A\r" there, while the model accepts it.
- Cleanup.Demote: for the same reason, the model demotes a heading line that ends in '\r'.
- Cleanup.FixHeadingHierarchy: turns "# A\r\n## B\r\n" into "## A\r\n### B\r\n", where JavaScript leaves CRLF input unchanged.
- Translation.YamlField: '\r', U+2028 and U+2029 are not line ends in the model's reading of `^field:\s*(.+)$` (translation.js:35-44).
- FrontmatterParser.ParseListingFields: the same holds for the m-flag field patterns of the listing reader.
- FrontmatterParser.TaxonomySets.ExtractTaxonomy: the same holds for the m-flag taxonomy patterns.
- Strings.Lower: case mapping covers ASCII, Latin-1 and Latin Extended-A, which holds every Slovak and Czech letter. Greek, Cyrillic and the special mappings are left out: U+212A (Kelvin sign) and U+0130 lower-case differently in `toLowerCase` (slug.js:26, image-utils.js:16). Python's `str.lower` can also change a string's length, which the model does not do.
- Strings.Upper: one character upper-cases to one character. `'ß'.toUpperCase()` is "SS" in JavaScript and in Python, so `promptToAlt("ßx")` gives "SSx" in the source and "ßx" here. A Greek or Cyrillic first letter is not capitalised.
- GenerateImages.CleanCaption: the capitalisation of `_prompt_to_alt` (generate_images.py:292-293) has the same limit as `Strings.Upper`.
- ImageUtils.CleanCaption: the capitalisation of `promptToAlt` (image-utils.js:26-27) has the same limit as `Strings.Upper`.
- Cleanup.ListLine: only '\n' ends a line. With the m flag, JavaScript's `^` in `/^(\s*)[*+] /gm` (cleanup.js:51) also matches after '\r', U+2028 and U+2029, so a bullet right after a lone '\r' is rewritten there and not in the model.
- Cleanup.EscapeLine: the same holds for `/^(#{1,6} .*)\\(\.)/gm` (cleanup.js:71). JavaScript's `.` and `^` also stop at '\r', U+2028 and U+2029, and the model splits at '\n' only.
- Translation.TaxLine: the same holds for `^\s+-\s+(.+)` (translation.js:57), where `.` stops at '\r', U+2028 and U+2029 in JavaScript and only at '\n' in the model.
- DeepL.Normalize: `replace(/-.*/, '')` (deepl.js:145) stops its `.*` at '\r', U+2028 and U+2029 as well as '\n' in JavaScript; the model stops at '\n' only.
- RtfConverter.NumberedItem: Python's `\d` in `^(\d+)[.)]\s+(.+)` (rtf_converter.py:106) also matches non-ASCII decimal digits such as '٣'. The model accepts '0'-'9' only.
- CleanupPy.LooksLikeContinuation: Python's `islower()` and `isdigit()` (cleanup.py:109-112) also accept letters such as 'ĸ', Greek lower-case letters and digits such as '²'. The model's `IsLowerChar` covers its case-mapping range only, and `IsDigit` covers '0'-'9' only.
- GenerateImages.SubFeatured: inserts the image path literally. `re.sub` (generate_images.py:389-394) treats its replacement as a template, so a backslash in the path would be read as an escape there.
- TranslationHandlers.TranslateArticle: an exception thrown by the translation service becomes a 500 reply with "Translation failed" in the route. The service is a total function parameter here, so that path is not modelled.
- TranslationHandlers.TranslateInto: requires `OnePerText`, i.e. the provider answers one text per batch entry. routes/translation.js:260-280 indexes and slices the answer directly; a shorter answer, which would leave `undefined` entries there, is not modelled.
- TranslationHandlers.EstimateTranslation: an exception thrown by the usage query becomes a 500 reply with "Estimation failed" in the route; the usage answer is a parameter here, so that path is not modelled.
- SlugPy.GenerateSlugPy: `unidecode` is a parameter. The docstring examples (slug.py:22-24) depend on what the library returns and are not stated; `SlugPy.FoldsToSlug` reduces such an example to a per-character check.
- SlugPy.TruncatePy: `max_length` is a natural number; a negative limit is not modelled.
- Slug.Truncate: `maxLength` is a natural number; a negative limit is not modelled, and Dafny has no default arguments, so the default of 60 (slug.js:25) is not modelled: a caller of the model passes the limit.
- FrontmatterPy.ExtractExcerpt: `max_length` is a natural number, so a negative limit is not modelled; Dafny has no default arguments, so the default of 200 (frontmatter.py:59) is not modelled: a caller of the model passes the limit.
- The network: DeepL requests, the cached client and the usage percentage computed in floating point (deepl.js:130) are outside the model. The service is a parameter.
- Image generation: the Gemini requests, their retries and the `sharp` resizing (image-utils.js:50-97) are outside the model.
- The image files of the converter: the md5 de-duplication and the PIL processing of `_process_image` (images.py:15-64, 82-109) are not modelled; `save_images` is file-system work.
- The save-translation and deepl-usage routes (routes/translation.js:318-357): file and HTTP plumbing with no logic beyond the handlers modelled.
- The HTTP layer, the file system, `sys.exit` and the printed messages: files are their content or `None`, and an exit is an `Exit(status)` value.
- The clock: the current date is a parameter `now`.
- PyMuPDF: `fitz.open`, the metadata, the page text and `_build_font_info` (pdf_converter.py:22-37, 75-126) are outside the model; the metadata title, the raw text and the Markdown are inputs.
- `_text_to_markdown` (pdf_converter.py:136-191): compares font sizes as floating-point ratios and is not part of this model; its Markdown is an input.
- `_extract_images` (pdf_converter.py:238-272): PyMuPDF image extraction, not part of this model.
- mammoth, markdownify and BeautifulSoup in the DOCX converter (docx_converter.py:50-75): the HTML and Markdown they produce are inputs. `_clean_html` (docx_converter.py:86-100) rewrites HTML trees and is not part of this model.
- striprtf and `_read_rtf` (rtf_converter.py:41-59), with its warning about `\pict` groups: file reading and RTF parsing are outside the model; the plain text is an input.
- RtfConverter.IsHeadingCandidate: `_is_heading_candidate` indexes `text[-1]` and raises IndexError on an empty line. Its only caller skips empty lines first (rtf_converter.py:92-96), so the model's predicate requires a non-empty line and that IndexError is not modelled.
- Python dictionaries keep insertion order; the model writes them as sequences of pairs in that order.
- Python's `None` and `''` are folded into the empty string where the source only tests their truth value.
- `int()` is modelled on runs of ASCII digits; Python also accepts signs, underscores, surrounding whitespace and other Unicode digits.
- The React front end and the command-line drivers (`main`, `parse_args`, `save_generated_images`, `read_file`, `write_file`, `extract_slug`, `resolve_style` in generate_images.py, and convert.py) only wire the modelled functions to files and arguments.

## Findings

| source | as written | input that shows it | evidently intended | confidence | as-written member | corrected member |
|---|---|---|---|---|---|---|
| _converter/web/src/lib/cleanup.js:104-113 | blank lines are collapsed before trailing whitespace is stripped, so a line of spaces between blank lines survives the collapse and becomes empty afterwards | "a\n\n\n \nb" keeps four '\n' in a row | no run of more than one blank line, as `collapseBlankLines` says; strip first, then collapse | not executed | CleanupFinding.CollapseBeforeStrip | CleanupFinding.CleanupMarkdownStripFirst |
| _converter/generate_images.py:345-353 | with no more available headings (n) than remaining images, `step` is 1, so the j-th remaining image (from 0) goes to slot min(j + 1, n − 1). Slot 0 is never used, and every image from j = n − 2 on lands on the last slot, each overwriting the one before | 3 images and 3 "## " headings: two slots, both remaining images go to slot 1, slot 0 stays empty | every image is placed | not executed | GenerateImages.CrowdedLosesImage | GenerateImagesFinding.SpreadPlacesEveryImage |
| _converter/generate_images.py:383-394 | `^featured_image:\s*.+$` lets `\s*` cross the line break after an empty `featured_image:`, so `.+` takes the closing "---" and a forced update deletes it | front matter ending "featured_image:\n---" with force set; `main` calls `update_featured_image(frontmatter, images[0]['path'])` without `force` (line 107) although `--force-featured` is parsed (lines 171-174), so only a direct call reaches the forced path, while the unforced half, where an empty `featured_image:` counts as set, is reachable from the script | only the `featured_image` line is replaced | not executed | GenerateImagesFinding.ForcedUpdateEatsDelimiter | GenerateImagesFinding.ForcedUpdateKeepsLines |
| _converter/lib/images.py:112-120 | the key of `min(mapping.keys(), key=lambda k: int(k.split('_')[2].rstrip('_')))` (line 117) splits `__IMAGE_n__` into '', '', 'IMAGE', 'n', '', '', so it reads 'IMAGE' and `int()` raises ValueError | any non-empty mapping, e.g. {"__IMAGE_0__": "a.png"} | the path of the image with the smallest index | not executed | ImagesPy.AsWrittenAlwaysRaises | ImagesPy.CorrectedFindsFirst |
