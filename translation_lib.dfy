/**
 * The article-translation library of the web front end (`web/src/lib/translation.js`):
 * splitting a markdown article into its front matter and body, reading the
 * scalar and taxonomy fields of the front matter, finding image references,
 * and writing the translated article back.
 *
 * Regular expressions are modelled as explicit left-to-right scanners with the
 * backtracking behaviour of the JavaScript engine spelled out. Only '\n' ends a
 * line.
 */
module Translation {
  import opened Strings
  import opened Slug
  import opened ImageRefs

  // ---------------------------------------------------------------------------
  // Front matter: `splitFrontmatter`
  // ---------------------------------------------------------------------------

  datatype FrontSplit = FrontSplit(yaml: string, body: string)

  const Delimiter: string := "\n---"

  /**
   * `/^---\n([\s\S]*?)\n---\n?([\s\S]*)$/`: the text must open with "---\n";
   * the YAML runs up to the first "\n---" after that opening, and one optional
   * newline after the closing delimiter is dropped.
   */
  function SplitFrontmatter(raw: string): (r: Option<FrontSplit>)
    ensures r.None? <==>
              !(|raw| >= 4 && raw[..4] == "---\n") || forall k: nat :: 4 <= k ==> !OccursAt(raw, Delimiter, k)
    ensures r.Some? ==>
              var j := 4 + |r.value.yaml|;
              && raw[..4] == "---\n"
              && OccursAt(raw, Delimiter, j)
              && raw[4..j] == r.value.yaml
              && (forall k :: 4 <= k < j ==> !OccursAt(raw, Delimiter, k))
              && (if j + 4 < |raw| && raw[j + 4] == '\n' then r.value.body == raw[j + 5..]
                  else r.value.body == raw[j + 4..])
  {
    if |raw| >= 4 && raw[..4] == "---\n" then
      var j := IndexOfFrom(raw, Delimiter, 4);
      if j < 0 then None
      else
        var rest := raw[j + 4..];
        Some(FrontSplit(raw[4..j], if |rest| > 0 && rest[0] == '\n' then rest[1..] else rest))
    else None
  }

  /** The article is rebuilt from its parts: nothing but the delimiters and one newline is lost. */
  lemma SplitFrontmatterRebuilds(raw: string)
    requires SplitFrontmatter(raw).Some?
    ensures var f := SplitFrontmatter(raw).value;
            raw == "---\n" + f.yaml + Delimiter + f.body || raw == "---\n" + f.yaml + Delimiter + "\n" + f.body
  {
    var f := SplitFrontmatter(raw).value;
    var j := 4 + |f.yaml|;
    assert raw == raw[..4] + raw[4..j] + raw[j..j + 4] + raw[j + 4..];
    if j + 4 < |raw| && raw[j + 4] == '\n' {
      assert raw[j + 4..] == "\n" + raw[j + 5..];
    }
  }

  // ---------------------------------------------------------------------------
  // Scalar fields: `yamlField`
  // ---------------------------------------------------------------------------

  /**
   * The capture of `^field:\s*(.+)$` (flag `m`) on the first line that starts
   * with `field:`. Because `\s*` crosses line ends, a blank rest of that line
   * makes the capture the next non-blank line; when only whitespace follows,
   * the capture (if any) is whitespace, modelled as the empty string.
   */
  function FieldCapture(yaml: string, field: string): (r: string)
    ensures LineStartFind(yaml, field + ":", 0) < 0 ==> r == []
    ensures '\n' !in r
  {
    var i := LineStartFind(yaml, field + ":", 0);
    if i < 0 then ""
    else
      var q := SkipSpace(yaml, i + |field| + 1);
      if q < |yaml| then yaml[q..LineEnd(yaml, q)] else ""
  }

  /** The trimmed capture. */
  function RawField(yaml: string, field: string): (r: string)
    ensures r == [] || (!IsJsSpace(r[0]) && !IsJsSpace(r[|r| - 1]))
  {
    Trim(FieldCapture(yaml, field))
  }

  /** Removes one pair of matching surrounding double or single quotes (`slice(1, -1)`). */
  function Unquote(v: string): (r: string)
    ensures |v| >= 2 && v[0] == v[|v| - 1] && (v[0] == '"' || v[0] == '\'') ==> v == [v[0]] + r + [v[0]]
    ensures v == "\"" || v == "'" ==> r == ""
    ensures |v| == 0 || (v[0] != '"' && v[0] != '\'') || v[0] != v[|v| - 1] ==> r == v
  {
    if |v| >= 1 && ((v[0] == '"' && v[|v| - 1] == '"') || (v[0] == '\'' && v[|v| - 1] == '\'')) then
      if |v| >= 2 then v[1..|v| - 1] else ""
    else v
  }

  /** `yamlField(yaml, field)`: '' when no line starts with `field:`. */
  function YamlField(yaml: string, field: string): string
  {
    Unquote(RawField(yaml, field))
  }

  /** A field that no line starts with reads as ''. */
  lemma FieldMissing(yaml: string, field: string)
    requires !HasField(yaml, field)
    ensures YamlField(yaml, field) == ""
  {
    assert FieldCapture(yaml, field) == "";
    assert Trim("") == "";
  }

  // ---------------------------------------------------------------------------
  // Writing scalar fields: `yamlValue`
  // ---------------------------------------------------------------------------

  /** The characters that make `yamlValue` quote a value. */
  predicate NeedsQuotes(v: string)
  {
    ':' in v || '#' in v || '"' in v
  }

  /** `value.replace(/"/g, '\\"')`. */
  function EscapeQuotes(v: string): (r: string)
    ensures '"' !in v ==> r == v
    ensures |r| >= |v|
  {
    if v == [] then []
    else (if v[0] == '"' then "\\\"" else [v[0]]) + EscapeQuotes(v[1..])
  }

  /** `yamlValue(value)` of the translation module. */
  function YamlValue(v: string): (r: string)
    ensures NeedsQuotes(v) ==> r == "\"" + EscapeQuotes(v) + "\""
    ensures !NeedsQuotes(v) ==> r == v
  {
    if NeedsQuotes(v) then "\"" + EscapeQuotes(v) + "\"" else v
  }

  /** A value that survives being written by `yamlValue` and read by `yamlField`. */
  predicate PlainValue(v: string)
  {
    && v != []
    && '\n' !in v && '"' !in v && '\'' !in v
    && !IsJsSpace(v[0]) && !IsJsSpace(v[|v| - 1])
  }

  /** A field name: no line break, so `field:` cannot straddle two lines. */
  predicate FieldName(field: string)
  {
    field != [] && '\n' !in field
  }

  /** `t` occurs at no line start of `pre`, which is empty or ends a line. */
  predicate NoFieldLine(pre: string, t: string)
  {
    LineStartFind(pre, t, 0) < 0 && (pre == [] || pre[|pre| - 1] == '\n')
  }

  /** A line start of `pre + x` before `|pre|` that holds `t` would be one of `pre`. */
  lemma FirstFieldLine(pre: string, t: string, x: string)
    requires NoFieldLine(pre, t) && '\n' !in t && |t| <= |x| && x[..|t|] == t
    ensures LineStartFind(pre + x, t, 0) == |pre|
  {
    FirstFieldLineFrom(pre, t, x, 0);
  }

  lemma {:induction false} FirstFieldLineFrom(pre: string, t: string, x: string, from: nat)
    requires NoFieldLine(pre, t) && '\n' !in t && |t| <= |x| && x[..|t|] == t
    requires from <= |pre|
    ensures LineStartFind(pre + x, t, from) == |pre|
    decreases |pre| - from
  {
    var s := pre + x;
    if from == |pre| {
      assert s[from..from + |t|] == x[..|t|];
      if from > 0 {
        assert s[from - 1] == pre[|pre| - 1];
      }
    } else {
      if AtLineStart(s, from) && s[from..from + |t|] == t {
        assert AtLineStart(pre, from) by {
          if from > 0 { assert s[from - 1] == pre[from - 1]; }
        }
        StraddleHitsNewline(pre, x, t, from);
        assert false;
      }
      FirstFieldLineFrom(pre, t, x, from + 1);
    }
  }

  /** An occurrence that starts in `pre` and ends past it covers the last character of `pre`. */
  lemma StraddleHitsNewline(pre: string, x: string, t: string, from: nat)
    ensures from < |pre| < from + |t| && OccursAt(pre + x, t, from) ==> t[|pre| - 1 - from] == pre[|pre| - 1]
    ensures from + |t| <= |pre| && OccursAt(pre + x, t, from) ==> OccursAt(pre, t, from)
  {
    var s := pre + x;
    if from < |pre| < from + |t| && OccursAt(s, t, from) {
      assert t[|pre| - 1 - from] == s[from..from + |t|][|pre| - 1 - from];
    }
    if from + |t| <= |pre| && OccursAt(s, t, from) {
      assert pre[from..from + |t|] == s[from..from + |t|];
    }
  }

  /**
   * Round trip of one written field line: a plain value written as
   * `field: <yamlValue(v)>` on the first line starting with `field:` reads back
   * as `v`.
   */
  lemma FieldRoundTrip(pre: string, field: string, v: string, rest: string)
    requires FieldName(field) && PlainValue(v)
    requires NoFieldLine(pre, field + ":")
    requires rest == [] || rest[0] == '\n'
    ensures YamlField(pre + field + ": " + YamlValue(v) + rest, field) == v
  {
    var w := YamlValue(v);
    UnquoteYamlValue(v);
    FieldLineCapture(pre, field, w, rest);
    TrimUnchanged(w);
  }

  /** The capture of a `field: w` line that is the first line starting with `field:`. */
  lemma FieldLineCapture(pre: string, field: string, w: string, rest: string)
    requires FieldName(field) && NoFieldLine(pre, field + ":")
    requires w != [] && !IsJsSpace(w[0]) && '\n' !in w
    requires rest == [] || rest[0] == '\n'
    ensures FieldCapture(pre + field + ": " + w + rest, field) == w
  {
    var s := pre + field + ": " + w + rest;
    var i := |pre|;
    FieldLineFound(pre, field, w, rest);
    assert s[i + |field| + 1] == ' ';
    assert s[i + |field| + 2..i + |field| + 2 + |w|] == w;
    var head := pre + field + ": " + w;
    assert s == head + rest && |head| == i + |field| + 2 + |w|;
    if rest != [] {
      assert s[|head|] == rest[0];
    }
    ReadFieldLine(s, i, field, w);
  }

  lemma FieldLineFound(pre: string, field: string, w: string, rest: string)
    requires FieldName(field) && NoFieldLine(pre, field + ":")
    ensures LineStartFind(pre + field + ": " + w + rest, field + ":", 0) == |pre|
  {
    var t := field + ":";
    var x := t + " " + w + rest;
    assert pre + field + ": " + w + rest == pre + x;
    assert x[..|t|] == t;
    FirstFieldLine(pre, t, x);
  }

  /** The line read for `field` is the text after `field: ` when that text starts with a non-blank. */
  lemma ReadFieldLine(s: string, i: nat, field: string, w: string)
    requires LineStartFind(s, field + ":", 0) == i
    requires i + |field| + 2 + |w| <= |s|
    requires s[i + |field| + 1] == ' ' && w != [] && !IsJsSpace(w[0]) && '\n' !in w
    requires s[i + |field| + 2..i + |field| + 2 + |w|] == w
    requires i + |field| + 2 + |w| == |s| || s[i + |field| + 2 + |w|] == '\n'
    ensures FieldCapture(s, field) == w
  {
    var q := i + |field| + 2;
    WordAt(s, q, w);
    CaptureAt(s, field, i, q);
  }

  /** A non-blank word that runs to the end of its line, just after one space. */
  lemma WordAt(s: string, q: nat, w: string)
    requires 0 < q && q + |w| <= |s| && s[q - 1] == ' '
    requires w != [] && !IsJsSpace(w[0]) && '\n' !in w
    requires s[q..q + |w|] == w
    requires q + |w| == |s| || s[q + |w|] == '\n'
    ensures SkipSpace(s, q - 1) == q
    ensures q < |s| && s[q..LineEnd(s, q)] == w
  {
    assert s[q] == w[0];
    assert SkipSpace(s, q) == q;
    forall j | q <= j < q + |w| ensures s[j] != '\n' {
      assert s[j] == w[j - q];
    }
    LineEndAfter(s, q, q + |w|);
  }

  /** The capture once the field line and the first non-blank after `field:` are known. */
  lemma CaptureAt(s: string, field: string, i: nat, q: nat)
    requires LineStartFind(s, field + ":", 0) == i
    requires SkipSpace(s, i + |field| + 1) == q < |s|
    ensures FieldCapture(s, field) == s[q..LineEnd(s, q)]
  {
  }

  lemma TrimUnchanged(w: string)
    requires w != [] && !IsJsSpace(w[0]) && !IsJsSpace(w[|w| - 1])
    ensures Trim(w) == w
  {
    assert TrimStart(w) == w;
  }

  lemma UnquoteYamlValue(v: string)
    requires PlainValue(v)
    ensures Unquote(YamlValue(v)) == v
    ensures YamlValue(v) != [] && !IsJsSpace(YamlValue(v)[0]) && !IsJsSpace(YamlValue(v)[|YamlValue(v)| - 1])
    ensures '\n' !in YamlValue(v)
  {
    if NeedsQuotes(v) {
      var w := "\"" + v + "\"";
      assert YamlValue(v) == w;
      assert w[1..|w| - 1] == v;
    }
  }

  /** Scanning to the line end skips a line-break-free stretch. */
  lemma LineEndAfter(s: string, p: nat, e: nat)
    requires p <= e <= |s|
    requires forall j :: p <= j < e ==> s[j] != '\n'
    requires e == |s| || s[e] == '\n'
    ensures LineEnd(s, p) == e
    decreases e - p
  {
    if p < e {
      LineEndAfter(s, p + 1, e);
    }
  }

  /**
   * An empty value is written as `field: ` and, because `\s*` crosses the line
   * end, reads back as the next line: an article whose title is empty comes
   * back with its `post_status` line as title.
   */
  lemma EmptyValueReadsNextLine(pre: string, field: string, next: string, rest: string)
    requires FieldName(field) && NoFieldLine(pre, field + ":")
    requires next != [] && !IsJsSpace(next[0]) && '\n' !in next
    requires rest == [] || rest[0] == '\n'
    ensures RawField(pre + field + ": " + YamlValue("") + "\n" + next + rest, field) == Trim(next)
  {
    assert YamlValue("") == "";
    assert pre + field + ": " + YamlValue("") + "\n" + next + rest == pre + field + ": " + "\n" + next + rest;
    EmptyLineCapture(pre, field, next, rest);
  }

  lemma EmptyLineCapture(pre: string, field: string, next: string, rest: string)
    requires FieldName(field) && NoFieldLine(pre, field + ":")
    requires next != [] && !IsJsSpace(next[0]) && '\n' !in next
    requires rest == [] || rest[0] == '\n'
    ensures FieldCapture(pre + field + ": " + "\n" + next + rest, field) == next
  {
    var s := pre + field + ": " + "\n" + next + rest;
    var i := |pre|;
    var q := i + |field| + 3;
    FieldLineFound(pre, field, "\n" + next, rest);
    assert s == pre + field + ": " + ("\n" + next) + rest;
    assert s[q - 2] == ' ' && s[q - 1] == '\n' && s[q] == next[0];
    assert SkipSpace(s, q - 2) == q by {
      assert SkipSpace(s, q) == q;
      assert SkipSpace(s, q - 1) == q;
    }
    assert s[q..q + |next|] == next;
    var head := pre + field + ": " + "\n" + next;
    assert s == head + rest && |head| == q + |next|;
    if rest != [] {
      assert s[|head|] == rest[0];
    }
    forall j | q <= j < q + |next| ensures s[j] != '\n' {
      assert s[j] == next[j - q];
    }
    LineEndAfter(s, q, q + |next|);
    CaptureAt(s, field, i, q);
  }

  // ---------------------------------------------------------------------------
  // Taxonomy: `yamlTaxonomy`
  // ---------------------------------------------------------------------------

  /** The end of `.+\n?` started at `k`: the rest of the line and its line break. */
  function LineEndIncl(s: string, k: nat): (r: nat)
    requires k <= |s|
    ensures k <= r <= |s|
  {
    var e := LineEnd(s, k);
    if e < |s| then e + 1 else e
  }

  /** The largest `k` in `[lo, hi)` with `s[k] == c`, or -1. */
  function LastCharIn(s: string, c: char, lo: nat, hi: nat): (r: int)
    requires hi <= |s|
    ensures r == -1 || (lo <= r < hi && s[r] == c)
    ensures forall j :: r < j < hi && lo <= j ==> s[j] != c
    decreases hi
  {
    if hi <= lo then -1
    else if s[hi - 1] == c then hi - 1
    else LastCharIn(s, c, lo, hi - 1)
  }

  /** The largest `k` in `[lo, hi)` with `s[k] != '\n'`, or -1. */
  function LastNonNewline(s: string, lo: nat, hi: nat): (r: int)
    requires hi <= |s|
    ensures r == -1 || (lo <= r < hi && s[r] != '\n')
    ensures forall j :: r < j < hi && lo <= j ==> s[j] == '\n'
    decreases hi
  {
    if hi <= lo then -1
    else if s[hi - 1] != '\n' then hi - 1
    else LastNonNewline(s, lo, hi - 1)
  }

  /**
   * One iteration of `(?:\s+-\s+.+\n?)` at `p`, as the backtracking engine
   * takes it: the whitespace before '-' must be maximal; the whitespace after it
   * is maximal unless it runs to the end of the text, in which case `.+` starts
   * at its last character that is not a line break.
   */
  function TaxIter(s: string, p: nat): (r: Option<nat>)
    requires p <= |s|
    ensures r.Some? ==> p < r.value <= |s|
  {
    var r1 := SkipSpace(s, p);
    if r1 == p || r1 >= |s| || s[r1] != '-' then None
    else
      var a := r1 + 1;
      var q := SkipSpace(s, a);
      if q == a then None
      else if q < |s| then Some(LineEndIncl(s, q))
      else
        var k := LastNonNewline(s, a + 1, q);
        if k < 0 then None else Some(LineEndIncl(s, k))
  }

  /** The end of the greedy `(?:\s+-\s+.+\n?)*` started at `p`. */
  function TaxGroupEnd(s: string, p: nat): (r: nat)
    requires p <= |s|
    ensures p <= r <= |s|
    decreases |s| - p
  {
    match TaxIter(s, p)
    case None => p
    case Some(e) => TaxGroupEnd(s, e)
  }

  /**
   * Where `key:\s*\n` first matches at or after `from`: after an occurrence of
   * `key:` whose following whitespace holds a line break, the group starts after
   * the last line break of that whitespace.
   */
  function TaxGroupStart(yaml: string, key: string, from: nat): (r: Option<nat>)
    ensures r.Some? ==> r.value <= |yaml|
    decreases |yaml| - from
  {
    var i := IndexOfFrom(yaml, key + ":", from);
    if i < 0 then None
    else
      var b := i + |key| + 1;
      var q := SkipSpace(yaml, b);
      var n := LastCharIn(yaml, '\n', b, q);
      if n < 0 then TaxGroupStart(yaml, key, i + 1) else Some(n + 1)
  }

  /** Capture group 1 of `key:\s*\n((?:\s+-\s+.+\n?)*)`, or None when the pattern does not match. */
  function TaxGroup(yaml: string, key: string): Option<string>
  {
    match TaxGroupStart(yaml, key, 0)
    case None => None
    case Some(st) => Some(yaml[st..TaxGroupEnd(yaml, st)])
  }

  /** `line.match(/^\s+-\s+(.+)/)` followed by `m[1].trim()`, on one line of the group. */
  function TaxLine(line: string): (r: Option<string>)
    ensures r.Some? ==> r.value == [] || (!IsJsSpace(r.value[0]) && !IsJsSpace(r.value[|r.value| - 1]))
  {
    var r1 := SkipSpace(line, 0);
    if r1 == 0 || r1 >= |line| || line[r1] != '-' then None
    else
      var a := r1 + 1;
      var q := SkipSpace(line, a);
      if q == a then None
      else if q < |line| then Some(Trim(line[q..]))
      else if q - a >= 2 then Some("")
      else None
  }

  /** The value of one line as a list of zero or one terms. */
  function LineTerms(line: string): (r: seq<string>)
    ensures |r| <= 1
  {
    match TaxLine(line)
    case Some(v) => [v]
    case None => []
  }

  /** The values of the lines that match, in order. */
  function TaxItems(lines: seq<string>): (r: seq<string>)
    ensures |r| <= |lines|
  {
    if lines == [] then [] else LineTerms(lines[0]) + TaxItems(lines[1..])
  }

  lemma TaxItemsStep(lines: seq<string>, i: nat)
    requires i < |lines|
    ensures TaxItems(lines[i..]) == LineTerms(lines[i]) + TaxItems(lines[i + 1..])
  {
    assert lines[i..][1..] == lines[i + 1..];
  }

  /** The terms listed under `key:`, or none when the pattern does not match. */
  function TaxList(yaml: string, key: string): seq<string>
  {
    match TaxGroup(yaml, key)
    case None => []
    case Some(g) => TaxItems(Split(g, '\n'))
  }

  /** `yamlTaxonomy(yaml)`. */
  method YamlTaxonomy(yaml: string) returns (categories: seq<string>, tags: seq<string>)
    ensures categories == TaxList(yaml, CategoryKey)
    ensures tags == TaxList(yaml, TagKey)
  {
    categories := CollectTerms(yaml, CategoryKey);
    tags := CollectTerms(yaml, TagKey);
  }

  /** One of the two loops of `yamlTaxonomy`: push the value of every matching line of the group. */
  method CollectTerms(yaml: string, key: string) returns (terms: seq<string>)
    ensures terms == TaxList(yaml, key)
  {
    var group := TaxGroup(yaml, key);
    if group.None? {
      return [];
    }
    var lines := Split(group.value, '\n');
    terms := [];
    var i := 0;
    while i < |lines|
      invariant 0 <= i <= |lines|
      invariant terms + TaxItems(lines[i..]) == TaxItems(lines)
    {
      TaxItemsStep(lines, i);
      terms := terms + LineTerms(lines[i]);
      i := i + 1;
    }
    assert lines[i..] == [];
  }

  // Round trip of a written taxonomy block

  const ItemIndent: string := "        - "

  /** A term the writer can emit as `        - term` and the reader recovers. */
  predicate PlainTerm(t: string)
  {
    t != [] && '\n' !in t && !IsJsSpace(t[0]) && !IsJsSpace(t[|t| - 1])
  }

  /** The item lines the writers emit under a taxonomy key, each ended by '\n'. */
  function ItemLines(items: seq<string>): string
  {
    if items == [] then "" else ItemIndent + items[0] + "\n" + ItemLines(items[1..])
  }

  lemma TaxLineOfItem(t: string)
    requires PlainTerm(t)
    ensures TaxLine(ItemIndent + t) == Some(t)
  {
    var line := ItemIndent + t;
    IndentShape(line, 0, t);
    SkipSpaceRun(line, 0, 8);
    SkipSpaceRun(line, 9, 10);
    assert line[10..] == t;
    TrimUnchanged(t);
  }

  /** The characters of an item line that starts at `p`. */
  lemma IndentShape(s: string, p: nat, t: string)
    requires t != []
    requires p + 10 + |t| <= |s| && s[p..p + 10 + |t|] == ItemIndent + t
    ensures forall j :: p <= j < p + 8 ==> IsJsSpace(s[j])
    ensures s[p + 8] == '-' && IsJsSpace(s[p + 9]) && s[p + 10] == t[0]
    ensures forall j :: p + 10 <= j < p + 10 + |t| ==> s[j] == t[j - p - 10]
  {
    assert forall j :: p <= j < p + 10 + |t| ==> s[j] == (ItemIndent + t)[j - p];
  }

  /** Skipping a known whitespace run. */
  lemma {:induction false} SkipSpaceRun(s: string, p: nat, q: nat)
    requires p <= q <= |s|
    requires forall j :: p <= j < q ==> IsJsSpace(s[j])
    requires q == |s| || !IsJsSpace(s[q])
    ensures SkipSpace(s, p) == q
    decreases q - p
  {
    if p < q {
      SkipSpaceRun(s, p + 1, q);
    }
  }

  lemma {:induction false} SplitItemLines(items: seq<string>)
    requires AllPlain(items)
    ensures TaxItems(Split(ItemLines(items), '\n')) == items
  {
    if items == [] {
      assert Split("", '\n') == [""];
      assert TaxItems([""]) == LineTerms("") + TaxItems([]);
    } else {
      PlainTail(items);
      SplitItemLinesCons(items);
      SplitItemLines(items[1..]);
      TaxLineOfItem(items[0]);
      TaxItemsCons(ItemIndent + items[0], Split(ItemLines(items[1..]), '\n'));
      HeadTail(items);
    }
  }

  lemma SplitItemLinesCons(items: seq<string>)
    requires items != [] && PlainTerm(items[0])
    ensures Split(ItemLines(items), '\n') == [ItemIndent + items[0]] + Split(ItemLines(items[1..]), '\n')
  {
    var line := ItemIndent + items[0];
    assert '\n' !in line;
    SplitWithout(line, '\n');
    SplitAround(line, ItemLines(items[1..]), '\n');
    assert ItemLines(items) == line + "\n" + ItemLines(items[1..]);
  }

  lemma TaxItemsCons(x: string, rest: seq<string>)
    ensures TaxItems([x] + rest) == LineTerms(x) + TaxItems(rest)
  {
    assert ([x] + rest)[1..] == rest;
  }

  /** One written item line is one iteration of the group pattern. */
  lemma IterItemLine(s: string, p: nat, t: string)
    requires PlainTerm(t)
    requires p + 11 + |t| <= |s| && s[p..p + 11 + |t|] == ItemIndent + t + "\n"
    ensures TaxIter(s, p) == Some(p + 11 + |t|)
  {
    assert s[p..p + 10 + |t|] == (ItemIndent + t + "\n")[..10 + |t|] == ItemIndent + t;
    assert s[p + 10 + |t|] == (ItemIndent + t + "\n")[10 + |t|] == '\n';
    IndentShape(s, p, t);
    SkipSpaceRun(s, p, p + 8);
    SkipSpaceRun(s, p + 9, p + 10);
    LineEndAfter(s, p + 10, p + 10 + |t|);
  }

  /** Every term is one the writer emits unquoted. */
  predicate AllPlain(items: seq<string>)
  {
    forall k :: 0 <= k < |items| ==> PlainTerm(items[k])
  }

  /** The written item lines of `items` stand at `p`, and no further item follows them. */
  predicate ItemsAt(s: string, p: nat, items: seq<string>)
  {
    p + |ItemLines(items)| <= |s| && s[p..p + |ItemLines(items)|] == ItemLines(items)
    && NoItemStart(s[p + |ItemLines(items)|..])
  }

  /** The group pattern consumes exactly the written item lines when what follows is no item. */
  lemma {:induction false} GroupOfItemLines(s: string, p: nat, items: seq<string>)
    requires AllPlain(items) && ItemsAt(s, p, items)
    ensures TaxGroupEnd(s, p) == p + |ItemLines(items)|
    decreases |items|, 1
  {
    if items == [] {
      NoIterAt(s, p);
      GroupEndStop(s, p);
    } else {
      GroupOfItemLinesStep(s, p, items);
    }
  }

  lemma {:induction false} GroupOfItemLinesStep(s: string, p: nat, items: seq<string>)
    requires items != []
    requires AllPlain(items) && ItemsAt(s, p, items)
    ensures TaxGroupEnd(s, p) == p + |ItemLines(items)|
    decreases |items|, 0
  {
    var e := ItemLinesHead(s, p, items);
    IterItemLine(s, p, items[0]);
    GroupEndStep(s, p, e);
    PlainTail(items);
    GroupOfItemLines(s, e, items[1..]);
  }

  lemma PlainTail(items: seq<string>)
    requires items != [] && AllPlain(items)
    ensures PlainTerm(items[0]) && AllPlain(items[1..])
  {
    forall k | 0 <= k < |items[1..]| ensures PlainTerm(items[1..][k]) {
      assert items[1..][k] == items[k + 1];
    }
  }

  lemma GroupEndStop(s: string, p: nat)
    requires p <= |s| && TaxIter(s, p).None?
    ensures TaxGroupEnd(s, p) == p
  {
  }

  /** Where the first of several written item lines ends. */
  lemma ItemLinesHead(s: string, p: nat, items: seq<string>) returns (e: nat)
    requires items != [] && ItemsAt(s, p, items)
    ensures e == p + 11 + |items[0]| && e <= |s|
    ensures s[p..e] == ItemIndent + items[0] + "\n"
    ensures e + |ItemLines(items[1..])| == p + |ItemLines(items)|
    ensures ItemsAt(s, e, items[1..])
  {
    var line := ItemIndent + items[0] + "\n";
    var tail := ItemLines(items[1..]);
    var all := ItemLines(items);
    assert all == line + tail;
    e := p + |line|;
    assert s[p..e] == all[..|line|];
    assert s[e..e + |tail|] == all[|line|..];
  }

  lemma GroupEndStep(s: string, p: nat, e: nat)
    requires p <= |s| && TaxIter(s, p) == Some(e)
    ensures TaxGroupEnd(s, p) == TaxGroupEnd(s, e)
  {
  }

  /** A key the writers emit: no whitespace in it. */
  predicate KeyName(key: string)
  {
    key != [] && forall i :: 0 <= i < |key| ==> !IsJsSpace(key[i])
  }

  /** What follows a written block: not the start of another `\s+-` item. */
  predicate NoItemStart(rest: string)
  {
    var k := SkipSpace(rest, 0);
    k == 0 || (k < |rest| && rest[k] != '-')
  }

  /** Skipping whitespace in a suffix. */
  lemma SkipSpaceSuffix(s: string, p: nat)
    requires p <= |s|
    ensures SkipSpace(s, p) == p + SkipSpace(s[p..], 0)
  {
    var r := s[p..];
    var k := SkipSpace(r, 0);
    forall j | p <= j < p + k ensures IsJsSpace(s[j]) {
      assert s[j] == r[j - p];
    }
    if p + k < |s| {
      assert s[p + k] == r[k];
    }
    SkipSpaceRun(s, p, p + k);
  }

  /** No item iteration starts where the written block is followed by `rest`. */
  lemma NoIterAt(s: string, p: nat)
    requires p <= |s| && NoItemStart(s[p..])
    ensures TaxIter(s, p).None?
  {
    SkipSpaceSuffix(s, p);
    var k := SkipSpace(s[p..], 0);
    if 0 < k < |s[p..]| {
      assert s[p + k] == s[p..][k];
    }
  }

  /** `key:` occurs first right after the four-space indent when `pre` does not hold it. */
  lemma KeyFound(pre: string, key: string, tail: string)
    requires KeyName(key)
    requires !Contains(pre, key + ":")
    ensures IndexOfFrom(pre + "    " + key + ":" + tail, key + ":", 0) == |pre| + 4
  {
    var s := pre + "    " + key + ":" + tail;
    var t := key + ":";
    assert OccursAt(s, t, |pre| + 4) by {
      assert s[|pre| + 4..|pre| + 4 + |t|] == t;
    }
    forall j: nat | j < |pre| + 4 ensures !OccursAt(s, t, j) {
      if OccursAt(s, t, j) {
        KeyStraddle(pre, key, tail, j);
      }
    }
  }

  /** An occurrence of `key:` before the indent's end lies inside `pre`. */
  lemma KeyStraddle(pre: string, key: string, tail: string, j: nat)
    requires KeyName(key)
    requires j < |pre| + 4
    ensures OccursAt(pre + "    " + key + ":" + tail, key + ":", j) ==> Contains(pre, key + ":")
  {
    var s := pre + "    " + key + ":" + tail;
    var t := key + ":";
    if OccursAt(s, t, j) {
      if j + |t| <= |pre| {
        assert pre[j..j + |t|] == s[j..j + |t|];
        assert OccursAt(pre, t, j);
      } else {
        var m := if j < |pre| then |pre| else j;
        assert s[m] == ' ';
        KeyColonNoSpace(key, m - j);
      }
    }
  }

  lemma KeyColonNoSpace(key: string, i: nat)
    requires KeyName(key)
    ensures i < |key| + 1 ==> (key + ":")[i] != ' '
  {
  }

  /** After `key:` comes a line break, then the indent of the first item line. */
  lemma RunAfterKey(s: string, b: nat)
    requires b + 11 <= |s| && s[b] == '\n' && s[b + 1..b + 11] == ItemIndent
    ensures SkipSpace(s, b) == b + 9
    ensures LastCharIn(s, '\n', b, b + 9) == b
  {
    assert forall j :: b + 1 <= j < b + 11 ==> s[j] == ItemIndent[j - b - 1];
    SkipSpaceRun(s, b, b + 9);
  }

  lemma ItemLinesIndent(items: seq<string>)
    requires items != []
    ensures |ItemLines(items)| >= 10 && ItemLines(items)[..10] == ItemIndent
  {
    assert ItemLines(items) == ItemIndent + (items[0] + "\n" + ItemLines(items[1..]));
  }

  /** The group of a written taxonomy block starts at its first item line. */
  lemma GroupStartsAtItems(s: string, pre: string, key: string, block: string, rest: string)
    requires KeyName(key) && |block| >= 10 && block[..10] == ItemIndent
    requires !Contains(pre, key + ":")
    requires s == pre + "    " + key + ":\n" + block + rest
    ensures TaxGroupStart(s, key, 0) == Some(|pre| + |key| + 6)
  {
    var i := |pre| + 4;
    var b := i + |key| + 1;
    assert IndexOfFrom(s, key + ":", 0) == i by {
      var tail := "\n" + block + rest;
      assert s == pre + "    " + key + ":" + tail;
      KeyFound(pre, key, tail);
    }
    assert SkipSpace(s, b) == b + 9 && LastCharIn(s, '\n', b, b + 9) == b by {
      assert s[b] == '\n';
      assert s[b + 1..b + 11] == block[..10];
      RunAfterKey(s, b);
    }
    GroupStartAt(s, key, i);
  }

  lemma GroupStartAt(s: string, key: string, i: nat)
    requires IndexOfFrom(s, key + ":", 0) == i
    requires i + |key| + 10 <= |s| && SkipSpace(s, i + |key| + 1) == i + |key| + 10
    requires LastCharIn(s, '\n', i + |key| + 1, i + |key| + 10) == i + |key| + 1
    ensures TaxGroupStart(s, key, 0) == Some(i + |key| + 2)
  {
  }

  /**
   * The reader recovers the terms of a written taxonomy block: `    key:` on its
   * own line followed by `        - term` lines, when the text before it does not
   * hold `key:` and what follows it is no further item.
   */
  lemma TaxRoundTrip(pre: string, key: string, items: seq<string>, rest: string)
    requires KeyName(key) && items != []
    requires forall k :: 0 <= k < |items| ==> PlainTerm(items[k])
    requires !Contains(pre, key + ":")
    requires NoItemStart(rest)
    ensures TaxList(pre + "    " + key + ":\n" + ItemLines(items) + rest, key) == items
  {
    var s := pre + "    " + key + ":\n" + ItemLines(items) + rest;
    var block := ItemLines(items);
    var st := |pre| + |key| + 6;
    var en := st + |block|;
    ItemLinesIndent(items);
    GroupStartsAtItems(s, pre, key, block, rest);
    var a := pre + "    " + key + ":\n";
    assert |a| == st;
    ItemsAtBlock(s, a, items, rest);
    assert AllPlain(items);
    GroupOfItemLines(s, st, items);
    SplitItemLines(items);
    TaxListOfGroup(s, key, st, en);
  }

  lemma ItemsAtBlock(s: string, a: string, items: seq<string>, rest: string)
    requires s == a + ItemLines(items) + rest && NoItemStart(rest)
    ensures ItemsAt(s, |a|, items) && s[|a|..|a| + |ItemLines(items)|] == ItemLines(items)
  {
    BlockSlices(s, a, ItemLines(items), rest);
  }

  lemma BlockSlices(s: string, a: string, block: string, rest: string)
    requires s == a + block + rest
    ensures s[|a|..|a| + |block|] == block && s[|a| + |block|..] == rest
  {
  }

  lemma TaxListOfGroup(s: string, key: string, st: nat, en: nat)
    requires TaxGroupStart(s, key, 0) == Some(st)
    requires st <= |s| && TaxGroupEnd(s, st) == en
    ensures TaxList(s, key) == TaxItems(Split(s[st..en], '\n'))
  {
  }

  // ---------------------------------------------------------------------------
  // `replaceImageAltTitle`
  // ---------------------------------------------------------------------------

  /** `xs[i] || orig`: the translated text when there is a non-empty one, else the original. */
  function Pick(xs: seq<string>, i: nat, orig: string): (r: string)
    ensures orig != "" ==> r != ""
    ensures r == orig || (i < |xs| && r == xs[i])
  {
    if i < |xs| && xs[i] != "" then xs[i] else orig
  }

  /** How far one image advances the alt counter: only a non-empty alt consumes a translation. */
  function AltStep(img: Image): nat { if img.alt != "" then 1 else 0 }

  /** How far one image advances the title counter. */
  function TitleStep(img: Image): nat { if TitleText(img.title) != "" then 1 else 0 }

  /** How far one piece of the scanned body advances the alt counter. */
  function AltAdvance(x: Piece): nat { if x.Img? then AltStep(x.img) else 0 }

  /** How far one piece of the scanned body advances the title counter. */
  function TitleAdvance(x: Piece): nat { if x.Img? then TitleStep(x.img) else 0 }

  /** The replacement the callback builds for one image, with the counters at `ai` and `ti`. */
  function NewImage(img: Image, alts: seq<string>, titles: seq<string>, ai: nat, ti: nat): (r: Image)
    ensures r.path == img.path
    ensures r.alt == "" <==> img.alt == ""
    ensures r.title.None? <==> TitleText(img.title) == ""
    ensures r.title.Some? ==> r.title.value.sep == " "
  {
    var alt := if img.alt == "" then "" else Pick(alts, ai, img.alt);
    var t := TitleText(img.title);
    var title := if t == "" then "" else Pick(titles, ti, t);
    Image(alt, img.path, if title == "" then None else Some(Title(" ", title)))
  }

  /** Every image of the scanned body replaced, the counters advancing left to right. */
  function RewritePieces(pieces: seq<Piece>, alts: seq<string>, titles: seq<string>, ai: nat, ti: nat): (r: seq<Piece>)
    ensures |r| == |pieces|
  {
    if pieces == [] then []
    else
      match pieces[0]
      case Chr(c) => [Chr(c)] + RewritePieces(pieces[1..], alts, titles, ai, ti)
      case Img(img) =>
        [Img(NewImage(img, alts, titles, ai, ti))]
          + RewritePieces(pieces[1..], alts, titles, ai + AltStep(img), ti + TitleStep(img))
  }

  /** The text `replaceImageAltTitle(body, alts, titles)` returns. */
  function ReplacedText(body: string, alts: seq<string>, titles: seq<string>): string
  {
    Unparse(RewritePieces(Scan(body, 0), alts, titles, 0, 0))
  }

  /** `replaceImageAltTitle(body, translatedAlts, translatedTitles)`: a global replace whose callback advances two counters. */
  method ReplaceImageAltTitle(body: string, translatedAlts: seq<string>, translatedTitles: seq<string>)
    returns (out: string)
    ensures out == ReplacedText(body, translatedAlts, translatedTitles)
  {
    var altIdx := 0;
    var titleIdx := 0;
    out := "";
    var p := 0;
    ReplaceStart(body, translatedAlts, translatedTitles);
    while p < |body|
      invariant ReplaceInv(body, translatedAlts, translatedTitles, p, out, altIdx, titleIdx)
      decreases |body| - p
    {
      p, out, altIdx, titleIdx := ReplaceStep(body, translatedAlts, translatedTitles, p, out, altIdx, titleIdx);
    }
    ReplaceDone(body, translatedAlts, translatedTitles, p, out, altIdx, titleIdx);
  }

  lemma ReplaceStart(body: string, alts: seq<string>, titles: seq<string>)
    ensures ReplaceInv(body, alts, titles, 0, "", 0, 0)
  {
    assert "" + ReplacedText(body, alts, titles) == ReplacedText(body, alts, titles);
  }

  lemma ReplaceDone(body: string, alts: seq<string>, titles: seq<string>, p: nat, out: string, ai: nat, ti: nat)
    requires p >= |body| && ReplaceInv(body, alts, titles, p, out, ai, ti)
    ensures out == ReplacedText(body, alts, titles)
  {
    assert Scan(body, p) == [];
    assert out + "" == out;
  }

  /**
   * One step of the global replace from position `p`: an image match there is
   * handed to the callback, any other character is copied.
   */
  method ReplaceStep(body: string, translatedAlts: seq<string>, translatedTitles: seq<string>, p: nat, out: string,
                     altIdx: nat, titleIdx: nat)
    returns (p': nat, out': string, altIdx': nat, titleIdx': nat)
    requires p < |body|
    requires ReplaceInv(body, translatedAlts, translatedTitles, p, out, altIdx, titleIdx)
    ensures p < p'
    ensures ReplaceInv(body, translatedAlts, translatedTitles, p', out', altIdx', titleIdx')
  {
    var m := MatchAt(body, p);
    if m.Some? {
      var piece;
      piece, altIdx', titleIdx' := ReplaceCallback(m.value.img, translatedAlts, translatedTitles, altIdx, titleIdx);
      ReplaceStepImg(body, translatedAlts, translatedTitles, p, out, altIdx, titleIdx, m.value, piece, altIdx', titleIdx');
      out' := out + piece;
      p' := m.value.end;
    } else {
      ReplaceStepChr(body, translatedAlts, translatedTitles, p, out, altIdx, titleIdx);
      out' := out + [body[p]];
      p', altIdx', titleIdx' := p + 1, altIdx, titleIdx;
    }
  }

  /** The replace so far wrote `out`, and what remains from `p` will be rewritten with the counters at `ai` and `ti`. */
  predicate ReplaceInv(body: string, alts: seq<string>, titles: seq<string>, p: nat, out: string, ai: nat, ti: nat)
  {
    p <= |body| && out + Unparse(RewritePieces(Scan(body, p), alts, titles, ai, ti)) == ReplacedText(body, alts, titles)
  }

  lemma ReplaceStepImg(body: string, alts: seq<string>, titles: seq<string>, p: nat, out: string, ai: nat, ti: nat,
                       m: Match, piece: string, ai': nat, ti': nat)
    requires p < |body| && MatchAt(body, p) == Some(m)
    requires piece == ImageText(NewImage(m.img, alts, titles, ai, ti))
    requires ai' == ai + AltStep(m.img) && ti' == ti + TitleStep(m.img)
    requires ReplaceInv(body, alts, titles, p, out, ai, ti)
    ensures ReplaceInv(body, alts, titles, m.end, out + piece, ai', ti')
  {
    RewriteStepImg(body, p, m, alts, titles, ai, ti, ai', ti');
    Regroup(out, piece, Unparse(RewritePieces(Scan(body, p), alts, titles, ai, ti)),
            Unparse(RewritePieces(Scan(body, m.end), alts, titles, ai', ti')),
            ReplacedText(body, alts, titles));
  }

  lemma ReplaceStepChr(body: string, alts: seq<string>, titles: seq<string>, p: nat, out: string, ai: nat, ti: nat)
    requires p < |body| && MatchAt(body, p).None?
    requires ReplaceInv(body, alts, titles, p, out, ai, ti)
    ensures ReplaceInv(body, alts, titles, p + 1, out + [body[p]], ai, ti)
  {
    RewriteStepChr(body, p, alts, titles, ai, ti);
    Regroup(out, [body[p]], Unparse(RewritePieces(Scan(body, p), alts, titles, ai, ti)),
            Unparse(RewritePieces(Scan(body, p + 1), alts, titles, ai, ti)), ReplacedText(body, alts, titles));
  }

  /** The callback of the replace: the new image text and the advanced counters. */
  method ReplaceCallback(img: Image, translatedAlts: seq<string>, translatedTitles: seq<string>, altIdx: nat, titleIdx: nat)
    returns (piece: string, altIdx': nat, titleIdx': nat)
    ensures piece == ImageText(NewImage(img, translatedAlts, translatedTitles, altIdx, titleIdx))
    ensures altIdx' == altIdx + AltStep(img) && titleIdx' == titleIdx + TitleStep(img)
  {
    altIdx', titleIdx' := altIdx, titleIdx;
    var newAlt := "";
    if img.alt != "" {
      newAlt := Pick(translatedAlts, altIdx', img.alt);
      altIdx' := altIdx' + 1;
    }
    var newTitle := "";
    var origTitle := TitleText(img.title);
    if origTitle != "" {
      newTitle := Pick(translatedTitles, titleIdx', origTitle);
      titleIdx' := titleIdx' + 1;
    }
    ReplacementText(img, newAlt, newTitle);
    if newTitle != "" {
      piece := "![" + newAlt + "](" + img.path + " \"" + newTitle + "\")";
    } else {
      piece := "![" + newAlt + "](" + img.path + ")";
    }
  }

  lemma ReplacementText(img: Image, alt: string, title: string)
    ensures title != "" ==>
              ImageText(Image(alt, img.path, Some(Title(" ", title)))) ==
                "![" + alt + "](" + img.path + " \"" + title + "\")"
    ensures ImageText(Image(alt, img.path, None)) == "![" + alt + "](" + img.path + ")"
  {
  }

  lemma RewriteConsChr(c: char, rest: seq<Piece>, alts: seq<string>, titles: seq<string>, ai: nat, ti: nat)
    ensures RewritePieces([Chr(c)] + rest, alts, titles, ai, ti) == [Chr(c)] + RewritePieces(rest, alts, titles, ai, ti)
  {
    assert ([Chr(c)] + rest)[1..] == rest;
  }

  lemma RewriteConsImg(img: Image, rest: seq<Piece>, alts: seq<string>, titles: seq<string>, ai: nat, ti: nat)
    ensures RewritePieces([Img(img)] + rest, alts, titles, ai, ti) ==
              [Img(NewImage(img, alts, titles, ai, ti))]
                + RewritePieces(rest, alts, titles, ai + AltStep(img), ti + TitleStep(img))
  {
    assert ([Img(img)] + rest)[1..] == rest;
  }

  /** One step of the global replace at a matched image. */
  lemma RewriteStepImg(s: string, p: nat, m: Match, alts: seq<string>, titles: seq<string>, ai: nat, ti: nat,
                       ai': nat, ti': nat)
    requires p < |s| && MatchAt(s, p) == Some(m)
    requires ai' == ai + AltStep(m.img) && ti' == ti + TitleStep(m.img)
    ensures Unparse(RewritePieces(Scan(s, p), alts, titles, ai, ti)) ==
              ImageText(NewImage(m.img, alts, titles, ai, ti)) + Unparse(RewritePieces(Scan(s, m.end), alts, titles, ai', ti'))
  {
    assert Scan(s, p) == [Img(m.img)] + Scan(s, m.end);
    var rest := RewritePieces(Scan(s, m.end), alts, titles, ai + AltStep(m.img), ti + TitleStep(m.img));
    RewriteConsImg(m.img, Scan(s, m.end), alts, titles, ai, ti);
    UnparseCons(Img(NewImage(m.img, alts, titles, ai, ti)), rest);
  }

  /** One step of the global replace at a character that starts no image. */
  lemma RewriteStepChr(s: string, p: nat, alts: seq<string>, titles: seq<string>, ai: nat, ti: nat)
    requires p < |s| && MatchAt(s, p).None?
    ensures Unparse(RewritePieces(Scan(s, p), alts, titles, ai, ti)) ==
              [s[p]] + Unparse(RewritePieces(Scan(s, p + 1), alts, titles, ai, ti))
  {
    assert Scan(s, p) == [Chr(s[p])] + Scan(s, p + 1);
    var rest := RewritePieces(Scan(s, p + 1), alts, titles, ai, ti);
    RewriteConsChr(s[p], Scan(s, p + 1), alts, titles, ai, ti);
    UnparseCons(Chr(s[p]), rest);
  }

  /**
   * The replace keeps every image where it is, with its path, and keeps the
   * text around the images; an empty alt stays empty and the new title is
   * written with a single space before it.
   */
  lemma {:induction false} RewriteKeepsImages(pieces: seq<Piece>, alts: seq<string>, titles: seq<string>, ai: nat, ti: nat)
    ensures var r := RewritePieces(pieces, alts, titles, ai, ti);
            && (forall k :: 0 <= k < |r| ==> (r[k].Img? <==> pieces[k].Img?))
            && (forall k :: 0 <= k < |r| && pieces[k].Chr? ==> r[k] == pieces[k])
            && (forall k :: 0 <= k < |r| && pieces[k].Img? ==>
                  && r[k].img.path == pieces[k].img.path
                  && (r[k].img.alt == "" <==> pieces[k].img.alt == "")
                  && (r[k].img.title.None? <==> TitleText(pieces[k].img.title) == ""))
  {
    if pieces != [] {
      var x := pieces[0];
      var rest := pieces[1..];
      assert pieces == [x] + rest;
      match x
      case Chr(c) =>
        RewriteKeepsImages(rest, alts, titles, ai, ti);
        RewriteConsChr(c, rest, alts, titles, ai, ti);
      case Img(img) =>
        RewriteKeepsImages(rest, alts, titles, ai + AltStep(img), ti + TitleStep(img));
        RewriteConsImg(img, rest, alts, titles, ai, ti);
    }
  }

  /**
   * The image at position `k` takes the translated alt whose index is the number
   * of images with a non-empty alt before it, and likewise for titles.
   */
  lemma RewriteChoosesByCounter(pieces: seq<Piece>, alts: seq<string>, titles: seq<string>,
                                ai: nat, ti: nat, k: nat)
    requires k < |pieces| && pieces[k].Img?
    ensures RewritePieces(pieces, alts, titles, ai, ti)[k] ==
              Img(NewImage(pieces[k].img, alts, titles,
                           ai + |AltTexts(Images(pieces[..k]))|, ti + |TitleTexts(Images(pieces[..k]))|))
  {
    ChoiceByCounters(pieces, alts, titles, ai, ti, k);
    AltCounterCount(pieces, ai, k);
    TitleCounterCount(pieces, ti, k);
  }

  /** The alt counter as it stands when the rewrite reaches position `k`. */
  function AltCounter(pieces: seq<Piece>, ai: nat, k: nat): nat
    requires k <= |pieces|
  {
    if k == 0 then ai else AltCounter(pieces[1..], ai + AltAdvance(pieces[0]), k - 1)
  }

  /** The title counter as it stands when the rewrite reaches position `k`. */
  function TitleCounter(pieces: seq<Piece>, ti: nat, k: nat): nat
    requires k <= |pieces|
  {
    if k == 0 then ti else TitleCounter(pieces[1..], ti + TitleAdvance(pieces[0]), k - 1)
  }

  /** The image the rewrite puts at `k`: the one at `k`, rewritten with the counters as they stand there. */
  function ChosenImage(pieces: seq<Piece>, alts: seq<string>, titles: seq<string>, ai: nat, ti: nat, k: nat): Piece
    requires k < |pieces| && pieces[k].Img?
  {
    Img(NewImage(pieces[k].img, alts, titles, AltCounter(pieces, ai, k), TitleCounter(pieces, ti, k)))
  }

  lemma {:induction false} ChoiceByCounters(pieces: seq<Piece>, alts: seq<string>, titles: seq<string>,
                                            ai: nat, ti: nat, k: nat)
    requires k < |pieces| && pieces[k].Img?
    ensures RewritePieces(pieces, alts, titles, ai, ti)[k] == ChosenImage(pieces, alts, titles, ai, ti, k)
  {
    if k == 0 {
      ChoiceHead(pieces, alts, titles, ai, ti);
    } else {
      ChoiceByCounters(pieces[1..], alts, titles, ai + AltAdvance(pieces[0]), ti + TitleAdvance(pieces[0]), k - 1);
      ChoiceStep(pieces, alts, titles, ai, ti, k);
    }
  }

  lemma ChoiceHead(pieces: seq<Piece>, alts: seq<string>, titles: seq<string>, ai: nat, ti: nat)
    requires 0 < |pieces| && pieces[0].Img?
    ensures RewritePieces(pieces, alts, titles, ai, ti)[0] == ChosenImage(pieces, alts, titles, ai, ti, 0)
  {
  }

  lemma ChoiceStep(pieces: seq<Piece>, alts: seq<string>, titles: seq<string>, ai: nat, ti: nat, k: nat)
    requires 0 < k < |pieces| && pieces[k].Img?
    requires RewritePieces(pieces[1..], alts, titles, ai + AltAdvance(pieces[0]), ti + TitleAdvance(pieces[0]))[k - 1] ==
             ChosenImage(pieces[1..], alts, titles, ai + AltAdvance(pieces[0]), ti + TitleAdvance(pieces[0]), k - 1)
    ensures RewritePieces(pieces, alts, titles, ai, ti)[k] == ChosenImage(pieces, alts, titles, ai, ti, k)
  {
    ChoiceShift(pieces, alts, titles, ai, ti, k);
  }

  lemma ChoiceShift(pieces: seq<Piece>, alts: seq<string>, titles: seq<string>, ai: nat, ti: nat, k: nat)
    requires 0 < k < |pieces|
    ensures RewritePieces(pieces, alts, titles, ai, ti)[k] ==
              RewritePieces(pieces[1..], alts, titles, ai + AltAdvance(pieces[0]), ti + TitleAdvance(pieces[0]))[k - 1]
    ensures pieces[k] == pieces[1..][k - 1]
    ensures AltCounter(pieces, ai, k) == AltCounter(pieces[1..], ai + AltAdvance(pieces[0]), k - 1)
    ensures TitleCounter(pieces, ti, k) == TitleCounter(pieces[1..], ti + TitleAdvance(pieces[0]), k - 1)
  {
    RewriteTail(pieces, alts, titles, ai, ti);
    ShiftIndex(RewritePieces(pieces, alts, titles, ai, ti),
               RewritePieces(pieces[1..], alts, titles, ai + AltAdvance(pieces[0]), ti + TitleAdvance(pieces[0])), k);
  }

  lemma {:induction false} AltCounterCount(pieces: seq<Piece>, ai: nat, k: nat)
    requires k <= |pieces|
    ensures AltCounter(pieces, ai, k) == ai + |AltTexts(Images(pieces[..k]))|
  {
    if k == 0 {
      assert pieces[..0] == [];
      assert Images([]) == [];
      assert AltTexts([]) == [];
    } else {
      AltCounterCount(pieces[1..], ai + AltAdvance(pieces[0]), k - 1);
      PrefixCounts(pieces, k);
    }
  }

  lemma {:induction false} TitleCounterCount(pieces: seq<Piece>, ti: nat, k: nat)
    requires k <= |pieces|
    ensures TitleCounter(pieces, ti, k) == ti + |TitleTexts(Images(pieces[..k]))|
  {
    if k == 0 {
      assert pieces[..0] == [];
      assert Images([]) == [];
      assert TitleTexts([]) == [];
    } else {
      TitleCounterCount(pieces[1..], ti + TitleAdvance(pieces[0]), k - 1);
      PrefixCounts(pieces, k);
    }
  }

  lemma ShiftIndex<T>(r: seq<T>, r1: seq<T>, k: nat)
    requires 0 < k < |r| && r[1..] == r1
    ensures r[k] == r1[k - 1]
  {
  }

  /** Past the first piece, the rewrite continues on the rest with the counters advanced by that piece. */
  lemma RewriteTail(pieces: seq<Piece>, alts: seq<string>, titles: seq<string>, ai: nat, ti: nat)
    requires 0 < |pieces|
    ensures RewritePieces(pieces, alts, titles, ai, ti)[1..] ==
              RewritePieces(pieces[1..], alts, titles,
                            ai + AltAdvance(pieces[0]),
                            ti + TitleAdvance(pieces[0]))
  {
  }

  /** Counting the alts and titles before position `k` from the first piece on. */
  lemma PrefixCounts(pieces: seq<Piece>, k: nat)
    requires 0 < k <= |pieces|
    ensures |AltTexts(Images(pieces[..k]))| ==
              AltAdvance(pieces[0]) + |AltTexts(Images(pieces[1..][..k - 1]))|
    ensures |TitleTexts(Images(pieces[..k]))| ==
              TitleAdvance(pieces[0]) + |TitleTexts(Images(pieces[1..][..k - 1]))|
  {
    var x := pieces[0];
    var tail := pieces[1..][..k - 1];
    assert pieces[..k] == [x] + tail;
    ImagesCons(x, tail);
    if x.Img? {
      assert Images([x]) == [x.img] + Images([]);
      assert Images(pieces[..k]) == [x.img] + Images(tail);
      AltTextsCons(x.img, Images(tail));
      TitleTextsCons(x.img, Images(tail));
    } else {
      assert Images([x]) == [] + Images([]);
      assert Images(pieces[..k]) == Images(tail);
    }
  }

  lemma AltTextsCons(img: Image, rest: seq<Image>)
    ensures |AltTexts([img] + rest)| == AltStep(img) + |AltTexts(rest)|
  {
    assert ([img] + rest)[1..] == rest;
  }

  lemma TitleTextsCons(img: Image, rest: seq<Image>)
    ensures |TitleTexts([img] + rest)| == TitleStep(img) + |TitleTexts(rest)|
  {
    assert ([img] + rest)[1..] == rest;
  }

  /** An image whose title, if any, is non-empty and written after one space. */
  predicate CanonicalImage(img: Image)
  {
    img.title.None? || (img.title.value.sep == " " && img.title.value.text != "")
  }

  /**
   * Feeding the replace the alts and titles that extraction found, or no
   * translations at all, rewrites every image to itself up to the spacing
   * before its title: an identity translation leaves the images alone.
   */
  lemma {:induction false} RewriteWithOwnTexts(pieces: seq<Piece>, alts: seq<string>, titles: seq<string>, ai: nat, ti: nat)
    requires OwnOrNone(alts, ai, AltTexts(Images(pieces)))
    requires OwnOrNone(titles, ti, TitleTexts(Images(pieces)))
    requires forall k :: 0 <= k < |pieces| && pieces[k].Img? ==> CanonicalImage(pieces[k].img)
    ensures RewritePieces(pieces, alts, titles, ai, ti) == pieces
  {
    if pieces != [] {
      var rest := pieces[1..];
      CanonicalTail(pieces);
      ImagesHead(pieces);
      if pieces[0].Chr? {
        RewriteWithOwnTexts(rest, alts, titles, ai, ti);
        KeptHead(pieces, alts, titles, ai, ti, ai + AltAdvance(pieces[0]), ti + TitleAdvance(pieces[0]));
      } else {
        var img := pieces[0].img;
        OwnTextsStep(img, Images(rest), alts, titles, ai, ti);
        var ai', ti' := ai + AltStep(img), ti + TitleStep(img);
        RewriteWithOwnTexts(rest, alts, titles, ai', ti');
        KeptHead(pieces, alts, titles, ai, ti, ai', ti');
      }
    }
  }

  /** A rewrite that keeps the first piece and the rest keeps the whole. */
  lemma KeptHead(pieces: seq<Piece>, alts: seq<string>, titles: seq<string>, ai: nat, ti: nat, ai': nat, ti': nat)
    requires pieces != []
    requires ai' == ai + AltAdvance(pieces[0]) && ti' == ti + TitleAdvance(pieces[0])
    requires pieces[0].Img? ==> NewImage(pieces[0].img, alts, titles, ai, ti) == pieces[0].img
    requires RewritePieces(pieces[1..], alts, titles, ai', ti') == pieces[1..]
    ensures RewritePieces(pieces, alts, titles, ai, ti) == pieces
  {
    RewriteTail(pieces, alts, titles, ai, ti);
    HeadKept(pieces, alts, titles, ai, ti);
    HeadTailEqual(RewritePieces(pieces, alts, titles, ai, ti), pieces);
  }

  lemma HeadKept(pieces: seq<Piece>, alts: seq<string>, titles: seq<string>, ai: nat, ti: nat)
    requires pieces != []
    requires pieces[0].Img? ==> NewImage(pieces[0].img, alts, titles, ai, ti) == pieces[0].img
    ensures RewritePieces(pieces, alts, titles, ai, ti)[0] == pieces[0]
  {
  }

  lemma HeadTailEqual<T>(r: seq<T>, x: seq<T>)
    requires |r| == |x| > 0 && r[0] == x[0] && r[1..] == x[1..]
    ensures r == x
  {
    HeadTail(r);
    HeadTail(x);
  }

  lemma CanonicalTail(pieces: seq<Piece>)
    requires pieces != []
    requires forall k :: 0 <= k < |pieces| && pieces[k].Img? ==> CanonicalImage(pieces[k].img)
    ensures pieces[0].Img? ==> CanonicalImage(pieces[0].img)
    ensures forall k :: 0 <= k < |pieces[1..]| && pieces[1..][k].Img? ==> CanonicalImage(pieces[1..][k].img)
  {
    forall k | 0 <= k < |pieces[1..]| && pieces[1..][k].Img? ensures CanonicalImage(pieces[1..][k].img) {
      assert pieces[1..][k] == pieces[k + 1];
    }
  }

  lemma ImagesHead(pieces: seq<Piece>)
    requires pieces != []
    ensures pieces[0].Chr? ==> Images(pieces) == Images(pieces[1..])
    ensures pieces[0].Img? ==> Images(pieces) == [pieces[0].img] + Images(pieces[1..])
  {
  }

  /** From index `i` on, `xs` holds exactly `own`, or nothing at all. */
  predicate OwnOrNone(xs: seq<string>, i: nat, own: seq<string>)
  {
    i >= |xs| || xs[i..] == own
  }

  /** The counters step over an image's own texts. */
  lemma OwnTextsStep(img: Image, rest: seq<Image>, alts: seq<string>, titles: seq<string>, ai: nat, ti: nat)
    requires CanonicalImage(img)
    requires OwnOrNone(alts, ai, AltTexts([img] + rest))
    requires OwnOrNone(titles, ti, TitleTexts([img] + rest))
    ensures NewImage(img, alts, titles, ai, ti) == img
    ensures OwnOrNone(alts, ai + AltStep(img), AltTexts(rest))
    ensures OwnOrNone(titles, ti + TitleStep(img), TitleTexts(rest))
  {
    assert ([img] + rest)[1..] == rest;
    if ai < |alts| && img.alt != "" {
      assert alts[ai] == alts[ai..][0];
      assert alts[ai + 1..] == alts[ai..][1..];
    }
    if ti < |titles| && TitleText(img.title) != "" {
      assert titles[ti] == titles[ti..][0];
      assert titles[ti + 1..] == titles[ti..][1..];
    }
  }

  /**
   * With no translations, or with the texts it extracted itself, the replace
   * gives back a body whose titles are all written after one space.
   */
  lemma ReplaceIdentity(body: string, alts: seq<string>, titles: seq<string>)
    requires alts == AltTexts(ImagesOf(body)) || alts == []
    requires titles == TitleTexts(ImagesOf(body)) || titles == []
    requires forall img :: img in ImagesOf(body) ==> CanonicalImage(img)
    ensures ReplacedText(body, alts, titles) == body
  {
    var pieces := Scan(body, 0);
    forall k | 0 <= k < |pieces| && pieces[k].Img? ensures CanonicalImage(pieces[k].img) {
      ImageInImages(pieces, k);
    }
    assert alts[0..] == alts && titles[0..] == titles;
    assert OwnOrNone(alts, 0, AltTexts(Images(pieces)));
    assert OwnOrNone(titles, 0, TitleTexts(Images(pieces)));
    RewriteWithOwnTexts(pieces, alts, titles, 0, 0);
    ScanRoundTrip(body, 0);
  }

  lemma {:induction false} ImageInImages(pieces: seq<Piece>, k: nat)
    requires k < |pieces| && pieces[k].Img?
    ensures pieces[k].img in Images(pieces)
  {
    HeadTail(pieces);
    ImagesCons(pieces[0], pieces[1..]);
    if k > 0 {
      assert pieces[1..][k - 1] == pieces[k];
      ImageInImages(pieces[1..], k - 1);
    }
  }

  // ---------------------------------------------------------------------------
  // `extractTranslatableSegments`
  // ---------------------------------------------------------------------------

  /** The record `extractTranslatableSegments` returns. */
  datatype Segments = Segments(
    title: string, excerpt: string, body: string,
    categories: seq<string>, tags: seq<string>,
    imageAlts: seq<string>, imageTitles: seq<string>,
    featuredImage: string, postStatus: string, postDate: string, yaml: string)

  const DefaultStatus: string := "publish"

  // The scalar keys of the front matter.
  const TitleKey: string := "title"
  const ExcerptKey: string := "post_excerpt"
  const StatusKey: string := "post_status"
  const DateKey: string := "post_date"
  const FeaturedKey: string := "featured_image"
  const CategoryKey: string := "category"
  const TagKey: string := "post_tag"
  /** The line that opens the taxonomy block. */
  const TaxonomyOpen: string := "taxonomy:"

  /** `yamlField(yaml, 'post_status') || 'publish'`. */
  function StatusOf(yaml: string): (r: string)
    ensures r != ""
    ensures YamlField(yaml, StatusKey) != "" ==> r == YamlField(yaml, StatusKey)
  {
    var v := YamlField(yaml, StatusKey);
    if v != "" then v else DefaultStatus
  }

  /** `extractTranslatableSegments(raw)`: None when the article has no front matter. */
  function ExtractTranslatableSegments(raw: string): (r: Option<Segments>)
    ensures r.None? <==> SplitFrontmatter(raw).None?
    ensures r.Some? ==> r.value.postStatus != ""
    ensures r.Some? ==>
              raw == "---\n" + r.value.yaml + Delimiter + r.value.body ||
              raw == "---\n" + r.value.yaml + Delimiter + "\n" + r.value.body
  {
    match SplitFrontmatter(raw)
    case None => None
    case Some(f) =>
      SplitFrontmatterRebuilds(raw);
      var images := ImagesOf(f.body);
      Some(Segments(
        YamlField(f.yaml, TitleKey), YamlField(f.yaml, ExcerptKey), f.body,
        TaxList(f.yaml, CategoryKey), TaxList(f.yaml, TagKey),
        AltTexts(images), TitleTexts(images),
        YamlField(f.yaml, FeaturedKey), StatusOf(f.yaml), YamlField(f.yaml, DateKey), f.yaml))
  }

  /** Some line of the YAML starts with `field:`. */
  predicate HasField(yaml: string, field: string)
  {
    LineStartFind(yaml, field + ":", 0) >= 0
  }

  /** A missing `post_status` reads as "publish" and the other missing scalars as ''. */
  lemma SegmentsDefaults(raw: string)
    requires ExtractTranslatableSegments(raw).Some?
    ensures var g := ExtractTranslatableSegments(raw).value;
            && (!HasField(g.yaml, StatusKey) ==> g.postStatus == DefaultStatus)
            && (!HasField(g.yaml, TitleKey) ==> g.title == "")
            && (!HasField(g.yaml, ExcerptKey) ==> g.excerpt == "")
            && (!HasField(g.yaml, FeaturedKey) ==> g.featuredImage == "")
            && (!HasField(g.yaml, DateKey) ==> g.postDate == "")
  {
    var y := SplitFrontmatter(raw).value.yaml;
    MissingStatus(y);
    MissingFields(y);
  }

  lemma MissingStatus(y: string)
    ensures !HasField(y, StatusKey) ==> StatusOf(y) == DefaultStatus
  {
    if !HasField(y, StatusKey) { FieldMissing(y, StatusKey); }
  }

  lemma MissingFields(y: string)
    ensures !HasField(y, TitleKey) ==> YamlField(y, TitleKey) == ""
    ensures !HasField(y, ExcerptKey) ==> YamlField(y, ExcerptKey) == ""
    ensures !HasField(y, FeaturedKey) ==> YamlField(y, FeaturedKey) == ""
    ensures !HasField(y, DateKey) ==> YamlField(y, DateKey) == ""
  {
    if !HasField(y, TitleKey) { FieldMissing(y, TitleKey); }
    if !HasField(y, ExcerptKey) { FieldMissing(y, ExcerptKey); }
    if !HasField(y, FeaturedKey) { FieldMissing(y, FeaturedKey); }
    if !HasField(y, DateKey) { FieldMissing(y, DateKey); }
  }

  /** The alt and title lists hold one non-empty text per image of the body that has one, in order. */
  lemma SegmentsImageTexts(raw: string)
    requires ExtractTranslatableSegments(raw).Some?
    ensures var g := ExtractTranslatableSegments(raw).value;
            && |g.imageAlts| == CountAlts(ImagesOf(g.body)) <= |ImagesOf(g.body)|
            && |g.imageTitles| == CountTitles(ImagesOf(g.body)) <= |ImagesOf(g.body)|
            && (forall i :: 0 <= i < |g.imageAlts| ==> g.imageAlts[i] != "")
            && (forall i :: 0 <= i < |g.imageTitles| ==> g.imageTitles[i] != "")
  {
    var imgs := ImagesOf(SplitFrontmatter(raw).value.body);
    AltCount(imgs);
    TitleCount(imgs);
  }

  /** The number of images with a non-empty alt. */
  function CountAlts(imgs: seq<Image>): nat
  {
    if imgs == [] then 0 else AltStep(imgs[0]) + CountAlts(imgs[1..])
  }

  /** The number of images with a non-empty title. */
  function CountTitles(imgs: seq<Image>): nat
  {
    if imgs == [] then 0 else TitleStep(imgs[0]) + CountTitles(imgs[1..])
  }

  lemma {:induction false} AltCount(imgs: seq<Image>)
    ensures |AltTexts(imgs)| == CountAlts(imgs) <= |imgs|
  {
    if imgs != [] {
      AltCount(imgs[1..]);
    }
  }

  lemma {:induction false} TitleCount(imgs: seq<Image>)
    ensures |TitleTexts(imgs)| == CountTitles(imgs) <= |imgs|
  {
    if imgs != [] {
      TitleCount(imgs[1..]);
    }
  }

  // ---------------------------------------------------------------------------
  // `buildTranslatedFrontmatter`
  // ---------------------------------------------------------------------------

  /** The argument record of `buildTranslatedFrontmatter`. */
  datatype Header = Header(
    title: string, postStatus: string, postDate: string, excerpt: string,
    categories: seq<string>, tags: seq<string>, featuredImage: string,
    translationGroup: string, translationLang: string)

  /** `        - item` for every item, in order. */
  function ItemLineSeq(items: seq<string>): (r: seq<string>)
    ensures |r| == |items|
    ensures forall i :: 0 <= i < |r| ==> r[i] == ItemIndent + items[i]
  {
    if items == [] then [] else [ItemIndent + items[0]] + ItemLineSeq(items[1..])
  }

  /** `    key:`, the line that opens the items of one taxonomy key. */
  function KeyLine(key: string): string
  {
    "    " + key + ":"
  }

  /** The lines of one taxonomy key: none for an empty list. */
  function GroupLines(key: string, items: seq<string>): (r: seq<string>)
    ensures items == [] <==> r == []
    ensures items != [] ==> r == [KeyLine(key)] + ItemLineSeq(items)
  {
    if items == [] then [] else [KeyLine(key)] + ItemLineSeq(items)
  }

  /** The taxonomy block: present only when there is a category or a tag. */
  function TaxonomyLines(categories: seq<string>, tags: seq<string>): seq<string>
  {
    if categories == [] && tags == [] then []
    else [TaxonomyOpen] + GroupLines(CategoryKey, categories) + GroupLines(TagKey, tags)
  }

  /** A line of the written header when `cond` holds. */
  function LineIf(cond: bool, line: string): (r: seq<string>)
    ensures cond <==> r == [line]
    ensures !cond <==> r == []
  {
    if cond then [line] else []
  }

  /** The `---` line that opens and closes front matter. */
  const Fence: string := "---"
  const CustomFieldsLine: string := "custom_fields:"

  function TitleLine(h: Header): string { "title: " + YamlValue(h.title) }
  function StatusLine(h: Header): string { "post_status: " + h.postStatus }
  function DateLine(h: Header): string { "post_date: " + h.postDate }
  function ExcerptLine(h: Header): string { "post_excerpt: " + YamlValue(h.excerpt) }
  function FeaturedLine(h: Header): string { "featured_image: " + h.featuredImage }
  function GroupLine(h: Header): string { "    _translation_group: " + h.translationGroup }
  function LangLine(h: Header): string { "    _translation_lang: " + h.translationLang }

  /** The lines `buildTranslatedFrontmatter` pushes, in order. */
  function HeaderLines(h: Header): seq<string>
  {
    HeaderHead(h) + TaxonomyLines(h.categories, h.tags) + HeaderTail(h)
  }

  /** The lines before the taxonomy block. */
  function HeaderHead(h: Header): seq<string>
  {
    [Fence, TitleLine(h), StatusLine(h)]
      + LineIf(h.postDate != "", DateLine(h))
      + LineIf(h.excerpt != "", ExcerptLine(h))
      + LineIf(h.featuredImage != "", FeaturedLine(h))
  }

  /** The lines after the taxonomy block. */
  function HeaderTail(h: Header): seq<string>
  {
    [CustomFieldsLine, GroupLine(h), LangLine(h), Fence]
  }

  /** The text `buildTranslatedFrontmatter` returns: the lines joined by '\n', plus a final '\n'. */
  function HeaderText(h: Header): string
  {
    Join(HeaderLines(h), "\n") + "\n"
  }

  /** `buildTranslatedFrontmatter(h)`: `lines.push(...)` step by step, then `lines.join('\n') + '\n'`. */
  method BuildTranslatedFrontmatter(h: Header) returns (out: string)
    ensures out == HeaderText(h)
  {
    var lines := [Fence];
    lines := lines + [TitleLine(h)];
    lines := lines + [StatusLine(h)];
    ghost var l0 := lines;
    assert l0 == [Fence, TitleLine(h), StatusLine(h)];
    if h.postDate != "" { lines := lines + [DateLine(h)]; }
    assert lines == l0 + LineIf(h.postDate != "", DateLine(h));
    ghost var l1 := lines;
    if h.excerpt != "" { lines := lines + [ExcerptLine(h)]; }
    assert lines == l1 + LineIf(h.excerpt != "", ExcerptLine(h));
    ghost var l2 := lines;
    if h.featuredImage != "" { lines := lines + [FeaturedLine(h)]; }
    assert lines == l2 + LineIf(h.featuredImage != "", FeaturedLine(h));
    assert lines == HeaderHead(h);
    lines := PushTaxonomy(lines, h.categories, h.tags);
    ghost var l3 := lines;
    lines := lines + [CustomFieldsLine];
    lines := lines + [GroupLine(h)];
    lines := lines + [LangLine(h)];
    lines := lines + [Fence];
    assert lines == l3 + HeaderTail(h);
    out := Join(lines, "\n") + "\n";
  }

  /** The `if (categories.length || tags.length)` block of `buildTranslatedFrontmatter`. */
  method PushTaxonomy(lines: seq<string>, categories: seq<string>, tags: seq<string>) returns (r: seq<string>)
    ensures r == lines + TaxonomyLines(categories, tags)
  {
    r := lines;
    if |categories| > 0 || |tags| > 0 {
      r := r + [TaxonomyOpen];
      r := PushGroup(r, CategoryKey, categories);
      r := PushGroup(r, TagKey, tags);
      TaxonomyPushed(lines, categories, tags, r);
    } else {
      assert TaxonomyLines(categories, tags) == [];
      assert r == lines + [];
    }
  }

  lemma TaxonomyPushed(lines: seq<string>, categories: seq<string>, tags: seq<string>, r: seq<string>)
    requires categories != [] || tags != []
    requires r == lines + [TaxonomyOpen] + GroupLines(CategoryKey, categories) + GroupLines(TagKey, tags)
    ensures r == lines + TaxonomyLines(categories, tags)
  {
    var gc, gt := GroupLines(CategoryKey, categories), GroupLines(TagKey, tags);
    SeqAssoc(lines + [TaxonomyOpen], gc, gt);
    SeqAssoc(lines, [TaxonomyOpen], gc + gt);
    SeqAssoc([TaxonomyOpen], gc, gt);
  }

  /** `if (items.length) { lines.push(`    ${key}:`); for (...) lines.push(...) }`. */
  method PushGroup(lines: seq<string>, key: string, items: seq<string>) returns (r: seq<string>)
    ensures r == lines + GroupLines(key, items)
  {
    r := lines;
    if |items| > 0 {
      r := r + [KeyLine(key)];
      r := PushItems(r, items);
      assert r == lines + ([KeyLine(key)] + ItemLineSeq(items));
    }
  }

  /** `for (const x of items) lines.push(`        - ${x}`)`. */
  method PushItems(lines: seq<string>, items: seq<string>) returns (r: seq<string>)
    ensures r == lines + ItemLineSeq(items)
  {
    r := lines;
    var i := 0;
    while i < |items|
      invariant 0 <= i <= |items|
      invariant r == lines + ItemLineSeq(items[..i])
    {
      ItemLineSeqSnoc(items, i);
      r := r + [ItemIndent + items[i]];
      i := i + 1;
    }
    assert items[..i] == items;
  }

  lemma {:induction false} ItemLineSeqSnoc(items: seq<string>, i: nat)
    requires i < |items|
    ensures ItemLineSeq(items[..i + 1]) == ItemLineSeq(items[..i]) + [ItemIndent + items[i]]
  {
    var a, b := ItemLineSeq(items[..i + 1]), ItemLineSeq(items[..i]) + [ItemIndent + items[i]];
    assert |a| == |b|;
    forall k | 0 <= k < |a| ensures a[k] == b[k] {
      assert items[..i + 1][k] == items[k];
    }
  }

  /**
   * The header opens with a `---` line and closes with `---` and a final line
   * break; its last lines are `custom_fields:` with the translation group and
   * language, whatever else is written.
   */
  lemma HeaderFrame(h: Header)
    ensures var t := HeaderText(h);
            |t| >= 8 && t[..4] == "---\n" && t[|t| - 5..] == "\n---\n"
    ensures var ls := HeaderLines(h);
            |ls| >= 7 && ls[0] == Fence && ls[|ls| - 4..] == [CustomFieldsLine, GroupLine(h), LangLine(h), Fence]
  {
    var ls := HeaderLines(h);
    var init := ls[..|ls| - 1];
    assert ls == init + [Fence];
    JoinAppend(init, [Fence], "\n");
    assert init == [Fence] + init[1..];
    JoinCons(Fence, init[1..], "\n");
  }

  /** One of the three lines that open a taxonomy block or a taxonomy key. */
  predicate TaxonomyOpener(x: string)
  {
    x == TaxonomyOpen || x == KeyLine(CategoryKey) || x == KeyLine(TagKey)
  }

  lemma NotOpener(x: string)
    requires |x| >= 3 && x[0] != ' ' && (x[0] == 't' ==> x[1] == 'i')
    ensures !TaxonomyOpener(x)
  {
    assert KeyLine(CategoryKey)[0] == ' ' && KeyLine(TagKey)[0] == ' ';
  }

  lemma HeadHasNoOpener(h: Header)
    ensures TaxonomyOpen !in HeaderHead(h)
    ensures KeyLine(CategoryKey) !in HeaderHead(h) && KeyLine(TagKey) !in HeaderHead(h)
  {
    NotOpener(Fence);
    NotOpener(TitleLine(h));
    NotOpener(StatusLine(h));
    NotOpener(DateLine(h));
    NotOpener(ExcerptLine(h));
    NotOpener(FeaturedLine(h));
  }

  lemma TailHasNoOpener(h: Header)
    ensures TaxonomyOpen !in HeaderTail(h)
    ensures KeyLine(CategoryKey) !in HeaderTail(h) && KeyLine(TagKey) !in HeaderTail(h)
  {
    NotOpener(CustomFieldsLine);
    NotOpener(Fence);
    assert GroupLine(h)[4] == '_' && LangLine(h)[4] == '_';
    assert KeyLine(CategoryKey)[4] == 'c' && KeyLine(TagKey)[4] == 'p';
  }

  /** The `taxonomy:` line is written exactly when there is a category or a tag, and each key line exactly when its list is non-empty. */
  lemma HeaderTaxonomy(h: Header)
    ensures TaxonomyOpen in HeaderLines(h) <==> h.categories != [] || h.tags != []
    ensures KeyLine(CategoryKey) in HeaderLines(h) <==> h.categories != []
    ensures KeyLine(TagKey) in HeaderLines(h) <==> h.tags != []
  {
    HeadHasNoOpener(h);
    TailHasNoOpener(h);
    TaxonomyOpeners(h.categories, h.tags);
  }

  lemma TaxonomyOpeners(c: seq<string>, t: seq<string>)
    ensures TaxonomyOpen in TaxonomyLines(c, t) <==> c != [] || t != []
    ensures KeyLine(CategoryKey) in TaxonomyLines(c, t) <==> c != []
    ensures KeyLine(TagKey) in TaxonomyLines(c, t) <==> t != []
  {
    ItemLinesIndented(c);
    ItemLinesIndented(t);
    if c != [] || t != [] {
      var gc, gt := GroupLines(CategoryKey, c), GroupLines(TagKey, t);
      assert TaxonomyLines(c, t) == [TaxonomyOpen] + gc + gt;
      assert KeyLine(CategoryKey)[4] == 'c' && KeyLine(TagKey)[4] == 'p';
      assert TaxonomyOpen != KeyLine(CategoryKey) && TaxonomyOpen != KeyLine(TagKey);
      assert TaxonomyOpen !in gc && TaxonomyOpen !in gt;
      assert KeyLine(CategoryKey) !in gt && KeyLine(TagKey) !in gc;
    }
  }

  /** Every item line starts with eight spaces, so it is neither `taxonomy:` nor a key line. */
  lemma ItemLinesIndented(items: seq<string>)
    ensures forall i :: 0 <= i < |ItemLineSeq(items)| ==> ItemLineSeq(items)[i][..8] == "        "
    ensures TaxonomyOpen !in ItemLineSeq(items)
    ensures KeyLine(CategoryKey) !in ItemLineSeq(items) && KeyLine(TagKey) !in ItemLineSeq(items)
  {
    var r := ItemLineSeq(items);
    forall i | 0 <= i < |r| ensures r[i][..8] == "        " && r[i][4] == ' ' && r[i][0] == ' ' {
      assert r[i] == ItemIndent + items[i];
    }
  }

  // ---------------------------------------------------------------------------
  // `reassembleTranslation` and `countTranslatableChars`
  // ---------------------------------------------------------------------------

  /** The translated strings handed to `reassembleTranslation`. */
  datatype Translated = Translated(
    title: string, excerpt: string, body: string,
    categories: seq<string>, tags: seq<string>,
    imageAlts: seq<string>, imageTitles: seq<string>)

  /** The header of the translated article: translated texts, with status, date and featured image kept. */
  function HeaderOf(original: Segments, translated: Translated, targetLangDir: string, sourceSlug: string): (r: Header)
    ensures r.postStatus == original.postStatus && r.postDate == original.postDate
    ensures r.featuredImage == original.featuredImage
    ensures r.title == translated.title && r.excerpt == translated.excerpt
    ensures r.categories == translated.categories && r.tags == translated.tags
    ensures r.translationGroup == sourceSlug && r.translationLang == targetLangDir
  {
    Header(translated.title, original.postStatus, original.postDate, translated.excerpt,
           translated.categories, translated.tags, original.featuredImage, sourceSlug, targetLangDir)
  }

  /** `reassembleTranslation(original, translated, targetLangDir, sourceSlug)`. */
  method ReassembleTranslation(original: Segments, translated: Translated, targetLangDir: string, sourceSlug: string)
    returns (out: string)
    ensures out == HeaderText(HeaderOf(original, translated, targetLangDir, sourceSlug)) + "\n"
                   + ReplacedText(translated.body, translated.imageAlts, translated.imageTitles)
  {
    var frontmatter := BuildTranslatedFrontmatter(HeaderOf(original, translated, targetLangDir, sourceSlug));
    var body := ReplaceImageAltTitle(translated.body, translated.imageAlts, translated.imageTitles);
    out := frontmatter + "\n" + body;
  }

  /** The summed lengths of a list of strings. */
  function SumLengths(xs: seq<string>): nat
  {
    if xs == [] then 0 else |xs[0]| + SumLengths(xs[1..])
  }

  lemma {:induction false} SumLengthsSnoc(xs: seq<string>, i: nat)
    requires i < |xs|
    ensures SumLengths(xs[..i + 1]) == SumLengths(xs[..i]) + |xs[i]|
  {
    if i == 0 {
      assert xs[..1] == [xs[0]];
      assert xs[..1][1..] == [];
    } else {
      assert xs[..i + 1][1..] == xs[1..][..i];
      assert xs[..i][1..] == xs[1..][..i - 1];
      SumLengthsSnoc(xs[1..], i - 1);
    }
  }

  /** The summed lengths of every translatable string of the segments. */
  function TranslatableChars(segments: Segments): nat
  {
    |segments.title| + |segments.excerpt| + |segments.body|
    + SumLengths(segments.categories + segments.tags)
    + SumLengths(segments.imageAlts) + SumLengths(segments.imageTitles)
  }

  /**
   * `countTranslatableChars(segments)`: humanizing a slug keeps its length, so
   * the count is the summed lengths of every translatable string.
   */
  method CountTranslatableChars(segments: Segments) returns (total: nat)
    ensures total == TranslatableChars(segments)
  {
    total := 0;
    total := total + |segments.title|;
    total := total + |segments.excerpt|;
    total := total + |segments.body|;
    var terms := segments.categories + segments.tags;
    var t := AddLengths(total, terms, true);
    var a := AddLengths(t, segments.imageAlts, false);
    total := AddLengths(a, segments.imageTitles, false);
  }

  /** `for (const x of xs) total += (humanize ? humanizeSlug(x) : x).length`. */
  method AddLengths(start: nat, xs: seq<string>, humanize: bool) returns (total: nat)
    ensures total == start + SumLengths(xs)
  {
    total := start;
    var i := 0;
    while i < |xs|
      invariant 0 <= i <= |xs|
      invariant total == start + SumLengths(xs[..i])
    {
      SumLengthsSnoc(xs, i);
      var piece := if humanize then Humanize(xs[i]) else xs[i];
      total := total + |piece|;
      i := i + 1;
    }
    assert xs[..i] == xs;
  }
}
