// Placeholder substitution and the featured-image lookup of the Python
// converter's image module: `__IMAGE_n__` placeholders left by the document
// converters become Markdown image references, and leftover HTML `<img>`
// tags are rewritten to Markdown.

module ImagesPy {
  import opened Strings
  import ImageRefs

  // ---------------------------------------------------------------------------
  // Placeholders and the mapping
  // ---------------------------------------------------------------------------

  /** `f'__IMAGE_{idx}__'`: the placeholder the converters leave for image `idx`. */
  function Placeholder(index: nat): string
  {
    "__IMAGE_" + Decimal(index) + "__"
  }

  /** One entry of the placeholder mapping: the placeholder of image `index` and its Markdown path. */
  datatype Entry = Entry(index: nat, path: string)

  /** The characters a placeholder is made of. */
  predicate PlaceholderChar(c: char)
  {
    c == '_' || ('A' <= c <= 'Z') || IsDigit(c)
  }

  /** No character of `a` occurs in `q`. */
  predicate Disjoint(a: string, q: string)
  {
    forall k :: 0 <= k < |a| ==> a[k] !in q
  }

  /** `q` does not occur in `s` at any position from `i` on. */
  predicate AbsentFrom(s: string, q: string, i: nat)
  {
    forall j: nat :: i <= j <= |s| ==> !OccursAt(s, q, j)
  }

  lemma PlaceholderChars(index: nat)
    ensures forall k :: 0 <= k < |Placeholder(index)| ==> PlaceholderChar(Placeholder(index)[k])
  {
    var d := Decimal(index);
    var p := Placeholder(index);
    assert forall k :: 0 <= k < 8 ==> p[k] == "__IMAGE_"[k];
    assert forall k :: 8 <= k < 8 + |d| ==> p[k] == d[k - 8];
    assert forall k :: 8 + |d| <= k < |p| ==> p[k] == '_';
  }

  /** Text made of characters that never appear in a placeholder shares none with it. */
  lemma DisjointFromPlaceholder(a: string, index: nat)
    requires forall k :: 0 <= k < |a| ==> !PlaceholderChar(a[k])
    ensures Disjoint(a, Placeholder(index))
  {
    PlaceholderChars(index);
  }

  // ---------------------------------------------------------------------------
  // str.replace
  // ---------------------------------------------------------------------------

  /** `s[i:].replace(pat, rep)`: every occurrence, left to right, without overlaps. */
  function ReplaceFrom(s: string, i: nat, pat: string, rep: string): string
    requires pat != [] && i <= |s|
    decreases |s| - i
  {
    if i + |pat| > |s| then s[i..]
    else if s[i..i + |pat|] == pat then rep + ReplaceFrom(s, i + |pat|, pat, rep)
    else [s[i]] + ReplaceFrom(s, i + 1, pat, rep)
  }

  /** `s.replace(pat, rep)`. */
  function Replace(s: string, pat: string, rep: string): string
    requires pat != []
  {
    ReplaceFrom(s, 0, pat, rep)
  }

  /** The first `m` characters of `t` differ from `c`. */
  predicate NoCharBefore(t: string, m: nat, c: char)
    requires m <= |t|
  {
    forall y :: 0 <= y < m ==> t[y] != c
  }

  /**
   * Up to the first character the replacement starts with, the output of a
   * replacement is the input: a run of kept characters is a run of the input.
   */
  lemma {:induction false} ReplaceKeptPrefix(s: string, i: nat, pat: string, rep: string, m: nat)
    requires pat != [] && rep != [] && i <= |s|
    requires m <= |ReplaceFrom(s, i, pat, rep)| && NoCharBefore(ReplaceFrom(s, i, pat, rep), m, rep[0])
    ensures i + m <= |s| && ReplaceFrom(s, i, pat, rep)[..m] == s[i..i + m]
    decreases |s| - i
  {
    var o := ReplaceFrom(s, i, pat, rep);
    if m > 0 && i + |pat| <= |s| {
      assert NoCharBefore(o, m, rep[0]);
      assert o[0] != rep[0];
      assert s[i..i + |pat|] != pat;
      var o' := ReplaceFrom(s, i + 1, pat, rep);
      assert o == [s[i]] + o';
      assert NoCharBefore(o', m - 1, rep[0]) by {
        assert forall y :: 0 <= y < m - 1 ==> o'[y] == o[y + 1];
      }
      ReplaceKeptPrefix(s, i + 1, pat, rep, m - 1);
      assert s[i..i + m] == [s[i]] + s[i + 1..i + m];
    }
  }

  /** An occurrence inside a slice is an occurrence in the whole text, shifted. */
  lemma OccSlice(s: string, lo: nat, hi: nat, q: string, x: nat)
    requires lo <= hi <= |s|
    ensures OccursAt(s[lo..hi], q, x) == (x + |q| <= hi - lo && OccursAt(s, q, lo + x))
  {
    if x + |q| <= hi - lo {
      var b := s[lo..hi];
      assert forall k :: x <= k < x + |q| ==> b[k] == s[lo + k];
      assert b[x..x + |q|] == s[lo + x..lo + x + |q|];
    }
  }

  /** An occurrence that fits inside the first part of a concatenation is an occurrence in it. */
  lemma OccInside(a: string, b: string, q: string, x: nat)
    requires x + |q| <= |a|
    ensures OccursAt(a + b, q, x) == OccursAt(a, q, x)
  {
    assert (a + b)[x..x + |q|] == a[x..x + |q|];
  }

  /** An occurrence after the first part of a concatenation is one in the second. */
  lemma OccAfter(a: string, b: string, q: string, x: nat)
    requires |a| <= x
    ensures OccursAt(a + b, q, x) == OccursAt(b, q, x - |a|)
  {
    if x + |q| <= |a + b| {
      assert (a + b)[x..x + |q|] == b[x - |a|..x - |a| + |q|];
    }
  }

  /** Every character an occurrence covers is a character of `q`. */
  lemma OccChar(s: string, q: string, x: nat, k: nat)
    requires x <= k < x + |q|
    ensures OccursAt(s, q, x) ==> s[k] in q
  {
    if OccursAt(s, q, x) {
      assert q[k - x] == s[k];
    }
  }

  /** A replacement text that neither starts nor ends with a character of `q` and holds no `q` brings no `q` in. */
  predicate Clean(rep: string, q: string)
  {
    rep != [] && rep[0] !in q && rep[|rep| - 1] !in q && !Contains(rep, q)
  }

  /** A clean replacement followed by text without `q` holds no `q` anywhere. */
  lemma CleanStep(rep: string, rest: string, q: string)
    requires q != [] && Clean(rep, q) && AbsentFrom(rest, q, 0)
    ensures AbsentFrom(rep + rest, q, 0)
  {
    forall x: nat | x <= |rep + rest|
      ensures !OccursAt(rep + rest, q, x)
    {
      if x + |q| <= |rep| {
        OccInside(rep, rest, q, x);
      } else if x < |rep| {
        OccChar(rep + rest, q, x, |rep| - 1);
        assert (rep + rest)[|rep| - 1] == rep[|rep| - 1];
      } else {
        OccAfter(rep, rest, q, x);
      }
    }
  }

  /** A kept character that starts no occurrence, followed by text without `q`, holds no `q`. */
  lemma KeptStep(c: char, rest: string, q: string)
    requires AbsentFrom(rest, q, 0) && !OccursAt([c] + rest, q, 0)
    ensures AbsentFrom([c] + rest, q, 0)
  {
    forall x: nat | 1 <= x <= |[c] + rest|
      ensures !OccursAt([c] + rest, q, x)
    {
      OccAfter([c], rest, q, x);
    }
  }

  /**
   * An occurrence at the start of `[c] + rest`: the rest starts with the tail
   * of `q`, so it holds no character `q` lacks in its first `|q| - 1` places.
   */
  lemma AtHead(c: char, rest: string, q: string, absent: char)
    requires q != [] && OccursAt([c] + rest, q, 0) && absent !in q
    ensures c == q[0] && |q| - 1 <= |rest| && rest[..|q| - 1] == q[1..]
    ensures NoCharBefore(rest, |q| - 1, absent)
  {
    assert ([c] + rest)[..|q|] == [c] + rest[..|q| - 1];
    assert forall y :: 0 <= y < |q| - 1 ==> rest[y] == q[y + 1];
  }

  /** An occurrence at a kept character, followed by the replaced rest, was there in the input. */
  lemma ReplaceHead(s: string, i: nat, pat: string, rep: string, q: string)
    requires pat != [] && q != [] && rep != [] && rep[0] !in q && i < |s|
    ensures OccursAt([s[i]] + ReplaceFrom(s, i + 1, pat, rep), q, 0) ==> OccursAt(s, q, i)
  {
    var rest := ReplaceFrom(s, i + 1, pat, rep);
    if OccursAt([s[i]] + rest, q, 0) {
      AtHead(s[i], rest, q, rep[0]);
      ReplaceKeptPrefix(s, i + 1, pat, rep, |q| - 1);
      assert s[i..i + |q|] == [s[i]] + s[i + 1..i + |q|];
    }
  }

  /**
   * Replacing `pat` by a replacement that is clean for `q` never creates an
   * occurrence of `q`: what is absent before is absent after.
   */
  lemma {:induction false} ReplaceKeepsAbsent(s: string, i: nat, pat: string, rep: string, q: string)
    requires pat != [] && q != [] && i <= |s| && Clean(rep, q) && AbsentFrom(s, q, i)
    ensures AbsentFrom(ReplaceFrom(s, i, pat, rep), q, 0)
    decreases |s| - i
  {
    if i + |pat| > |s| {
      forall x: nat | x <= |s| - i
        ensures !OccursAt(s[i..], q, x)
      {
        OccSlice(s, i, |s|, q, x);
      }
    } else if s[i..i + |pat|] == pat {
      ReplaceKeepsAbsent(s, i + |pat|, pat, rep, q);
      CleanStep(rep, ReplaceFrom(s, i + |pat|, pat, rep), q);
    } else {
      var rest := ReplaceFrom(s, i + 1, pat, rep);
      ReplaceKeepsAbsent(s, i + 1, pat, rep, q);
      ReplaceHead(s, i, pat, rep, q);
      KeptStep(s[i], rest, q);
    }
  }

  /**
   * After a replacement that is clean for the pattern itself, the pattern is
   * gone from the text.
   */
  lemma {:induction false} ReplaceRemoves(s: string, i: nat, pat: string, rep: string)
    requires pat != [] && i <= |s| && Clean(rep, pat)
    ensures AbsentFrom(ReplaceFrom(s, i, pat, rep), pat, 0)
    decreases |s| - i
  {
    if i + |pat| > |s| {
    } else if s[i..i + |pat|] == pat {
      ReplaceRemoves(s, i + |pat|, pat, rep);
      CleanStep(rep, ReplaceFrom(s, i + |pat|, pat, rep), pat);
    } else {
      var rest := ReplaceFrom(s, i + 1, pat, rep);
      ReplaceRemoves(s, i + 1, pat, rep);
      ReplaceHead(s, i, pat, rep, pat);
      KeptStep(s[i], rest, pat);
    }
  }

  /** At the pattern itself, the replacement is made and the replacement resumes after it. */
  lemma AroundAt(x: string, y: string, pat: string, rep: string)
    requires pat != []
    ensures ReplaceFrom(x + pat + y, |x|, pat, rep) == rep + ReplaceFrom(x + pat + y, |x| + |pat|, pat, rep)
  {
    assert (x + pat + y)[|x|..|x| + |pat|] == pat;
  }

  /** Before the first occurrence no window of `x + pat + y` is the pattern. */
  lemma AroundNoMatch(x: string, y: string, pat: string, i: nat)
    requires pat != [] && i < |x| && AbsentFrom(x, pat, 0) && x[|x| - 1] !in pat
    ensures (x + pat + y)[i..i + |pat|] != pat
  {
    var s := x + pat + y;
    if i + |pat| <= |x| {
      assert s[i..i + |pat|] == x[i..i + |pat|];
      assert !OccursAt(x, pat, i);
    } else {
      assert s[i..i + |pat|][|x| - 1 - i] == x[|x| - 1];
    }
  }

  /** A kept character in front of a known output. */
  lemma AroundKeep(s: string, i: nat, pat: string, rep: string, x: string, tail: string)
    requires pat != [] && i < |x| && i + |pat| <= |s| && s[i..i + |pat|] != pat && s[i] == x[i]
    requires ReplaceFrom(s, i + 1, pat, rep) == x[i + 1..] + tail
    ensures ReplaceFrom(s, i, pat, rep) == x[i..] + tail
  {
    assert x[i..] == [x[i]] + x[i + 1..];
  }

  /**
   * The first occurrence of the pattern, when the text before it ends in a
   * character foreign to the pattern, is replaced: the text before it is
   * kept and the replacement resumes right after it.
   */
  lemma {:induction false} ReplaceFirst(x: string, y: string, pat: string, rep: string, i: nat)
    requires pat != [] && i <= |x| && AbsentFrom(x, pat, 0)
    requires x == [] || x[|x| - 1] !in pat
    ensures ReplaceFrom(x + pat + y, i, pat, rep) == x[i..] + (rep + ReplaceFrom(x + pat + y, |x| + |pat|, pat, rep))
    decreases |x| - i
  {
    var s := x + pat + y;
    var tail := rep + ReplaceFrom(s, |x| + |pat|, pat, rep);
    if i == |x| {
      AroundAt(x, y, pat, rep);
      assert x[i..] == [];
    } else {
      AroundNoMatch(x, y, pat, i);
      ReplaceFirst(x, y, pat, rep, i + 1);
      assert s[i] == x[i];
      AroundKeep(s, i, pat, rep, x, tail);
    }
  }

  /** Text without `q` wrapped in characters foreign to `q` holds no `q`. */
  lemma WrappedAbsent(a: string, b: string, c: string, q: string)
    requires q != [] && Disjoint(a, q) && Disjoint(c, q) && c != [] && !Contains(b, q)
    ensures !Contains(a + b + c, q)
  {
    var s := a + b + c;
    forall x: nat | x <= |s|
      ensures !OccursAt(s, q, x)
    {
      if x < |a| {
        OccChar(s, q, x, x);
        assert s[x] == a[x];
      } else if x >= |a| + |b| {
        if x < |s| {
          OccChar(s, q, x, x);
          assert s[x] == c[x - |a| - |b|];
        }
      } else if x + |q| <= |a| + |b| {
        OccInside(a + b, c, q, x);
        OccAfter(a, b, q, x);
      } else {
        OccChar(s, q, x, |a| + |b|);
        assert s[|a| + |b|] == c[0];
      }
    }
  }

  /** A slice of a text without `q` holds no `q`. */
  lemma SliceAbsent(s: string, lo: nat, hi: nat, q: string)
    requires lo <= hi <= |s| && AbsentFrom(s, q, lo)
    ensures !Contains(s[lo..hi], q)
  {
    forall x: nat | x <= hi - lo
      ensures !OccursAt(s[lo..hi], q, x)
    {
      OccSlice(s, lo, hi, q, x);
    }
  }
  // ---------------------------------------------------------------------------
  // <img> tags
  // ---------------------------------------------------------------------------

  const SrcOpen: string := "src=\""

  /** A match of the tag pattern: where the `src` value starts and ends, and where the tag ends. */
  datatype Hit = Hit(valueStart: nat, valueEnd: nat, end: nat)

  // `src="([^"]+)"[^>]*/?>` tried at `p`.
  function SrcAt(s: string, p: nat): (r: Option<Hit>)
    requires p <= |s|
    ensures r.Some? ==> r.value.valueStart == p + 5 && p + 5 < r.value.valueEnd < r.value.end <= |s|
  {
    if !OccursAt(s, SrcOpen, p) then None
    else
      var q := ImageRefs.CharFrom(s, '"', p + 5);
      if q == p + 5 || q == |s| then None
      else
        var g := ImageRefs.CharFrom(s, '>', q + 1);
        if g == |s| then None else Some(Hit(p + 5, q, g + 1))
  }

  /**
   * The greedy `[^>]*` before `src="`: the last start in `[lo, hi]` from
   * which the rest of the pattern matches.
   */
  function LastSrc(s: string, lo: nat, hi: nat): (r: Option<Hit>)
    requires lo <= hi <= |s|
    ensures r.Some? ==> lo + 5 <= r.value.valueStart < r.value.valueEnd < r.value.end <= |s|
    decreases hi
  {
    match SrcAt(s, hi)
    case Some(h) => Some(h)
    case None => if hi == lo then None else LastSrc(s, lo, hi - 1)
  }

  // `<img[^>]*src="([^"]+)"[^>]*/?>` tried at `i`.
  function ImgTagAt(s: string, i: nat): (r: Option<Hit>)
    requires i <= |s|
    ensures r.Some? ==> i + 9 <= r.value.valueStart < r.value.valueEnd < r.value.end <= |s|
  {
    if !OccursAt(s, "<img", i) then None
    else LastSrc(s, i + 4, ImageRefs.CharFrom(s, '>', i + 4))
  }

  /** `![image](path)`. */
  function ImageRef(path: string): string
  {
    "![image](" + path + ")"
  }

  // `re.sub(r'<img[^>]*src="([^"]+)"[^>]*/?>', r'![image](\1)', s[i:])`.
  function ImgSub(s: string, i: nat): string
    requires i <= |s|
    decreases |s| - i
  {
    if i == |s| then []
    else
      match ImgTagAt(s, i)
      case Some(h) => ImageRef(s[h.valueStart..h.valueEnd]) + ImgSub(s, h.end)
      case None => [s[i]] + ImgSub(s, i + 1)
  }

  /** Where the tag rewrite does not start with '!', it kept the character at `i`. */
  lemma ImgSubFirst(s: string, i: nat)
    requires i < |s|
    ensures |ImgSub(s, i)| > 0
    ensures ImgSub(s, i)[0] != '!' ==> ImgSub(s, i) == [s[i]] + ImgSub(s, i + 1)
  {
    match ImgTagAt(s, i)
    case Some(h) =>
      assert ImgSub(s, i) == ImageRef(s[h.valueStart..h.valueEnd]) + ImgSub(s, h.end);
    case None =>
  }

  /** Up to the first '!', the output of the tag rewrite is the input. */
  lemma {:induction false} ImgKeptPrefix(s: string, i: nat, m: nat)
    requires i <= |s| && m <= |ImgSub(s, i)| && NoCharBefore(ImgSub(s, i), m, '!')
    ensures i + m <= |s| && ImgSub(s, i)[..m] == s[i..i + m]
    decreases |s| - i
  {
    if m > 0 {
      var o := ImgSub(s, i);
      assert i < |s|;
      ImgSubFirst(s, i);
      assert o[0] != '!';
      var o' := ImgSub(s, i + 1);
      assert NoCharBefore(o', m - 1, '!') by {
        assert forall y :: 0 <= y < m - 1 ==> o'[y] == o[y + 1];
      }
      ImgKeptPrefix(s, i + 1, m - 1);
      assert s[i..i + m] == [s[i]] + s[i + 1..i + m];
    }
  }

  /** The pieces of `![image](` and `)` are foreign to `q`. */
  predicate RefClean(q: string)
  {
    Disjoint("![image](", q) && Disjoint(")", q)
  }

  /** An image reference built from a value without `q` is a clean replacement for `q`. */
  lemma RefIsClean(value: string, q: string)
    requires q != [] && RefClean(q) && !Contains(value, q)
    ensures Clean(ImageRef(value), q)
  {
    WrappedAbsent("![image](", value, ")", q);
    assert ImageRef(value)[0] == "![image]("[0];
  }

  /** An occurrence at a character the tag rewrite kept, followed by the rewritten rest, was there in the input. */
  lemma ImgHead(s: string, i: nat, q: string)
    requires q != [] && '!' !in q && i < |s|
    ensures OccursAt([s[i]] + ImgSub(s, i + 1), q, 0) ==> OccursAt(s, q, i)
  {
    var rest := ImgSub(s, i + 1);
    if OccursAt([s[i]] + rest, q, 0) {
      AtHead(s[i], rest, q, '!');
      ImgKeptPrefix(s, i + 1, |q| - 1);
      assert s[i..i + |q|] == [s[i]] + s[i + 1..i + |q|];
    }
  }

  /** The tag rewrite never creates an occurrence of a text foreign to `![image](` and `)`. */
  lemma {:induction false} ImgSubKeepsAbsent(s: string, i: nat, q: string)
    requires q != [] && i <= |s| && RefClean(q) && AbsentFrom(s, q, i)
    ensures AbsentFrom(ImgSub(s, i), q, 0)
    decreases |s| - i
  {
    if i < |s| {
      match ImgTagAt(s, i)
      case Some(h) =>
        var rest := ImgSub(s, h.end);
        SliceAbsent(s, h.valueStart, h.valueEnd, q);
        RefIsClean(s[h.valueStart..h.valueEnd], q);
        ImgSubKeepsAbsent(s, h.end, q);
        CleanStep(ImageRef(s[h.valueStart..h.valueEnd]), rest, q);
      case None =>
        var rest := ImgSub(s, i + 1);
        ImgSubKeepsAbsent(s, i + 1, q);
        assert "![image]("[0] !in q;
        ImgHead(s, i, q);
        KeptStep(s[i], rest, q);
    }
  }
  /** `<img` + `a` + `src="value"` + `b` + `>`: an HTML image tag. */
  function ImgTag(a: string, value: string, b: string): string
  {
    "<img" + a + SrcAttr(value) + b + ">"
  }

  /** The first `c` at or after `from` is at `r`. */
  lemma {:induction false} CharFromIs(s: string, ch: char, from: nat, r: nat)
    requires from <= r < |s| && s[r] == ch
    requires forall k :: from <= k < r ==> s[k] != ch
    ensures ImageRefs.CharFrom(s, ch, from) == r
    decreases r - from
  {
    if from < r {
      CharFromIs(s, ch, from + 1, r);
    }
  }

  /** Where `src="` occurs, its characters are there. */
  lemma SrcOpenChars(s: string, p: nat)
    ensures OccursAt(s, SrcOpen, p) ==> s[p + 3] == '=' && s[p + 4] == '"' && forall k :: p <= k < p + 5 ==> s[k] != '>'
  {
    if OccursAt(s, SrcOpen, p) {
      assert forall k :: p <= k < p + 5 ==> s[k] == SrcOpen[k - p];
    }
  }

  /** The shape of a tag inside a text: where its parts lie. */
  predicate TagAt(s: string, x: string, a: string, value: string, b: string, y: string, p0: nat, c: nat, g: nat)
  {
    s == x + ImgTag(a, value, b) + y && p0 == |x| + 4 + |a| && c == p0 + 5 + |value| && g == c + 1 + |b|
  }

  lemma TagLayout(s: string, x: string, a: string, value: string, b: string, y: string, p0: nat, c: nat, g: nat)
    requires TagAt(s, x, a, value, b, y, p0, c, g)
    ensures g < |s| && s[g] == '>' && s[c] == '"'
    ensures OccursAt(s, "<img", |x|) && OccursAt(s, SrcOpen, p0) && s[p0 + 5..c] == value
    ensures forall k :: |x| + 4 <= k < p0 ==> s[k] == a[k - |x| - 4]
    ensures forall k :: p0 <= k < p0 + 5 ==> s[k] == SrcOpen[k - p0]
    ensures forall k :: p0 + 5 <= k < c ==> s[k] == value[k - p0 - 5]
    ensures forall k :: c < k < g ==> s[k] == b[k - c - 1]
  {
    assert s == x + "<img" + a + SrcOpen + value + "\"" + b + ">" + y;
  }

  /** No `src="` starts inside the tag after its own one. */
  lemma NoLaterSrc(s: string, x: string, a: string, value: string, b: string, y: string, p0: nat, c: nat, g: nat, p: nat)
    requires TagAt(s, x, a, value, b, y, p0, c, g)
    requires value != [] && '"' !in value && '=' !in value && '"' !in b
    requires p0 < p <= g
    ensures !OccursAt(s, SrcOpen, p)
  {
    TagLayout(s, x, a, value, b, y, p0, c, g);
    SrcOpenChars(s, p);
    if g < p + 5 {
      assert s[g] == '>';
    } else if p + 4 < c {
      assert s[p + 4] == value[p + 4 - p0 - 5];
    } else if p + 4 == c {
      assert s[p + 3] == value[p + 3 - p0 - 5];
    } else {
      assert s[p + 4] == b[p + 4 - c - 1];
    }
  }

  /** The greedy search settles on the last start that matches. */
  lemma {:induction false} LastSrcDown(s: string, lo: nat, hi: nat, p0: nat)
    requires lo <= p0 <= hi <= |s| && SrcAt(s, p0).Some?
    requires forall p :: p0 < p <= hi ==> SrcAt(s, p).None?
    ensures LastSrc(s, lo, hi) == SrcAt(s, p0)
    decreases hi
  {
    if hi > p0 {
      LastSrcDown(s, lo, hi - 1, p0);
    }
  }

  /** The `src` value of the tag and the tag's end. */
  lemma SrcAtTag(s: string, x: string, a: string, value: string, b: string, y: string, p0: nat, c: nat, g: nat)
    requires TagAt(s, x, a, value, b, y, p0, c, g)
    requires value != [] && '"' !in value && '"' !in b && '>' !in b
    ensures SrcAt(s, p0) == Some(Hit(p0 + 5, c, g + 1))
  {
    TagLayout(s, x, a, value, b, y, p0, c, g);
    CharFromIs(s, '"', p0 + 5, c);
    CharFromIs(s, '>', c + 1, g);
  }

  /**
   * The tag pattern matches an HTML image tag whose `src` value is non-empty
   * and holds no '"', '>' or '=', and whose other attributes hold no '>'
   * (and no '"' after `src`): the group is the value and the match ends
   * with the tag.
   */
  lemma ImgTagMatches(x: string, a: string, value: string, b: string, y: string)
    requires '>' !in a && '>' !in b && '"' !in b
    requires value != [] && '"' !in value && '>' !in value && '=' !in value
    ensures ImgTagAt(x + ImgTag(a, value, b) + y, |x|) == Some(Hit(|x| + 9 + |a|, |x| + 9 + |a| + |value|, |x| + |ImgTag(a, value, b)|))
  {
    var s := x + ImgTag(a, value, b) + y;
    var p0 := |x| + 4 + |a|;
    var c := p0 + 5 + |value|;
    var g := c + 1 + |b|;
    assert TagAt(s, x, a, value, b, y, p0, c, g);
    TagLayout(s, x, a, value, b, y, p0, c, g);
    assert forall k :: |x| + 4 <= k < g ==> s[k] != '>' by {
      forall k | |x| + 4 <= k < g
        ensures s[k] != '>'
      {
        if k < p0 {
          assert s[k] == a[k - |x| - 4];
        } else if k < p0 + 5 {
          assert s[k] == SrcOpen[k - p0];
        } else if k < c {
          assert s[k] == value[k - p0 - 5];
        } else if c < k {
          assert s[k] == b[k - c - 1];
        }
      }
    }
    CharFromIs(s, '>', |x| + 4, g);
    SrcAtTag(s, x, a, value, b, y, p0, c, g);
    forall p | p0 < p <= g
      ensures SrcAt(s, p).None?
    {
      NoLaterSrc(s, x, a, value, b, y, p0, c, g, p);
    }
    LastSrcDown(s, |x| + 4, g, p0);
  }

  /**
   * Where the rewrite reaches such a tag, the tag becomes `![image](value)`
   * and the rewrite resumes after it.
   */
  lemma ImgTagRewritten(x: string, a: string, value: string, b: string, y: string)
    requires '>' !in a && '>' !in b && '"' !in b
    requires value != [] && '"' !in value && '>' !in value && '=' !in value
    ensures ImgSub(x + ImgTag(a, value, b) + y, |x|)
         == ImageRef(value) + ImgSub(x + ImgTag(a, value, b) + y, |x| + |ImgTag(a, value, b)|)
  {
    var s := x + ImgTag(a, value, b) + y;
    var vs, ve := |x| + 9 + |a|, |x| + 9 + |a| + |value|;
    ImgTagMatches(x, a, value, b, y);
    TagValue(x, a, value, b, y);
    ImgSubAtHit(s, |x|, vs, ve, |x| + |ImgTag(a, value, b)|, value);
  }

  /** The `src` value sits where the match says. */
  lemma TagValue(x: string, a: string, value: string, b: string, y: string)
    ensures |x| + 9 + |a| + |value| <= |x + ImgTag(a, value, b) + y|
    ensures (x + ImgTag(a, value, b) + y)[|x| + 9 + |a|..|x| + 9 + |a| + |value|] == value
  {
    var s := x + ImgTag(a, value, b) + y;
    var p0 := |x| + 4 + |a|;
    var c := p0 + 5 + |value|;
    assert TagAt(s, x, a, value, b, y, p0, c, c + 1 + |b|);
    TagLayout(s, x, a, value, b, y, p0, c, c + 1 + |b|);
  }

  /** Where the tag pattern matches, its value becomes an image reference. */
  lemma ImgSubAtHit(s: string, i: nat, vs: nat, ve: nat, e: nat, value: string)
    requires i < |s| && ImgTagAt(s, i) == Some(Hit(vs, ve, e)) && ve <= |s| && s[vs..ve] == value
    ensures ImgSub(s, i) == ImageRef(value) + ImgSub(s, e)
  {
  }

  // ---------------------------------------------------------------------------
  // replace_image_placeholders
  // ---------------------------------------------------------------------------

  /** `src="x"`. */
  function SrcAttr(x: string): string
  {
    SrcOpen + x + "\""
  }

  /** The two replacements of one loop iteration: the `src` attribute first, then the bare placeholder. */
  function SubstituteEntry(md: string, e: Entry): string
  {
    var key := Placeholder(e.index);
    Replace(Replace(md, SrcAttr(key), SrcAttr(e.path)), key, ImageRef(e.path))
  }

  /** The text after the loop over the mapping, in its order. */
  function SubstituteAll(md: string, mapping: seq<Entry>): string
  {
    if mapping == [] then md
    else SubstituteEntry(SubstituteAll(md, mapping[..|mapping| - 1]), mapping[|mapping| - 1])
  }

  /** `replace_image_placeholders(md, mapping)` as a function of its inputs. */
  function ReplacedPlaceholders(md: string, mapping: seq<Entry>): string
  {
    ImgSub(SubstituteAll(md, mapping), 0)
  }

  /**
   * `replace_image_placeholders(md, mapping)`: for each entry, the
   * placeholder as an HTML `src` becomes the path and the bare placeholder an
   * image reference; then every remaining `<img … src="X" …>` tag becomes
   * `![image](X)`.
   */
  method ReplaceImagePlaceholders(md: string, mapping: seq<Entry>) returns (r: string)
    ensures r == ReplacedPlaceholders(md, mapping)
  {
    r := md;
    var k := 0;
    while k < |mapping|
      invariant k <= |mapping|
      invariant r == SubstituteAll(md, mapping[..k])
    {
      var key := Placeholder(mapping[k].index);
      assert mapping[..k + 1][..k] == mapping[..k];
      r := Replace(r, SrcAttr(key), SrcAttr(mapping[k].path));
      r := Replace(r, key, ImageRef(mapping[k].path));
      k := k + 1;
    }
    assert mapping[..k] == mapping;
    r := ImgSub(r, 0);
  }

  /** `![image](path)` and `src="path"` bring in no placeholder when the path has none. */
  lemma RefsClean(path: string, index: nat)
    requires !Contains(path, Placeholder(index))
    ensures Clean(ImageRef(path), Placeholder(index))
    ensures Clean(SrcAttr(path), Placeholder(index))
    ensures RefClean(Placeholder(index))
  {
    var q := Placeholder(index);
    assert forall k :: 0 <= k < |"![image]("| ==> !PlaceholderChar("![image]("[k]);
    assert forall k :: 0 <= k < |")"| ==> !PlaceholderChar(")"[k]);
    assert forall k :: 0 <= k < |SrcOpen| ==> !PlaceholderChar(SrcOpen[k]);
    assert forall k :: 0 <= k < |"\""| ==> !PlaceholderChar("\""[k]);
    DisjointFromPlaceholder("![image](", index);
    DisjointFromPlaceholder(")", index);
    DisjointFromPlaceholder(SrcOpen, index);
    DisjointFromPlaceholder("\"", index);
    WrappedAbsent("![image](", path, ")", q);
    WrappedAbsent(SrcOpen, path, "\"", q);
  }

  /** No path of the mapping contains any of its placeholders. */
  predicate PathsFree(mapping: seq<Entry>)
  {
    forall j, k :: 0 <= j < |mapping| && 0 <= k < |mapping| ==> !Contains(mapping[k].path, Placeholder(mapping[j].index))
  }

  /** Every placeholder of the mapping is gone after the loop. */
  lemma {:induction false} SubstituteAllRemoves(md: string, mapping: seq<Entry>)
    requires PathsFree(mapping)
    ensures forall j :: 0 <= j < |mapping| ==> AbsentFrom(SubstituteAll(md, mapping), Placeholder(mapping[j].index), 0)
  {
    if mapping != [] {
      var n := |mapping| - 1;
      var init := mapping[..n];
      var e := mapping[n];
      assert PathsFree(init) by {
        assert forall j :: 0 <= j < n ==> init[j] == mapping[j];
      }
      SubstituteAllRemoves(md, init);
      var before := SubstituteAll(md, init);
      var key := Placeholder(e.index);
      var mid := Replace(before, SrcAttr(key), SrcAttr(e.path));
      forall j | 0 <= j < |mapping|
        ensures AbsentFrom(SubstituteAll(md, mapping), Placeholder(mapping[j].index), 0)
      {
        var q := Placeholder(mapping[j].index);
        RefsClean(e.path, mapping[j].index);
        if j == n {
          RefsClean(e.path, e.index);
          ReplaceRemoves(mid, 0, key, ImageRef(e.path));
        } else {
          assert init[j] == mapping[j];
          ReplaceKeepsAbsent(before, 0, SrcAttr(key), SrcAttr(e.path), q);
          ReplaceKeepsAbsent(mid, 0, key, ImageRef(e.path), q);
        }
      }
    }
  }

  /**
   * After `replace_image_placeholders` no placeholder of the mapping is left,
   * provided no mapped path contains a placeholder.
   */
  lemma NoPlaceholderLeft(md: string, mapping: seq<Entry>)
    requires PathsFree(mapping)
    ensures forall j :: 0 <= j < |mapping| ==> !Contains(ReplacedPlaceholders(md, mapping), Placeholder(mapping[j].index))
  {
    SubstituteAllRemoves(md, mapping);
    forall j | 0 <= j < |mapping|
      ensures !Contains(ReplacedPlaceholders(md, mapping), Placeholder(mapping[j].index))
    {
      var q := Placeholder(mapping[j].index);
      RefsClean(mapping[j].path, mapping[j].index);
      ImgSubKeepsAbsent(SubstituteAll(md, mapping), 0, q);
    }
  }

  // ---------------------------------------------------------------------------
  // get_first_image_path
  // ---------------------------------------------------------------------------

  /** What `get_first_image_path` gives: no image, a path, or an exception raised while sorting. */
  datatype FirstImage = NoImage | FirstPath(path: string) | Raises

  /** The text is a non-empty run of decimal digits. */
  predicate AllDigits(t: string)
  {
    t != [] && forall k :: 0 <= k < |t| ==> IsDigit(t[k])
  }

  /** `int(t)` on decimal digits; None where `int()` raises ValueError. */
  function ParseInt(t: string): Option<nat>
  {
    if AllDigits(t) then Some(DigitsValue(t)) else None
  }

  /** The sort key `int(k.split('_')[2].rstrip('_'))`; None where it raises. */
  function SortKeyAsWritten(key: string): Option<nat>
  {
    var parts := Split(key, '_');
    if |parts| < 3 then None else ParseInt(RStripChar(parts[2], '_'))
  }

  /** The sort key as evidently intended: the number in the placeholder, `int(k.split('_')[3])`. */
  function SortKeyCorrected(key: string): Option<nat>
  {
    var parts := Split(key, '_');
    if |parts| < 4 then None else ParseInt(parts[3])
  }

  /** The sort key of an entry's placeholder. */
  function KeyOf(key: string -> Option<nat>, e: Entry): Option<nat>
  {
    key(Placeholder(e.index))
  }

  /**
   * `min(mapping.keys(), key=key)`: every key is computed, and the first
   * entry with the least key wins; None where computing a key raises.
   */
  function MinIndex(mapping: seq<Entry>, key: string -> Option<nat>): (r: Option<nat>)
    requires mapping != []
    ensures r.None? <==> exists k :: 0 <= k < |mapping| && KeyOf(key, mapping[k]).None?
    ensures r.Some? ==> r.value < |mapping| && KeyOf(key, mapping[r.value]).Some?
    ensures r.Some? ==> forall k :: 0 <= k < |mapping| ==> KeyOf(key, mapping[k]).Some? && KeyOf(key, mapping[r.value]).value <= KeyOf(key, mapping[k]).value
    ensures r.Some? ==> forall k :: 0 <= k < r.value ==> KeyOf(key, mapping[r.value]).value < KeyOf(key, mapping[k]).value
  {
    var head := KeyOf(key, mapping[0]);
    if head.None? then None
    else if |mapping| == 1 then Some(0)
    else
      match MinIndex(mapping[1..], key)
      case None => None
      case Some(j) =>
        if KeyOf(key, mapping[1 + j]).value < head.value then Some(1 + j) else Some(0)
  }

  /** `get_first_image_path` with the given sort key: the path of the first image, without leading '/'. */
  function FirstImagePathBy(mapping: seq<Entry>, key: string -> Option<nat>): (r: FirstImage)
    ensures r == NoImage <==> mapping == []
  {
    if mapping == [] then NoImage
    else
      match MinIndex(mapping, key)
      case None => Raises
      case Some(j) => FirstPath(LStripChar(mapping[j].path, '/'))
  }

  /** `get_first_image_path(mapping)` as written. */
  function GetFirstImagePath(mapping: seq<Entry>): FirstImage
  {
    FirstImagePathBy(mapping, SortKeyAsWritten)
  }

  /** `get_first_image_path(mapping)` with the sort key it evidently intends. */
  function GetFirstImagePathCorrected(mapping: seq<Entry>): FirstImage
  {
    FirstImagePathBy(mapping, SortKeyCorrected)
  }

  /** `'7__'.split('_')` is `['7', '', '']`. */
  lemma NumberParts(d: string)
    requires '_' !in d
    ensures Split(d + "__", '_') == [d, "", ""]
  {
    SplitWithout("", '_');
    SplitWithout(d, '_');
    SplitAround("", "", '_');
    assert "" + ['_'] + "" == "_";
    SplitAround(d, "_", '_');
    assert d + ['_'] + "_" == d + "__";
  }

  /** A leading separator splits off an empty part. */
  lemma SplitLead(x: string)
    ensures Split(['_'] + x, '_') == [""] + Split(x, '_')
  {
    assert (['_'] + x)[1..] == x;
  }

  /** `'IMAGE_' + x` splits into `'IMAGE'` and the parts of `x`. */
  lemma SplitWord(x: string)
    ensures Split("IMAGE_" + x, '_') == ["IMAGE"] + Split(x, '_')
  {
    assert '_' !in "IMAGE";
    SplitWithout("IMAGE", '_');
    SplitAround("IMAGE", x, '_');
    assert "IMAGE" + ['_'] + x == "IMAGE_" + x;
  }

  /** The placeholder text, regrouped from the right. */
  lemma PlaceholderLayout(d: string)
    ensures "__IMAGE_" + d + "__" == ['_'] + (['_'] + ("IMAGE_" + (d + "__")))
  {
    assert "__IMAGE_" == ['_'] + (['_'] + "IMAGE_");
  }

  /** `'__IMAGE_7__'.split('_')` is `['', '', 'IMAGE', '7', '', '']`. */
  lemma PlaceholderParts(index: nat)
    ensures Split(Placeholder(index), '_') == ["", "", "IMAGE", Decimal(index), "", ""]
  {
    var d := Decimal(index);
    assert '_' !in d;
    NumberParts(d);
    var t2 := "IMAGE_" + (d + "__");
    SplitWord(d + "__");
    SplitLead(t2);
    SplitLead(['_'] + t2);
    PlaceholderLayout(d);
    assert [""] + ([""] + (["IMAGE"] + [d, "", ""])) == ["", "", "IMAGE", d, "", ""];
  }

  /** As written, the sort key of every placeholder raises: its third part is 'IMAGE'. */
  lemma SortKeyAsWrittenRaises(index: nat)
    ensures SortKeyAsWritten(Placeholder(index)) == None
  {
    PlaceholderParts(index);
    assert RStripChar("IMAGE", '_') == "IMAGE";
    assert !IsDigit("IMAGE"[0]);
  }

  /** The corrected sort key of a placeholder is its number. */
  lemma SortKeyCorrectedReads(index: nat)
    ensures SortKeyCorrected(Placeholder(index)) == Some(index)
  {
    PlaceholderParts(index);
    DigitsValueDecimal(index);
  }

  /**
   * As written, `get_first_image_path` raises ValueError for every non-empty
   * mapping, and gives None for the empty one.
   */
  lemma AsWrittenAlwaysRaises(mapping: seq<Entry>)
    ensures GetFirstImagePath(mapping) == (if mapping == [] then NoImage else Raises)
  {
    if mapping != [] {
      SortKeyAsWrittenRaises(mapping[0].index);
      assert KeyOf(SortKeyAsWritten, mapping[0]).None?;
    }
  }

  /** Entry `j` has the smallest image number, and no earlier entry has the same one. */
  predicate FirstByIndex(mapping: seq<Entry>, j: nat)
    requires j < |mapping|
  {
    (forall k :: 0 <= k < |mapping| ==> mapping[j].index <= mapping[k].index)
    && (forall k :: 0 <= k < j ==> mapping[j].index < mapping[k].index)
  }

  /**
   * With the intended sort key, a non-empty mapping gives the path of the
   * image with the smallest number (the first one listed among equals),
   * without its leading '/'.
   */
  lemma CorrectedFindsFirst(mapping: seq<Entry>)
    requires mapping != []
    ensures exists j :: 0 <= j < |mapping| && FirstByIndex(mapping, j)
                        && GetFirstImagePathCorrected(mapping) == FirstPath(LStripChar(mapping[j].path, '/'))
  {
    forall k | 0 <= k < |mapping|
      ensures KeyOf(SortKeyCorrected, mapping[k]) == Some(mapping[k].index)
    {
      SortKeyCorrectedReads(mapping[k].index);
    }
    var j := MinIndex(mapping, SortKeyCorrected).value;
    assert FirstByIndex(mapping, j);
    assert GetFirstImagePathCorrected(mapping) == FirstPath(LStripChar(mapping[j].path, '/'));
  }
}
