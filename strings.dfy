/**
 * Character classes and string helpers shared by every module of the model.
 *
 * Strings are `seq<char>` of Unicode scalar values. Only '\n' is treated as a
 * line terminator. Case mapping covers ASCII, Latin-1 and Latin Extended-A,
 * which holds every Slovak and Czech letter.
 */
module Strings {

  datatype Option<T> = None | Some(value: T)

  // ---------------------------------------------------------------------------
  // Character classes
  // ---------------------------------------------------------------------------

  /** JavaScript's `\s` and the characters `String.prototype.trim` removes. */
  predicate IsJsSpace(c: char)
  {
    c == ' ' || ('\t' <= c <= '\r') || c == '\U{00A0}' || c == '\U{1680}'
    || ('\U{2000}' <= c <= '\U{200A}') || c == '\U{2028}' || c == '\U{2029}'
    || c == '\U{202F}' || c == '\U{205F}' || c == '\U{3000}' || c == '\U{FEFF}'
  }

  /** Python's `str.isspace`, `\s` in a `str` pattern, and what `strip()` removes. */
  predicate IsPySpace(c: char)
  {
    c == ' ' || ('\t' <= c <= '\r') || ('\U{001C}' <= c <= '\U{001F}')
    || c == '\U{0085}' || c == '\U{00A0}' || c == '\U{1680}'
    || ('\U{2000}' <= c <= '\U{200A}') || c == '\U{2028}' || c == '\U{2029}'
    || c == '\U{202F}' || c == '\U{205F}' || c == '\U{3000}'
  }

  predicate IsDigit(c: char) { '0' <= c <= '9' }

  /** The class `[a-z0-9]` of the slug regexes. */
  predicate IsSlugChar(c: char) { ('a' <= c <= 'z') || IsDigit(c) }

  /** Lower-casing of one character (ASCII, Latin-1, Latin Extended-A). */
  function ToLowerChar(c: char): (r: char)
    ensures 'A' <= c <= 'Z' ==> r as int == c as int + 32
    ensures c < '\U{0080}' && !('A' <= c <= 'Z') ==> r == c
  {
    var n := c as int;
    if 'A' <= c <= 'Z' then (n + 32) as char
    else if 0xC0 <= n <= 0xDE && n != 0xD7 then (n + 32) as char
    else if 0x100 <= n <= 0x137 && n % 2 == 0 && n != 0x130 then (n + 1) as char
    else if 0x139 <= n <= 0x148 && n % 2 == 1 then (n + 1) as char
    else if 0x14A <= n <= 0x177 && n % 2 == 0 then (n + 1) as char
    else if n == 0x178 then '\U{00FF}'
    else if 0x179 <= n <= 0x17E && n % 2 == 1 then (n + 1) as char
    else c
  }

  /** Upper-casing of one character, the inverse of `ToLowerChar` on cased letters. */
  function ToUpperChar(c: char): (r: char)
    ensures 'a' <= c <= 'z' ==> r as int == c as int - 32
    ensures c < '\U{0080}' && !('a' <= c <= 'z') ==> r == c
  {
    var n := c as int;
    if 'a' <= c <= 'z' then (n - 32) as char
    else if 0xE0 <= n <= 0xFE && n != 0xF7 then (n - 32) as char
    else if n == 0xFF then '\U{0178}'
    else if 0x101 <= n <= 0x137 && n % 2 == 1 && n != 0x131 then (n - 1) as char
    else if 0x13A <= n <= 0x148 && n % 2 == 0 then (n - 1) as char
    else if 0x14B <= n <= 0x177 && n % 2 == 1 then (n - 1) as char
    else if 0x17A <= n <= 0x17E && n % 2 == 0 then (n - 1) as char
    else c
  }

  /** A cased lower-case letter (Python's `islower` on one character). */
  predicate IsLowerChar(c: char) { ToUpperChar(c) != c || c == '\U{00DF}' }

  /** A cased upper-case letter. */
  predicate IsUpperChar(c: char) { ToLowerChar(c) != c }

  function Lower(s: string): (r: string)
    ensures |r| == |s|
    ensures forall i :: 0 <= i < |s| ==> r[i] == ToLowerChar(s[i])
  {
    seq(|s|, i requires 0 <= i < |s| => ToLowerChar(s[i]))
  }

  function Upper(s: string): (r: string)
    ensures |r| == |s|
    ensures forall i :: 0 <= i < |s| ==> r[i] == ToUpperChar(s[i])
  {
    seq(|s|, i requires 0 <= i < |s| => ToUpperChar(s[i]))
  }

  // ---------------------------------------------------------------------------
  // Trimming
  // ---------------------------------------------------------------------------

  /** `String.prototype.trimStart`. */
  function TrimStart(s: string): (r: string)
    ensures |r| <= |s| && r == s[|s| - |r|..]
    ensures r == [] || !IsJsSpace(r[0])
    ensures forall i :: 0 <= i < |s| - |r| ==> IsJsSpace(s[i])
  {
    if |s| > 0 && IsJsSpace(s[0]) then TrimStart(s[1..]) else s
  }

  /** `String.prototype.trimEnd`. */
  function TrimEnd(s: string): (r: string)
    ensures |r| <= |s| && r == s[..|r|]
    ensures r == [] || !IsJsSpace(r[|r| - 1])
    ensures forall i :: |r| <= i < |s| ==> IsJsSpace(s[i])
  {
    if |s| > 0 && IsJsSpace(s[|s| - 1]) then TrimEnd(s[..|s| - 1]) else s
  }

  /** `String.prototype.trim`. */
  function Trim(s: string): string
  {
    TrimEnd(TrimStart(s))
  }

  predicate IsBlank(s: string) { forall i :: 0 <= i < |s| ==> IsJsSpace(s[i]) }

  lemma TrimEmptyIffBlank(s: string)
    ensures Trim(s) == [] <==> IsBlank(s)
  {
    var t := TrimStart(s);
    if Trim(s) == [] {
      assert t == [];
    } else {
      assert !IsJsSpace(t[0]);
      assert t[0] == s[|s| - |t|];
    }
  }

  /** Python's `str.strip()` with no argument, on one side at a time. */
  function PyLStrip(s: string): (r: string)
    ensures |r| <= |s| && r == s[|s| - |r|..]
    ensures r == [] || !IsPySpace(r[0])
  {
    if |s| > 0 && IsPySpace(s[0]) then PyLStrip(s[1..]) else s
  }

  function PyRStrip(s: string): (r: string)
    ensures |r| <= |s| && r == s[..|r|]
    ensures r == [] || !IsPySpace(r[|r| - 1])
    ensures forall i :: |r| <= i < |s| ==> IsPySpace(s[i])
  {
    if |s| > 0 && IsPySpace(s[|s| - 1]) then PyRStrip(s[..|s| - 1]) else s
  }

  function PyStrip(s: string): string
  {
    PyRStrip(PyLStrip(s))
  }

  /** `lstrip()` leaves a text that starts with a non-space alone. */
  lemma LStripKeeps(s: string)
    requires s == [] || !IsPySpace(s[0])
    ensures PyLStrip(s) == s
  {
  }

  /** `rstrip()` leaves a text that ends with a non-space alone. */
  lemma RStripKeeps(s: string)
    requires s == [] || !IsPySpace(s[|s| - 1])
    ensures PyRStrip(s) == s
  {
  }

  /** Removes every leading `c` (Python `lstrip(c)`, JS `replace(/^c+/, '')`). */
  function LStripChar(s: string, c: char): (r: string)
    ensures |r| <= |s| && r == s[|s| - |r|..]
    ensures r == [] || r[0] != c
    ensures forall i :: 0 <= i < |s| - |r| ==> s[i] == c
  {
    if |s| > 0 && s[0] == c then LStripChar(s[1..], c) else s
  }

  /** Removes every trailing `c` (Python `rstrip(c)`, JS `replace(/c+$/, '')`). */
  function RStripChar(s: string, c: char): (r: string)
    ensures |r| <= |s| && r == s[..|r|]
    ensures r == [] || r[|r| - 1] != c
    ensures forall i :: |r| <= i < |s| ==> s[i] == c
  {
    if |s| > 0 && s[|s| - 1] == c then RStripChar(s[..|s| - 1], c) else s
  }

  // ---------------------------------------------------------------------------
  // Splitting and joining
  // ---------------------------------------------------------------------------

  lemma SeqAssoc<T>(a: seq<T>, b: seq<T>, c: seq<T>)
    ensures (a + b) + c == a + (b + c)
  {
  }

  /** Moving a piece from the unread rest to the written prefix keeps the whole. */
  lemma Regroup<T>(out: seq<T>, piece: seq<T>, rest: seq<T>, rest': seq<T>, whole: seq<T>)
    requires out + rest == whole && rest == piece + rest'
    ensures (out + piece) + rest' == whole
  {
  }

  /** A non-empty sequence is its head followed by its tail. */
  lemma HeadTail<T>(s: seq<T>)
    requires s != []
    ensures [s[0]] + s[1..] == s
  {
  }

  /** `s.split(sep)` for a one-character separator (JS and Python agree). */
  function Split(s: string, sep: char): (r: seq<string>)
    ensures |r| >= 1
  {
    if |s| == 0 then [""]
    else
      var rest := Split(s[1..], sep);
      if s[0] == sep then [""] + rest
      else [[s[0]] + rest[0]] + rest[1..]
  }

  /** `parts.join(sep)` / `sep.join(parts)`. */
  function Join(parts: seq<string>, sep: string): string
  {
    if |parts| == 0 then ""
    else if |parts| == 1 then parts[0]
    else parts[0] + sep + Join(parts[1..], sep)
  }

  lemma JoinCons(x: string, parts: seq<string>, sep: string)
    requires |parts| >= 1
    ensures Join([x] + parts, sep) == x + sep + Join(parts, sep)
  {
    assert ([x] + parts)[1..] == parts;
  }

  lemma JoinPrepend(x: string, p: string, parts: seq<string>, sep: string)
    ensures Join([x + p] + parts, sep) == x + Join([p] + parts, sep)
  {
    if |parts| > 0 {
      JoinCons(x + p, parts, sep);
      JoinCons(p, parts, sep);
    }
  }

  lemma {:induction false} JoinAppend(parts: seq<string>, more: seq<string>, sep: string)
    requires |parts| >= 1 && |more| >= 1
    ensures Join(parts + more, sep) == Join(parts, sep) + sep + Join(more, sep)
  {
    if |parts| == 1 {
      JoinCons(parts[0], more, sep);
      assert parts + more == [parts[0]] + more;
    } else {
      JoinAppend(parts[1..], more, sep);
      assert parts + more == [parts[0]] + (parts[1..] + more);
      JoinCons(parts[0], parts[1..] + more, sep);
    }
  }

  lemma {:induction false} SplitThenJoin(s: string, c: char)
    ensures Join(Split(s, c), [c]) == s
  {
    if |s| > 0 {
      var rest := Split(s[1..], c);
      SplitThenJoin(s[1..], c);
      if s[0] == c {
        JoinCons("", rest, [c]);
      } else {
        JoinPrepend([s[0]], rest[0], rest[1..], [c]);
        HeadTail(rest);
      }
    }
  }

  lemma {:induction false} SplitNoSep(s: string, c: char)
    ensures forall i :: 0 <= i < |Split(s, c)| ==> c !in Split(s, c)[i]
  {
    if |s| > 0 {
      SplitNoSep(s[1..], c);
    }
  }

  lemma {:induction false} SplitWithout(s: string, c: char)
    requires c !in s
    ensures Split(s, c) == [s]
  {
    if |s| > 0 {
      SplitWithout(s[1..], c);
      HeadTail(s);
    }
  }

  /** The parts of `[x] + t` built from the parts `r` of `t`. */
  function ConsPart(x: char, c: char, r: seq<string>): seq<string>
    requires |r| >= 1
  {
    if x == c then [""] + r else [[x] + r[0]] + r[1..]
  }

  /** One step of `Split`, stated for a string given as head and tail. */
  lemma SplitCons(x: char, t: string, c: char)
    ensures Split([x] + t, c) == ConsPart(x, c, Split(t, c))
  {
    assert ([x] + t)[1..] == t;
  }

  lemma ConsPartAppend(x: char, c: char, r: seq<string>, q: seq<string>)
    requires |r| >= 1
    ensures ConsPart(x, c, r + q) == ConsPart(x, c, r) + q
  {
    if x != c {
      assert (r + q)[0] == r[0];
      assert (r + q)[1..] == r[1..] + q;
    }
  }

  /** Splitting distributes over a separator occurrence. */
  lemma {:induction false} SplitAround(a: string, b: string, c: char)
    ensures Split(a + [c] + b, c) == Split(a, c) + Split(b, c)
  {
    if |a| == 0 {
      assert a + [c] + b == [c] + b;
      SplitCons(c, b, c);
    } else {
      var t := a[1..];
      var w := t + [c] + b;
      assert a == [a[0]] + t;
      assert a + [c] + b == [a[0]] + w;
      SplitAround(t, b, c);
      SplitCons(a[0], t, c);
      SplitCons(a[0], w, c);
      ConsPartAppend(a[0], c, Split(t, c), Split(b, c));
    }
  }

  lemma {:induction false} JoinThenSplit(parts: seq<string>, c: char)
    requires |parts| >= 1
    requires forall i :: 0 <= i < |parts| ==> c !in parts[i]
    ensures Split(Join(parts, [c]), c) == parts
  {
    if |parts| == 1 {
      SplitWithout(parts[0], c);
    } else {
      JoinThenSplit(parts[1..], c);
      JoinCons(parts[0], parts[1..], [c]);
      SplitAround(parts[0], Join(parts[1..], [c]), c);
      SplitWithout(parts[0], c);
      HeadTail(parts);
    }
  }

  // ---------------------------------------------------------------------------
  // Searching
  // ---------------------------------------------------------------------------

  /** `t` occurs in `s` at position `i`. */
  predicate OccursAt(s: string, t: string, i: nat)
  {
    i + |t| <= |s| && s[i..i + |t|] == t
  }

  predicate Contains(s: string, t: string)
  {
    exists i: nat | i <= |s| :: OccursAt(s, t, i)
  }

  /** `s.indexOf(t, from)`, -1 when absent. */
  function IndexOfFrom(s: string, t: string, from: nat): (r: int)
    decreases |s| - from
    ensures r == -1 || (from <= r && OccursAt(s, t, r))
    ensures r == -1 ==> forall j: nat :: from <= j ==> !OccursAt(s, t, j)
    ensures r >= 0 ==> forall j: nat :: from <= j < r ==> !OccursAt(s, t, j)
  {
    if from + |t| > |s| then -1
    else if s[from..from + |t|] == t then from
    else IndexOfFrom(s, t, from + 1)
  }

  /** `s.lastIndexOf(c)` / `s.rfind(c)` for one character, -1 when absent. */
  function LastIndexOf(s: string, c: char): (r: int)
    ensures -1 <= r < |s|
    ensures r >= 0 ==> s[r] == c && forall j :: r < j < |s| ==> s[j] != c
    ensures r == -1 ==> c !in s
  {
    if |s| == 0 then -1
    else if s[|s| - 1] == c then |s| - 1
    else LastIndexOf(s[..|s| - 1], c)
  }

  /** The end of the maximal run of JavaScript whitespace starting at `p`. */
  function SkipSpace(s: string, p: nat): (r: nat)
    requires p <= |s|
    ensures p <= r <= |s|
    ensures forall j :: p <= j < r ==> IsJsSpace(s[j])
    ensures r == |s| || !IsJsSpace(s[r])
    decreases |s| - p
  {
    if p < |s| && IsJsSpace(s[p]) then SkipSpace(s, p + 1) else p
  }

  /** The index of the first '\n' at or after `p`, or `|s|` when there is none. */
  function LineEnd(s: string, p: nat): (r: nat)
    requires p <= |s|
    ensures p <= r <= |s|
    ensures forall j :: p <= j < r ==> s[j] != '\n'
    ensures r == |s| || s[r] == '\n'
    decreases |s| - p
  {
    if p < |s| && s[p] != '\n' then LineEnd(s, p + 1) else p
  }

  /** Position `i` is the start of a line. */
  predicate AtLineStart(s: string, i: nat)
  {
    i == 0 || (i <= |s| && s[i - 1] == '\n')
  }

  /** The first line start at or after `from` where `t` occurs (an `m`-flag `^t`), -1 when none. */
  function LineStartFind(s: string, t: string, from: nat): (r: int)
    decreases |s| - from
    ensures r == -1 || (from <= r && AtLineStart(s, r) && OccursAt(s, t, r))
    ensures r == -1 ==> forall j: nat :: from <= j && AtLineStart(s, j) ==> !OccursAt(s, t, j)
    ensures r >= 0 ==> forall j: nat :: from <= j < r && AtLineStart(s, j) ==> !OccursAt(s, t, j)
  {
    if from + |t| > |s| then -1
    else if AtLineStart(s, from) && s[from..from + |t|] == t then from
    else LineStartFind(s, t, from + 1)
  }

  // ---------------------------------------------------------------------------
  // Numbers
  // ---------------------------------------------------------------------------

  function DigitChar(d: nat): (c: char)
    requires d < 10
    ensures IsDigit(c)
  {
    (d + '0' as int) as char
  }

  /** Decimal rendering of a natural number (`String(n)`, `str(n)`, `f'{n}'`). */
  function Decimal(n: nat): (r: string)
    ensures |r| >= 1
    ensures forall i :: 0 <= i < |r| ==> IsDigit(r[i])
    decreases n
  {
    if n < 10 then [DigitChar(n)] else Decimal(n / 10) + [DigitChar(n % 10)]
  }

  lemma {:induction false} DecimalInjective(a: nat, b: nat)
    requires Decimal(a) == Decimal(b)
    ensures a == b
    decreases a
  {
    var da, db := Decimal(a), Decimal(b);
    if a >= 10 && b >= 10 {
      assert da[..|da| - 1] == Decimal(a / 10);
      assert db[..|db| - 1] == Decimal(b / 10);
      DecimalInjective(a / 10, b / 10);
      assert DigitChar(a % 10) == DigitChar(b % 10);
    } else if a < 10 && b < 10 {
      assert DigitChar(a) == DigitChar(b);
    }
  }

  /** The value of a run of decimal digits (`parseInt`, `int()`). */
  function DigitsValue(d: string): nat
    requires forall j :: 0 <= j < |d| ==> IsDigit(d[j])
  {
    if d == [] then 0 else DigitsValue(d[..|d| - 1]) * 10 + DigitValue(d[|d| - 1])
  }

  /** The value of one decimal digit. */
  function DigitValue(c: char): nat
    requires IsDigit(c)
  {
    c as int - '0' as int
  }

  /** Reading the digits of a number gives the number back. */
  lemma {:induction false} DigitsValueDecimal(n: nat)
    ensures DigitsValue(Decimal(n)) == n
    decreases n
  {
    if n >= 10 {
      var d := Decimal(n);
      assert d[..|d| - 1] == Decimal(n / 10);
      DigitsValueDecimal(n / 10);
    }
  }

  /** `f'{n:03d}'`: zero-padded to at least three digits. */
  function Pad3(n: nat): (r: string)
    ensures |r| >= 3
  {
    var d := Decimal(n);
    if |d| >= 3 then d else seq(3 - |d|, _ => '0') + d
  }

  /** Whether every character is ASCII. */
  predicate IsAscii(s: string) { forall i :: 0 <= i < |s| ==> s[i] < '\U{0080}' }
}
