/**
 * Python string operations shared by the document converters of _converter/lib:
 * `str.title`, `str.isupper`, `os.path.basename`, `os.path.splitext`, and the
 * title each converter derives from the file name when the document yields none.
 *
 * Case mapping is the one of `Strings` (ASCII, Latin-1, Latin Extended-A); a
 * letter is cased when it has an upper- or a lower-case form there.
 */
module ConverterText {
  import opened Strings

  // ---------------------------------------------------------------------------
  // Case
  // ---------------------------------------------------------------------------

  /** A cased letter. */
  predicate IsCased(c: char) { IsUpperChar(c) || IsLowerChar(c) }

  /** Lower-casing is idempotent and keeps a letter cased or uncased. */
  lemma LowerMapping(c: char)
    ensures ToLowerChar(ToLowerChar(c)) == ToLowerChar(c)
    ensures IsCased(ToLowerChar(c)) == IsCased(c)
    ensures ToLowerChar(c) == c || IsCased(c)
  {
  }

  /** Upper-casing is idempotent and keeps a letter cased or uncased. */
  lemma UpperMapping(c: char)
    ensures ToUpperChar(ToUpperChar(c)) == ToUpperChar(c)
    ensures IsCased(ToUpperChar(c)) == IsCased(c)
    ensures ToUpperChar(c) == c || IsCased(c)
  {
  }

  /** Case mapping leaves every ASCII character that is not a letter alone. */
  lemma CaseKeepsAscii(c: char)
    requires c < '\U{0080}' && !('a' <= c <= 'z') && !('A' <= c <= 'Z')
    ensures ToLowerChar(c) == c && ToUpperChar(c) == c && !IsCased(c)
  {
  }

  /** `str.isupper()`: at least one cased letter, and no lower-case one. */
  predicate PyIsUpper(s: string)
  {
    (exists i :: 0 <= i < |s| && IsUpperChar(s[i])) && forall i :: 0 <= i < |s| ==> !IsLowerChar(s[i])
  }

  /** `str.title()`: a character after a cased letter is lower-cased, every other one upper-cased. */
  function PyTitle(s: string): (r: string)
    ensures |r| == |s|
  {
    seq(|s|, i requires 0 <= i < |s| => if i > 0 && IsCased(s[i - 1]) then ToLowerChar(s[i]) else ToUpperChar(s[i]))
  }

  /** Title-casing a title-cased string changes nothing. */
  lemma TitleIdempotent(s: string)
    ensures PyTitle(PyTitle(s)) == PyTitle(s)
  {
    var t := PyTitle(s);
    forall i | 0 <= i < |s|
      ensures PyTitle(t)[i] == t[i]
    {
      LowerMapping(s[i]);
      UpperMapping(s[i]);
      if i > 0 {
        LowerMapping(s[i - 1]);
        UpperMapping(s[i - 1]);
        assert IsCased(t[i - 1]) == IsCased(s[i - 1]);
      }
    }
  }

  /** Title-casing keeps every ASCII character that is not a letter where it was. */
  lemma TitleKeepsAscii(s: string, i: nat, c: char)
    requires i < |s| && c < '\U{0080}' && !('a' <= c <= 'z') && !('A' <= c <= 'Z')
    ensures PyTitle(s)[i] == c <==> s[i] == c
  {
    LowerMapping(s[i]);
    UpperMapping(s[i]);
    CaseKeepsAscii(c);
  }

  // ---------------------------------------------------------------------------
  // Paths
  // ---------------------------------------------------------------------------

  /** `os.path.basename(p)`: what follows the last '/'. */
  function Basename(p: string): (r: string)
    ensures '/' !in r
    ensures |r| <= |p| && p[|p| - |r|..] == r
    ensures |r| == |p| || p[|p| - |r| - 1] == '/'
  {
    p[LastIndexOf(p, '/') + 1..]
  }

  /** `os.path.splitext(b)` for a name `b` without '/': (root, extension). */
  function SplitExt(b: string): (r: (string, string))
    requires '/' !in b
    ensures r.0 + r.1 == b
    ensures r.1 == [] || (r.1[0] == '.' && '.' !in r.1[1..])
    ensures r.1 != [] ==> exists k :: 0 <= k < |r.0| && r.0[k] != '.'
  {
    var dot := LastIndexOf(b, '.');
    if dot >= 0 && exists k :: 0 <= k < dot && b[k] != '.' then
      assert b[..dot] + b[dot..] == b;
      (b[..dot], b[dot..])
    else (b, "")
  }

  /** A name whose last dot only follows dots (or starts it) has no extension. */
  lemma DotFileHasNoExt(b: string)
    requires '/' !in b
    requires forall k :: 0 <= k < |b| && b[k] != '.' ==> forall j :: k < j < |b| ==> b[j] != '.'
    ensures SplitExt(b) == (b, "")
  {
  }

  /** `name.replace('-', ' ').replace('_', ' ')`. */
  function Respace(s: string): (r: string)
    ensures |r| == |s|
    ensures forall i :: 0 <= i < |s| ==> r[i] == (if s[i] == '-' || s[i] == '_' then ' ' else s[i])
  {
    seq(|s|, i requires 0 <= i < |s| => if s[i] == '-' || s[i] == '_' then ' ' else s[i])
  }

  /** The title the converters derive from the file name when the document gives none. */
  function FilenameTitle(filepath: string): (r: string)
  {
    PyTitle(Respace(SplitExt(Basename(filepath)).0))
  }

  /** The derived title has one character per character of the file name's stem, and no '-', '_' or '/'. */
  lemma FilenameTitleShape(filepath: string)
    ensures var stem := SplitExt(Basename(filepath)).0;
      |FilenameTitle(filepath)| == |stem| && Basename(filepath) == stem + SplitExt(Basename(filepath)).1
    ensures forall i :: 0 <= i < |FilenameTitle(filepath)| ==>
      FilenameTitle(filepath)[i] != '-' && FilenameTitle(filepath)[i] != '_' && FilenameTitle(filepath)[i] != '/'
  {
    var b := Basename(filepath);
    var stem := SplitExt(b).0;
    var sp := Respace(stem);
    var t := PyTitle(sp);
    forall i | 0 <= i < |t|
      ensures t[i] != '-' && t[i] != '_' && t[i] != '/'
    {
      assert stem[i] in b;
      TitleKeepsAscii(sp, i, '-');
      TitleKeepsAscii(sp, i, '_');
      TitleKeepsAscii(sp, i, '/');
    }
  }

  // ---------------------------------------------------------------------------
  // Removing the title line
  // ---------------------------------------------------------------------------

  /** Line `i` emptied, and line `i + 1` too when it is blank. */
  function BlankFrom(lines: seq<string>, i: nat): seq<string>
    requires i < |lines|
  {
    var l := lines[i := ""];
    if i + 1 < |l| && PyStrip(l[i + 1]) == "" then l[i + 1 := ""] else l
  }

  /** `BlankFrom` changes line `i`, and line `i + 1` when blank, to empty lines, and nothing else. */
  lemma BlankFromShape(lines: seq<string>, i: nat)
    requires i < |lines|
    ensures |BlankFrom(lines, i)| == |lines| && BlankFrom(lines, i)[i] == ""
    ensures forall k :: 0 <= k < |lines| && BlankFrom(lines, i)[k] != lines[k] ==>
      BlankFrom(lines, i)[k] == "" && (k == i || (k == i + 1 && PyStrip(lines[k]) == ""))
  {
    var r := BlankFrom(lines, i);
    forall k | 0 <= k < |lines| && r[k] != lines[k]
      ensures r[k] == "" && (k == i || (k == i + 1 && PyStrip(lines[k]) == ""))
    {
      if k != i {
        assert lines[i := ""][k] == lines[k];
      }
    }
  }

  lemma BlankFromFirst(x: string, more: seq<string>)
    ensures BlankFrom([x] + more, 0) == [""] + (if more != [] && PyStrip(more[0]) == "" then [""] + more[1..] else more)
  {
    ReplaceHead(x, "", more);
    if more != [] {
      ReplaceSecond("", "", more);
    }
  }

  lemma ReplaceHead<T>(x: T, y: T, more: seq<T>)
    ensures ([x] + more)[0 := y] == [y] + more
  {
  }

  lemma ReplaceSecond<T>(y: T, w: T, more: seq<T>)
    requires more != []
    ensures ([y] + more)[1 := w] == [y] + ([w] + more[1..])
    ensures ([y] + more)[1] == more[0]
  {
  }

  /**
   * Lines without line breaks, some of them replaced by empty lines, join and
   * split back into the same lines.
   */
  lemma BlankedLinesRejoin(lines: seq<string>, out: seq<string>)
    requires |lines| >= 1 && |out| == |lines|
    requires forall k :: 0 <= k < |lines| ==> '\n' !in lines[k]
    requires forall k :: 0 <= k < |out| ==> out[k] == lines[k] || out[k] == ""
    ensures Split(Join(out, "\n"), '\n') == out
  {
    forall k | 0 <= k < |out|
      ensures '\n' !in out[k]
    {
      assert out[k] == lines[k] || out[k] == "";
    }
    JoinThenSplit(out, '\n');
  }
}
