/**
 * `splitMarkdownParagraphs` of the translation route
 * (`web/server/routes/translation.js`): the body is cut into chunks at blank
 * lines, and a line whose trimmed text starts with three backticks toggles a
 * fenced-code state in which blank lines do not cut.
 */
module Paragraphs {
  import opened Strings

  /** The fence marker that toggles the code-block state. */
  const FenceMark: string := "```"

  /** `line.trim().startsWith('```')`. */
  predicate IsFenceLine(line: string)
  {
    var t := Trim(line);
    |t| >= |FenceMark| && t[..|FenceMark|] == FenceMark
  }

  /** `s.trim() === ''`, the test for a blank line and, negated, for a chunk worth keeping. */
  predicate Blank(s: string)
  {
    Trim(s) == ""
  }

  /** `current += (current ? '\n' : '') + line`. */
  function AddLine(current: string, line: string): (r: string)
    ensures current == "" ==> r == line
    ensures current != "" ==> r == current + "\n" + line
  {
    if current == "" then line else current + "\n" + line
  }

  /** `if (current.trim()) chunks.push(current)`, with the blank test `blank`. */
  function Flush(current: string, blank: string -> bool): (r: seq<string>)
    ensures |r| <= 1
    ensures r == [] <==> blank(current)
  {
    if !blank(current) then [current] else []
  }

  /**
   * The chunks produced from the remaining `lines` when the chunk being
   * built is `current` and the fence state is `inCode`. The fence and blank
   * tests are parameters, so that the reasoning below about the chunker does
   * not depend on how they are computed; `Chunks` supplies the route's tests.
   */
  function Chunked(lines: seq<string>, current: string, inCode: bool, fence: string -> bool, blank: string -> bool)
    : seq<string>
    decreases |lines|
  {
    if lines == [] then Flush(current, blank)
    else
      var line := lines[0];
      if fence(line) then Chunked(lines[1..], AddLine(current, line), !inCode, fence, blank)
      else if !inCode && blank(line) then Flush(current, blank) + Chunked(lines[1..], "", inCode, fence, blank)
      else Chunked(lines[1..], AddLine(current, line), inCode, fence, blank)
  }

  /** The chunks `splitMarkdownParagraphs(body)` returns. */
  function Chunks(body: string): seq<string>
  {
    Chunked(Split(body, '\n'), "", false, IsFenceLine, Blank)
  }

  /** One step of `Chunked` on a non-empty list of lines. */
  lemma ChunkedUnfold(lines: seq<string>, current: string, inCode: bool, fence: string -> bool, blank: string -> bool)
    requires lines != []
    ensures Chunked(lines, current, inCode, fence, blank) ==
              if fence(lines[0]) then Chunked(lines[1..], AddLine(current, lines[0]), !inCode, fence, blank)
              else if !inCode && blank(lines[0]) then Flush(current, blank) + Chunked(lines[1..], "", inCode, fence, blank)
              else Chunked(lines[1..], AddLine(current, lines[0]), inCode, fence, blank)
  {
  }

  // ---------------------------------------------------------------------------
  // The loop
  // ---------------------------------------------------------------------------

  /** The loop has emitted `chunks`; the rest of the lines will emit what `Chunked` says. */
  predicate SplitInv(lines: seq<string>, i: nat, chunks: seq<string>, current: string, inCode: bool,
                     fence: string -> bool, blank: string -> bool)
  {
    i <= |lines|
    && chunks + Chunked(lines[i..], current, inCode, fence, blank) == Chunked(lines, "", false, fence, blank)
  }

  /** `splitMarkdownParagraphs(body)`. */
  method SplitMarkdownParagraphs(body: string) returns (chunks: seq<string>)
    ensures chunks == Chunks(body)
  {
    var lines := Split(body, '\n');
    chunks := [];
    var current := "";
    var inCodeBlock := false;
    SplitStart(lines, IsFenceLine, Blank);
    for i := 0 to |lines|
      invariant SplitInv(lines, i, chunks, current, inCodeBlock, IsFenceLine, Blank)
    {
      chunks, current, inCodeBlock := SplitStep(lines, i, chunks, current, inCodeBlock, IsFenceLine, Blank);
    }
    SplitDone(lines, chunks, current, inCodeBlock, IsFenceLine, Blank);
    if !Blank(current) {
      chunks := chunks + [current];
    }
  }

  /**
   * One line of the loop, with the fence test and the blank test as
   * parameters (`SplitMarkdownParagraphs` passes `IsFenceLine` and `Blank`).
   */
  method SplitStep(lines: seq<string>, i: nat, chunks: seq<string>, current: string, inCodeBlock: bool,
                   fence: string -> bool, blank: string -> bool)
    returns (chunks': seq<string>, current': string, inCodeBlock': bool)
    requires i < |lines| && SplitInv(lines, i, chunks, current, inCodeBlock, fence, blank)
    ensures SplitInv(lines, i + 1, chunks', current', inCodeBlock', fence, blank)
  {
    var line := lines[i];
    StepUnfold(lines, i, current, inCodeBlock, fence, blank);
    if fence(line) {
      inCodeBlock' := !inCodeBlock;
      current' := AddLine(current, line);
      chunks' := chunks;
    } else if !inCodeBlock && blank(line) {
      chunks' := chunks;
      if !blank(current) {
        chunks' := chunks + [current];
      }
      current' := "";
      inCodeBlock' := inCodeBlock;
      SeqAssoc(chunks, Flush(current, blank), Chunked(lines[i + 1..], "", inCodeBlock, fence, blank));
    } else {
      current' := AddLine(current, line);
      chunks', inCodeBlock' := chunks, inCodeBlock;
    }
    SplitInvStep(lines, i, chunks, current, inCodeBlock, chunks', current', inCodeBlock', fence, blank);
  }

  /** The loop keeps its invariant when a step leaves the overall result unchanged. */
  lemma SplitInvStep(lines: seq<string>, i: nat, chunks: seq<string>, current: string, inCode: bool,
                     chunks': seq<string>, current': string, inCode': bool, fence: string -> bool, blank: string -> bool)
    requires i < |lines| && SplitInv(lines, i, chunks, current, inCode, fence, blank)
    requires chunks' + Chunked(lines[i + 1..], current', inCode', fence, blank)
               == chunks + Chunked(lines[i..], current, inCode, fence, blank)
    ensures SplitInv(lines, i + 1, chunks', current', inCode', fence, blank)
  {
  }

  /** The three cases of one line of `Chunked`, from position `i` on. */
  lemma StepUnfold(lines: seq<string>, i: nat, current: string, inCode: bool, fence: string -> bool, blank: string -> bool)
    requires i < |lines|
    ensures fence(lines[i]) ==>
              Chunked(lines[i..], current, inCode, fence, blank)
                == Chunked(lines[i + 1..], AddLine(current, lines[i]), !inCode, fence, blank)
    ensures !fence(lines[i]) && !inCode && blank(lines[i]) ==>
              Chunked(lines[i..], current, inCode, fence, blank)
                == Flush(current, blank) + Chunked(lines[i + 1..], "", inCode, fence, blank)
    ensures !fence(lines[i]) && (inCode || !blank(lines[i])) ==>
              Chunked(lines[i..], current, inCode, fence, blank)
                == Chunked(lines[i + 1..], AddLine(current, lines[i]), inCode, fence, blank)
  {
    assert lines[i..][0] == lines[i] && lines[i..][1..] == lines[i + 1..];
    ChunkedUnfold(lines[i..], current, inCode, fence, blank);
  }

  lemma SplitStart(lines: seq<string>, fence: string -> bool, blank: string -> bool)
    ensures SplitInv(lines, 0, [], "", false, fence, blank)
  {
    assert lines[0..] == lines;
  }

  lemma SplitDone(lines: seq<string>, chunks: seq<string>, current: string, inCode: bool,
                  fence: string -> bool, blank: string -> bool)
    requires SplitInv(lines, |lines|, chunks, current, inCode, fence, blank)
    ensures chunks + Flush(current, blank) == Chunked(lines, "", false, fence, blank)
  {
    assert lines[|lines|..] == [];
  }

  // ---------------------------------------------------------------------------
  // No chunk is blank
  // ---------------------------------------------------------------------------

  /** No emitted chunk fails the blank test. */
  lemma {:induction false} ChunkedNotBlank(lines: seq<string>, current: string, inCode: bool,
                                           fence: string -> bool, blank: string -> bool)
    ensures forall k :: 0 <= k < |Chunked(lines, current, inCode, fence, blank)| ==>
              !blank(Chunked(lines, current, inCode, fence, blank)[k])
    decreases |lines|
  {
    if lines != [] {
      var line := lines[0];
      ChunkedUnfold(lines, current, inCode, fence, blank);
      if fence(line) {
        ChunkedNotBlank(lines[1..], AddLine(current, line), !inCode, fence, blank);
      } else if !inCode && blank(line) {
        ChunkedNotBlank(lines[1..], "", inCode, fence, blank);
        var a, b := Flush(current, blank), Chunked(lines[1..], "", inCode, fence, blank);
        forall k | 0 <= k < |a + b|
          ensures !blank((a + b)[k])
        {
          if k < |a| {
            assert (a + b)[k] == a[k];
          } else {
            assert (a + b)[k] == b[k - |a|];
          }
        }
      } else {
        ChunkedNotBlank(lines[1..], AddLine(current, line), inCode, fence, blank);
      }
    }
  }

  /** `splitMarkdownParagraphs` never returns an all-whitespace chunk. */
  lemma ChunksNotBlank(body: string)
    ensures forall k :: 0 <= k < |Chunks(body)| ==> !IsBlank(Chunks(body)[k])
  {
    var r := Chunks(body);
    assert r == Chunked(Split(body, '\n'), "", false, IsFenceLine, Blank);
    ChunkedNotBlank(Split(body, '\n'), "", false, IsFenceLine, Blank);
    forall k | 0 <= k < |r|
      ensures !IsBlank(r[k])
    {
      assert !Blank(r[k]);
      KeptNotBlank(r[k]);
    }
  }

  lemma KeptNotBlank(c: string)
    requires !Blank(c)
    ensures !IsBlank(c)
  {
    TrimEmptyIffBlank(c);
  }

  // ---------------------------------------------------------------------------
  // Fenced blocks stay whole
  // ---------------------------------------------------------------------------

  /** `current` with every line of `ls` added in turn. */
  function AddLines(current: string, ls: seq<string>): string
    decreases |ls|
  {
    if ls == [] then current else AddLines(AddLine(current, ls[0]), ls[1..])
  }

  /** Inside a fence, lines that are not fence lines, blank or not, all join the current chunk. */
  lemma {:induction false} InsideFence(inner: seq<string>, rest: seq<string>, current: string,
                                       fence: string -> bool, blank: string -> bool)
    requires forall k :: 0 <= k < |inner| ==> !fence(inner[k])
    ensures Chunked(inner + rest, current, true, fence, blank)
              == Chunked(rest, AddLines(current, inner), true, fence, blank)
    decreases |inner|
  {
    if inner == [] {
      assert inner + rest == rest;
    } else {
      assert (inner + rest)[0] == inner[0];
      assert (inner + rest)[1..] == inner[1..] + rest;
      assert !fence(inner[0]);
      ChunkedUnfold(inner + rest, current, true, fence, blank);
      InsideFence(inner[1..], rest, AddLine(current, inner[0]), fence, blank);
    }
  }

  lemma {:induction false} AddLinesAppend(current: string, a: seq<string>, b: seq<string>)
    ensures AddLines(current, a + b) == AddLines(AddLines(current, a), b)
    decreases |a|
  {
    if a == [] {
      assert a + b == b;
    } else {
      assert (a + b)[0] == a[0] && (a + b)[1..] == a[1..] + b;
      AddLinesAppend(AddLine(current, a[0]), a[1..], b);
    }
  }

  /**
   * A fenced block (an opening fence line, lines without fences, a closing
   * fence line) is added to the current chunk whole, whatever blank lines it
   * holds, and the fence state is closed again after it.
   */
  lemma FencedBlockStaysWhole(open: string, inner: seq<string>, close: string, rest: seq<string>, current: string)
    requires IsFenceLine(open) && IsFenceLine(close)
    requires forall k :: 0 <= k < |inner| ==> !IsFenceLine(inner[k])
    ensures Chunked([open] + inner + [close] + rest, current, false, IsFenceLine, Blank)
              == Chunked(rest, AddLines(current, [open] + inner + [close]), false, IsFenceLine, Blank)
  {
    FencedBlock(open, inner, close, rest, current, IsFenceLine, Blank);
  }

  lemma FencedBlock(open: string, inner: seq<string>, close: string, rest: seq<string>, current: string,
                    fence: string -> bool, blank: string -> bool)
    requires fence(open) && fence(close)
    requires forall k :: 0 <= k < |inner| ==> !fence(inner[k])
    ensures Chunked([open] + inner + [close] + rest, current, false, fence, blank)
              == Chunked(rest, AddLines(current, [open] + inner + [close]), false, fence, blank)
  {
    var all := [open] + inner + [close] + rest;
    assert all[0] == open && all[1..] == inner + ([close] + rest);
    InsideFence(inner, [close] + rest, AddLine(current, open), fence, blank);
    var c := AddLines(AddLine(current, open), inner);
    assert ([close] + rest)[0] == close && ([close] + rest)[1..] == rest;
    AddLinesAppend(current, [open], inner);
    AddLinesAppend(current, [open] + inner, [close]);
  }

  // ---------------------------------------------------------------------------
  // Without fences, chunks are the runs of non-blank lines
  // ---------------------------------------------------------------------------

  /** A line of a chunk outside fences: one non-empty line, not blank, not a fence. */
  predicate GoodLine(l: string, fence: string -> bool, blank: string -> bool)
  {
    l != "" && '\n' !in l && !blank(l) && !fence(l)
  }

  predicate AllGood(ls: seq<string>, fence: string -> bool, blank: string -> bool)
  {
    forall k :: 0 <= k < |ls| ==> GoodLine(ls[k], fence, blank)
  }

  /** A chunk that is not blank and is made of good lines. */
  predicate GoodChunk(c: string, fence: string -> bool, blank: string -> bool)
  {
    !blank(c) && AllGood(Split(c, '\n'), fence, blank)
  }

  predicate AllGoodChunks(chunks: seq<string>, fence: string -> bool, blank: string -> bool)
  {
    forall k :: 0 <= k < |chunks| ==> GoodChunk(chunks[k], fence, blank)
  }

  lemma AllGoodTail(ls: seq<string>, fence: string -> bool, blank: string -> bool)
    requires ls != [] && AllGood(ls, fence, blank)
    ensures GoodLine(ls[0], fence, blank) && AllGood(ls[1..], fence, blank)
  {
    forall k | 0 <= k < |ls[1..]|
      ensures GoodLine(ls[1..][k], fence, blank)
    {
      assert ls[1..][k] == ls[k + 1];
    }
  }

  /** A run of good lines is gathered into the current chunk. */
  lemma {:induction false} GatherRun(ls: seq<string>, rest: seq<string>, current: string,
                                     fence: string -> bool, blank: string -> bool)
    requires AllGood(ls, fence, blank)
    ensures Chunked(ls + rest, current, false, fence, blank)
              == Chunked(rest, AddLines(current, ls), false, fence, blank)
    decreases |ls|
  {
    if ls == [] {
      assert ls + rest == rest;
    } else {
      assert (ls + rest)[0] == ls[0];
      assert (ls + rest)[1..] == ls[1..] + rest;
      AllGoodTail(ls, fence, blank);
      ChunkedUnfold(ls + rest, current, false, fence, blank);
      GatherRun(ls[1..], rest, AddLine(current, ls[0]), fence, blank);
    }
  }

  /** Adding non-empty lines to an empty chunk joins them with '\n'. */
  lemma {:induction false} AddLinesJoin(current: string, ls: seq<string>)
    requires ls != [] && forall k :: 0 <= k < |ls| ==> ls[k] != ""
    ensures current == "" ==> AddLines(current, ls) == Join(ls, "\n")
    ensures current != "" ==> AddLines(current, ls) == current + "\n" + Join(ls, "\n")
    decreases |ls|
  {
    assert ls[0] != "";
    if |ls| > 1 {
      assert forall k :: 0 <= k < |ls[1..]| ==> ls[1..][k] != "" by {
        forall k | 0 <= k < |ls[1..]|
          ensures ls[1..][k] != ""
        {
          assert ls[1..][k] == ls[k + 1];
        }
      }
      AddLinesJoin(AddLine(current, ls[0]), ls[1..]);
      JoinCons(ls[0], ls[1..], "\n");
      HeadTail(ls);
    }
  }

  lemma GoodJoin(ls: seq<string>, fence: string -> bool, blank: string -> bool)
    requires ls != [] && AllGood(ls, fence, blank)
    ensures AddLines("", ls) == Join(ls, "\n")
  {
    forall k | 0 <= k < |ls|
      ensures ls[k] != ""
    {
      assert GoodLine(ls[k], fence, blank);
    }
    AddLinesJoin("", ls);
  }

  /**
   * A non-blank run of good lines followed by a blank line (not a fence)
   * becomes one chunk, the run joined by '\n'.
   */
  lemma RunThenBlank(ls: seq<string>, b: string, rest: seq<string>, fence: string -> bool, blank: string -> bool)
    requires ls != [] && AllGood(ls, fence, blank) && !blank(Join(ls, "\n"))
    requires blank(b) && !fence(b)
    ensures Chunked(ls + [b] + rest, "", false, fence, blank)
              == [Join(ls, "\n")] + Chunked(rest, "", false, fence, blank)
  {
    assert ls + [b] + rest == ls + ([b] + rest);
    GatherRun(ls, [b] + rest, "", fence, blank);
    GoodJoin(ls, fence, blank);
    assert ([b] + rest)[0] == b && ([b] + rest)[1..] == rest;
  }

  /** The lines of the chunks joined by blank lines. */
  function ChunkLines(chunks: seq<string>): seq<string>
    requires chunks != []
    decreases |chunks|
  {
    if |chunks| == 1 then Split(chunks[0], '\n')
    else Split(chunks[0], '\n') + [""] + ChunkLines(chunks[1..])
  }

  /** Joining with "\n\n" and splitting at '\n' puts one empty line between the chunks' lines. */
  lemma {:induction false} SplitJoinedChunks(chunks: seq<string>)
    requires chunks != []
    ensures Split(Join(chunks, "\n\n"), '\n') == ChunkLines(chunks)
    decreases |chunks|
  {
    if |chunks| > 1 {
      SplitJoinedChunks(chunks[1..]);
      JoinCons(chunks[0], chunks[1..], "\n\n");
      HeadTail(chunks);
      var tail := Join(chunks[1..], "\n\n");
      assert chunks[0] + "\n\n" + tail == chunks[0] + ['\n'] + (['\n'] + tail);
      SplitAround(chunks[0], ['\n'] + tail, '\n');
      assert (['\n'] + tail)[0] == '\n' && (['\n'] + tail)[1..] == tail;
    }
  }

  lemma AllGoodChunksTail(chunks: seq<string>, fence: string -> bool, blank: string -> bool)
    requires chunks != [] && AllGoodChunks(chunks, fence, blank)
    ensures GoodChunk(chunks[0], fence, blank) && AllGoodChunks(chunks[1..], fence, blank)
  {
    forall k | 0 <= k < |chunks[1..]|
      ensures GoodChunk(chunks[1..][k], fence, blank)
    {
      assert chunks[1..][k] == chunks[k + 1];
    }
  }

  /** Re-chunking the lines of good chunks gives the chunks back. */
  lemma {:induction false} ChunkLinesRoundTrip(chunks: seq<string>, fence: string -> bool, blank: string -> bool)
    requires chunks != [] && AllGoodChunks(chunks, fence, blank)
    requires blank("") && !fence("")
    ensures Chunked(ChunkLines(chunks), "", false, fence, blank) == chunks
    decreases |chunks|
  {
    AllGoodChunksTail(chunks, fence, blank);
    var ls := Split(chunks[0], '\n');
    SplitThenJoin(chunks[0], '\n');
    if |chunks| == 1 {
      assert ls + [] == ls;
      GatherRun(ls, [], "", fence, blank);
      GoodJoin(ls, fence, blank);
    } else {
      ChunkLinesRoundTrip(chunks[1..], fence, blank);
      RunThenBlank(ls, "", ChunkLines(chunks[1..]), fence, blank);
      HeadTail(chunks);
    }
  }

  /** The tests of the route treat the empty line as blank and not as a fence. */
  lemma EmptyLineTests()
    ensures Blank("") && !IsFenceLine("")
  {
  }

  /**
   * Joining good chunks with "\n\n", as the translated body is joined, and
   * splitting the result again gives the same chunks.
   */
  lemma RejoinRoundTrip(chunks: seq<string>)
    requires AllGoodChunks(chunks, IsFenceLine, Blank)
    ensures Chunks(Join(chunks, "\n\n")) == chunks
  {
    EmptyLineTests();
    if chunks == [] {
      assert Split("", '\n') == [""];
      assert Chunked([""], "", false, IsFenceLine, Blank)
               == Flush("", Blank) + Chunked([], "", false, IsFenceLine, Blank);
    } else {
      SplitJoinedChunks(chunks);
      ChunkLinesRoundTrip(chunks, IsFenceLine, Blank);
    }
  }

  /** Lines without '\n' and without fences. */
  predicate PlainLines(lines: seq<string>, fence: string -> bool)
  {
    forall k :: 0 <= k < |lines| ==> '\n' !in lines[k] && !fence(lines[k])
  }

  /** Outside fences, every chunk is a non-blank run of good lines. */
  lemma {:induction false} ChunkedGood(lines: seq<string>, current: string, fence: string -> bool, blank: string -> bool)
    requires PlainLines(lines, fence) && blank("")
    requires current == "" || AllGood(Split(current, '\n'), fence, blank)
    ensures AllGoodChunks(Chunked(lines, current, false, fence, blank), fence, blank)
    decreases |lines|
  {
    if lines == [] {
      FlushGood(current, fence, blank);
    } else {
      var line := lines[0];
      assert '\n' !in line && !fence(line);
      assert PlainLines(lines[1..], fence) by {
        forall k | 0 <= k < |lines[1..]|
          ensures '\n' !in lines[1..][k] && !fence(lines[1..][k])
        {
          assert lines[1..][k] == lines[k + 1];
        }
      }
      if blank(line) {
        FlushGood(current, fence, blank);
        ChunkedGood(lines[1..], "", fence, blank);
        AllGoodChunksAppend(Flush(current, blank), Chunked(lines[1..], "", false, fence, blank), fence, blank);
      } else {
        AddGoodLine(current, line, fence, blank);
        ChunkedGood(lines[1..], AddLine(current, line), fence, blank);
      }
    }
  }

  lemma FlushGood(current: string, fence: string -> bool, blank: string -> bool)
    requires blank("")
    requires current == "" || AllGood(Split(current, '\n'), fence, blank)
    ensures AllGoodChunks(Flush(current, blank), fence, blank)
  {
  }

  lemma AllGoodChunksAppend(a: seq<string>, b: seq<string>, fence: string -> bool, blank: string -> bool)
    requires AllGoodChunks(a, fence, blank) && AllGoodChunks(b, fence, blank)
    ensures AllGoodChunks(a + b, fence, blank)
  {
    forall k | 0 <= k < |a + b|
      ensures GoodChunk((a + b)[k], fence, blank)
    {
      if k < |a| {
        assert (a + b)[k] == a[k];
      } else {
        assert (a + b)[k] == b[k - |a|];
      }
    }
  }

  lemma AddGoodLine(current: string, line: string, fence: string -> bool, blank: string -> bool)
    requires blank("") && '\n' !in line && !fence(line) && !blank(line)
    requires current == "" || AllGood(Split(current, '\n'), fence, blank)
    ensures AllGood(Split(AddLine(current, line), '\n'), fence, blank)
  {
    SplitWithout(line, '\n');
    if current != "" {
      SplitAround(current, line, '\n');
      var a := Split(current, '\n');
      forall k | 0 <= k < |a + [line]|
        ensures GoodLine((a + [line])[k], fence, blank)
      {
        if k < |a| {
          assert (a + [line])[k] == a[k];
        }
      }
    }
  }

  /** The lines of a body, when none of them is a fence line. */
  predicate NoFences(body: string)
  {
    forall k :: 0 <= k < |Split(body, '\n')| ==> !IsFenceLine(Split(body, '\n')[k])
  }

  /**
   * For a body without fence lines, joining the chunks with "\n\n" and
   * splitting again yields the same chunks.
   */
  lemma ParagraphsRoundTrip(body: string)
    requires NoFences(body)
    ensures AllGoodChunks(Chunks(body), IsFenceLine, Blank)
    ensures Chunks(Join(Chunks(body), "\n\n")) == Chunks(body)
  {
    var lines := Split(body, '\n');
    SplitNoSep(body, '\n');
    EmptyLineTests();
    ChunkedGood(lines, "", IsFenceLine, Blank);
    RejoinRoundTrip(Chunks(body));
  }
}
