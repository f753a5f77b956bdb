/**
 * `TextChunker` (src/text_chunker.py): structure-aware chunking in three pure
 * passes — line segmentation into blocks, coalescing of short blocks, and fixed
 * 500-character windows stepping by 450 — plus the page-wise driver and the
 * chunk-list utilities (size filter, small-chunk merge, statistics).
 */
module Chunker {
  import opened Wrappers
  import opened PyText
  import opened Records
  import opened Seqs

  /** Window length and overlap that `chunk_text` hard-codes (the configured sizes are ignored). */
  const WindowSize: nat := 500
  const Overlap: nat := 50
  const Step: nat := WindowSize - Overlap
  /** `min_chunk = max(100, 500 // 5)` */
  const MinChunk: nat := if 100 >= 500 / 5 then 100 else 500 / 5

  function Min(a: int, b: int): int {
    if a <= b then a else b
  }

  /** A line whose stripped form starts and ends with '|'. */
  predicate IsTableRow(line: string) {
    BoundedBy(Strip(line), '|')
  }

  lemma NonBlankPrefix(a: string, b: string)
    requires !IsBlank(a)
    ensures !IsBlank(a + b)
  {
    var i :| 0 <= i < |a| && !IsSpace(a[i]);
    assert (a + b)[i] == a[i];
  }

  lemma TableRowIsNonBlank(line: string)
    requires IsTableRow(line)
    ensures !IsBlank(line)
  {
  }

  // ======================================================= pass 1: segmentation

  /** A segment of the input: a table row on its own, or a run of paragraph lines. */
  datatype Block = Row(line: string) | Para(lines: seq<string>)

  /** The text the chunker carries forward for a block (`"\n".join(cur)` for a paragraph). */
  function BlockText(b: Block): string {
    match b
    case Row(l) => l
    case Para(ls) => Join("\n", ls)
  }

  function LinesOf(b: Block): seq<string> {
    match b
    case Row(l) => [l]
    case Para(ls) => ls
  }

  /** A row block holds a table row; a paragraph holds non-blank, non-row lines. */
  ghost predicate WellFormedBlock(b: Block) {
    match b
    case Row(l) => IsTableRow(l)
    case Para(ls) => ls != [] && forall k :: 0 <= k < |ls| ==> !IsBlank(ls[k]) && !IsTableRow(ls[k])
  }

  function Texts(bs: seq<Block>): (ts: seq<string>)
    ensures |ts| == |bs|
    ensures forall k :: 0 <= k < |bs| ==> ts[k] == BlockText(bs[k])
  {
    if bs == [] then [] else [BlockText(bs[0])] + Texts(bs[1..])
  }

  function AllLines(bs: seq<Block>): seq<string> {
    if bs == [] then [] else LinesOf(bs[0]) + AllLines(bs[1..])
  }

  lemma {:induction false} TextsConcat(a: seq<Block>, b: seq<Block>)
    ensures Texts(a + b) == Texts(a) + Texts(b)
  {
    if a == [] {
      assert a + b == b;
    } else {
      assert (a + b)[1..] == a[1..] + b;
      TextsConcat(a[1..], b);
    }
  }

  lemma {:induction false} AllLinesConcat(a: seq<Block>, b: seq<Block>)
    ensures AllLines(a + b) == AllLines(a) + AllLines(b)
  {
    if a == [] {
      assert a + b == b;
    } else {
      assert (a + b)[1..] == a[1..] + b;
      AllLinesConcat(a[1..], b);
    }
  }

  /** Emit the pending paragraph, if any. */
  function Flush(cur: seq<string>): seq<Block> {
    if cur == [] then [] else [Para(cur)]
  }

  /** The segmentation loop of `chunk_text`, with `cur` the pending paragraph lines. */
  function SegmentFrom(lines: seq<string>, cur: seq<string>): seq<Block>
    decreases |lines|
  {
    if lines == [] then Flush(cur)
    else if IsTableRow(lines[0]) then Flush(cur) + [Row(lines[0])] + SegmentFrom(lines[1..], [])
    else if IsBlank(lines[0]) then Flush(cur) + SegmentFrom(lines[1..], [])
    else SegmentFrom(lines[1..], cur + [lines[0]])
  }

  /** Blocks of `text.splitlines()`. */
  function Segment(text: string): seq<Block> {
    SegmentFrom(SplitLines(text), [])
  }

  lemma FilterCons(l: string, rest: seq<string>)
    ensures Filter([l] + rest, NonBlank) == (if IsBlank(l) then [] else [l]) + Filter(rest, NonBlank)
  {
    assert ([l] + rest)[1..] == rest;
  }

  lemma SegmentFromStep(lines: seq<string>, cur: seq<string>)
    requires lines != []
    ensures IsTableRow(lines[0]) ==> SegmentFrom(lines, cur) == Flush(cur) + [Row(lines[0])] + SegmentFrom(lines[1..], [])
    ensures !IsTableRow(lines[0]) && IsBlank(lines[0]) ==> SegmentFrom(lines, cur) == Flush(cur) + SegmentFrom(lines[1..], [])
    ensures !IsTableRow(lines[0]) && !IsBlank(lines[0]) ==> SegmentFrom(lines, cur) == SegmentFrom(lines[1..], cur + [lines[0]])
  {
  }

  lemma RowLines(cur: seq<string>, l: string, tail: seq<Block>)
    ensures AllLines(Flush(cur) + [Row(l)] + tail) == cur + [l] + AllLines(tail)
  {
    AllLinesConcat(Flush(cur) + [Row(l)], tail);
    AllLinesConcat(Flush(cur), [Row(l)]);
    assert AllLines(Flush(cur)) == cur;
    assert AllLines([Row(l)]) == [l];
  }

  /** Segmentation keeps exactly the non-blank lines, in order. */
  lemma {:induction false} SegmentFromLines(lines: seq<string>, cur: seq<string>)
    ensures AllLines(SegmentFrom(lines, cur)) == cur + Filter(lines, NonBlank)
    decreases |lines|
  {
    assert AllLines(Flush(cur)) == cur;
    if lines != [] {
      var l := lines[0];
      var rest := lines[1..];
      assert Filter(lines, NonBlank) == (if IsBlank(l) then [] else [l]) + Filter(rest, NonBlank) by {
        assert lines == [l] + rest;
        FilterCons(l, rest);
      }
      if IsTableRow(l) {
        assert SegmentFrom(lines, cur) == Flush(cur) + [Row(l)] + SegmentFrom(rest, []) by {
          SegmentFromStep(lines, cur);
        }
        TableRowIsNonBlank(l);
        SegmentFromLines(rest, []);
        RowLines(cur, l, SegmentFrom(rest, []));
        AppendParts(cur, [l], Filter(rest, NonBlank));
      } else if IsBlank(l) {
        assert SegmentFrom(lines, cur) == Flush(cur) + SegmentFrom(rest, []) by {
          SegmentFromStep(lines, cur);
        }
        SegmentFromLines(rest, []);
        AllLinesConcat(Flush(cur), SegmentFrom(rest, []));
      } else {
        assert SegmentFrom(lines, cur) == SegmentFrom(rest, cur + [l]) by {
          SegmentFromStep(lines, cur);
        }
        SegmentFromLines(rest, cur + [l]);
        AppendParts(cur, [l], Filter(rest, NonBlank));
      }
    }
  }

  ghost predicate ParaLines(cur: seq<string>) {
    forall k :: 0 <= k < |cur| ==> !IsBlank(cur[k]) && !IsTableRow(cur[k])
  }

  /** Every block is well formed: a table row stands alone, a paragraph holds only non-blank, non-row lines. */
  lemma {:induction false} SegmentFromWellFormed(lines: seq<string>, cur: seq<string>)
    requires ParaLines(cur)
    ensures AllWellFormed(SegmentFrom(lines, cur))
    decreases |lines|
  {
    FlushWellFormed(cur);
    if lines != [] {
      var l := lines[0];
      var rest := lines[1..];
      SegmentFromStep(lines, cur);
      if IsTableRow(l) {
        SegmentFromWellFormed(rest, []);
        WellFormedConcat(Flush(cur), [Row(l)]);
        WellFormedConcat(Flush(cur) + [Row(l)], SegmentFrom(rest, []));
      } else if IsBlank(l) {
        SegmentFromWellFormed(rest, []);
        WellFormedConcat(Flush(cur), SegmentFrom(rest, []));
      } else {
        assert ParaLines(cur + [l]);
        SegmentFromWellFormed(rest, cur + [l]);
      }
    }
  }

  ghost predicate AllWellFormed(bs: seq<Block>) {
    forall k :: 0 <= k < |bs| ==> WellFormedBlock(bs[k])
  }

  lemma FlushWellFormed(cur: seq<string>)
    requires ParaLines(cur)
    ensures AllWellFormed(Flush(cur))
  {
  }

  lemma WellFormedConcat(a: seq<Block>, b: seq<Block>)
    requires AllWellFormed(a) && AllWellFormed(b)
    ensures AllWellFormed(a + b)
  {
    forall k | 0 <= k < |a + b|
      ensures WellFormedBlock((a + b)[k])
    {
      if k >= |a| {
        assert (a + b)[k] == b[k - |a|];
      }
    }
  }

  /** Segmentation of a text: lossless up to blank lines, well-formed blocks. */
  lemma SegmentShape(text: string)
    ensures AllLines(Segment(text)) == Filter(SplitLines(text), NonBlank)
    ensures forall k :: 0 <= k < |Segment(text)| ==> WellFormedBlock(Segment(text)[k])
  {
    SegmentFromLines(SplitLines(text), []);
    SegmentFromWellFormed(SplitLines(text), []);
  }

  lemma WellFormedBlockNonBlank(b: Block)
    requires WellFormedBlock(b)
    ensures !IsBlank(BlockText(b))
  {
    match b
    case Row(l) =>
      TableRowIsNonBlank(l);
    case Para(ls) =>
      assert !IsBlank(ls[0]);
      JoinNonBlankHead("\n", ls);
  }

  /** Joining the block texts gives the non-blank lines joined by "\n". */
  lemma {:induction false} JoinTexts(bs: seq<Block>)
    requires forall k :: 0 <= k < |bs| ==> WellFormedBlock(bs[k])
    ensures Join("\n", Texts(bs)) == Join("\n", AllLines(bs))
    ensures AllLines(bs) == [] <==> bs == []
  {
    if bs != [] {
      var b := bs[0];
      JoinTexts(bs[1..]);
      if bs[1..] == [] {
        assert AllLines(bs) == LinesOf(b);
        match b
        case Row(l) =>
        case Para(ls) =>
      } else {
        JoinCons("\n", BlockText(b), Texts(bs[1..]));
        assert Texts(bs) == [BlockText(b)] + Texts(bs[1..]);
        JoinConcat("\n", LinesOf(b), AllLines(bs[1..]));
        match b
        case Row(l) => assert Join("\n", [l]) == l;
        case Para(ls) =>
      }
    }
  }

  /** Every block text is non-blank. */
  lemma BlockTextsNonBlank(text: string)
    ensures forall k :: 0 <= k < |Texts(Segment(text))| ==> !IsBlank(Texts(Segment(text))[k])
  {
    var bs := Segment(text);
    SegmentShape(text);
    forall k | 0 <= k < |bs|
      ensures !IsBlank(Texts(bs)[k])
    {
      WellFormedBlockNonBlank(bs[k]);
    }
  }

  // ======================================================== pass 2: coalescing

  /**
   * The merge loop of `chunk_text` with `buf` the pending buffer: a block shorter
   * than `MinChunk` is appended to the buffer (newline-separated), which is
   * emitted once it reaches `MinChunk`; a longer block first flushes the buffer
   * and is then emitted on its own. A short entry is always followed by a long
   * one or is the last entry.
   */
  function CoalesceFrom(blocks: seq<string>, buf: string): seq<string>
    decreases |blocks|
  {
    if blocks == [] then (if buf != "" then [buf] else [])
    else
      var b := blocks[0];
      if |b| < MinChunk then
        var nb := buf + (if buf != "" then "\n" else "") + b;
        if |nb| >= MinChunk then [nb] + CoalesceFrom(blocks[1..], "")
        else CoalesceFrom(blocks[1..], nb)
      else (if buf != "" then [buf] else []) + [b] + CoalesceFrom(blocks[1..], "")
  }

  /** One step of the merge loop. */
  lemma CoalesceFromStep(blocks: seq<string>, buf: string)
    requires blocks != []
    ensures var b := blocks[0];
            var nb := buf + (if buf != "" then "\n" else "") + b;
            CoalesceFrom(blocks, buf) ==
              if |b| < MinChunk then
                if |nb| >= MinChunk then [nb] + CoalesceFrom(blocks[1..], "")
                else CoalesceFrom(blocks[1..], nb)
              else (if buf != "" then [buf] else []) + [b] + CoalesceFrom(blocks[1..], "")
  {
  }

  /** Short entries are only ever followed by entries of at least `MinChunk` characters. */
  ghost predicate ShortThenLong(r: seq<string>) {
    forall k :: 0 <= k < |r| - 1 && |r[k]| < MinChunk ==> |r[k + 1]| >= MinChunk
  }

  lemma {:induction false} CoalesceFromShape(blocks: seq<string>, buf: string)
    ensures ShortThenLong(CoalesceFrom(blocks, buf))
    ensures |CoalesceFrom(blocks, buf)| <= |blocks| + (if buf == "" then 0 else 1)
    decreases |blocks|
  {
    if blocks != [] {
      CoalesceFromStep(blocks, buf);
      var b := blocks[0];
      var nb := buf + (if buf != "" then "\n" else "") + b;
      if |b| < MinChunk && |nb| < MinChunk {
        CoalesceFromShape(blocks[1..], nb);
      } else {
        CoalesceFromShape(blocks[1..], "");
        var tail := CoalesceFrom(blocks[1..], "");
        if |b| < MinChunk {
          assert forall k :: 1 <= k < |[nb] + tail| ==> ([nb] + tail)[k] == tail[k - 1];
        } else if buf != "" {
          assert forall k :: 2 <= k < |[buf] + [b] + tail| ==> ([buf] + [b] + tail)[k] == tail[k - 2];
        } else {
          assert forall k :: 1 <= k < |[b] + tail| ==> ([b] + tail)[k] == tail[k - 1];
        }
      }
    }
  }

  /**
   * A merged entry shorter than `MinChunk` is the last one or is followed by one
   * of at least `MinChunk`; there are never more merged entries than blocks.
   */
  lemma CoalesceShape(blocks: seq<string>)
    ensures ShortThenLong(Coalesce(blocks))
    ensures |Coalesce(blocks)| <= |blocks|
  {
    CoalesceFromShape(blocks, "");
  }

  function Coalesce(blocks: seq<string>): seq<string> {
    CoalesceFrom(blocks, "")
  }

  /** `a` and `b` joined by "\n", where an empty side contributes nothing. */
  function Glue(a: string, b: string): string {
    if a == "" then b else if b == "" then a else a + "\n" + b
  }

  lemma JoinAsGlue(xs: seq<string>)
    requires xs != []
    requires forall k :: 0 <= k < |xs| ==> xs[k] != ""
    ensures Join("\n", xs) == Glue(xs[0], Join("\n", xs[1..]))
    ensures Join("\n", xs) != ""
  {
    if |xs| > 1 {
      assert Join("\n", xs[1..]) != "" by {
        JoinAsGlue(xs[1..]);
      }
    }
  }

  lemma GlueAssoc(a: string, b: string, c: string)
    ensures Glue(Glue(a, b), c) == Glue(a, Glue(b, c))
  {
  }

  lemma JoinGlueCons(x: string, tail: seq<string>)
    requires x != ""
    requires forall k :: 0 <= k < |tail| ==> tail[k] != ""
    ensures Join("\n", [x] + tail) == Glue(x, Join("\n", tail))
  {
    JoinAsGlue([x] + tail);
    assert ([x] + tail)[1..] == tail;
  }

  ghost predicate AllNonEmpty(xs: seq<string>) {
    forall k :: 0 <= k < |xs| ==> xs[k] != ""
  }

  /** Emitting `x` before a lossless tail keeps the glued text. */
  lemma EmitBefore(x: string, tail: seq<string>, j: string)
    requires x != "" && AllNonEmpty(tail) && Join("\n", tail) == j
    ensures Join("\n", [x] + tail) == Glue(x, j)
    ensures AllNonEmpty([x] + tail)
  {
    JoinGlueCons(x, tail);
  }

  /** Coalescing is lossless: the merged entries joined by "\n" are the blocks joined by "\n". */
  lemma {:induction false} CoalesceFromLossless(blocks: seq<string>, buf: string)
    requires AllNonEmpty(blocks)
    ensures Join("\n", CoalesceFrom(blocks, buf)) == Glue(buf, Join("\n", blocks))
    ensures AllNonEmpty(CoalesceFrom(blocks, buf))
    decreases |blocks|
  {
    if blocks != [] {
      var b := blocks[0];
      var rest := blocks[1..];
      var j := Join("\n", rest);
      assert Join("\n", blocks) == Glue(b, j) by {
        assert [b] + rest == blocks;
        JoinGlueCons(b, rest);
      }
      var nb := buf + (if buf != "" then "\n" else "") + b;
      if |b| < MinChunk {
        assert nb == Glue(buf, b);
        GlueAssoc(buf, b, j);
        if |nb| >= MinChunk {
          assert CoalesceFrom(blocks, buf) == [nb] + CoalesceFrom(rest, "") by {
            CoalesceFromStep(blocks, buf);
          }
          CoalesceFromLossless(rest, "");
          EmitBefore(nb, CoalesceFrom(rest, ""), j);
        } else {
          assert CoalesceFrom(blocks, buf) == CoalesceFrom(rest, nb) by {
            CoalesceFromStep(blocks, buf);
          }
          CoalesceFromLossless(rest, nb);
        }
      } else {
        CoalesceFromLossless(rest, "");
        LongBlockLossless(blocks, buf, j);
      }
    }
  }

  /** The step of `CoalesceFromLossless` for a block of at least `MinChunk` characters. */
  lemma LongBlockLossless(blocks: seq<string>, buf: string, j: string)
    requires blocks != [] && |blocks[0]| >= MinChunk
    requires AllNonEmpty(blocks)
    requires AllNonEmpty(CoalesceFrom(blocks[1..], "")) && Join("\n", CoalesceFrom(blocks[1..], "")) == j
    ensures Join("\n", CoalesceFrom(blocks, buf)) == Glue(buf, Glue(blocks[0], j))
    ensures AllNonEmpty(CoalesceFrom(blocks, buf))
  {
    var b := blocks[0];
    var tail := CoalesceFrom(blocks[1..], "");
    assert b != "";
    EmitBefore(b, tail, j);
    if buf != "" {
      assert CoalesceFrom(blocks, buf) == [buf] + ([b] + tail) by {
        CoalesceFromStep(blocks, buf);
        assert [buf] + [b] + tail == [buf] + ([b] + tail);
      }
      EmitBefore(buf, [b] + tail, Glue(b, j));
    } else {
      assert CoalesceFrom(blocks, buf) == [b] + tail by {
        CoalesceFromStep(blocks, buf);
      }
    }
  }

  lemma CoalesceLossless(blocks: seq<string>)
    requires AllNonEmpty(blocks)
    ensures Join("\n", Coalesce(blocks)) == Join("\n", blocks)
    ensures forall k :: 0 <= k < |Coalesce(blocks)| ==> Coalesce(blocks)[k] != ""
  {
    CoalesceFromLossless(blocks, "");
  }

  /** The merge loop of src/text_chunker.py:58-73, with its mutable buffer, proved to compute `Coalesce`. */
  method CoalesceBlocks(blocks: seq<string>) returns (merged: seq<string>)
    ensures merged == Coalesce(blocks)
  {
    merged := [];
    var buf := "";
    var i := 0;
    while i < |blocks|
      invariant 0 <= i <= |blocks|
      invariant merged + CoalesceFrom(blocks[i..], buf) == Coalesce(blocks)
    {
      var block := blocks[i];
      ghost var rest := CoalesceFrom(blocks[i + 1..], "");
      CoalesceAt(blocks, i, buf);
      if |block| < MinChunk {
        buf := buf + (if buf != "" then "\n" else "") + block;
        if |buf| >= MinChunk {
          AppendParts(merged, [buf], rest);
          merged := merged + [buf];
          buf := "";
        }
      } else {
        if buf != "" {
          AppendParts(merged, [buf], [block] + rest);
          merged := merged + [buf];
          buf := "";
        }
        AppendParts(merged, [block], rest);
        merged := merged + [block];
      }
      i := i + 1;
    }
    assert blocks[i..] == [];
    if buf != "" {
      merged := merged + [buf];
    }
  }

  /** One step of the merge loop at position `i`, in the loop's terms. */
  lemma CoalesceAt(blocks: seq<string>, i: nat, buf: string)
    requires i < |blocks|
    ensures var b := blocks[i];
            var nb := buf + (if buf != "" then "\n" else "") + b;
            var rest := CoalesceFrom(blocks[i + 1..], "");
            && (|b| < MinChunk && |nb| >= MinChunk ==> CoalesceFrom(blocks[i..], buf) == [nb] + rest)
            && (|b| < MinChunk && |nb| < MinChunk ==> CoalesceFrom(blocks[i..], buf) == CoalesceFrom(blocks[i + 1..], nb))
            && (|b| >= MinChunk && buf != "" ==> CoalesceFrom(blocks[i..], buf) == [buf] + ([b] + rest))
            && (|b| >= MinChunk && buf == "" ==> CoalesceFrom(blocks[i..], buf) == [b] + rest)
  {
    assert blocks[i..][0] == blocks[i] && blocks[i..][1..] == blocks[i + 1..];
    CoalesceFromStep(blocks[i..], buf);
    AppendParts([buf], [blocks[i]], CoalesceFrom(blocks[i + 1..], ""));
  }

  // ========================================================== pass 3: windows

  /** `[block[i:i+500] for i in range(start, len(block), 450)]` */
  function WindowsFrom(block: string, start: nat): (ws: seq<string>)
    ensures forall k :: 0 <= k < |ws| ==> 0 < |ws[k]| <= WindowSize
    ensures ws == [] <==> start >= |block|
    decreases |block| - start
  {
    if start >= |block| then []
    else [block[start..Min(start + WindowSize, |block|)]] + WindowsFrom(block, start + Step)
  }

  /** The k-th window starts at `start + k * 450` and is at most 500 characters long. */
  lemma {:induction false} WindowsFromAt(block: string, start: nat, k: nat)
    requires k < |WindowsFrom(block, start)|
    ensures start + k * Step < |block|
    ensures WindowsFrom(block, start)[k] == block[start + k * Step..Min(start + k * Step + WindowSize, |block|)]
    decreases k
  {
    if k > 0 {
      WindowsFromTail(block, start, k);
      WindowsFromAt(block, start + Step, k - 1);
      StepOffset(start, k);
    }
  }

  lemma WindowsFromTail(block: string, start: nat, k: nat)
    requires 0 < k < |WindowsFrom(block, start)|
    ensures k - 1 < |WindowsFrom(block, start + Step)|
    ensures WindowsFrom(block, start)[k] == WindowsFrom(block, start + Step)[k - 1]
  {
  }

  lemma StepOffset(start: nat, k: nat)
    requires k > 0
    ensures (start + Step) + (k - 1) * Step == start + k * Step
  {
  }

  function Windows(block: string): seq<string> {
    WindowsFrom(block, 0)
  }

  /** Rebuild a block: the first `Step` characters of every window but the last, then the last. */
  function Reassemble(ws: seq<string>): string {
    if ws == [] then ""
    else if |ws| == 1 then ws[0]
    else ws[0][..Min(Step, |ws[0]|)] + Reassemble(ws[1..])
  }

  /** Windows overlap by exactly 50 characters: dropping the overlap rebuilds the block. */
  lemma {:induction false} ReassembleWindowsFrom(block: string, start: nat)
    requires start <= |block|
    ensures Reassemble(WindowsFrom(block, start)) == block[start..]
    decreases |block| - start
  {
    if start < |block| {
      var ws := WindowsFrom(block, start);
      var w := block[start..Min(start + WindowSize, |block|)];
      assert ws == [w] + WindowsFrom(block, start + Step);
      if start + Step >= |block| {
        assert WindowsFrom(block, start + Step) == [];
        assert w == block[start..];
      } else {
        ReassembleWindowsFrom(block, start + Step);
        assert ws[1..] == WindowsFrom(block, start + Step);
        assert |w| > Step;
        assert w[..Step] == block[start..start + Step];
        assert block[start..] == block[start..start + Step] + block[start + Step..];
      }
    }
  }

  lemma ReassembleWindows(block: string)
    ensures Reassemble(Windows(block)) == block
  {
    ReassembleWindowsFrom(block, 0);
  }

  lemma {:induction false} ReassembleBlank(ws: seq<string>)
    requires forall k :: 0 <= k < |ws| ==> IsBlank(ws[k])
    ensures IsBlank(Reassemble(ws))
  {
    if |ws| > 1 {
      ReassembleBlank(ws[1..]);
      var head := ws[0][..Min(Step, |ws[0]|)];
      var all := head + Reassemble(ws[1..]);
      forall i | 0 <= i < |all|
        ensures IsSpace(all[i])
      {
        if i < |head| {
          assert all[i] == ws[0][i];
        } else {
          assert all[i] == Reassemble(ws[1..])[i - |head|];
        }
      }
    }
  }

  // ================================================================ chunk_text

  /** The merged blocks of a text (passes 1 and 2). */
  function MergedBlocks(text: string): seq<string> {
    Coalesce(Texts(Segment(text)))
  }

  /** All windows of all merged blocks, in order, before the whitespace filter. */
  function AllWindows(merged: seq<string>): (ws: seq<string>)
    ensures forall k :: 0 <= k < |ws| ==> 0 < |ws[k]| <= WindowSize
  {
    if merged == [] then [] else Windows(merged[0]) + AllWindows(merged[1..])
  }

  /**
   * `chunk_text(text)`: every non-blank window of every merged block, as a
   * `{'text', 'chunk_size'}` chunk.
   */
  function ChunkText(text: string): (r: seq<Chunk>)
    ensures forall k :: 0 <= k < |r| ==>
      && r[k].chunkSize == Some(|r[k].text|)
      && |r[k].text| <= WindowSize
      && !IsBlank(r[k].text)
      && r[k] == TextChunk(r[k].text)
  {
    if text == "" then []
    else
      var ts := Filter(AllWindows(MergedBlocks(text)), NonBlank);
      seq(|ts|, k requires 0 <= k < |ts| => TextChunk(ts[k]))
  }

  /**
   * The whole pipeline loses nothing but blank lines and the 50-character
   * overlaps: the merged blocks joined by "\n" are the non-blank lines joined by
   * "\n", and each merged block is rebuilt from its windows.
   */
  lemma ChunkingIsLossless(text: string)
    ensures Join("\n", MergedBlocks(text)) == Join("\n", Filter(SplitLines(text), NonBlank))
    ensures forall k :: 0 <= k < |MergedBlocks(text)| ==> Reassemble(Windows(MergedBlocks(text)[k])) == MergedBlocks(text)[k]
  {
    var bs := Segment(text);
    SegmentShape(text);
    JoinTexts(bs);
    forall k | 0 <= k < |Texts(bs)|
      ensures Texts(bs)[k] != ""
    {
      WellFormedBlockNonBlank(bs[k]);
    }
    CoalesceLossless(Texts(bs));
    forall k | 0 <= k < |MergedBlocks(text)|
      ensures Reassemble(Windows(MergedBlocks(text)[k])) == MergedBlocks(text)[k]
    {
      ReassembleWindows(MergedBlocks(text)[k]);
    }
  }

  lemma {:induction false} BlankTextHasBlankLines(s: string)
    requires IsBlank(s)
    ensures forall k :: 0 <= k < |SplitLines(s)| ==> IsBlank(SplitLines(s)[k])
    decreases |s|
  {
    if s != "" {
      var i := FirstBreak(s);
      if i < |s| {
        var rest := s[BreakEnd(s, i)..];
        assert forall j :: 0 <= j < |rest| ==> rest[j] == s[BreakEnd(s, i) + j];
        BlankTextHasBlankLines(rest);
        assert forall j :: 0 <= j < i ==> s[..i][j] == s[j];
      }
    }
  }

  lemma {:induction false} NonBlankTextHasNonBlankLine(s: string)
    requires !IsBlank(s)
    ensures exists k :: 0 <= k < |SplitLines(s)| && !IsBlank(SplitLines(s)[k])
    decreases |s|
  {
    var j :| 0 <= j < |s| && !IsSpace(s[j]);
    var i := FirstBreak(s);
    var lines := SplitLines(s);
    if i == |s| {
      assert lines[0] == s;
    } else if j < i {
      assert lines[0] == s[..i] && lines[0][j] == s[j];
    } else {
      var e := BreakEnd(s, i);
      assert IsSpace(s[i]);
      assert j >= e;
      var rest := s[e..];
      assert rest[j - e] == s[j];
      NonBlankTextHasNonBlankLine(rest);
      var k :| 0 <= k < |SplitLines(rest)| && !IsBlank(SplitLines(rest)[k]);
      assert lines == [s[..i]] + SplitLines(rest);
      assert lines[k + 1] == SplitLines(rest)[k];
    }
  }

  lemma {:induction false} AllWindowsContains(merged: seq<string>, k: nat, w: string)
    requires k < |merged| && w in Windows(merged[k])
    ensures w in AllWindows(merged)
  {
    if k > 0 {
      AllWindowsContains(merged[1..], k - 1, w);
    }
  }

  /** Whitespace-only text has no non-blank line, hence no blocks and no chunks. */
  lemma BlankTextNoChunks(text: string)
    requires IsBlank(text)
    ensures ChunkText(text) == []
  {
    var lines := SplitLines(text);
    var bs := Segment(text);
    SegmentShape(text);
    JoinTexts(bs);
    BlankTextHasBlankLines(text);
    assert Filter(lines, NonBlank) == [];
    assert bs == [];
    assert Texts(bs) == [];
    assert MergedBlocks(text) == [];
  }

  lemma JoinNonBlankHead(sep: string, ts: seq<string>)
    requires ts != [] && !IsBlank(ts[0])
    ensures !IsBlank(Join(sep, ts))
  {
    if |ts| > 1 {
      NonBlankPrefix(ts[0], sep + Join(sep, ts[1..]));
      assert Join(sep, ts) == ts[0] + (sep + Join(sep, ts[1..]));
    }
  }

  /** A text with a non-whitespace character has at least one block. */
  lemma NonBlankTextHasBlock(text: string)
    requires !IsBlank(text)
    ensures Segment(text) != []
  {
    var lines := SplitLines(text);
    SegmentShape(text);
    JoinTexts(Segment(text));
    NonBlankTextHasNonBlankLine(text);
    var k :| 0 <= k < |lines| && !IsBlank(lines[k]);
    assert lines[k] in Filter(lines, NonBlank);
  }

  /** A text with a non-whitespace character has a non-blank merged block. */
  lemma NonBlankMergedBlock(text: string) returns (m: nat)
    requires !IsBlank(text)
    ensures m < |MergedBlocks(text)| && !IsBlank(MergedBlocks(text)[m])
  {
    var ts := Texts(Segment(text));
    NonBlankTextHasBlock(text);
    BlockTextsNonBlank(text);
    JoinNonBlankHead("\n", ts);
    assert AllNonEmpty(ts);
    var merged := MergedBlocks(text);
    CoalesceLossless(ts);
    if forall i :: 0 <= i < |merged| ==> IsBlank(merged[i]) {
      JoinBlank("\n", merged);
    }
    m :| 0 <= m < |merged| && !IsBlank(merged[m]);
  }

  /** A non-blank block has a non-blank window. */
  lemma NonBlankWindow(block: string) returns (w: nat)
    requires !IsBlank(block)
    ensures w < |Windows(block)| && !IsBlank(Windows(block)[w])
  {
    var ws := Windows(block);
    ReassembleWindows(block);
    if forall i :: 0 <= i < |ws| ==> IsBlank(ws[i]) {
      ReassembleBlank(ws);
    }
    w :| 0 <= w < |ws| && !IsBlank(ws[w]);
  }

  /** `chunk_text` returns `[]` exactly for empty and whitespace-only input. */
  lemma ChunkTextEmptyIff(text: string)
    ensures ChunkText(text) == [] <==> IsBlank(text)
  {
    if IsBlank(text) {
      BlankTextNoChunks(text);
    } else {
      var merged := MergedBlocks(text);
      var m := NonBlankMergedBlock(text);
      var w := NonBlankWindow(merged[m]);
      var win := Windows(merged[m])[w];
      AllWindowsContains(merged, m, win);
      assert win in Filter(AllWindows(merged), NonBlank);
    }
  }

  // ====================================================== chunk_text_by_pages

  /** A page dict: `text`, optional `page_number` and `page_size`. */
  datatype Page = Page(text: string, pageNumber: Option<int>, pageSize: Option<real>)

  /** The chunks of one page, each stamped with the page's number (default 0) and size (default 0). */
  function PageChunks(p: Page): (r: seq<Chunk>)
    ensures forall k :: 0 <= k < |r| ==>
      && r[k].pageNumber == Some(p.pageNumber.GetOr(0))
      && r[k].pageSize == Some(p.pageSize.GetOr(0.0))
      && r[k].chunkSize == Some(|r[k].text|)
      && !IsBlank(r[k].text)
      && |r[k].text| <= WindowSize
    ensures |r| == |ChunkText(p.text)| && forall k :: 0 <= k < |r| ==> r[k].text == ChunkText(p.text)[k].text
  {
    if Strip(p.text) == "" then
      ChunkTextEmptyIff(p.text);
      []
    else
      var cs := ChunkText(p.text);
      seq(|cs|, k requires 0 <= k < |cs| =>
        cs[k].(pageNumber := Some(p.pageNumber.GetOr(0)), pageSize := Some(p.pageSize.GetOr(0.0))))
  }

  /** `chunk_text_by_pages(pages)`: per-page chunks, concatenated in page order. */
  function ChunkTextByPages(pages: seq<Page>): (r: seq<Chunk>)
    ensures forall k :: 0 <= k < |r| ==> r[k].chunkSize == Some(|r[k].text|) && !IsBlank(r[k].text)
  {
    if pages == [] then [] else PageChunks(pages[0]) + ChunkTextByPages(pages[1..])
  }

  lemma {:induction false} ChunkTextByPagesConcat(a: seq<Page>, b: seq<Page>)
    ensures ChunkTextByPages(a + b) == ChunkTextByPages(a) + ChunkTextByPages(b)
  {
    if a == [] {
      assert a + b == b;
    } else {
      assert (a + b)[1..] == a[1..] + b;
      ChunkTextByPagesConcat(a[1..], b);
    }
  }

  /** A page contributes chunks exactly when its text is not whitespace-only. */
  lemma PageChunksEmptyIff(p: Page)
    ensures PageChunks(p) == [] <==> IsBlank(p.text)
  {
    ChunkTextEmptyIff(p.text);
  }

  /** No chunks at all exactly when every page is whitespace-only. */
  lemma {:induction false} ChunkTextByPagesEmptyIff(pages: seq<Page>)
    ensures ChunkTextByPages(pages) == [] <==> AllBlankPages(pages)
  {
    if pages != [] {
      assert ChunkTextByPages(pages) == PageChunks(pages[0]) + ChunkTextByPages(pages[1..]);
      PageChunksEmptyIff(pages[0]);
      ChunkTextByPagesEmptyIff(pages[1..]);
      AllBlankPagesStep(pages);
    }
  }

  /** Every page's text is whitespace-only. */
  ghost predicate AllBlankPages(pages: seq<Page>) {
    forall i :: 0 <= i < |pages| ==> IsBlank(pages[i].text)
  }

  lemma AllBlankPagesStep(pages: seq<Page>)
    requires pages != []
    ensures AllBlankPages(pages) <==> IsBlank(pages[0].text) && AllBlankPages(pages[1..])
  {
    assert forall i :: 1 <= i < |pages| ==> pages[i] == pages[1..][i - 1];
  }

  // ==================================================== filter_chunks_by_size

  predicate WithinSize(c: Chunk, minSize: int, maxSize: Option<int>) {
    SizeOf(c) >= minSize && (maxSize.None? || SizeOf(c) <= maxSize.value)
  }

  /**
   * `filter_chunks_by_size(chunks, min_size, max_size)`: the chunks whose
   * `chunk_size` (default 0) lies in `[min_size, max_size]`, `None` meaning unbounded.
   */
  function FilterChunksBySize(chunks: seq<Chunk>, minSize: int, maxSize: Option<int>): (r: seq<Chunk>)
    ensures forall k :: 0 <= k < |r| ==> minSize <= SizeOf(r[k]) && (maxSize.Some? ==> SizeOf(r[k]) <= maxSize.value)
    ensures forall k :: 0 <= k < |chunks| && WithinSize(chunks[k], minSize, maxSize) ==> chunks[k] in r
    ensures IsSubsequence(r, chunks)
    ensures |r| == Count(chunks, (c: Chunk) => WithinSize(c, minSize, maxSize))
  {
    var keep := (c: Chunk) => WithinSize(c, minSize, maxSize);
    FilterIsSubsequence(chunks, keep);
    CountIsFilterLength(chunks, keep);
    Filter(chunks, keep)
  }

  // ====================================================== merge_small_chunks

  /** Append `next` to `cur` with a space, recomputing `chunk_size` and taking `next`'s `end_char`. */
  function Absorb(cur: Chunk, next: Chunk): Chunk {
    var t := cur.text + " " + next.text;
    cur.(text := t, chunkSize := Some(|t|), endChar := Some(next.endChar.GetOr(0)))
  }

  function ChunkTexts(cs: seq<Chunk>): (ts: seq<string>)
    ensures |ts| == |cs|
    ensures forall k :: 0 <= k < |cs| ==> ts[k] == cs[k].text
  {
    if cs == [] then [] else [cs[0].text] + ChunkTexts(cs[1..])
  }

  /**
   * The merge loop with `cur` the open chunk: while it is smaller than
   * `minSize` it absorbs the next chunk; otherwise it is emitted. Every emitted
   * chunk except the last reaches `minSize`.
   */
  function MergeFrom(cur: Chunk, rest: seq<Chunk>, minSize: int): (r: seq<Chunk>)
    ensures 1 <= |r| <= |rest| + 1
    ensures forall k :: 0 <= k < |r| - 1 ==> SizeOf(r[k]) >= minSize
    decreases |rest|
  {
    if rest == [] then [cur]
    else if SizeOf(cur) < minSize then MergeFrom(Absorb(cur, rest[0]), rest[1..], minSize)
    else [cur] + MergeFrom(rest[0], rest[1..], minSize)
  }

  /** `merge_small_chunks(chunks, min_size)` */
  function MergeSmallChunks(chunks: seq<Chunk>, minSize: int): (r: seq<Chunk>)
    ensures r == [] <==> chunks == []
    ensures |r| <= |chunks|
    ensures forall k :: 0 <= k < |r| - 1 ==> SizeOf(r[k]) >= minSize
  {
    if chunks == [] then [] else MergeFrom(chunks[0], chunks[1..], minSize)
  }

  /** Merging only inserts the joining spaces: the texts joined by " " are unchanged. */
  lemma {:induction false} MergeFromKeepsText(cur: Chunk, rest: seq<Chunk>, minSize: int)
    ensures Join(" ", ChunkTexts(MergeFrom(cur, rest, minSize))) == Join(" ", ChunkTexts([cur] + rest))
    decreases |rest|
  {
    if rest != [] {
      var ts := ChunkTexts([cur] + rest);
      assert ts == [cur.text] + ChunkTexts(rest);
      JoinCons(" ", cur.text, ChunkTexts(rest));
      if SizeOf(cur) < minSize {
        MergeFromKeepsText(Absorb(cur, rest[0]), rest[1..], minSize);
        assert ChunkTexts([Absorb(cur, rest[0])] + rest[1..]) == [cur.text + " " + rest[0].text] + ChunkTexts(rest[1..]);
        assert ChunkTexts(rest) == [rest[0].text] + ChunkTexts(rest[1..]);
        if rest[1..] != [] {
          JoinCons(" ", cur.text + " " + rest[0].text, ChunkTexts(rest[1..]));
          JoinCons(" ", rest[0].text, ChunkTexts(rest[1..]));
        }
      } else {
        MergeFromKeepsText(rest[0], rest[1..], minSize);
        assert [rest[0]] + rest[1..] == rest;
        var tail := MergeFrom(rest[0], rest[1..], minSize);
        assert ChunkTexts([cur] + tail) == [cur.text] + ChunkTexts(tail);
        JoinCons(" ", cur.text, ChunkTexts(tail));
      }
    }
  }

  lemma MergeSmallChunksKeepsText(chunks: seq<Chunk>, minSize: int)
    ensures Join(" ", ChunkTexts(MergeSmallChunks(chunks, minSize))) == Join(" ", ChunkTexts(chunks))
  {
    if chunks != [] {
      MergeFromKeepsText(chunks[0], chunks[1..], minSize);
      assert [chunks[0]] + chunks[1..] == chunks;
    }
  }

  // ===================================================== get_chunk_statistics

  /** `get_chunk_statistics` without the floating-point average. */
  datatype ChunkStats = ChunkStats(totalChunks: nat, minChunkSize: int, maxChunkSize: int, totalTextLength: int)

  function SumSizes(cs: seq<Chunk>): int {
    if cs == [] then 0 else SizeOf(cs[0]) + SumSizes(cs[1..])
  }

  function MinSize(cs: seq<Chunk>): (m: int)
    requires cs != []
    ensures forall k :: 0 <= k < |cs| ==> m <= SizeOf(cs[k])
    ensures exists k :: 0 <= k < |cs| && m == SizeOf(cs[k])
  {
    if |cs| == 1 then SizeOf(cs[0])
    else
      var m := MinSize(cs[1..]);
      assert forall k :: 1 <= k < |cs| ==> cs[k] == cs[1..][k - 1];
      if SizeOf(cs[0]) <= m then SizeOf(cs[0]) else m
  }

  function MaxSize(cs: seq<Chunk>): (m: int)
    requires cs != []
    ensures forall k :: 0 <= k < |cs| ==> SizeOf(cs[k]) <= m
    ensures exists k :: 0 <= k < |cs| && m == SizeOf(cs[k])
  {
    if |cs| == 1 then SizeOf(cs[0])
    else
      var m := MaxSize(cs[1..]);
      assert forall k :: 1 <= k < |cs| ==> cs[k] == cs[1..][k - 1];
      if SizeOf(cs[0]) >= m then SizeOf(cs[0]) else m
  }

  /** All-zero for no chunks; otherwise the count, the attained minimum and maximum, and the total size. */
  function GetChunkStatistics(chunks: seq<Chunk>): (s: ChunkStats)
    ensures chunks == [] ==> s == ChunkStats(0, 0, 0, 0)
    ensures chunks != [] ==>
      && s.totalChunks == |chunks|
      && (forall k :: 0 <= k < |chunks| ==> s.minChunkSize <= SizeOf(chunks[k]) <= s.maxChunkSize)
      && (exists k :: 0 <= k < |chunks| && s.minChunkSize == SizeOf(chunks[k]))
      && (exists k :: 0 <= k < |chunks| && s.maxChunkSize == SizeOf(chunks[k]))
      && s.totalTextLength == SumSizes(chunks)
      && |chunks| * s.minChunkSize <= s.totalTextLength <= |chunks| * s.maxChunkSize
  {
    if chunks == [] then ChunkStats(0, 0, 0, 0)
    else
      var lo := MinSize(chunks);
      var hi := MaxSize(chunks);
      SumSizesAtLeast(chunks, lo);
      SumSizesAtMost(chunks, hi);
      ChunkStats(|chunks|, lo, hi, SumSizes(chunks))
  }

  /** The total is at least the number of chunks times the smallest size. */
  lemma {:induction false} SumSizesAtLeast(cs: seq<Chunk>, lo: int)
    requires forall k :: 0 <= k < |cs| ==> lo <= SizeOf(cs[k])
    ensures SumSizes(cs) >= |cs| * lo
  {
    if cs != [] {
      SumSizesAtLeast(cs[1..], lo);
    }
  }

  /** The total is at most the number of chunks times the largest size. */
  lemma {:induction false} SumSizesAtMost(cs: seq<Chunk>, hi: int)
    requires forall k :: 0 <= k < |cs| ==> SizeOf(cs[k]) <= hi
    ensures SumSizes(cs) <= |cs| * hi
  {
    if cs != [] {
      SumSizesAtMost(cs[1..], hi);
    }
  }
}
