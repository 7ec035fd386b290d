/**
 * The pure specifications behind the worksheet's layout passes and its text
 * export: greedy line breaking over the cells in drawing order, the extent
 * of the document, and the text a run of cells copies to.
 *
 * A cell is seen here only through what these passes read of it.
 */
module WorksheetLayout {

  /** The fixed spacings of the worksheet in pixels: left indent, gap between cells, extra gap between lines. */
  datatype Spacing = Spacing(baseIndent: int, cellSkip: int, lineSkip: int)

  /** What line breaking and the extent computation read of a cell. */
  datatype Box = Box(width: int, maxHeight: int, forceBreak: bool, breakLine: bool, bigSkip: bool)

  /** The cell starts a visual line: a break was decided for it or is forced. */
  predicate BreaksHere(b: Box)
  {
    b.breakLine || b.forceBreak
  }

  /** Whether a cell starts a line, given the running width of the line so far. */
  predicate StartsLine(b: Box, fullWidth: int, current: int)
  {
    b.forceBreak || current + b.width >= fullWidth
  }

  /** The running width after a cell: a new line holds the indent and the cell; otherwise the cell and a gap are added. */
  function RunningAfter(b: Box, fullWidth: int, current: int, sp: Spacing): int
  {
    if StartsLine(b, fullWidth, current) then sp.baseIndent + b.width else current + b.width + sp.cellSkip
  }

  /** The break decision for each cell, walking the cells from the running width `current`. */
  function LineStarts(bs: seq<Box>, fullWidth: int, current: int, sp: Spacing): (r: seq<bool>)
    ensures |r| == |bs|
  {
    if |bs| == 0 then []
    else [StartsLine(bs[0], fullWidth, current)] + LineStarts(bs[1..], fullWidth, RunningAfter(bs[0], fullWidth, current, sp), sp)
  }

  /** One step of line breaking: the decision for the cell at position m, and the running width after it. */
  lemma LineStartsStep(bs: seq<Box>, starts: seq<bool>, m: nat, fullWidth: int, current: int, sp: Spacing)
    requires m < |bs| && |starts| == |bs|
    requires starts[m..] == LineStarts(bs[m..], fullWidth, current, sp)
    ensures starts[m] == StartsLine(bs[m], fullWidth, current)
    ensures starts[m + 1..] == LineStarts(bs[m + 1..], fullWidth, RunningAfter(bs[m], fullWidth, current, sp), sp)
  {
    assert bs[m..][0] == bs[m] && bs[m..][1..] == bs[m + 1..];
    assert starts[m..][0] == starts[m] && starts[m..][1..] == starts[m + 1..];
  }

  /** The widths of the cells each followed by a gap. */
  function SumSkip(s: seq<Box>, skip: int): int
  {
    if |s| == 0 then 0 else SumSkip(s[..|s| - 1], skip) + s[|s| - 1].width + skip
  }

  lemma {:induction false} SumSkipCons(s: seq<Box>, skip: int)
    requires |s| > 0
    ensures SumSkip(s, skip) == s[0].width + skip + SumSkip(s[1..], skip)
    decreases |s|
  {
    if |s| == 1 {
      assert s[..0] == [] && s[1..] == [];
    } else {
      SumSkipCons(s[..|s| - 1], skip);
      assert s[..|s| - 1][1..] == s[1..][..|s[1..]| - 1];
      assert s[..|s| - 1][..|s| - 2] == s[..|s| - 2];
    }
  }

  /**
   * Before the first decided break, a cell starts a line exactly when it is
   * forced or when it would not fit after the cells before it.
   */
  lemma {:induction false} LineStartsFirstLine(bs: seq<Box>, fullWidth: int, current: int, sp: Spacing, j: nat)
    requires j < |bs|
    requires forall m :: 0 <= m < j ==> !LineStarts(bs, fullWidth, current, sp)[m]
    ensures LineStarts(bs, fullWidth, current, sp)[j] <==>
      bs[j].forceBreak || current + SumSkip(bs[..j], sp.cellSkip) + bs[j].width >= fullWidth
    decreases j
  {
    var st := LineStarts(bs, fullWidth, current, sp);
    if j == 0 {
      assert bs[..0] == [];
    } else {
      assert !st[0];
      var current' := RunningAfter(bs[0], fullWidth, current, sp);
      var st' := LineStarts(bs[1..], fullWidth, current', sp);
      assert st == [st[0]] + st';
      assert forall m :: 0 <= m < j - 1 ==> !st'[m] by {
        forall m | 0 <= m < j - 1 ensures !st'[m] {
          assert st'[m] == st[m + 1];
        }
      }
      LineStartsFirstLine(bs[1..], fullWidth, current', sp, j - 1);
      SumSkipCons(bs[..j], sp.cellSkip);
      assert bs[..j][1..] == bs[1..][..j - 1];
      assert bs[1..][j - 1] == bs[j];
    }
  }

  /** After a cell that starts a line, the decisions are those of a fresh line holding that cell. */
  lemma {:induction false} LineStartsSuffix(bs: seq<Box>, fullWidth: int, current: int, sp: Spacing, i: nat)
    requires i < |bs| && LineStarts(bs, fullWidth, current, sp)[i]
    ensures LineStarts(bs, fullWidth, current, sp)[i + 1..] == LineStarts(bs[i + 1..], fullWidth, sp.baseIndent + bs[i].width, sp)
    decreases i
  {
    var current' := RunningAfter(bs[0], fullWidth, current, sp);
    var st := LineStarts(bs, fullWidth, current, sp);
    assert st == [st[0]] + LineStarts(bs[1..], fullWidth, current', sp);
    if i > 0 {
      LineStartsSuffix(bs[1..], fullWidth, current', sp, i - 1);
      assert bs[1..][i..] == bs[i + 1..];
    }
  }

  /**
   * Line breaking is greedy and fills each line: after a line starting at
   * cell i, cell j starts the next line exactly when it is forced or when the
   * line's width with it, indent and gaps included, reaches the full width.
   */
  lemma LineStartsGreedy(bs: seq<Box>, fullWidth: int, current: int, sp: Spacing, i: nat, j: nat)
    requires i < j < |bs|
    requires LineStarts(bs, fullWidth, current, sp)[i]
    requires forall m :: i < m < j ==> !LineStarts(bs, fullWidth, current, sp)[m]
    ensures LineStarts(bs, fullWidth, current, sp)[j] <==>
      bs[j].forceBreak || sp.baseIndent + bs[i].width + SumSkip(bs[i + 1..j], sp.cellSkip) + bs[j].width >= fullWidth
  {
    var st := LineStarts(bs, fullWidth, current, sp);
    var rest := bs[i + 1..];
    LineStartsSuffix(bs, fullWidth, current, sp, i);
    var st' := LineStarts(rest, fullWidth, sp.baseIndent + bs[i].width, sp);
    assert forall m :: 0 <= m < j - i - 1 ==> !st'[m] by {
      forall m | 0 <= m < j - i - 1 ensures !st'[m] {
        assert st'[m] == st[i + 1 + m];
      }
    }
    LineStartsFirstLine(rest, fullWidth, sp.baseIndent + bs[i].width, sp, j - i - 1);
    assert rest[..j - i - 1] == bs[i + 1..j];
    assert st'[j - i - 1] == st[j];
  }

  /** The line breaking decisions read nothing of the cells but their widths and forced breaks. */
  lemma {:induction false} LineStartsIgnoresBreakFlags(bs: seq<Box>, cs: seq<Box>, fullWidth: int, current: int, sp: Spacing)
    requires |bs| == |cs|
    requires forall k :: 0 <= k < |bs| ==> bs[k].width == cs[k].width && bs[k].forceBreak == cs[k].forceBreak
    ensures LineStarts(bs, fullWidth, current, sp) == LineStarts(cs, fullWidth, current, sp)
    decreases |bs|
  {
    if |bs| > 0 {
      LineStartsIgnoresBreakFlags(bs[1..], cs[1..], fullWidth, RunningAfter(bs[0], fullWidth, current, sp), sp);
    }
  }

  /** The accumulators of the extent computation. */
  datatype ExtentState = ExtentState(currentHeight: int, currentWidth: int, width: int, height: int, bigSkip: bool)

  /** The larger of two integers. */
  function MaxInt(a: int, b: int): (r: int)
    ensures r >= a && r >= b && (r == a || r == b)
  {
    if a >= b then a else b
  }

  /** The extent before any cell: the indent on both axes. */
  function InitialExtent(sp: Spacing): ExtentState
  {
    ExtentState(sp.baseIndent, sp.baseIndent, sp.baseIndent, sp.baseIndent, false)
  }

  /** One cell of the extent computation: a line-starting cell adds its line's height, and a big skip after a line asked for it. */
  function ExtentStep(st: ExtentState, b: Box, sp: Spacing): ExtentState
  {
    if BreaksHere(b) then
      var h := st.currentHeight + b.maxHeight + (if st.bigSkip then sp.lineSkip else 0);
      var cw := sp.baseIndent + b.width;
      ExtentState(h, cw, MaxInt(cw + sp.baseIndent, st.width), h, b.bigSkip)
    else
      var cw := st.currentWidth + b.width + sp.cellSkip;
      ExtentState(st.currentHeight, cw, MaxInt(cw - sp.cellSkip, st.width), st.height, b.bigSkip)
  }

  /** The extent state after all the cells. */
  function Extent(bs: seq<Box>, st: ExtentState, sp: Spacing): ExtentState
  {
    if |bs| == 0 then st else Extent(bs[1..], ExtentStep(st, bs[0], sp), sp)
  }

  /** The heights the line-starting cells contribute, with a line skip after every cell asking for a big skip. */
  function LineHeights(bs: seq<Box>, bigSkip: bool, sp: Spacing): int
  {
    if |bs| == 0 then 0
    else
      (if BreaksHere(bs[0]) then bs[0].maxHeight + (if bigSkip then sp.lineSkip else 0) else 0) +
      LineHeights(bs[1..], bs[0].bigSkip, sp)
  }

  lemma {:induction false} ExtentHeightFrom(bs: seq<Box>, st: ExtentState, sp: Spacing)
    requires st.height == st.currentHeight
    ensures Extent(bs, st, sp).height == st.currentHeight + LineHeights(bs, st.bigSkip, sp)
    decreases |bs|
  {
    if |bs| > 0 {
      ExtentHeightFrom(bs[1..], ExtentStep(st, bs[0], sp), sp);
    }
  }

  /** The document's height: the indent plus the height of every line and the skips between them. */
  lemma ExtentHeight(bs: seq<Box>, sp: Spacing)
    ensures Extent(bs, InitialExtent(sp), sp).height == sp.baseIndent + LineHeights(bs, false, sp)
  {
    ExtentHeightFrom(bs, InitialExtent(sp), sp);
  }

  /** The running line width after a cell, as the extent computation keeps it. */
  function WidthAfter(b: Box, current: int, sp: Spacing): int
  {
    if BreaksHere(b) then sp.baseIndent + b.width else current + b.width + sp.cellSkip
  }

  /**
   * The line end each cell offers as the document's width, from the running
   * width `current` before the first: a line-starting cell its width with an
   * indent on each side, any other cell the end of the line so far.
   */
  function LineEnds(bs: seq<Box>, current: int, sp: Spacing): (r: seq<int>)
    ensures |r| == |bs|
  {
    if |bs| == 0 then []
    else
      [if BreaksHere(bs[0]) then 2 * sp.baseIndent + bs[0].width else current + bs[0].width] +
      LineEnds(bs[1..], WidthAfter(bs[0], current, sp), sp)
  }

  lemma {:induction false} ExtentWidthFrom(bs: seq<Box>, st: ExtentState, sp: Spacing)
    ensures var w := Extent(bs, st, sp).width;
      w >= st.width && (forall k :: 0 <= k < |bs| ==> w >= LineEnds(bs, st.currentWidth, sp)[k]) &&
      (w == st.width || exists k :: 0 <= k < |bs| && w == LineEnds(bs, st.currentWidth, sp)[k])
    decreases |bs|
  {
    if |bs| > 0 {
      var st' := ExtentStep(st, bs[0], sp);
      var ends := LineEnds(bs, st.currentWidth, sp);
      var ends' := LineEnds(bs[1..], st'.currentWidth, sp);
      assert st'.currentWidth == WidthAfter(bs[0], st.currentWidth, sp);
      assert ends == [ends[0]] + ends';
      assert st'.width == MaxInt(ends[0], st.width);
      ExtentWidthFrom(bs[1..], st', sp);
      var w := Extent(bs, st, sp).width;
      forall k | 0 < k < |bs|
        ensures w >= ends[k]
      {
        assert ends[k] == ends'[k - 1];
      }
      if w != st'.width {
        var k :| 0 <= k < |bs| - 1 && w == ends'[k];
        assert w == ends[k + 1];
      }
    }
  }

  /**
   * The document's width: the largest of the indent and the line ends, so at
   * least every line-starting cell's width with an indent on each side.
   */
  lemma ExtentWidth(bs: seq<Box>, sp: Spacing)
    ensures var w := Extent(bs, InitialExtent(sp), sp).width;
      var ends := LineEnds(bs, sp.baseIndent, sp);
      w >= sp.baseIndent && (forall k :: 0 <= k < |bs| ==> w >= ends[k]) &&
      (w == sp.baseIndent || exists k :: 0 <= k < |bs| && w == ends[k])
    ensures forall k :: 0 <= k < |bs| && BreaksHere(bs[k]) ==> Extent(bs, InitialExtent(sp), sp).width >= 2 * sp.baseIndent + bs[k].width
  {
    ExtentWidthFrom(bs, InitialExtent(sp), sp);
    LineEndsOfBreaks(bs, sp.baseIndent, sp);
  }

  /** A line-starting cell's line end is its width with an indent on each side. */
  lemma {:induction false} LineEndsOfBreaks(bs: seq<Box>, current: int, sp: Spacing)
    ensures forall k :: 0 <= k < |bs| && BreaksHere(bs[k]) ==> LineEnds(bs, current, sp)[k] == 2 * sp.baseIndent + bs[k].width
    decreases |bs|
  {
    if |bs| > 0 {
      LineEndsOfBreaks(bs[1..], WidthAfter(bs[0], current, sp), sp);
      forall k | 0 < k < |bs| && BreaksHere(bs[k])
        ensures LineEnds(bs, current, sp)[k] == 2 * sp.baseIndent + bs[k].width
      {
        assert bs[1..][k - 1] == bs[k];
      }
    }
  }

  /** What copying reads of a cell: its text, whether it starts a line, whether it is a prompt or an input. */
  datatype Piece = Piece(text: string, breaksLine: bool, promptOrInput: bool)

  /** The separator copying puts before a cell: a newline before a line start, a space before a prompt or input. */
  function Separator(p: Piece, lineBreaks: bool, s: string): (r: string)
    ensures r == "" || r == "\n" || r == " "
    ensures |s| == 0 ==> r == ""
  {
    if lineBreaks && p.breaksLine && |s| > 0 then "\n"
    else if lineBreaks && p.promptOrInput && |s| > 0 && s[|s| - 1] != '\n' && s[|s| - 1] != ' ' then " "
    else ""
  }

  /** The text of the cells appended to `s`, each after its separator. */
  function CopyText(ps: seq<Piece>, lineBreaks: bool, s: string): string
  {
    if |ps| == 0 then s else CopyText(ps[1..], lineBreaks, s + Separator(ps[0], lineBreaks, s) + ps[0].text)
  }

  /** One step of copying: the cell at position m, after its separator. */
  lemma CopyTextStep(ps: seq<Piece>, m: nat, lineBreaks: bool, s: string)
    requires m < |ps|
    ensures CopyText(ps[m..], lineBreaks, s) == CopyText(ps[m + 1..], lineBreaks, s + Separator(ps[m], lineBreaks, s) + ps[m].text)
  {
    assert ps[m..][0] == ps[m] && ps[m..][1..] == ps[m + 1..];
  }

  /**
   * Puts the separator for a cell after the text copied so far: a newline
   * before a line start, then a space before a prompt or an input unless the
   * text now ends in a newline or a space.
   */
  method AppendSeparator(s: string, p: Piece, lineBreaks: bool) returns (r: string)
    ensures r == s + Separator(p, lineBreaks, s)
  {
    r := s;
    if lineBreaks && p.breaksLine && |r| > 0 {
      r := r + "\n";
    }
    if lineBreaks && p.promptOrInput {
      if |r| > 0 && r[|r| - 1] != '\n' && r[|r| - 1] != ' ' {
        r := r + " ";
      }
    }
  }

  /** The texts of the cells, one after the other. */
  function Joined(ps: seq<Piece>): string
  {
    if |ps| == 0 then "" else ps[0].text + Joined(ps[1..])
  }

  /** The separators copying puts before each cell. */
  function Separators(ps: seq<Piece>, lineBreaks: bool, s: string): (r: seq<string>)
    ensures |r| == |ps|
  {
    if |ps| == 0 then []
    else [Separator(ps[0], lineBreaks, s)] + Separators(ps[1..], lineBreaks, s + Separator(ps[0], lineBreaks, s) + ps[0].text)
  }

  /** Each cell's text after its separator, one after the other. */
  function Interleaved(seps: seq<string>, ps: seq<Piece>): string
    requires |seps| == |ps|
  {
    if |ps| == 0 then "" else seps[0] + ps[0].text + Interleaved(seps[1..], ps[1..])
  }

  /**
   * Copying with line breaks is the cells' texts, in order, each after a
   * separator that is empty, one newline or one space, the first one empty.
   */
  lemma {:induction false} CopyTextInterleaves(ps: seq<Piece>, lineBreaks: bool, s: string)
    ensures CopyText(ps, lineBreaks, s) == s + Interleaved(Separators(ps, lineBreaks, s), ps)
    ensures forall k :: 0 <= k < |ps| ==> Separators(ps, lineBreaks, s)[k] in {"", "\n", " "}
    ensures |ps| > 0 && |s| == 0 ==> Separators(ps, lineBreaks, s)[0] == ""
    decreases |ps|
  {
    if |ps| > 0 {
      var sep := Separator(ps[0], lineBreaks, s);
      var s' := s + sep + ps[0].text;
      CopyTextInterleaves(ps[1..], lineBreaks, s');
      var seps := Separators(ps, lineBreaks, s);
      assert seps[1..] == Separators(ps[1..], lineBreaks, s');
      assert s' + Interleaved(seps[1..], ps[1..]) == s + (sep + ps[0].text + Interleaved(seps[1..], ps[1..]));
    }
  }

  /** Without line breaks, copying is the plain concatenation of the texts. */
  lemma {:induction false} CopyTextPlain(ps: seq<Piece>, s: string)
    ensures CopyText(ps, false, s) == s + Joined(ps)
    decreases |ps|
  {
    if |ps| > 0 {
      assert Separator(ps[0], false, s) == "";
      assert s + Separator(ps[0], false, s) + ps[0].text == s + ps[0].text;
      CopyTextPlain(ps[1..], s + ps[0].text);
      assert s + ps[0].text + Joined(ps[1..]) == s + Joined(ps);
    }
  }

  /** Cells that neither start lines nor are prompts or inputs get no separators. */
  lemma {:induction false} CopyTextNoSeparators(ps: seq<Piece>, s: string)
    requires forall k :: 0 <= k < |ps| ==> !ps[k].breaksLine && !ps[k].promptOrInput
    ensures CopyText(ps, true, s) == CopyText(ps, false, s)
    decreases |ps|
  {
    if |ps| > 0 {
      assert Separator(ps[0], true, s) == "" && Separator(ps[0], false, s) == "";
      assert s + "" + ps[0].text == s + ps[0].text;
      CopyTextNoSeparators(ps[1..], s + ps[0].text);
    }
  }
}
