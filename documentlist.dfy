/**
 * The worksheet's document list: cells linked three ways. Each cell knows the
 * cell after it (next) and the one before it (previous) in the document, and
 * the cell drawn after it (next to draw). The drawing order follows the
 * document but may skip cells: folding a label or a main prompt makes its
 * next-to-draw link jump over the cells it hides.
 *
 * The cells live in an arena (a sequence indexed by natural numbers) and the
 * links are optional indices into it. A sequence `order` of arena indices is
 * the document list the next links spell out; a run is the list of cells a
 * walk along next-to-draw links visits.
 *
 * The walks over the list are methods on the arena; the worksheet control
 * calls them on its own cells.
 */
module DocumentList {
  import opened Wrappers
  import opened WorksheetLayout

  /** The kinds of cell the worksheet tells apart. */
  datatype CellType = MainPrompt | Prompt | Input | Label | Variable | OtherKind

  /** Where the last drawing put a cell: its left edge, its baseline, and how far it reaches below and above it. */
  datatype Place = Place(x: int, y: int, drop: int, center: int)

  /**
   * A cell: its kind and the text it exports, what layout reads of it, its
   * fold state, its place from the last drawing, and its links.
   */
  datatype Cell = Cell(
    kind: CellType,
    text: string,
    box: Box,
    hidden: bool,
    nextToDrawIsNext: bool,
    place: Place,
    next: Option<nat>,
    prev: Option<nat>,
    nextToDraw: Option<nat>)

  /** An arena of cells and the document list they form. */
  datatype Document = Document(cells: seq<Cell>, order: seq<nat>)

  /** What copying reads of a cell. */
  function PieceOf(c: Cell): Piece
  {
    Piece(c.text, BreaksHere(c.box), c.kind == Prompt || c.kind == Input)
  }

  /** The cell with its line-break flag set to b. */
  function WithBreak(c: Cell, b: bool): Cell
  {
    c.(box := c.box.(breakLine := b))
  }

  // ---------------------------------------------------------------------
  // The shape of the list

  ghost predicate InArena(cells: seq<Cell>, s: seq<nat>)
  {
    forall k :: 0 <= k < |s| ==> s[k] < |cells|
  }

  ghost predicate Distinct(s: seq<nat>)
  {
    forall j, k :: 0 <= j < k < |s| ==> s[j] != s[k]
  }

  /** Each cell of the document links to the following one, the last to none. */
  ghost predicate NextLinks(cells: seq<Cell>, order: seq<nat>)
    requires InArena(cells, order)
  {
    forall k :: 0 <= k < |order| ==> cells[order[k]].next == (if k + 1 < |order| then Some(order[k + 1]) else None)
  }

  /** Each cell of the document links back to the preceding one, the first to none. */
  ghost predicate PrevLinks(cells: seq<Cell>, order: seq<nat>)
    requires InArena(cells, order)
  {
    forall k :: 0 <= k < |order| ==> cells[order[k]].prev == (if k == 0 then None else Some(order[k - 1]))
  }

  /** A drawing link from the cell at rank k leads to a later cell of the document, if anywhere. */
  ghost predicate DrawsForward(order: seq<nat>, k: nat, t: Option<nat>)
    requires k < |order|
  {
    t.None? || t.value in order[k + 1..]
  }

  ghost predicate DrawLinks(cells: seq<Cell>, order: seq<nat>)
    requires InArena(cells, order)
  {
    forall k {:trigger cells[order[k]].nextToDraw} :: 0 <= k < |order| ==> DrawsForward(order, k, cells[order[k]].nextToDraw)
  }

  /**
   * The ends of the document, stated on their own: the last cell leads
   * nowhere and the first is preceded by none (NextLinks and PrevLinks say
   * so too, in a form the solver only reaches from a middle cell).
   */
  ghost predicate EndLinks(cells: seq<Cell>, order: seq<nat>)
    requires InArena(cells, order)
  {
    |order| > 0 ==> cells[order[|order| - 1]].next == None && cells[order[0]].prev == None
  }

  /**
   * `order` is the document list: distinct cells of the arena, linked forward
   * and backward, whose drawing order is a subsequence of it.
   */
  ghost predicate Chain(cells: seq<Cell>, order: seq<nat>)
  {
    InArena(cells, order) && Distinct(order) &&
    NextLinks(cells, order) && PrevLinks(cells, order) && DrawLinks(cells, order) && EndLinks(cells, order)
  }

  /** The position of x in s. */
  function IndexOf(s: seq<nat>, x: nat): (r: nat)
    requires x in s
    ensures r < |s| && s[r] == x
  {
    if s[0] == x then 0 else 1 + IndexOf(s[1..], x)
  }

  lemma {:induction false} IndexOfDistinct(s: seq<nat>, k: nat)
    requires Distinct(s) && k < |s|
    ensures IndexOf(s, s[k]) == k
  {
    if s[0] != s[k] {
      assert s[1..][k - 1] == s[k];
      IndexOfDistinct(s[1..], k - 1);
    }
  }

  lemma TakeSnoc<T>(s: seq<T>, m: nat)
    requires m < |s|
    ensures s[..m] + [s[m]] == s[..m + 1]
  {
  }

  lemma DropCons<T>(s: seq<T>, m: nat)
    requires m < |s|
    ensures s[m..][0] == s[m] && s[m..][1..] == s[m + 1..]
  {
  }

  lemma TakeAll<T>(s: seq<T>, m: nat)
    requires m == |s|
    ensures s[..m] == s
  {
  }

  // ---------------------------------------------------------------------
  // Runs along the drawing links

  /** The rank of the cell the cell at rank k draws next, if any. */
  ghost function DrawNext(cells: seq<Cell>, order: seq<nat>, k: nat): (r: Option<nat>)
    requires Chain(cells, order) && k < |order|
    ensures r.Some? ==> k < r.value < |order| && cells[order[k]].nextToDraw == Some(order[r.value])
    ensures r.None? ==> cells[order[k]].nextToDraw == None
  {
    assert DrawsForward(order, k, cells[order[k]].nextToDraw);
    match cells[order[k]].nextToDraw
    case None => None
    case Some(t) => Some(k + 1 + IndexOf(order[k + 1..], t))
  }

  /** The ranks of the cells a drawing pass visits from the cell at rank k. */
  ghost function DrawRanks(cells: seq<Cell>, order: seq<nat>, k: nat): (r: seq<nat>)
    requires Chain(cells, order) && k < |order|
    ensures |r| > 0 && r[0] == k
    ensures forall m :: 0 <= m < |r| ==> k <= r[m] < |order|
    decreases |order| - k
  {
    match DrawNext(cells, order, k)
    case None => [k]
    case Some(k') => [k] + DrawRanks(cells, order, k')
  }

  /** The ranks of a drawing pass increase, and each cell's drawing link leads to the next one. */
  lemma {:induction false} DrawRanksLinked(cells: seq<Cell>, order: seq<nat>, k: nat)
    requires Chain(cells, order) && k < |order|
    ensures var r := DrawRanks(cells, order, k);
      (forall i, j :: 0 <= i < j < |r| ==> r[i] < r[j]) &&
      (forall m :: 0 <= m < |r| - 1 ==> cells[order[r[m]]].nextToDraw == Some(order[r[m + 1]])) &&
      cells[order[r[|r| - 1]]].nextToDraw == None
    decreases |order| - k
  {
    var n := DrawNext(cells, order, k);
    if n.Some? {
      DrawRanksLinked(cells, order, n.value);
      var r := DrawRanks(cells, order, k);
      assert r[1..] == DrawRanks(cells, order, n.value);
    }
  }

  /** `r` is the run of cells reached from `from` by drawing links, up to the cell with none. */
  ghost predicate IsRun(cells: seq<Cell>, from: nat, r: seq<nat>)
  {
    |r| > 0 && r[0] == from &&
    (forall m :: 0 <= m < |r| ==> r[m] < |cells|) &&
    (forall m :: 0 <= m < |r| - 1 ==> cells[r[m]].nextToDraw == Some(r[m + 1])) &&
    cells[r[|r| - 1]].nextToDraw == None
  }

  /** `run` is what a drawing pass from `from` visits: nothing when there is no start cell. */
  ghost predicate RunFrom(cells: seq<Cell>, from: Option<nat>, run: seq<nat>)
  {
    if from.None? then run == [] else IsRun(cells, from.value, run)
  }

  /** Along a run, each cell's drawing link leads to the following cell, the last cell's to none. */
  lemma RunNext(cells: seq<Cell>, from: Option<nat>, run: seq<nat>, m: nat)
    requires RunFrom(cells, from, run) && m < |run|
    ensures cells[run[m]].nextToDraw == (if m + 1 < |run| then Some(run[m + 1]) else None)
  {
  }

  /** The drawing links determine the run. */
  lemma {:induction false} RunUnique(cells: seq<Cell>, cells': seq<Cell>, from: nat, r: seq<nat>, r': seq<nat>)
    requires IsRun(cells, from, r) && IsRun(cells', from, r')
    requires |cells| == |cells'| && forall i :: 0 <= i < |cells| ==> cells[i].nextToDraw == cells'[i].nextToDraw
    ensures r == r'
    decreases |r|
  {
    assert |r| > 1 <==> cells[from].nextToDraw.Some? by {
      if |r| == 1 { assert r[|r| - 1] == from; } else { assert cells[r[0]].nextToDraw == Some(r[1]); }
    }
    assert |r'| > 1 <==> cells'[from].nextToDraw.Some? by {
      if |r'| == 1 { assert r'[|r'| - 1] == from; } else { assert cells'[r'[0]].nextToDraw == Some(r'[1]); }
    }
    if |r| > 1 {
      assert cells[r[0]].nextToDraw == Some(r[1]) && cells'[r'[0]].nextToDraw == Some(r'[1]);
      assert IsRun(cells, r[1], r[1..]);
      assert IsRun(cells', r'[1], r'[1..]);
      RunUnique(cells, cells', r[1], r[1..], r'[1..]);
    }
  }

  /** The cells a drawing pass visits from `from`, none when there is no start cell. */
  ghost function DrawRun(cells: seq<Cell>, order: seq<nat>, from: Option<nat>): (r: seq<nat>)
    requires Chain(cells, order) && (from.None? || from.value in order)
    ensures from.None? ==> r == []
    ensures forall m :: 0 <= m < |r| ==> r[m] in order && r[m] < |cells|
  {
    if from.None? then []
    else
      var ranks := DrawRanks(cells, order, IndexOf(order, from.value));
      seq(|ranks|, m requires 0 <= m < |ranks| => order[ranks[m]])
  }

  /** A drawing pass visits distinct cells, following their drawing links to the one with none. */
  lemma DrawRunIsRun(cells: seq<Cell>, order: seq<nat>, from: Option<nat>)
    requires Chain(cells, order) && (from.None? || from.value in order)
    ensures RunFrom(cells, from, DrawRun(cells, order, from))
    ensures Distinct(DrawRun(cells, order, from))
  {
    if from.Some? {
      var k := IndexOf(order, from.value);
      DrawRanksLinked(cells, order, k);
      var ranks := DrawRanks(cells, order, k);
      var r := DrawRun(cells, order, from);
      assert forall m :: 0 <= m < |r| ==> r[m] == order[ranks[m]];
      assert IsRun(cells, from.value, r) by {
        assert r[0] == from.value;
        forall m | 0 <= m < |r| - 1 ensures cells[r[m]].nextToDraw == Some(r[m + 1]) {
          assert cells[order[ranks[m]]].nextToDraw == Some(order[ranks[m + 1]]);
        }
      }
      assert Distinct(r) by {
        forall i, j | 0 <= i < j < |r| ensures r[i] != r[j] {
          assert ranks[i] < ranks[j];
        }
      }
    }
  }

  /** A drawing pass over cells whose drawing links are the same visits the same cells. */
  lemma SameRun(cells: seq<Cell>, cells': seq<Cell>, order: seq<nat>, from: Option<nat>)
    requires Chain(cells, order) && Chain(cells', order) && (from.None? || from.value in order)
    requires |cells'| == |cells| && forall i :: 0 <= i < |cells| ==> cells'[i].nextToDraw == cells[i].nextToDraw
    ensures DrawRun(cells', order, from) == DrawRun(cells, order, from)
  {
    if from.Some? {
      DrawRunIsRun(cells, order, from);
      DrawRunIsRun(cells', order, from);
      RunUnique(cells, cells', from.value, DrawRun(cells, order, from), DrawRun(cells', order, from));
    }
  }

  /** What layout reads of the cells of a run. */
  ghost function Boxes(cells: seq<Cell>, run: seq<nat>): (r: seq<Box>)
    requires forall m :: 0 <= m < |run| ==> run[m] < |cells|
    ensures |r| == |run| && forall m :: 0 <= m < |run| ==> r[m] == cells[run[m]].box
  {
    seq(|run|, m requires 0 <= m < |run| => cells[run[m]].box)
  }

  /** What copying reads of the cells of a run. */
  ghost function Pieces(cells: seq<Cell>, run: seq<nat>): (r: seq<Piece>)
    requires forall m :: 0 <= m < |run| ==> run[m] < |cells|
    ensures |r| == |run| && forall m :: 0 <= m < |run| ==> r[m] == PieceOf(cells[run[m]])
  {
    seq(|run|, m requires 0 <= m < |run| => PieceOf(cells[run[m]]))
  }

  // ---------------------------------------------------------------------
  // Line breaking

  /** Sets the break flag of each cell of a run to the flag at its position; all other cells stay as they are. */
  ghost function SetBreaks(cells: seq<Cell>, run: seq<nat>, flags: seq<bool>): (r: seq<Cell>)
    requires (forall m :: 0 <= m < |run| ==> run[m] < |cells|) && |flags| == |run|
    ensures |r| == |cells|
  {
    seq(|cells|, i requires 0 <= i < |cells| =>
      if i in run then WithBreak(cells[i], flags[IndexOf(run, i)]) else cells[i])
  }

  /** Setting break flags changes nothing else of any cell. */
  lemma SetBreaksOnlyFlags(cells: seq<Cell>, run: seq<nat>, flags: seq<bool>)
    requires (forall m :: 0 <= m < |run| ==> run[m] < |cells|) && |flags| == |run|
    ensures var r := SetBreaks(cells, run, flags);
      forall i :: 0 <= i < |cells| ==> r[i] == WithBreak(cells[i], r[i].box.breakLine)
  {
  }

  /** Cells off the run are left alone. */
  lemma SetBreaksOffRun(cells: seq<Cell>, run: seq<nat>, flags: seq<bool>)
    requires (forall m :: 0 <= m < |run| ==> run[m] < |cells|) && |flags| == |run|
    ensures var r := SetBreaks(cells, run, flags);
      forall i :: 0 <= i < |cells| && i !in run ==> r[i] == cells[i]
  {
  }

  /** Each cell of a run of distinct cells gets the flag at its position. */
  lemma SetBreaksOnRun(cells: seq<Cell>, run: seq<nat>, flags: seq<bool>)
    requires (forall m :: 0 <= m < |run| ==> run[m] < |cells|) && |flags| == |run|
    requires Distinct(run)
    ensures var r := SetBreaks(cells, run, flags);
      forall m :: 0 <= m < |run| ==> r[run[m]] == WithBreak(cells[run[m]], flags[m])
  {
    forall m | 0 <= m < |run|
      ensures IndexOf(run, run[m]) == m
    {
      IndexOfDistinct(run, m);
    }
  }

  /** Cells that agree with SetBreaks on and off the run are its result. */
  lemma SetBreaksExactly(cells: seq<Cell>, cells': seq<Cell>, run: seq<nat>, flags: seq<bool>)
    requires (forall m :: 0 <= m < |run| ==> run[m] < |cells|) && |flags| == |run|
    requires Distinct(run) && |cells'| == |cells|
    requires forall i :: 0 <= i < |cells| && i !in run ==> cells'[i] == cells[i]
    requires forall m :: 0 <= m < |run| ==> cells'[run[m]] == WithBreak(cells[run[m]], flags[m])
    ensures cells' == SetBreaks(cells, run, flags)
  {
    var r := SetBreaks(cells, run, flags);
    SetBreaksOnRun(cells, run, flags);
    forall i | 0 <= i < |cells|
      ensures cells'[i] == r[i]
    {
      if i in run {
        var m := IndexOf(run, i);
        assert cells'[run[m]] == r[run[m]];
      }
    }
  }

  /** Setting the same flags a second time changes nothing. */
  lemma SetBreaksTwice(cells: seq<Cell>, run: seq<nat>, flags: seq<bool>)
    requires (forall m :: 0 <= m < |run| ==> run[m] < |cells|) && |flags| == |run|
    requires Distinct(run)
    ensures SetBreaks(SetBreaks(cells, run, flags), run, flags) == SetBreaks(cells, run, flags)
  {
    var once := SetBreaks(cells, run, flags);
    SetBreaksOnRun(cells, run, flags);
    SetBreaksOffRun(cells, run, flags);
    SetBreaksOnRun(once, run, flags);
    SetBreaksOffRun(once, run, flags);
    SetBreaksExactly(once, SetBreaks(once, run, flags), run, flags);
    forall m | 0 <= m < |run|
      ensures SetBreaks(once, run, flags)[run[m]] == WithBreak(cells[run[m]], flags[m])
    {
    }
    SetBreaksExactly(cells, SetBreaks(once, run, flags), run, flags);
  }

  /**
   * The greedy line breaking of a run (the loop of MathCtrl::BreakLines): each
   * cell's flag is cleared, then set when the cell is forced to start a line
   * or would reach the full width; the running width restarts after the
   * indent on a new line and grows by the cell and a gap otherwise.
   */
  method BreakRun(cells: seq<Cell>, from: Option<nat>, ghost run: seq<nat>, fullWidth: int, sp: Spacing) returns (r: seq<Cell>)
    requires RunFrom(cells, from, run) && Distinct(run)
    ensures r == SetBreaks(cells, run, LineStarts(Boxes(cells, run), fullWidth, sp.baseIndent, sp))
  {
    r := cells;
    var currentWidth := sp.baseIndent;
    var tmp := from;
    ghost var boxes := Boxes(cells, run);
    ghost var starts := LineStarts(boxes, fullWidth, sp.baseIndent, sp);
    ghost var m := 0;
    assert run[..0] == [] && starts[..0] == [];
    while tmp.Some?
      invariant 0 <= m <= |run|
      invariant tmp == (if m < |run| then Some(run[m]) else None)
      invariant r == SetBreaks(cells, run[..m], starts[..m])
      invariant starts[m..] == LineStarts(boxes[m..], fullWidth, currentWidth, sp)
      decreases |run| - m
    {
      LineStartsStep(boxes, starts, m, fullWidth, currentWidth, sp);
      SetBreaksNotYet(cells, run, starts, m);
      var c := r[tmp.value];
      assert c == cells[run[m]] && c.box == boxes[m];
      c, currentWidth := BreakCell(c, currentWidth, fullWidth, sp);
      r := r[tmp.value := c];
      tmp := c.nextToDraw;
      m := m + 1;
    }
    TakeAll(run, m);
    TakeAll(starts, m);
  }

  /**
   * One cell of the line-breaking loop: its flag is cleared, then set when it
   * is forced to start a line or would reach the full width; the running width
   * moves on past it.
   */
  method BreakCell(c: Cell, currentWidth: int, fullWidth: int, sp: Spacing) returns (c': Cell, width: int)
    ensures c' == WithBreak(c, StartsLine(c.box, fullWidth, currentWidth))
    ensures width == RunningAfter(c.box, fullWidth, currentWidth, sp)
  {
    c' := WithBreak(c, false);
    if BreaksHere(c'.box) || currentWidth + c'.box.width >= fullWidth {
      width := sp.baseIndent + c'.box.width;
      c' := WithBreak(c', true);
    } else {
      width := currentWidth + c'.box.width + sp.cellSkip;
    }
  }

  /** While breaking a run, the next cell is still as it was, and setting its flag extends the cells set. */
  lemma SetBreaksNotYet(cells: seq<Cell>, run: seq<nat>, flags: seq<bool>, m: nat)
    requires (forall k :: 0 <= k < |run| ==> run[k] < |cells|) && |flags| == |run|
    requires Distinct(run) && m < |run|
    ensures SetBreaks(cells, run[..m], flags[..m])[run[m]] == cells[run[m]]
    ensures SetBreaks(cells, run[..m], flags[..m])[run[m] := WithBreak(cells[run[m]], flags[m])] ==
      SetBreaks(cells, run[..m + 1], flags[..m + 1])
  {
    assert run[m] !in run[..m];
    SetBreaksSnoc(cells, run[..m], flags[..m], run[m], flags[m]);
    TakeSnoc(run, m);
    TakeSnoc(flags, m);
  }

  lemma {:induction false} IndexOfSnoc(s: seq<nat>, x: nat, y: nat)
    requires y in s
    ensures IndexOf(s + [x], y) == IndexOf(s, y)
  {
    if s[0] != y {
      assert (s + [x])[1..] == s[1..] + [x];
      IndexOfSnoc(s[1..], x, y);
    }
  }

  lemma {:induction false} IndexOfLast(s: seq<nat>, x: nat)
    requires x !in s
    ensures IndexOf(s + [x], x) == |s|
  {
    if |s| > 0 {
      assert (s + [x])[1..] == s[1..] + [x];
      IndexOfLast(s[1..], x);
    }
  }

  /** Setting one more cell's flag, for a cell not set yet. */
  lemma SetBreaksSnoc(cells: seq<Cell>, run: seq<nat>, flags: seq<bool>, x: nat, f: bool)
    requires (forall m :: 0 <= m < |run| ==> run[m] < |cells|) && |flags| == |run|
    requires x < |cells| && x !in run
    ensures SetBreaks(cells, run + [x], flags + [f]) == SetBreaks(cells, run, flags)[x := WithBreak(cells[x], f)]
  {
    var a := SetBreaks(cells, run + [x], flags + [f]);
    var b := SetBreaks(cells, run, flags)[x := WithBreak(cells[x], f)];
    forall i | 0 <= i < |cells|
      ensures a[i] == b[i]
    {
      if i == x {
        IndexOfLast(run, x);
      } else if i in run {
        IndexOfSnoc(run, x, i);
      }
    }
  }

  /** Gives each cell a drawing pass from `from` visits the break flag the greedy line breaking decides. */
  ghost function BrokenLines(cells: seq<Cell>, order: seq<nat>, from: Option<nat>, fullWidth: int, sp: Spacing): (r: seq<Cell>)
    requires Chain(cells, order) && (from.None? || from.value in order)
    ensures |r| == |cells|
  {
    var run := DrawRun(cells, order, from);
    SetBreaks(cells, run, LineStarts(Boxes(cells, run), fullWidth, sp.baseIndent, sp))
  }

  /**
   * Line breaking changes nothing but the break flags, and only those of the
   * cells a drawing pass from `from` visits, each set to the greedy decision;
   * cells folded away are not touched.
   */
  lemma BrokenLinesSpec(cells: seq<Cell>, order: seq<nat>, from: Option<nat>, fullWidth: int, sp: Spacing)
    requires Chain(cells, order) && (from.None? || from.value in order)
    ensures var r := BrokenLines(cells, order, from, fullWidth, sp);
      forall i :: 0 <= i < |cells| ==> r[i] == WithBreak(cells[i], r[i].box.breakLine)
    ensures var r := BrokenLines(cells, order, from, fullWidth, sp);
      forall i :: 0 <= i < |cells| && i !in DrawRun(cells, order, from) ==> r[i] == cells[i]
    ensures var r := BrokenLines(cells, order, from, fullWidth, sp);
      var run := DrawRun(cells, order, from);
      forall m :: 0 <= m < |run| ==> r[run[m]].box.breakLine == LineStarts(Boxes(cells, run), fullWidth, sp.baseIndent, sp)[m]
  {
    var run := DrawRun(cells, order, from);
    var flags := LineStarts(Boxes(cells, run), fullWidth, sp.baseIndent, sp);
    DrawRunIsRun(cells, order, from);
    SetBreaksOnlyFlags(cells, run, flags);
    SetBreaksOffRun(cells, run, flags);
    SetBreaksOnRun(cells, run, flags);
  }

  /** Cells that differ in nothing but their break flags have the same shape. */
  lemma SameLinksChain(cells: seq<Cell>, cells': seq<Cell>, order: seq<nat>)
    requires Chain(cells, order)
    requires |cells'| == |cells|
    requires forall i :: 0 <= i < |cells| ==> cells'[i] == WithBreak(cells[i], cells'[i].box.breakLine)
    ensures Chain(cells', order)
  {
  }

  /** Line breaking keeps the shape of the list. */
  lemma BrokenLinesChain(cells: seq<Cell>, order: seq<nat>, from: Option<nat>, fullWidth: int, sp: Spacing)
    requires Chain(cells, order) && (from.None? || from.value in order)
    ensures Chain(BrokenLines(cells, order, from, fullWidth, sp), order)
  {
    var run := DrawRun(cells, order, from);
    SetBreaksOnlyFlags(cells, run, LineStarts(Boxes(cells, run), fullWidth, sp.baseIndent, sp));
    SameLinksChain(cells, BrokenLines(cells, order, from, fullWidth, sp), order);
  }

  /** Breaking lines twice with the same widths is breaking them once. */
  lemma BrokenLinesIdempotent(cells: seq<Cell>, order: seq<nat>, from: Option<nat>, fullWidth: int, sp: Spacing)
    requires Chain(cells, order) && (from.None? || from.value in order)
    ensures Chain(BrokenLines(cells, order, from, fullWidth, sp), order)
    ensures BrokenLines(BrokenLines(cells, order, from, fullWidth, sp), order, from, fullWidth, sp) ==
      BrokenLines(cells, order, from, fullWidth, sp)
  {
    var run := DrawRun(cells, order, from);
    var flags := LineStarts(Boxes(cells, run), fullWidth, sp.baseIndent, sp);
    var once := SetBreaks(cells, run, flags);
    BrokenLinesChain(cells, order, from, fullWidth, sp);
    SetBreaksOnlyFlags(cells, run, flags);
    SameRun(cells, once, order, from);
    DrawRunIsRun(cells, order, from);
    LineStartsIgnoresBreakFlags(Boxes(cells, run), Boxes(once, run), fullWidth, sp.baseIndent, sp);
    SetBreaksTwice(cells, run, flags);
  }

  // ---------------------------------------------------------------------
  // The extent of the document

  lemma ExtentCons(bs: seq<Box>, st: ExtentState, sp: Spacing)
    requires |bs| > 0
    ensures Extent(bs, st, sp) == Extent(bs[1..], ExtentStep(st, bs[0], sp), sp)
  {
  }

  /**
   * The extent of the cells of a run (the loop of MathCtrl::GetMaxPoint): the
   * height grows by each line's tallest cell and the line gap after big
   * lines, the width is the largest line end (see ExtentWidth).
   */
  method ExtentRun(cells: seq<Cell>, from: Option<nat>, ghost run: seq<nat>, sp: Spacing) returns (width: int, height: int)
    requires RunFrom(cells, from, run)
    ensures var e := Extent(Boxes(cells, run), InitialExtent(sp), sp);
      width == e.width && height == e.height
  {
    var tmp := from;
    var currentHeight := sp.baseIndent;
    var currentWidth := sp.baseIndent;
    width := sp.baseIndent;
    height := sp.baseIndent;
    var bigSkip := false;
    ghost var boxes := Boxes(cells, run);
    ghost var m := 0;
    while tmp.Some?
      invariant 0 <= m <= |run|
      invariant tmp == (if m < |run| then Some(run[m]) else None)
      invariant Extent(boxes, InitialExtent(sp), sp) ==
        Extent(boxes[m..], ExtentState(currentHeight, currentWidth, width, height, bigSkip), sp)
      decreases |run| - m
    {
      var c := cells[tmp.value];
      assert boxes[m..][0] == boxes[m] == c.box && boxes[m..][1..] == boxes[m + 1..];
      ExtentCons(boxes[m..], ExtentState(currentHeight, currentWidth, width, height, bigSkip), sp);
      RunNext(cells, from, run, m);
      currentHeight, currentWidth, width, height, bigSkip := ExtentCell(c.box, currentHeight, currentWidth, width, height, bigSkip, sp);
      tmp := c.nextToDraw;
      m := m + 1;
    }
  }

  /** One cell of the extent loop: a cell starting a line adds the line's height, any other cell widens the line. */
  method ExtentCell(b: Box, currentHeight: int, currentWidth: int, width: int, height: int, bigSkip: bool, sp: Spacing)
    returns (currentHeight': int, currentWidth': int, width': int, height': int, bigSkip': bool)
    ensures ExtentState(currentHeight', currentWidth', width', height', bigSkip') ==
      ExtentStep(ExtentState(currentHeight, currentWidth, width, height, bigSkip), b, sp)
  {
    currentHeight', height' := currentHeight, height;
    if BreaksHere(b) {
      currentHeight' := currentHeight + b.maxHeight;
      if bigSkip {
        currentHeight' := currentHeight' + sp.lineSkip;
      }
      height' := currentHeight';
      currentWidth' := sp.baseIndent + b.width;
      width' := MaxInt(currentWidth' + sp.baseIndent, width);
    } else {
      currentWidth' := currentWidth + b.width + sp.cellSkip;
      width' := MaxInt(currentWidth' - sp.cellSkip, width);
    }
    bigSkip' := b.bigSkip;
  }

  // ---------------------------------------------------------------------
  // Text and copies of a run

  /** The run cut after `end`, or the whole run when `end` is not on it. */
  function UpTo(run: seq<nat>, end: Option<nat>): (r: seq<nat>)
    ensures |r| <= |run| && forall m :: 0 <= m < |r| ==> r[m] == run[m]
    ensures end.Some? && end.value in run ==> |r| == IndexOf(run, end.value) + 1
    ensures !(end.Some? && end.value in run) ==> r == run
  {
    if |run| == 0 then []
    else if Some(run[0]) == end then [run[0]]
    else [run[0]] + UpTo(run[1..], end)
  }

  /**
   * The texts of the cells from `start` along the drawing links, up to and
   * including `end` (the loop of MathCtrl::GetString and, with line breaks,
   * of MathCtrl::Copy): before each cell, a newline when it starts a line and
   * a space before a prompt or an input that does not follow one already.
   */
  method RunText(cells: seq<Cell>, start: Option<nat>, end: Option<nat>, ghost run: seq<nat>, lb: bool) returns (s: string)
    requires RunFrom(cells, start, run)
    ensures s == CopyText(Pieces(cells, UpTo(run, end)), lb, "")
  {
    s := "";
    var tmp := start;
    ghost var sel := UpTo(run, end);
    ghost var ps := Pieces(cells, sel);
    ghost var m := 0;
    while tmp.Some?
      invariant 0 <= m <= |sel|
      invariant tmp == (if m < |run| then Some(run[m]) else None)
      invariant tmp.Some? ==> m < |sel|
      invariant CopyText(ps[m..], lb, s) == CopyText(ps, lb, "")
      decreases |run| - m
    {
      UpToStep(run, end, m);
      CopyTextStep(ps, m, lb, s);
      RunNext(cells, start, run, m);
      var c := cells[tmp.value];
      assert ps[m] == PieceOf(c);
      s := AppendSeparator(s, PieceOf(c), lb);
      s := s + c.text;
      if tmp == end {
        break;
      }
      tmp := c.nextToDraw;
      m := m + 1;
    }
    TakeAll(ps, |ps|);
    assert ps[|ps|..] == [];
  }

  lemma {:induction false} IndexOfFirst(s: seq<nat>, k: nat)
    requires k < |s|
    ensures IndexOf(s, s[k]) <= k
  {
    if s[0] != s[k] {
      assert s[1..][k - 1] == s[k];
      IndexOfFirst(s[1..], k - 1);
    }
  }

  /** Walking the cut run: its cells are the run's, and the walk stops exactly at `end`. */
  lemma {:induction false} UpToStep(run: seq<nat>, end: Option<nat>, m: nat)
    requires m < |UpTo(run, end)|
    ensures UpTo(run, end)[m] == run[m]
    ensures Some(run[m]) == end ==> m + 1 == |UpTo(run, end)|
    ensures Some(run[m]) != end && m + 1 < |run| ==> m + 1 < |UpTo(run, end)|
  {
    if Some(run[m]) == end {
      IndexOfFirst(run, m);
    }
    if m > 0 && Some(run[0]) != end {
      UpToStep(run[1..], end, m - 1);
    }
  }

  /** A copy of a cell: the same cell, linked to nothing. */
  function Detached(c: Cell): Cell
  {
    c.(next := None, prev := None, nextToDraw := None)
  }

  /**
   * Appends a cell to a copied list held in an arena of its own: the last
   * cell's next and next-to-draw links lead to the new cell, and the new
   * cell's previous link leads back.
   */
  function Append(list: seq<Cell>, c: Cell): (r: seq<Cell>)
    requires |list| > 0
    ensures |r| == |list| + 1
  {
    var n := |list|;
    list[n - 1 := list[n - 1].(next := Some(n), nextToDraw := Some(n))] + [c.(prev := Some(n - 1))]
  }

  /** The cells of a list after appending: those before, with the last one linked on, then the new one. */
  lemma GrownAt(list: seq<Cell>, c: Cell, i: nat)
    requires i <= |list|
    ensures Grown(list, c)[i] ==
      if i == |list| then (if i == 0 then c else c.(prev := Some(i - 1)))
      else if i + 1 == |list| then list[i].(next := Some(i + 1), nextToDraw := Some(i + 1))
      else list[i]
  {
  }

  /** A copied list with one more cell: the first copy alone, or the cell appended to the list. */
  function Grown(list: seq<Cell>, c: Cell): (r: seq<Cell>)
    ensures |r| == |list| + 1
  {
    if |list| == 0 then [c] else Append(list, c)
  }

  /**
   * Adds a copy of `c` to a copied list: the copy starts the list when it is
   * empty and is appended to it otherwise.
   */
  method AppendCopy(list: seq<Cell>, c: Cell) returns (r: seq<Cell>)
    ensures r == Grown(list, Detached(c))
  {
    if |list| == 0 {
      r := [Detached(c)];
    } else {
      r := Append(list, Detached(c));
    }
  }

  /** Copies of the first n cells, each appended after the copies before it. */
  function Copies(cs: seq<Cell>, n: nat): (r: seq<Cell>)
    requires n <= |cs|
    ensures |r| == n
  {
    if n == 0 then [] else Grown(Copies(cs, n - 1), Detached(cs[n - 1]))
  }

  /** Copies of all the cells, linked to each other in order. */
  function Relinked(cs: seq<Cell>): (r: seq<Cell>)
    ensures |r| == |cs|
  {
    Copies(cs, |cs|)
  }

  /** Each copy is the cell it copies but for its links. */
  lemma {:induction false} CopiesContent(cs: seq<Cell>, n: nat)
    requires n <= |cs|
    ensures var r := Copies(cs, n);
      forall i :: 0 <= i < n ==> Detached(r[i]) == Detached(cs[i])
  {
    if n > 0 {
      CopiesContent(cs, n - 1);
      var r := Copies(cs, n);
      var r' := Copies(cs, n - 1);
      forall i | 0 <= i < n
        ensures Detached(r[i]) == Detached(cs[i])
      {
        GrownAt(r', Detached(cs[n - 1]), i);
      }
    }
  }

  /**
   * The links of the copies lead to the following and the preceding copy,
   * and each copy is drawn after the one before it.
   */
  lemma {:induction false} CopiesLinear(cs: seq<Cell>, n: nat)
    requires n <= |cs|
    ensures Linear(Copies(cs, n))
  {
    if n > 0 {
      CopiesLinear(cs, n - 1);
      var r := Copies(cs, n);
      var r' := Copies(cs, n - 1);
      forall i | 0 <= i < n
        ensures r[i].next == (if i + 1 < n then Some(i + 1) else None)
        ensures r[i].prev == (if i == 0 then None else Some(i - 1))
        ensures r[i].nextToDraw == r[i].next
      {
        GrownAt(r', Detached(cs[n - 1]), i);
      }
    }
  }

  /** Each copy in a copied list is its cell, linked to its neighbours in the list. */
  lemma RelinkedShape(cs: seq<Cell>)
    ensures var r := Relinked(cs);
      (forall i :: 0 <= i < |cs| ==> Detached(r[i]) == Detached(cs[i])) && Linear(r)
  {
    CopiesContent(cs, |cs|);
    CopiesLinear(cs, |cs|);
  }

  /** The cells of a run, in its order. */
  ghost function CellsOf(cells: seq<Cell>, run: seq<nat>): (r: seq<Cell>)
    requires forall m :: 0 <= m < |run| ==> run[m] < |cells|
    ensures |r| == |run| && forall m :: 0 <= m < |run| ==> r[m] == cells[run[m]]
  {
    seq(|run|, m requires 0 <= m < |run| => cells[run[m]])
  }

  /**
   * Copies the cells from `start` along the drawing links, up to and
   * including `end`, into a list of their own (the loop of
   * MathCtrl::CopySelection); nothing when there is no start cell.
   */
  method CopyRun(cells: seq<Cell>, start: Option<nat>, end: Option<nat>, ghost run: seq<nat>) returns (copy: seq<Cell>)
    requires RunFrom(cells, start, run)
    ensures copy == Relinked(CellsOf(cells, UpTo(run, end)))
  {
    copy := [];
    var tmp := start;
    ghost var cs := CellsOf(cells, UpTo(run, end));
    ghost var m := 0;
    while tmp.Some?
      invariant 0 <= m <= |cs|
      invariant tmp == (if m < |run| then Some(run[m]) else None)
      invariant tmp.Some? ==> m < |cs|
      invariant copy == Copies(cs, m)
      decreases |run| - m
    {
      UpToStep(run, end, m);
      RunNext(cells, start, run, m);
      copy := AppendCopy(copy, cells[tmp.value]);
      m := m + 1;
      if tmp == end {
        break;
      }
      tmp := cells[tmp.value].nextToDraw;
    }
  }

  /**
   * Copies every cell a drawing pass from `start` visits into a list of its
   * own (the loop of MathCtrl::CopyTree).
   */
  method CopyWholeRun(cells: seq<Cell>, start: Option<nat>, ghost run: seq<nat>) returns (copy: seq<Cell>)
    requires RunFrom(cells, start, run)
    ensures copy == Relinked(CellsOf(cells, run))
  {
    if start.None? {
      return [];
    }
    ghost var cs := CellsOf(cells, run);
    var tmp1 := start.value;
    copy := [Detached(cells[tmp1])];
    var next := cells[tmp1].nextToDraw;
    ghost var m := 1;
    while next.Some?
      invariant 1 <= m <= |run|
      invariant next == (if m < |run| then Some(run[m]) else None)
      invariant copy == Copies(cs, m)
      decreases |run| - m
    {
      copy := Append(copy, Detached(cells[next.value]));
      next := cells[next.value].nextToDraw;
      m := m + 1;
    }
  }

  /** A copy of every cell of a drawing pass is the copy of the pass cut nowhere. */
  lemma CopyRunWhole(run: seq<nat>)
    ensures UpTo(run, None) == run
  {
  }

  /** The positions 0 to n - 1. */
  function Upto(n: nat): (r: seq<nat>)
    ensures |r| == n && forall i :: 0 <= i < n ==> r[i] == i
  {
    seq(n, i requires 0 <= i < n => i)
  }

  /** A list in an arena of its own whose cells are linked in arena order. */
  ghost predicate Linear(r: seq<Cell>)
  {
    (forall i :: 0 <= i < |r| ==> r[i].next == (if i + 1 < |r| then Some(i + 1) else None)) &&
    (forall i :: 0 <= i < |r| ==> r[i].prev == (if i == 0 then None else Some(i - 1))) &&
    (forall i :: 0 <= i < |r| ==> r[i].nextToDraw == r[i].next)
  }

  /** A list linked in arena order is a well-formed document. */
  lemma LinearChain(r: seq<Cell>)
    requires Linear(r)
    ensures Chain(r, Upto(|r|))
  {
    var o := Upto(|r|);
    assert InArena(r, o) && Distinct(o);
    assert NextLinks(r, o);
    assert PrevLinks(r, o);
    forall k | 0 <= k < |o|
      ensures DrawsForward(o, k, r[o[k]].nextToDraw)
    {
      if k + 1 < |o| {
        assert o[k + 1..][0] == k + 1;
      }
    }
  }

  /** A list linked in arena order is drawn in full from its first cell. */
  lemma LinearDrawnInFull(r: seq<Cell>)
    requires Linear(r) && |r| > 0
    ensures Chain(r, Upto(|r|))
    ensures DrawRun(r, Upto(|r|), Some(Upto(|r|)[0])) == Upto(|r|)
  {
    var o := Upto(|r|);
    LinearChain(r);
    assert IsRun(r, 0, o);
    DrawRunIsRun(r, o, Some(0));
    RunUnique(r, r, 0, DrawRun(r, o, Some(0)), o);
  }

  /** The pieces of a list whose cells are copies of `cs` are the pieces of `cs`. */
  lemma CopiedPieces(r: seq<Cell>, cs: seq<Cell>)
    requires |r| == |cs|
    requires forall i :: 0 <= i < |cs| ==> Detached(r[i]) == Detached(cs[i])
    ensures Pieces(r, Upto(|r|)) == seq(|cs|, i requires 0 <= i < |cs| => PieceOf(cs[i]))
  {
    var ps := Pieces(r, Upto(|r|));
    forall i | 0 <= i < |cs|
      ensures ps[i] == PieceOf(cs[i])
    {
      assert Detached(r[i]) == Detached(cs[i]);
      assert PieceOf(r[i]) == PieceOf(Detached(r[i]));
      assert PieceOf(cs[i]) == PieceOf(Detached(cs[i]));
    }
  }

  /**
   * A copied list is a well-formed document of its own, drawn in full, and
   * exports what the cells it copies export.
   */
  lemma RelinkedDrawnInFull(cs: seq<Cell>)
    requires |cs| > 0
    ensures Chain(Relinked(cs), Upto(|cs|))
    ensures DrawRun(Relinked(cs), Upto(|cs|), Some(Upto(|cs|)[0])) == Upto(|cs|)
    ensures Pieces(Relinked(cs), Upto(|cs|)) == seq(|cs|, i requires 0 <= i < |cs| => PieceOf(cs[i]))
  {
    RelinkedShape(cs);
    LinearDrawnInFull(Relinked(cs));
    CopiedPieces(Relinked(cs), cs);
  }
}
