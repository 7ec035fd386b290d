/**
 * The worksheet control (MathCtrl): the document list of cells it shows,
 * where the last line was added, and the selection. Its methods add lines,
 * break them to the window's width, measure the document, select by
 * rectangle and by click, fold, copy and delete.
 *
 * Font measurement, drawing, scrolling and the clipboard are outside the
 * model: cell widths and heights arrive with the cells, the window's client
 * width, the hit tests of the mouse and whether the clipboard opens are
 * parameters.
 */
module Worksheet {
  import opened Wrappers
  import opened WorksheetLayout
  import opened DocumentList
  import opened Selection
  import opened Deletion

  // ---------------------------------------------------------------------
  // Adding a line

  /** A link of a line moved into the arena at `base`. */
  function Shift(link: Option<nat>, base: nat): (r: Option<nat>)
    ensures r.None? <==> link.None?
    ensures r.Some? ==> r.value == link.value + base
  {
    if link.None? then None else Some(link.value + base)
  }

  /**
   * The cells of a new line placed in the arena at `base`: their links
   * moved along, the first linked back to `before` and forced to start a
   * line or not.
   */
  function Placed(line: seq<Cell>, base: nat, before: Option<nat>, force: bool): (r: seq<Cell>)
    ensures |r| == |line|
  {
    seq(|line|, i requires 0 <= i < |line| =>
      var c := line[i].(next := Shift(line[i].next, base), prev := Shift(line[i].prev, base),
        nextToDraw := Shift(line[i].nextToDraw, base));
      if i == 0 then c.(prev := before, box := c.box.(forceBreak := force)) else c)
  }

  /** The arena positions base up to base + n. */
  function Range(base: nat, n: nat): (r: seq<nat>)
    ensures |r| == n && forall i :: 0 <= i < n ==> r[i] == base + i
  {
    seq(n, i requires 0 <= i < n => base + i)
  }

  /**
   * The document with a line appended (MathCtrl::AddLine before it breaks
   * lines): the line's cells go after the arena's, the last cell of the
   * document, if any, links to and draws the line's first cell, and the
   * first cell starts a line when `force` says so.
   */
  ghost function Appended(cells: seq<Cell>, order: seq<nat>, line: seq<Cell>, force: bool): (r: Document)
    requires InArena(cells, order)
    ensures |r.cells| == |cells| + |line|
  {
    var base := |cells|;
    if |order| == 0 then Document(cells + Placed(line, base, None, force), Range(base, |line|))
    else
      var tail := order[|order| - 1];
      Document(cells[tail := cells[tail].(next := Some(base), nextToDraw := Some(base))] + Placed(line, base, Some(tail), force),
        order + Range(base, |line|))
  }

  /** The links of the cell at position i of a placed line: along the line, the first back to `before`. */
  lemma PlacedAt(line: seq<Cell>, base: nat, before: Option<nat>, force: bool, i: nat)
    requires Linear(line) && i < |line|
    ensures var c := Placed(line, base, before, force)[i];
      c.next == (if i + 1 < |line| then Some(base + i + 1) else None) &&
      c.prev == (if i == 0 then before else Some(base + i - 1)) &&
      c.nextToDraw == c.next
  {
  }

  /** The cell at position i of the line, in the appended arena. */
  lemma AppendedNewAt(cells: seq<Cell>, order: seq<nat>, line: seq<Cell>, force: bool, i: nat)
    requires InArena(cells, order) && i < |line|
    ensures Appended(cells, order, line, force).cells[|cells| + i] ==
      Placed(line, |cells|, if |order| == 0 then None else Some(order[|order| - 1]), force)[i]
  {
  }

  /** A cell already in the arena, in the appended arena. */
  lemma AppendedOldAt(cells: seq<Cell>, order: seq<nat>, line: seq<Cell>, force: bool, x: nat)
    requires InArena(cells, order) && x < |cells|
    ensures Appended(cells, order, line, force).cells[x] ==
      if |order| > 0 && x == order[|order| - 1] then cells[x].(next := Some(|cells|), nextToDraw := Some(|cells|))
      else cells[x]
  {
  }

  /** Appending a line linked in its own order keeps the document well formed, the line's cells after the old ones. */
  lemma AppendedChain(cells: seq<Cell>, order: seq<nat>, line: seq<Cell>, force: bool)
    requires Chain(cells, order) && Linear(line) && |line| > 0
    ensures var a := Appended(cells, order, line, force);
      Chain(a.cells, a.order) && a.order == order + Range(|cells|, |line|)
  {
    var a := Appended(cells, order, line, force);
    var o := a.order;
    var r := a.cells;
    var n0 := |order|;
    assert InArena(r, o);
    assert Distinct(o) by {
      forall i, j | 0 <= i < j < |o|
        ensures o[i] != o[j]
      {
        if j < n0 {
          assert o[i] == order[i] && o[j] == order[j];
        }
      }
    }
    forall n | 0 <= n < |o|
      ensures LinkedAt(r, o, n)
    {
      if n + 1 < n0 {
        AppendedOld(cells, order, line, force, n);
      } else if n + 1 == n0 {
        AppendedTail(cells, order, line, force);
      } else {
        AppendedNew(cells, order, line, force, n - n0);
      }
    }
    LinkedChain(r, o);
  }

  /** A cell of the document before its last keeps its links. */
  lemma AppendedOld(cells: seq<Cell>, order: seq<nat>, line: seq<Cell>, force: bool, n: nat)
    requires Chain(cells, order) && n + 1 < |order|
    ensures var a := Appended(cells, order, line, force);
      InArena(a.cells, a.order) && |a.order| == |order| + |line| && LinkedAt(a.cells, a.order, n)
  {
    var a := Appended(cells, order, line, force);
    var o := a.order;
    var x := order[n];
    assert x != order[|order| - 1];
    AppendedOldAt(cells, order, line, force, x);
    assert o[n] == x && o[n + 1] == order[n + 1] && (n > 0 ==> o[n - 1] == order[n - 1]);
    assert DrawsForward(order, n, cells[x].nextToDraw);
    if cells[x].nextToDraw.Some? {
      var q := ForwardRank(order, n, cells[x].nextToDraw.value);
      assert o[q] == order[q];
      InLater(o, n, q);
    }
  }

  /** The last cell of the document leads to and draws the line's first cell. */
  lemma AppendedTail(cells: seq<Cell>, order: seq<nat>, line: seq<Cell>, force: bool)
    requires Chain(cells, order) && |order| > 0 && |line| > 0
    ensures var a := Appended(cells, order, line, force);
      InArena(a.cells, a.order) && |a.order| == |order| + |line| && LinkedAt(a.cells, a.order, |order| - 1)
  {
    var a := Appended(cells, order, line, force);
    var o := a.order;
    var n := |order| - 1;
    AppendedOldAt(cells, order, line, force, order[n]);
    assert o[n] == order[n] && o[n + 1] == |cells|;
    assert n > 0 ==> o[n - 1] == order[n - 1];
    InLater(o, n, n + 1);
  }

  /** The cell at position i of the line is linked to its neighbours in the line, the first to the old last cell. */
  lemma AppendedNew(cells: seq<Cell>, order: seq<nat>, line: seq<Cell>, force: bool, i: nat)
    requires InArena(cells, order) && Linear(line) && i < |line|
    ensures var a := Appended(cells, order, line, force);
      InArena(a.cells, a.order) && |a.order| == |order| + |line| && LinkedAt(a.cells, a.order, |order| + i)
  {
    var a := Appended(cells, order, line, force);
    var o := a.order;
    var n := |order| + i;
    var base := |cells|;
    var before := if |order| == 0 then None else Some(order[|order| - 1]);
    AppendedNewAt(cells, order, line, force, i);
    assert o[n] == base + i;
    assert i + 1 < |line| ==> o[n + 1] == base + i + 1;
    assert i > 0 ==> o[n - 1] == base + i - 1;
    assert i == 0 && |order| > 0 ==> o[n - 1] == order[|order| - 1];
    PlacedLinked(a.cells, o, |order|, base, line, before, force, i);
  }

  /** LinkedAt for a placed cell, from where its neighbours sit in the document. */
  lemma PlacedLinked(r: seq<Cell>, o: seq<nat>, n0: nat, base: nat, line: seq<Cell>, before: Option<nat>, force: bool, i: nat)
    requires Linear(line) && i < |line| && |o| == n0 + |line| && InArena(r, o)
    requires o[n0 + i] == base + i && r[base + i] == Placed(line, base, before, force)[i]
    requires i + 1 < |line| ==> o[n0 + i + 1] == base + i + 1
    requires i > 0 ==> o[n0 + i - 1] == base + i - 1
    requires i == 0 ==> (n0 == 0 <==> before.None?) && (n0 > 0 ==> o[n0 - 1] == before.value)
    ensures LinkedAt(r, o, n0 + i)
  {
    PlacedAt(line, base, before, force, i);
    if i + 1 < |line| {
      InLater(o, n0 + i, n0 + i + 1);
    }
  }

  /**
   * The document after MathCtrl::AddLine has appended a non-empty line and
   * broken the lines of the drawing pass from the line's first cell to
   * `fullWidth`.
   */
  ghost function AddedLine(cells: seq<Cell>, order: seq<nat>, line: seq<Cell>, force: bool, fullWidth: int, sp: Spacing): (r: Document)
    requires Chain(cells, order) && Linear(line) && |line| > 0
    ensures Chain(r.cells, r.order) && r.order == order + Range(|cells|, |line|)
  {
    AppendedChain(cells, order, line, force);
    var a := Appended(cells, order, line, force);
    assert a.order[|order|] == |cells|;
    BrokenLinesChain(a.cells, a.order, Some(|cells|), fullWidth, sp);
    Document(BrokenLines(a.cells, a.order, Some(|cells|), fullWidth, sp), a.order)
  }

  /** A new line is drawn in full from its first cell: the drawing pass from it ends with the line. */
  lemma AppendedDrawsLine(cells: seq<Cell>, order: seq<nat>, line: seq<Cell>, force: bool)
    requires Chain(cells, order) && Linear(line) && |line| > 0
    ensures var a := Appended(cells, order, line, force);
      Chain(a.cells, a.order) && |cells| in a.order &&
      DrawRun(a.cells, a.order, Some(|cells|)) == Range(|cells|, |line|)
  {
    AppendedChain(cells, order, line, force);
    var a := Appended(cells, order, line, force);
    var base := |cells|;
    assert a.order[|order|] == base;
    AppendedLineRun(cells, order, line, force);
    DrawRunIsRun(a.cells, a.order, Some(base));
    RunUnique(a.cells, a.cells, base, DrawRun(a.cells, a.order, Some(base)), Range(base, |line|));
  }

  /** The drawing links of an appended line lead through the line and stop at its end. */
  lemma AppendedLineRun(cells: seq<Cell>, order: seq<nat>, line: seq<Cell>, force: bool)
    requires InArena(cells, order) && Linear(line) && |line| > 0
    ensures IsRun(Appended(cells, order, line, force).cells, |cells|, Range(|cells|, |line|))
  {
    var r := Appended(cells, order, line, force).cells;
    var base := |cells|;
    var rg := Range(base, |line|);
    var before := if |order| == 0 then None else Some(order[|order| - 1]);
    forall m | 0 <= m < |rg|
      ensures r[rg[m]].nextToDraw == (if m + 1 < |rg| then Some(rg[m + 1]) else None)
    {
      AppendedNewAt(cells, order, line, force, m);
      PlacedAt(line, base, before, force, m);
    }
  }

  /** Adding a line breaks the new line alone, greedily to `fullWidth`. */
  lemma AddedLineBreaksLine(cells: seq<Cell>, order: seq<nat>, line: seq<Cell>, force: bool, fullWidth: int, sp: Spacing)
    requires Chain(cells, order) && Linear(line) && |line| > 0
    ensures var a := Appended(cells, order, line, force);
      var rg := Range(|cells|, |line|);
      AddedLine(cells, order, line, force, fullWidth, sp).cells ==
        SetBreaks(a.cells, rg, LineStarts(Boxes(a.cells, rg), fullWidth, sp.baseIndent, sp))
  {
    AppendedDrawsLine(cells, order, line, force);
  }

  /**
   * Adding a line changes no cell already in the document but the last,
   * which now leads to and draws the line's first cell.
   */
  lemma AddedLineKeepsDocument(cells: seq<Cell>, order: seq<nat>, line: seq<Cell>, force: bool, fullWidth: int, sp: Spacing)
    requires Chain(cells, order) && Linear(line) && |line| > 0
    ensures var r := AddedLine(cells, order, line, force, fullWidth, sp).cells;
      forall x :: 0 <= x < |cells| && (|order| == 0 || x != order[|order| - 1]) ==> r[x] == cells[x]
    ensures var r := AddedLine(cells, order, line, force, fullWidth, sp).cells;
      |order| > 0 ==> r[order[|order| - 1]] == cells[order[|order| - 1]].(next := Some(|cells|), nextToDraw := Some(|cells|))
  {
    var a := Appended(cells, order, line, force);
    var rg := Range(|cells|, |line|);
    var flags := LineStarts(Boxes(a.cells, rg), fullWidth, sp.baseIndent, sp);
    AddedLineBreaksLine(cells, order, line, force, fullWidth, sp);
    SetBreaksOffRun(a.cells, rg, flags);
    forall x | 0 <= x < |cells|
      ensures AddedLine(cells, order, line, force, fullWidth, sp).cells[x] == a.cells[x]
    {
      assert x !in rg;
    }
    forall x | 0 <= x < |cells|
      ensures a.cells[x] == if |order| > 0 && x == order[|order| - 1] then cells[x].(next := Some(|cells|), nextToDraw := Some(|cells|)) else cells[x]
    {
      AppendedOldAt(cells, order, line, force, x);
    }
  }

  /** Walks the next links from `from` to the last cell of the document (the first loop of MathCtrl::AddLine). */
  method WalkToTail(cells: seq<Cell>, from: nat, ghost order: seq<nat>) returns (tail: nat)
    requires Chain(cells, order) && from in order
    ensures tail == order[|order| - 1]
  {
    tail := from;
    ghost var m := IndexOf(order, from);
    while cells[tail].next.Some?
      invariant m < |order| && tail == order[m]
      decreases |order| - m
    {
      ChainNext(cells, order, m);
      tail := cells[tail].next.value;
      m := m + 1;
    }
    ChainNext(cells, order, m);
  }

  /** Walks the next links from `from` to the end, destroying each cell (MathCtrl::DestroyTree on one list). */
  method DestroyList(cells: seq<Cell>, from: Option<nat>, ghost order: seq<nat>) returns (destroyed: seq<nat>)
    requires Chain(cells, order) && from == At(order, 0)
    ensures destroyed == order
  {
    destroyed := [];
    var tmp := from;
    while tmp.Some?
      invariant |destroyed| <= |order| && destroyed == order[..|destroyed|]
      invariant tmp == At(order, |destroyed|)
      decreases |order| - |destroyed|
    {
      var tmp1 := tmp.value;
      ghost var m := |destroyed|;
      assert m < |order| && tmp1 == order[m];
      ChainNext(cells, order, m);
      assert order[..m + 1] == order[..m] + [order[m]];
      tmp := cells[tmp1].next;
      destroyed := destroyed + [tmp1];
    }
    assert destroyed == order[..|order|];
  }

  /** Deletes the main prompt `start` and its group from the document (the body of MathCtrl::DeleteSelection). */
  method DeleteAt(cells: seq<Cell>, tree: Option<nat>, start: nat, ghost order: seq<nat>) returns (r: seq<Cell>, tree': Option<nat>)
    requires Chain(cells, order) && tree == At(order, 0) && start in order
    ensures var d := Deleted(cells, order, IndexOf(order, start));
      r == d.cells && tree' == At(d.order, 0) && Chain(r, d.order)
  {
    ghost var k := IndexOf(order, start);
    DeletedChain(cells, order, k);
    r, tree' := DeleteGroup(cells, tree, start, order, k);
  }

  /**
   * Links a line after the last cell of the document, found from `last`
   * (MathCtrl::AddLine up to the breaking of lines); the line becomes the
   * document when there is none.
   */
  method AppendLine(cells: seq<Cell>, tree: Option<nat>, last: Option<nat>, line: seq<Cell>, force: bool, ghost order: seq<nat>)
    returns (cells': seq<Cell>, tree': Option<nat>, last': Option<nat>)
    requires Chain(cells, order) && tree == At(order, 0) && (last.None? <==> tree.None?) && (last.Some? ==> last.value in order)
    requires Linear(line) && |line| > 0
    ensures cells' == Appended(cells, order, line, force).cells
    ensures tree' == (if tree.None? then Some(|cells|) else tree)
    ensures last' == (if tree.None? then tree' else last)
    ensures Wellformed(cells', Appended(cells, order, line, force).order, tree', last', None, None)
  {
    AppendedChain(cells, order, line, force);
    ghost var o := Appended(cells, order, line, force).order;
    assert o[|order|] == |cells|;
    assert last.Some? ==> o[IndexOf(order, last.value)] == last.value;
    var base := |cells|;
    if tree.None? {
      cells' := cells + Placed(line, base, None, force);
      tree' := Some(base);
      last' := tree';
    } else {
      var tail := WalkToTail(cells, last.value, order);
      cells' := cells[tail := cells[tail].(next := Some(base), nextToDraw := Some(base))] + Placed(line, base, Some(tail), force);
      tree', last' := tree, last;
    }
  }

  /**
   * The invariant of the control: the arena holds a well-formed document
   * whose first cell is `tree`; `last` is a cell of it exactly when there is
   * one, and the selection, when there is one, has both ends in it.
   */
  ghost predicate Wellformed(cells: seq<Cell>, order: seq<nat>, tree: Option<nat>, last: Option<nat>,
                             selectionStart: Option<nat>, selectionEnd: Option<nat>)
  {
    Chain(cells, order) && tree == At(order, 0) &&
    (last.None? <==> tree.None?) && (last.Some? ==> last.value in order) &&
    (selectionStart.None? <==> selectionEnd.None?) &&
    (selectionStart.Some? ==> selectionStart.value in order && selectionEnd.value in order)
  }

  // ---------------------------------------------------------------------
  // The control

  class MathCtrl {
    /** The arena the cells live in. */
    var cells: seq<Cell>
    /** The first cell of the document. */
    var tree: Option<nat>
    /** Where AddLine starts looking for the end of the document. */
    var last: Option<nat>
    var selectionStart: Option<nat>
    var selectionEnd: Option<nat>
    var selectWholeLine: bool
    /** The document list the next links of `cells` spell out from `tree`. */
    ghost var order: seq<nat>
    /** The spacing constants of the layout. */
    const sp: Spacing

    ghost predicate Valid()
      reads this
    {
      Wellformed(cells, order, tree, last, selectionStart, selectionEnd)
    }

    /** The cells the drawing pass visits from the first cell. */
    ghost function Drawn(): (r: seq<nat>)
      reads this
      requires Valid()
    {
      DrawRun(cells, order, tree)
    }

    /** The cells of the selection: the drawing pass from its start, up to its end. */
    ghost function Selected(): (r: seq<nat>)
      reads this
      requires Valid()
    {
      UpTo(DrawRun(cells, order, selectionStart), selectionEnd)
    }

    constructor(spacing: Spacing)
      ensures Valid() && sp == spacing
      ensures cells == [] && order == [] && tree == None && last == None
      ensures selectionStart == None && selectionEnd == None && !selectWholeLine
    {
      cells := [];
      tree := None;
      last := None;
      selectionStart := None;
      selectionEnd := None;
      selectWholeLine := false;
      order := [];
      sp := spacing;
    }

    /**
     * Breaks the lines of the drawing pass from `from` to the window's client
     * width less nine pixels (MathCtrl::BreakLines).
     */
    method BreakLines(from: Option<nat>, clientWidth: int)
      requires Valid() && (from.None? || from.value in order)
      modifies this
      ensures order == old(order) && tree == old(tree) && last == old(last)
      ensures cells == BrokenLines(old(cells), old(order), from, clientWidth - 9, sp)
      ensures Valid()
      ensures selectionStart == old(selectionStart) && selectionEnd == old(selectionEnd) && selectWholeLine == old(selectWholeLine)
    {
      var c0, w := cells, clientWidth - 9;
      ghost var o0 := order;
      ghost var run := DrawRun(c0, o0, from);
      DrawRunIsRun(c0, o0, from);
      BrokenLinesChain(c0, o0, from, w, sp);
      var r := BreakRun(c0, from, run, w, sp);
      assert Wellformed(r, o0, tree, last, selectionStart, selectionEnd);
      cells := r;
    }

    /** The width and height the document needs (MathCtrl::GetMaxPoint). */
    method GetMaxPoint() returns (width: int, height: int)
      requires Valid()
      ensures var e := Extent(Boxes(cells, Drawn()), InitialExtent(sp), sp);
        width == e.width && height == e.height
    {
      ghost var run := DrawRun(cells, order, tree);
      DrawRunIsRun(cells, order, tree);
      width, height := ExtentRun(cells, tree, run, sp);
    }

    /** The text of the selection, empty without one (MathCtrl::GetString). */
    method GetString() returns (s: string)
      requires Valid()
      ensures selectionStart.None? ==> s == ""
      ensures selectionStart.Some? ==> s == Joined(Pieces(cells, Selected()))
    {
      if selectionStart.None? {
        return "";
      }
      ghost var run := DrawRun(cells, order, selectionStart);
      DrawRunIsRun(cells, order, selectionStart);
      s := RunText(cells, selectionStart, selectionEnd, run, false);
      CopyTextPlain(Pieces(cells, UpTo(run, selectionEnd)), "");
    }

    /**
     * Copies the text of the selection, with separators when `lineBreaks`
     * (MathCtrl::Copy): what it hands the clipboard, and whether it did; it
     * fails without a selection or when the clipboard does not open.
     */
    method Copy(lineBreaks: bool, clipboardOpens: bool) returns (ok: bool, clip: Option<string>)
      requires Valid()
      ensures ok <==> selectionStart.Some? && clipboardOpens
      ensures clip.Some? <==> ok
      ensures ok ==> clip.value == CopyText(Pieces(cells, Selected()), lineBreaks, "")
    {
      if selectionStart.None? {
        return false, None;
      }
      ghost var run := DrawRun(cells, order, selectionStart);
      DrawRunIsRun(cells, order, selectionStart);
      var s := RunText(cells, selectionStart, selectionEnd, run, lineBreaks);
      if clipboardOpens {
        return true, Some(s);
      }
      return false, None;
    }

    /** Unlinked copies of the selected cells, linked anew in drawing order (MathCtrl::CopySelection). */
    method CopySelection() returns (copy: seq<Cell>)
      requires Valid()
      ensures copy == Relinked(CellsOf(cells, Selected()))
    {
      ghost var run := DrawRun(cells, order, selectionStart);
      DrawRunIsRun(cells, order, selectionStart);
      copy := CopyRun(cells, selectionStart, selectionEnd, run);
    }

    /** Unlinked copies of the cells drawn, linked anew in drawing order (MathCtrl::CopyTree). */
    method CopyTree() returns (copy: seq<Cell>)
      requires Valid()
      ensures copy == Relinked(CellsOf(cells, Drawn()))
    {
      ghost var run := DrawRun(cells, order, tree);
      DrawRunIsRun(cells, order, tree);
      copy := CopyWholeRun(cells, tree, run);
    }

    /** Whether the selection may be deleted (MathCtrl::CanDeleteSelection). */
    method CanDeleteSelection() returns (b: bool)
      requires Valid()
      ensures b == CanDelete(cells, selectionStart, selectionEnd)
    {
      if selectionStart.None? || selectionStart != selectionEnd {
        return false;
      }
      var c := cells[selectionStart.value];
      b := c.next.Some? && c.kind == MainPrompt;
    }

    /**
     * Deletes the selected main prompt and its group (MathCtrl::DeleteSelection),
     * with the repair of drawing links Deleted states; the selection is then
     * empty and `last` is the first cell.
     */
    method DeleteSelection()
      requires Valid()
      modifies this
      ensures !old(CanDelete(cells, selectionStart, selectionEnd)) ==>
        cells == old(cells) && order == old(order) && tree == old(tree) && last == old(last) &&
        selectionStart == old(selectionStart) && selectionEnd == old(selectionEnd)
      ensures old(CanDelete(cells, selectionStart, selectionEnd)) ==>
        var d := Deleted(old(cells), old(order), IndexOf(old(order), old(selectionStart).value));
        cells == d.cells && order == d.order && last == tree &&
        selectionStart == None && selectionEnd == None
      ensures selectWholeLine == old(selectWholeLine)
      ensures Valid()
    {
      var can := CanDeleteSelection();
      if can {
        DeleteSelected();
      }
    }

    /** DeleteSelection once the selection is known to be a main prompt that may go. */
    method DeleteSelected()
      requires Valid() && CanDelete(cells, selectionStart, selectionEnd)
      modifies this
      ensures var d := Deleted(old(cells), old(order), IndexOf(old(order), old(selectionStart).value));
        cells == d.cells && order == d.order
      ensures last == tree && selectionStart == None && selectionEnd == None
      ensures selectWholeLine == old(selectWholeLine)
      ensures Valid()
    {
      var c0, t0, start := cells, tree, selectionStart.value;
      ghost var o0 := order;
      ghost var d := Deleted(c0, o0, IndexOf(o0, start));
      var r, t := DeleteAt(c0, t0, start, o0);
      cells, tree, last, order, selectionStart, selectionEnd := r, t, t, d.order, None, None;
    }

    /** Destroys every cell of the document and forgets the first one (MathCtrl::DestroyTree). */
    method DestroyTree()
      requires Valid()
      modifies this
      ensures tree == None && order == [] && cells == old(cells) && last == old(last)
      ensures selectionStart == old(selectionStart) && selectionEnd == old(selectionEnd) && selectWholeLine == old(selectWholeLine)
    {
      var destroyed := DestroyList(cells, tree, order);
      tree := None;
      order := [];
    }

    /** Empties the worksheet (MathCtrl::ClearWindow). */
    method ClearWindow()
      requires Valid()
      modifies this
      ensures Valid()
      ensures tree == None && order == [] && last == None && selectionStart == None && selectionEnd == None
      ensures cells == old(cells) && selectWholeLine == old(selectWholeLine)
    {
      if tree.Some? {
        DestroyTree();
        selectionStart := None;
        selectionEnd := None;
        last := None;
      }
    }

    /**
     * Selects what a drag from `one` to `two` covers (MathCtrl::SelectRect);
     * `hit` says whether the mouse rectangle meets a cell. Without cells
     * nothing changes.
     */
    method SelectRect(one: Point, two: Point, hit: Cell -> bool)
      requires Valid()
      modifies this
      ensures Valid()
      ensures cells == old(cells) && order == old(order) && tree == old(tree) && last == old(last) && selectWholeLine == old(selectWholeLine)
      ensures old(tree).None? ==> selectionStart == old(selectionStart) && selectionEnd == old(selectionEnd)
      ensures old(tree).Some? ==>
        (selectionStart, selectionEnd) == Ends(Drawn(), RectSpan(CellsOf(cells, Drawn()), one, two, hit))
    {
      if tree.None? {
        return;
      }
      ghost var run := DrawRun(cells, order, tree);
      DrawRunIsRun(cells, order, tree);
      var s, e := SelectInRect(cells, tree, run, one, two, hit);
      assert Wellformed(cells, order, tree, last, s, e);
      selectionStart, selectionEnd := s, e;
    }

    /**
     * A click (MathCtrl::SelectPoint); `contains` says whether a cell contains
     * the point clicked. Without cells nothing changes; otherwise the
     * selection and the folds are as Clicked says, and a later drag selects
     * whole lines.
     */
    method SelectPoint(contains: Cell -> bool)
      requires Valid()
      modifies this
      ensures Valid()
      ensures order == old(order) && tree == old(tree) && last == old(last)
      ensures old(tree).None? ==>
        cells == old(cells) && selectionStart == old(selectionStart) && selectionEnd == old(selectionEnd) && selectWholeLine == old(selectWholeLine)
      ensures old(tree).Some? ==>
        var c := Clicked(old(cells), order, contains);
        cells == c.cells && selectionStart == c.start && selectionEnd == c.end && selectWholeLine
    {
      if tree.None? {
        return;
      }
      ClickedValid(cells, order, contains);
      var c := ClickAt(cells, tree, order, contains);
      assert Wellformed(c.cells, order, tree, last, c.start, c.end);
      cells, selectionStart, selectionEnd, selectWholeLine := c.cells, c.start, c.end, true;
    }

    /**
     * Appends a line of cells, linked in its own order, to the document
     * (MathCtrl::AddLine). A missing (empty) line changes nothing.
     */
    method AddLine(line: seq<Cell>, forceNewLine: bool, clientWidth: int)
      requires Valid() && Linear(line)
      modifies this
      ensures Valid()
      ensures selectWholeLine == old(selectWholeLine)
      ensures |line| == 0 ==>
        cells == old(cells) && order == old(order) && tree == old(tree) && last == old(last) &&
        selectionStart == old(selectionStart) && selectionEnd == old(selectionEnd)
      ensures |line| > 0 ==>
        var a := AddedLine(old(cells), old(order), line, forceNewLine, clientWidth - 9, sp);
        cells == a.cells && order == a.order &&
        tree == (if old(tree).None? then Some(|old(cells)|) else old(tree)) &&
        last == (if old(tree).None? then tree else old(last)) &&
        selectionStart == None && selectionEnd == None
    {
      if |line| > 0 {
        AddCells(line, forceNewLine, clientWidth);
      }
    }

    /**
     * AddLine for a line with cells: links it after the last cell, makes its
     * first cell start a line when `forceNewLine`, breaks the lines of the
     * drawing pass from that cell, becomes the document when there is none,
     * and empties the selection.
     */
    method AddCells(line: seq<Cell>, forceNewLine: bool, clientWidth: int)
      requires Valid() && Linear(line) && |line| > 0
      modifies this
      ensures Valid()
      ensures selectWholeLine == old(selectWholeLine)
      ensures var a := AddedLine(old(cells), old(order), line, forceNewLine, clientWidth - 9, sp);
        cells == a.cells && order == a.order &&
        tree == (if old(tree).None? then Some(|old(cells)|) else old(tree)) &&
        last == (if old(tree).None? then tree else old(last)) &&
        selectionStart == None && selectionEnd == None
    {
      var base := |cells|;
      Link(line, forceNewLine);
      assert order[|old(order)|] == base;
      BreakLines(Some(base), clientWidth);
    }

    /** The first part of AddLine: links the line after the last cell and empties the selection. */
    method Link(line: seq<Cell>, forceNewLine: bool)
      requires Valid() && Linear(line) && |line| > 0
      modifies this
      ensures Valid()
      ensures selectWholeLine == old(selectWholeLine)
      ensures var a := Appended(old(cells), old(order), line, forceNewLine);
        cells == a.cells && order == a.order && order == old(order) + Range(|old(cells)|, |line|)
      ensures tree == (if old(tree).None? then Some(|old(cells)|) else old(tree))
      ensures last == (if old(tree).None? then tree else old(last))
      ensures selectionStart == None && selectionEnd == None
    {
      var c0, t0, l0 := cells, tree, last;
      ghost var o0 := order;
      ghost var a := Appended(c0, o0, line, forceNewLine);
      AppendedChain(c0, o0, line, forceNewLine);
      var c, t, l := AppendLine(c0, t0, l0, line, forceNewLine, o0);
      cells, tree, last, order, selectionStart, selectionEnd := c, t, l, a.order, None, None;
    }
  }
}
