/**
 * Selecting with the mouse and folding by clicking, over the worksheet's
 * document list: the walks of MathCtrl::SelectRect and MathCtrl::SelectPoint,
 * their specifications as positions on a run, and the fold toggle of labels
 * and main prompts.
 *
 * Geometry the list does not hold (whether a cell's rectangle meets the
 * mouse rectangle, whether it contains the clicked point) is a
 * predicate on cells given by the caller.
 */
module Selection {
  import opened Wrappers
  import opened WorksheetLayout
  import opened DocumentList

  /** A point of the window, in unscrolled coordinates. */
  datatype Point = Point(x: int, y: int)

  /** The tests the selection walks apply to a cell. */
  datatype Test =
    | Hits(hit: Cell -> bool)
    | ReachesPast(start: Point)
    | StartsBefore(end: Point)
    | KindIs(kind: CellType)
    | KindIsNot(kind: CellType)

  /**
   * Whether a cell passes a test. A cell reaches past a point when it is
   * neither wholly left of it nor wholly above it; a cell starts before a
   * point when its left edge and its top are not beyond it.
   */
  predicate Passes(t: Test, c: Cell)
  {
    match t
    case Hits(hit) => hit(c)
    case ReachesPast(p) => !(c.place.x + c.box.width < p.x || c.place.y + c.place.drop < p.y)
    case StartsBefore(p) => c.place.x <= p.x && c.place.y - c.place.center <= p.y
    case KindIs(k) => c.kind == k
    case KindIsNot(k) => c.kind != k
  }

  /** The first position in [lo, hi) whose cell passes t, or hi when none does. */
  function FirstWhere(cs: seq<Cell>, t: Test, lo: nat, hi: nat): (r: nat)
    requires lo <= hi <= |cs|
    ensures lo <= r <= hi
    ensures r < hi ==> Passes(t, cs[r])
    ensures forall k :: lo <= k < r ==> !Passes(t, cs[k])
    decreases hi - lo
  {
    if lo == hi then hi
    else if Passes(t, cs[lo]) then lo
    else FirstWhere(cs, t, lo + 1, hi)
  }

  /** The last position in (lo, hi) whose cell passes t, or lo when none does. */
  function LastWhere(cs: seq<Cell>, t: Test, lo: nat, hi: nat): (r: nat)
    requires lo < hi <= |cs|
    ensures lo <= r < hi
    ensures r > lo ==> Passes(t, cs[r])
    ensures forall k :: r < k < hi ==> !Passes(t, cs[k])
    decreases hi
  {
    if hi == lo + 1 then lo
    else if Passes(t, cs[hi - 1]) then hi - 1
    else LastWhere(cs, t, lo, hi - 1)
  }

  /** The cell at position k of a run, none past its end. */
  function At(run: seq<nat>, k: nat): (r: Option<nat>)
    ensures r.Some? <==> k < |run|
    ensures r.Some? ==> r.value == run[k]
  {
    if k < |run| then Some(run[k]) else None
  }

  /** In a document list, the cell at rank m links forward to the cell at rank m + 1, the last one to none. */
  lemma ChainNext(cells: seq<Cell>, order: seq<nat>, m: nat)
    requires Chain(cells, order) && m < |order|
    ensures cells[order[m]].next == At(order, m + 1)
  {
    if m + 1 < |order| {
      assert cells[order[m]].next == Some(order[m + 1]);
    }
  }

  // ---------------------------------------------------------------------
  // Walks along the drawing links

  /**
   * Walks the drawing links from the cell at position lo of `run` to the
   * first cell that passes t, stopping early at `stop` (position hi) or at
   * the end of the run: the hit searches of MathCtrl::SelectPoint and
   * MathCtrl::SelectRect, and the search for the first cell of a selection
   * spanning lines.
   */
  method WalkToFirst(cells: seq<Cell>, from: Option<nat>, ghost run: seq<nat>, ghost lo: nat,
                     stop: Option<nat>, ghost hi: nat, t: Test) returns (r: Option<nat>)
    requires RunFrom(cells, At(run, 0), run)
    requires lo <= hi <= |run| && from == At(run, lo)
    requires forall k :: lo <= k < hi ==> Some(run[k]) != stop
    requires hi < |run| ==> stop == Some(run[hi])
    ensures r == At(run, FirstWhere(CellsOf(cells, run), t, lo, hi))
  {
    ghost var cs := CellsOf(cells, run);
    r := from;
    ghost var m := lo;
    while r.Some? && r != stop && !Passes(t, cells[r.value])
      invariant lo <= m <= FirstWhere(cs, t, lo, hi)
      invariant r == At(run, m)
      decreases |run| - m
    {
      RunNext(cells, At(run, 0), run, m);
      r := cells[r.value].nextToDraw;
      m := m + 1;
    }
  }

  /**
   * Walks the drawing links after the cell at position lo of `run`, keeping
   * the last cell that passes t, up to and including `stop` (position
   * hi - 1) or to the end of the run: the search for the last hit of
   * MathCtrl::SelectRect and the search for the last cell of a selection
   * spanning lines.
   */
  method WalkToLast(cells: seq<Cell>, from: Option<nat>, ghost run: seq<nat>, ghost lo: nat,
                    stop: Option<nat>, ghost hi: nat, t: Test) returns (r: Option<nat>)
    requires RunFrom(cells, At(run, 0), run)
    requires lo < hi <= |run| && from == Some(run[lo])
    requires forall k :: lo < k < hi - 1 ==> Some(run[k]) != stop
    requires hi < |run| ==> lo + 1 < hi && stop == Some(run[hi - 1])
    ensures r == Some(run[LastWhere(CellsOf(cells, run), t, lo, hi)])
  {
    ghost var cs := CellsOf(cells, run);
    r := from;
    var curr := from;
    ghost var m := lo;
    while true
      invariant lo <= m < hi
      invariant curr == Some(run[m])
      invariant r == Some(run[LastWhere(cs, t, lo, m + 1)])
      invariant hi < |run| ==> m < hi - 1
      decreases |run| - m
    {
      RunNext(cells, At(run, 0), run, m);
      curr := cells[curr.value].nextToDraw;
      assert curr == At(run, m + 1);
      if curr.None? {
        assert m + 1 == hi;
        break;
      }
      if Passes(t, cells[curr.value]) {
        r := curr;
      }
      m := m + 1;
      if curr == stop {
        assert m + 1 == hi;
        break;
      }
    }
  }

  // ---------------------------------------------------------------------
  // Rectangle selection

  /** The corner a rectangle selection starts from: the upper one, or the left one on the same row. */
  predicate Before(one: Point, two: Point)
  {
    one.y < two.y || (one.y == two.y && one.x < two.x)
  }

  /** The first and the last position of a selection on a run. */
  datatype Span = Span(first: nat, last: nat)

  /**
   * The selection a drag from `one` to `two` makes on the cells of a drawing
   * pass, as positions: from the first to the last cell the mouse rectangle
   * meets; when those two lie on different rows, the start moves on to the
   * first cell that reaches past the start corner (not beyond the last hit)
   * and the end is the last cell after it that starts before the end corner,
   * looking up to the last hit, or to the end of the pass when the start
   * moved onto the last hit. None when the rectangle meets no cell.
   */
  function RectSpan(cs: seq<Cell>, one: Point, two: Point, hit: Cell -> bool): (r: Option<Span>)
    ensures r.Some? ==> r.value.first <= r.value.last < |cs|
  {
    var s0 := FirstWhere(cs, Hits(hit), 0, |cs|);
    if s0 == |cs| then None
    else
      var start := if Before(one, two) then one else two;
      var end := if Before(one, two) then two else one;
      Some(RowSpan(cs, s0, LastWhere(cs, Hits(hit), s0, |cs|), start, end))
  }

  /**
   * The span from s0 to e0, corrected when the two lie on different rows:
   * from the first cell that reaches past `start` (or e0) to the last cell
   * after it that starts before `end`, looking up to e0, or to the end when
   * the start moved onto e0.
   */
  function RowSpan(cs: seq<Cell>, s0: nat, e0: nat, start: Point, end: Point): (r: Span)
    requires s0 <= e0 < |cs|
    ensures s0 <= r.first <= r.last < |cs|
  {
    if cs[s0].place.y == cs[e0].place.y then Span(s0, e0)
    else
      var s1 := FirstWhere(cs, ReachesPast(start), s0, e0);
      var hi := if s1 < e0 then e0 + 1 else |cs|;
      Span(s1, LastWhere(cs, StartsBefore(end), s1, hi))
  }

  /** Dragging from `one` to `two` selects what dragging from `two` to `one` does. */
  lemma RectSpanSymmetric(cs: seq<Cell>, one: Point, two: Point, hit: Cell -> bool)
    ensures RectSpan(cs, one, two, hit) == RectSpan(cs, two, one, hit)
  {
    if !Before(one, two) && !Before(two, one) {
      assert one == two;
    }
  }

  /** The selection is empty exactly when the rectangle meets no cell. */
  lemma RectSpanEmpty(cs: seq<Cell>, one: Point, two: Point, hit: Cell -> bool)
    ensures RectSpan(cs, one, two, hit).None? <==> forall k :: 0 <= k < |cs| ==> !hit(cs[k])
  {
    var s0 := FirstWhere(cs, Hits(hit), 0, |cs|);
    if s0 < |cs| {
      assert Passes(Hits(hit), cs[s0]);
    }
  }

  /**
   * When every cell the rectangle meets lies on one row, the selection
   * starts and ends on cells the rectangle meets, and it meets no cell
   * outside the selection.
   */
  lemma RectSpanOneRow(cs: seq<Cell>, one: Point, two: Point, hit: Cell -> bool)
    requires RectSpan(cs, one, two, hit).Some?
    requires forall j, k :: 0 <= j < |cs| && 0 <= k < |cs| && hit(cs[j]) && hit(cs[k]) ==> cs[j].place.y == cs[k].place.y
    ensures var s := RectSpan(cs, one, two, hit).value;
      hit(cs[s.first]) && hit(cs[s.last]) &&
      forall k :: 0 <= k < |cs| && !(s.first <= k <= s.last) ==> !hit(cs[k])
  {
    var s0 := FirstWhere(cs, Hits(hit), 0, |cs|);
    var e0 := LastWhere(cs, Hits(hit), s0, |cs|);
    assert Passes(Hits(hit), cs[s0]);
    if e0 > s0 {
      assert Passes(Hits(hit), cs[e0]);
    }
    assert RectSpan(cs, one, two, hit) == Some(Span(s0, e0));
    forall k | 0 <= k < |cs| && !(s0 <= k <= e0)
      ensures !hit(cs[k])
    {
      assert !Passes(Hits(hit), cs[k]);
    }
  }

  /**
   * The selection starts between the first and the last cell the rectangle
   * meets; when it starts before the last of them it also ends no later.
   */
  lemma RectSpanWithinHits(cs: seq<Cell>, one: Point, two: Point, hit: Cell -> bool)
    requires RectSpan(cs, one, two, hit).Some?
    ensures var s := RectSpan(cs, one, two, hit).value;
      var s0 := FirstWhere(cs, Hits(hit), 0, |cs|);
      var e0 := LastWhere(cs, Hits(hit), s0, |cs|);
      s0 <= s.first <= e0 && (s.first < e0 ==> s.last <= e0)
  {
  }

  /** The ends of a span as the cells of the run at them; nothing for no span. */
  function Ends(run: seq<nat>, s: Option<Span>): (r: (Option<nat>, Option<nat>))
    requires s.Some? ==> s.value.first <= s.value.last < |run|
    ensures r.0.None? <==> s.None?
    ensures r.1.None? <==> s.None?
  {
    if s.None? then (None, None) else (Some(run[s.value.first]), Some(run[s.value.last]))
  }

  /**
   * The selection of MathCtrl::SelectRect on the drawing pass from `tree`:
   * the first and the last cell the mouse rectangle meets, corrected as
   * RowSpan says.
   */
  method SelectInRect(cells: seq<Cell>, tree: Option<nat>, ghost run: seq<nat>, one: Point, two: Point, hit: Cell -> bool)
    returns (start: Option<nat>, end: Option<nat>)
    requires RunFrom(cells, tree, run) && Distinct(run)
    ensures (start, end) == Ends(run, RectSpan(CellsOf(cells, run), one, two, hit))
  {
    ghost var cs := CellsOf(cells, run);
    assert tree == At(run, 0);
    var first, last := two, one;
    if Before(one, two) {
      first, last := one, two;
    }
    var tmp := WalkToFirst(cells, tree, run, 0, None, |run|, Hits(hit));
    ghost var s0 := FirstWhere(cs, Hits(hit), 0, |run|);
    start, end := tmp, tmp;
    if tmp.Some? {
      end := WalkToLast(cells, tmp, run, s0, None, |run|, Hits(hit));
      start, end := CorrectRows(cells, start.value, end.value, run, s0, LastWhere(cs, Hits(hit), s0, |run|), first, last);
    }
  }

  /**
   * The correction of MathCtrl::SelectRect for a selection from the cell at
   * position s0 to the one at e0 on different rows.
   */
  method CorrectRows(cells: seq<Cell>, s: nat, e: nat, ghost run: seq<nat>, ghost s0: nat, ghost e0: nat, first: Point, last: Point)
    returns (start: Option<nat>, end: Option<nat>)
    requires RunFrom(cells, At(run, 0), run) && Distinct(run)
    requires s0 <= e0 < |run| && s == run[s0] && e == run[e0]
    ensures var s := RowSpan(CellsOf(cells, run), s0, e0, first, last);
      start == Some(run[s.first]) && end == Some(run[s.last])
  {
    ghost var cs := CellsOf(cells, run);
    start, end := Some(s), Some(e);
    if cells[s].place.y != cells[e].place.y {
      var bound := end;
      start := WalkToFirst(cells, start, run, s0, bound, e0, ReachesPast(first));
      ghost var s1 := FirstWhere(cs, ReachesPast(first), s0, e0);
      ghost var hi := if s1 < e0 then e0 + 1 else |run|;
      end := WalkToLast(cells, start, run, s1, bound, hi, StartsBefore(last));
    }
  }

  // ---------------------------------------------------------------------
  // Point selection: a run of output cells

  /**
   * The rank where the row of output cells holding rank k begins: the cells
   * from there to k are variables, and the cell before, if any, is not.
   */
  function VarStart(cs: seq<Cell>, k: nat): (r: nat)
    requires k < |cs|
    ensures r <= k
    ensures forall j :: r <= j < k ==> cs[j].kind == Variable
    ensures r == 0 || cs[r - 1].kind != Variable
  {
    if k > 0 && cs[k - 1].kind == Variable then VarStart(cs, k - 1) else k
  }

  /**
   * Walks the previous links from the cell at rank k over the variable cells
   * before it (the first loop of the output case of MathCtrl::SelectPoint).
   */
  method WalkBackVariables(cells: seq<Cell>, from: nat, ghost order: seq<nat>, ghost k: nat) returns (r: nat)
    requires Chain(cells, order) && k < |order| && order[k] == from
    ensures r == order[VarStart(CellsOf(cells, order), k)]
  {
    ghost var cs := CellsOf(cells, order);
    r := from;
    ghost var m: nat := k;
    while cells[r].prev.Some? && cells[cells[r].prev.value].kind == Variable
      invariant m <= k && r == order[m]
      invariant cells[r].prev == (if m == 0 then None else Some(order[m - 1]))
      invariant VarStart(cs, m) == VarStart(cs, k)
      decreases m
    {
      r := cells[r].prev.value;
      m := m - 1;
    }
  }

  /**
   * Walks the drawing links from the cell at position p of `run` over the
   * variable cells drawn after it (the second loop of the output case of
   * MathCtrl::SelectPoint): it stops on the last of them.
   */
  method WalkForwardVariables(cells: seq<Cell>, from: nat, ghost run: seq<nat>, ghost p: nat) returns (r: nat)
    requires RunFrom(cells, At(run, 0), run) && p < |run| && run[p] == from
    ensures r == run[FirstWhere(CellsOf(cells, run), KindIsNot(Variable), p + 1, |run|) - 1]
  {
    ghost var cs := CellsOf(cells, run);
    r := from;
    ghost var m := p;
    while cells[r].nextToDraw.Some? && cells[cells[r].nextToDraw.value].kind == Variable
      invariant p <= m < |run| && r == run[m]
      invariant cells[r].nextToDraw == At(run, m + 1)
      invariant m < FirstWhere(cs, KindIsNot(Variable), p + 1, |run|)
      decreases |run| - m
    {
      r := cells[r].nextToDraw.value;
      m := m + 1;
    }
  }

  // ---------------------------------------------------------------------
  // Folding

  /** Where a fold stops: a label hides the output cells after it, a main prompt everything up to the next main prompt. */
  function FoldStop(kind: CellType): Test
  {
    if kind == Label then KindIsNot(Variable) else KindIs(MainPrompt)
  }

  /**
   * The cell a fold of the cell at rank k draws next: the first cell from
   * rank k + 2 on that passes t, none when there is none or when the cell is
   * the last of the document.
   */
  ghost function FoldTargetOf(cells: seq<Cell>, order: seq<nat>, k: nat, t: Test): (r: Option<nat>)
    requires InArena(cells, order) && k < |order|
  {
    if k + 1 < |order| then At(order, FirstWhere(CellsOf(cells, order), t, k + 2, |order|)) else None
  }

  /** The cell unfolded: it draws its next cell and shows. */
  function Unfolded(c: Cell): Cell
  {
    c.(nextToDraw := c.next, nextToDrawIsNext := true, hidden := false)
  }

  /** The cell folded: it draws `target` next and is marked hidden. */
  function Folded(c: Cell, target: Option<nat>): Cell
  {
    c.(nextToDraw := target, nextToDrawIsNext := false, hidden := true)
  }

  /**
   * Advances the drawing link of an unfolded cell at rank k along the next
   * links to the first cell from rank k + 2 on that passes t (the fold loops
   * of MathCtrl::SelectPoint).
   */
  method FoldTarget(cells: seq<Cell>, from: nat, ghost order: seq<nat>, ghost k: nat, t: Test) returns (r: Option<nat>)
    requires Chain(cells, order) && k < |order| && order[k] == from
    requires cells[from].nextToDraw == cells[from].next
    ensures r == FoldTargetOf(cells, order, k, t)
  {
    ghost var cs := CellsOf(cells, order);
    r := cells[from].nextToDraw;
    ghost var m := k + 1;
    while r.Some?
      invariant k + 1 <= m <= |order| && r == At(order, m)
      invariant k + 1 < |order| ==> var f := FirstWhere(cs, t, k + 2, |order|); m <= f && (m == f ==> m == |order|)
      decreases |order| - m
    {
      ChainNext(cells, order, m);
      r := cells[r.value].next;
      m := m + 1;
      if r.Some? && Passes(t, cells[r.value]) {
        break;
      }
    }
  }

  /**
   * The arena after a click on the label or main prompt at rank k: a folded
   * cell unfolds, an unfolded one folds as FoldStop says for its kind.
   */
  ghost function Toggled(cells: seq<Cell>, order: seq<nat>, k: nat): (r: seq<Cell>)
    requires InArena(cells, order) && k < |order|
    ensures |r| == |cells|
  {
    var c := cells[order[k]];
    cells[order[k] := if c.next != c.nextToDraw then Unfolded(c) else Folded(c, FoldTargetOf(cells, order, k, FoldStop(c.kind)))]
  }

  /** Toggles the fold of the cell at rank k (the label and main prompt cases of MathCtrl::SelectPoint). */
  method Toggle(cells: seq<Cell>, from: nat, ghost order: seq<nat>, ghost k: nat) returns (r: seq<Cell>)
    requires Chain(cells, order) && k < |order| && order[k] == from
    ensures r == Toggled(cells, order, k)
  {
    var c := cells[from];
    if c.next != c.nextToDraw {
      c := Unfolded(c);
    } else {
      var target := FoldTarget(cells, from, order, k, FoldStop(c.kind));
      c := Folded(c, target);
    }
    r := cells[from := c];
  }

  /** A toggle changes the drawing link and the fold marks of one cell and keeps the document well formed. */
  lemma ToggledChain(cells: seq<Cell>, order: seq<nat>, k: nat)
    requires Chain(cells, order) && k < |order|
    ensures Chain(Toggled(cells, order, k), order)
    ensures var r := Toggled(cells, order, k);
      (forall i :: 0 <= i < |cells| && i != order[k] ==> r[i] == cells[i]) &&
      r[order[k]] == cells[order[k]].(nextToDraw := r[order[k]].nextToDraw,
        nextToDrawIsNext := r[order[k]].nextToDrawIsNext, hidden := r[order[k]].hidden)
  {
    var r := Toggled(cells, order, k);
    var c := cells[order[k]];
    if c.next != c.nextToDraw {
      if k + 1 < |order| {
        assert order[k + 1..][0] == order[k + 1];
      }
    } else {
      var t := FoldTargetOf(cells, order, k, FoldStop(c.kind));
      if k + 1 < |order| {
        var f := FirstWhere(CellsOf(cells, order), FoldStop(c.kind), k + 2, |order|);
        if f < |order| {
          assert order[k + 1..][f - k - 1] == order[f];
        }
      }
    }
    forall i | 0 <= i < |cells|
      ensures r[i].next == cells[i].next && r[i].prev == cells[i].prev
    {
    }
    assert NextLinks(r, order);
    assert PrevLinks(r, order);
    forall j | 0 <= j < |order|
      ensures DrawsForward(order, j, r[order[j]].nextToDraw)
    {
      if j != k {
        assert order[j] != order[k];
        assert r[order[j]] == cells[order[j]];
      }
    }
  }

  /**
   * Folding an unfolded cell that has a next cell and clicking it again
   * unfolds it: the cell ends as it was, drawing its next cell and shown;
   * nothing else changes.
   */
  lemma FoldThenUnfold(cells: seq<Cell>, order: seq<nat>, k: nat)
    requires Chain(cells, order) && k + 1 < |order|
    requires cells[order[k]] == Unfolded(cells[order[k]])
    ensures Chain(Toggled(cells, order, k), order)
    ensures Toggled(cells, order, k)[order[k]].nextToDraw != cells[order[k]].next
    ensures Toggled(Toggled(cells, order, k), order, k) == cells
  {
    ToggledChain(cells, order, k);
    var c := cells[order[k]];
    assert c.next == Some(order[k + 1]);
    var f := FirstWhere(CellsOf(cells, order), FoldStop(c.kind), k + 2, |order|);
    if f < |order| {
      assert order[f] != order[k + 1];
    }
    var once := Toggled(cells, order, k);
    assert once[order[k]] == Folded(c, FoldTargetOf(cells, order, k, FoldStop(c.kind)));
    assert once[order[k]].next != once[order[k]].nextToDraw;
    assert Toggled(once, order, k)[order[k]] == c;
  }

  // ---------------------------------------------------------------------
  // A click

  /** What a click leaves: the arena and the selection's ends. */
  datatype Click = Click(cells: seq<Cell>, start: Option<nat>, end: Option<nat>)

  /**
   * A click on the worksheet (MathCtrl::SelectPoint), given whether a cell
   * contains the clicked point: the first drawn cell that contains it is
   * hit, as Picked says; with none, the selection is empty.
   */
  ghost function Clicked(cells: seq<Cell>, order: seq<nat>, contains: Cell -> bool): (r: Click)
    requires Chain(cells, order)
  {
    var run := DrawRun(cells, order, At(order, 0));
    var p := FirstWhere(CellsOf(cells, run), Hits(contains), 0, |run|);
    if p == |run| then Click(cells, None, None) else Picked(cells, order, run, p)
  }

  /** The cells of a run, all of them in the document. */
  ghost predicate RunIn(cells: seq<Cell>, order: seq<nat>, run: seq<nat>)
  {
    forall m :: 0 <= m < |run| ==> run[m] in order && run[m] < |cells|
  }

  /**
   * Hitting the cell at position p of a drawing pass: an output cell
   * selects the row of output cells around it; a label, or a main prompt
   * that draws a next cell, toggles its fold and empties the selection; a
   * main prompt that draws nothing after it only empties the selection; any
   * other cell is selected alone.
   */
  ghost function Picked(cells: seq<Cell>, order: seq<nat>, run: seq<nat>, p: nat): (r: Click)
    requires Chain(cells, order) && RunIn(cells, order, run) && p < |run|
  {
    var x := run[p];
    var k := IndexOf(order, x);
    var c := cells[x];
    if c.kind == Variable then RowAround(cells, order, run, p)
    else if c.kind == Label || (c.kind == MainPrompt && c.nextToDraw.Some?) then
      Click(Toggled(cells, order, k), None, None)
    else if c.kind == MainPrompt then Click(cells, None, None)
    else Click(cells, Some(x), Some(x))
  }

  /**
   * The row of output cells around position p of a drawing pass: from the
   * first of the output cells before it in the document to the last of them
   * after it on the pass.
   */
  ghost function RowAround(cells: seq<Cell>, order: seq<nat>, run: seq<nat>, p: nat): Click
    requires Chain(cells, order) && RunIn(cells, order, run) && p < |run|
  {
    Click(cells, Some(order[VarStart(CellsOf(cells, order), IndexOf(order, run[p]))]),
      Some(run[FirstWhere(CellsOf(cells, run), KindIsNot(Variable), p + 1, |run|) - 1]))
  }

  /** The walks of MathCtrl::SelectPoint on a document whose first cell is `tree`. */
  method ClickAt(cells: seq<Cell>, tree: Option<nat>, ghost order: seq<nat>, contains: Cell -> bool) returns (r: Click)
    requires Chain(cells, order) && tree == At(order, 0)
    ensures r == Clicked(cells, order, contains)
  {
    ghost var run := DrawRun(cells, order, tree);
    DrawRunIsRun(cells, order, tree);
    var tmp := WalkToFirst(cells, tree, run, 0, None, |run|, Hits(contains));
    if tmp.None? {
      return Click(cells, None, None);
    }
    r := Pick(cells, tmp.value, order, run, FirstWhere(CellsOf(cells, run), Hits(contains), 0, |run|));
  }

  /** What MathCtrl::SelectPoint does with the cell it hit, at position p of the drawing pass from the first cell. */
  method Pick(cells: seq<Cell>, x: nat, ghost order: seq<nat>, ghost run: seq<nat>, ghost p: nat) returns (r: Click)
    requires Chain(cells, order) && RunFrom(cells, At(run, 0), run) && RunIn(cells, order, run)
    requires p < |run| && run[p] == x
    ensures r == Picked(cells, order, run, p)
  {
    ghost var k := IndexOf(order, x);
    var c := cells[x];
    if c.kind == Variable {
      var s := WalkBackVariables(cells, x, order, k);
      var e := WalkForwardVariables(cells, x, run, p);
      r := Click(cells, Some(s), Some(e));
    } else if c.kind == Label {
      var toggled := Toggle(cells, x, order, k);
      r := Click(toggled, None, None);
    } else if c.kind == MainPrompt {
      if c.nextToDraw.None? {
        return Click(cells, None, None);
      }
      var toggled := Toggle(cells, x, order, k);
      r := Click(toggled, None, None);
    } else {
      r := Click(cells, Some(x), Some(x));
    }
  }

  /** A click keeps the document well formed and leaves a selection of document cells, both ends or neither. */
  lemma ClickedValid(cells: seq<Cell>, order: seq<nat>, contains: Cell -> bool)
    requires Chain(cells, order)
    ensures var r := Clicked(cells, order, contains);
      Chain(r.cells, order) &&
      (r.start.None? <==> r.end.None?) &&
      (r.start.Some? ==> r.start.value in order && r.end.value in order)
  {
    var run := DrawRun(cells, order, At(order, 0));
    var p := FirstWhere(CellsOf(cells, run), Hits(contains), 0, |run|);
    if p < |run| {
      PickedValid(cells, order, run, p);
    }
  }

  lemma PickedValid(cells: seq<Cell>, order: seq<nat>, run: seq<nat>, p: nat)
    requires Chain(cells, order) && RunIn(cells, order, run) && p < |run|
    ensures var r := Picked(cells, order, run, p);
      Chain(r.cells, order) &&
      (r.start.None? <==> r.end.None?) &&
      (r.start.Some? ==> r.start.value in order && r.end.value in order)
  {
    ToggledChain(cells, order, IndexOf(order, run[p]));
  }

  /** The output cell at rank v of the document starts a row: it is first, or follows a cell of another kind. */
  ghost predicate StartsRow(cells: seq<Cell>, order: seq<nat>, v: nat)
  {
    v < |order| && order[v] < |cells| && cells[order[v]].kind == Variable &&
    (v == 0 || (order[v - 1] < |cells| && cells[order[v - 1]].kind != Variable))
  }

  /** The output cell e ends a row: nothing is drawn after it, or a cell of another kind is. */
  ghost predicate EndsRow(cells: seq<Cell>, e: nat)
  {
    e < |cells| && cells[e].kind == Variable &&
    (cells[e].nextToDraw.None? ||
     (cells[e].nextToDraw.value < |cells| && cells[cells[e].nextToDraw.value].kind != Variable))
  }

  /**
   * A click on an output cell selects the whole row of output cells around
   * it, and changes no cell.
   */
  lemma PickedOutputRow(cells: seq<Cell>, order: seq<nat>, run: seq<nat>, p: nat)
    requires Chain(cells, order) && RunFrom(cells, At(run, 0), run) && RunIn(cells, order, run) && p < |run|
    requires cells[run[p]].kind == Variable
    ensures var r := Picked(cells, order, run, p);
      r.cells == cells && r.start.Some? && r.end.Some? &&
      StartsRow(cells, order, IndexOf(order, r.start.value)) && EndsRow(cells, r.end.value)
  {
    var k := IndexOf(order, run[p]);
    assert Picked(cells, order, run, p) == RowAround(cells, order, run, p);
    RowStartAfterOther(cells, order, k);
    RowEndBeforeOther(cells, run, p);
  }

  /** The output row found by walking back from rank k starts the document or follows a cell of another kind. */
  lemma RowStartAfterOther(cells: seq<Cell>, order: seq<nat>, k: nat)
    requires Chain(cells, order) && k < |order| && cells[order[k]].kind == Variable
    ensures var v := VarStart(CellsOf(cells, order), k);
      IndexOf(order, order[v]) == v && StartsRow(cells, order, v)
  {
    IndexOfDistinct(order, VarStart(CellsOf(cells, order), k));
  }

  /** The output row found by walking forward from position p of a run ends it or is followed by a cell of another kind. */
  lemma RowEndBeforeOther(cells: seq<Cell>, run: seq<nat>, p: nat)
    requires RunFrom(cells, At(run, 0), run) && p < |run|
    requires cells[run[p]].kind == Variable
    ensures EndsRow(cells, run[FirstWhere(CellsOf(cells, run), KindIsNot(Variable), p + 1, |run|) - 1])
  {
    var f := FirstWhere(CellsOf(cells, run), KindIsNot(Variable), p + 1, |run|);
    if f < |run| {
      assert cells[run[f - 1]].nextToDraw == Some(run[f]);
    }
  }
}
