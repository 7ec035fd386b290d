/**
 * Deleting a group of the worksheet (MathCtrl::CanDeleteSelection and
 * MathCtrl::DeleteSelection). When one main prompt is selected on its own
 * and a cell follows it, the prompt leaves the document together with the
 * cells after it up to the next main prompt, and the links around the gap
 * are mended. With no later main prompt nothing is removed.
 *
 * Deleted states the deletion with every drawing link into the removed
 * group redirected to the main prompt after it. DeletedAsWritten follows
 * the repair the control performs, which looks only at the nearest label
 * before the group and the nearest main prompt before that label.
 */
module Deletion {
  import opened Wrappers
  import opened WorksheetLayout
  import opened DocumentList
  import opened Selection

  /** Whether the selection may be deleted: one main prompt, selected alone, with a cell after it. */
  function CanDelete(cells: seq<Cell>, start: Option<nat>, end: Option<nat>): bool
    requires start.Some? ==> start.value < |cells|
  {
    start.Some? && start == end && cells[start.value].next.Some? && cells[start.value].kind == MainPrompt
  }

  /** On a document, a selection may be deleted exactly when it is one main prompt that is not the last cell. */
  lemma CanDeleteIff(cells: seq<Cell>, order: seq<nat>, start: Option<nat>, end: Option<nat>)
    requires Chain(cells, order) && (start.Some? ==> start.value in order)
    ensures start.Some? ==> start.value < |cells|
    ensures CanDelete(cells, start, end) <==>
      start.Some? && end == start && cells[start.value].kind == MainPrompt && IndexOf(order, start.value) + 1 < |order|
  {
    if start.Some? {
      var k := IndexOf(order, start.value);
      assert cells[order[k]].next == (if k + 1 < |order| then Some(order[k + 1]) else None);
    }
  }

  /** The rank of the first main prompt after rank k, or the length of the document when there is none. */
  ghost function GroupEnd(cells: seq<Cell>, order: seq<nat>, k: nat): (j: nat)
    requires Chain(cells, order) && k < |order|
    ensures k < j <= |order|
    ensures j < |order| ==> cells[order[j]].kind == MainPrompt
    ensures forall m :: k < m < j ==> cells[order[m]].kind != MainPrompt
  {
    FirstWhere(CellsOf(cells, order), KindIs(MainPrompt), k + 1, |order|)
  }

  /** The document list without the ranks k up to j. */
  function Kept(order: seq<nat>, k: nat, j: nat): (r: seq<nat>)
    requires k <= j <= |order|
    ensures |r| == |order| - (j - k)
    ensures forall n :: 0 <= n < |r| ==> r[n] == if n < k then order[n] else order[n + j - k]
  {
    order[..k] + order[j..]
  }

  /** The drawing link of c leads into the cells at ranks k up to j. */
  ghost predicate IntoGroup(c: Cell, order: seq<nat>, k: nat, j: nat)
    requires k <= j <= |order|
  {
    c.nextToDraw.Some? && c.nextToDraw.value in order[k..j]
  }

  /**
   * The links the deletion of the ranks k up to j rewrites in any case: the
   * last removed cell no longer leads on, the cell before the group (if any)
   * leads to and draws the main prompt at rank j, and that prompt links back
   * to it.
   */
  ghost function Spliced(cells: seq<Cell>, order: seq<nat>, k: nat, j: nat): (r: seq<Cell>)
    requires InArena(cells, order) && k < j < |order|
    ensures |r| == |cells|
  {
    var t := order[j];
    var last := order[j - 1];
    var c1 := cells[last := cells[last].(next := None)];
    if k == 0 then c1[t := c1[t].(prev := None)]
    else
      var pv := order[k - 1];
      var c2 := c1[pv := c1[pv].(next := Some(t), nextToDraw := Some(t))];
      c2[t := c2[t].(prev := Some(pv))]
  }

  /** Cell x once the cells at ranks lo up to hi that draw into the group k..j draw its successor at rank j instead. */
  ghost function Mended(c1: seq<Cell>, order: seq<nat>, lo: nat, hi: nat, k: nat, j: nat, x: nat): Cell
    requires lo <= hi <= k <= j < |order| && x < |c1|
  {
    if x in order[lo..hi] && IntoGroup(c1[x], order, k, j) then c1[x].(nextToDraw := Some(order[j])) else c1[x]
  }

  /** Every cell before rank k that draws into the group k..j draws its successor at rank j instead. */
  ghost function Retargeted(c1: seq<Cell>, order: seq<nat>, k: nat, j: nat): (r: seq<Cell>)
    requires k <= j < |order|
    ensures |r| == |c1|
  {
    seq(|c1|, x requires 0 <= x < |c1| => Mended(c1, order, 0, k, k, j, x))
  }

  /**
   * Deletes the main prompt at rank k and the cells after it before the next
   * main prompt; the cells before the group that drew one of the removed
   * cells draw that next main prompt instead. Without a later main prompt the
   * document stays as it is.
   */
  ghost function Deleted(cells: seq<Cell>, order: seq<nat>, k: nat): Document
    requires Chain(cells, order) && k < |order|
  {
    var j := GroupEnd(cells, order, k);
    if j == |order| then Document(cells, order)
    else
      var c1 := Spliced(cells, order, k, j);
      Document(Retargeted(c1, order, k, j), Kept(order, k, j))
  }

  // ---------------------------------------------------------------------
  // Facts about positions in a list of distinct cells

  lemma InSlice(order: seq<nat>, a: nat, b: nat, q: nat)
    requires a <= q < b <= |order|
    ensures order[q] in order[a..b]
  {
    assert order[a..b][q - a] == order[q];
  }

  lemma NotInSlice(order: seq<nat>, a: nat, b: nat, q: nat)
    requires Distinct(order) && a <= b <= |order| && q < |order| && !(a <= q < b)
    ensures order[q] !in order[a..b]
  {
  }

  lemma InLater(o: seq<nat>, n: nat, q: nat)
    requires n < q < |o|
    ensures o[q] in o[n + 1..]
  {
    assert o[n + 1..][q - n - 1] == o[q];
  }

  // ---------------------------------------------------------------------
  // The corrected deletion keeps the document well formed

  /** The cells of the group: the main prompt at rank k and, after it, the cells up to the next main prompt. */
  lemma DeletedRemovesGroup(cells: seq<Cell>, order: seq<nat>, k: nat)
    requires Chain(cells, order) && k < |order|
    ensures var j := GroupEnd(cells, order, k);
      var r := Deleted(cells, order, k);
      |r.cells| == |cells| &&
      (j == |order| ==> r == Document(cells, order)) &&
      (j < |order| ==> forall x :: x in r.order <==> x in order && x !in order[k..j])
  {
    var j := GroupEnd(cells, order, k);
    if j < |order| {
      var o := Kept(order, k, j);
      forall x
        ensures x in o <==> x in order && x !in order[k..j]
      {
        if x in o {
          var n :| 0 <= n < |o| && o[n] == x;
          NotInSlice(order, k, j, if n < k then n else n + j - k);
        }
        if x in order && x !in order[k..j] {
          var q :| 0 <= q < |order| && order[q] == x;
          if k <= q < j {
            InSlice(order, k, j, q);
          } else {
            assert o[if q < k then q else q - (j - k)] == x;
          }
        }
      }
    }
  }

  /** Deletion rewrites links only: every cell keeps its kind, text, layout data and fold state. */
  lemma DeletedOnlyLinks(cells: seq<Cell>, order: seq<nat>, k: nat)
    requires Chain(cells, order) && k < |order|
    ensures var r := Deleted(cells, order, k);
      |r.cells| == |cells| && forall x :: 0 <= x < |cells| ==> Detached(r.cells[x]) == Detached(cells[x])
  {
    var j := GroupEnd(cells, order, k);
    if j < |order| {
      var c1 := Spliced(cells, order, k, j);
      assert Deleted(cells, order, k).cells == Retargeted(c1, order, k, j);
      SplicedOnlyLinks(cells, c1, order, k, j);
    }
  }

  lemma SplicedOnlyLinks(cells: seq<Cell>, c1: seq<Cell>, order: seq<nat>, k: nat, j: nat)
    requires InArena(cells, order) && k < j < |order| && c1 == Spliced(cells, order, k, j)
    ensures forall x :: 0 <= x < |cells| ==> Detached(Retargeted(c1, order, k, j)[x]) == Detached(cells[x])
  {
    forall x | 0 <= x < |cells|
      ensures Detached(c1[x]) == Detached(cells[x])
    {
    }
  }

  /**
   * The cells before the group keep their drawing links, except that one
   * into the group now leads to the main prompt after it; the cell just
   * before the group draws that prompt.
   */
  lemma DeletedKeepsFolds(cells: seq<Cell>, order: seq<nat>, k: nat)
    requires Chain(cells, order) && k < |order| && GroupEnd(cells, order, k) < |order|
    ensures var j := GroupEnd(cells, order, k);
      var r := Deleted(cells, order, k).cells;
      (forall n :: 0 <= n < k - 1 ==>
        r[order[n]] == if IntoGroup(cells[order[n]], order, k, j) then cells[order[n]].(nextToDraw := Some(order[j])) else cells[order[n]]) &&
      (k > 0 ==> r[order[k - 1]].nextToDraw == Some(order[j]))
  {
    var j := GroupEnd(cells, order, k);
    var c1 := Spliced(cells, order, k, j);
    forall n | 0 <= n < k - 1
      ensures c1[order[n]] == cells[order[n]]
    {
    }
    if k > 0 {
      NotInSlice(order, 0, k - 1, k - 1);
      assert !IntoGroup(c1[order[k - 1]], order, k, j) by {
        NotInSlice(order, k, j, j);
      }
    }
  }

  lemma KeptDistinct(order: seq<nat>, k: nat, j: nat)
    requires Distinct(order) && k <= j <= |order|
    ensures Distinct(Kept(order, k, j))
  {
    var o := Kept(order, k, j);
    forall a, b | 0 <= a < b < |o|
      ensures o[a] != o[b]
    {
      var ra := if a < k then a else a + j - k;
      var rb := if b < k then b else b + j - k;
      assert o[a] == order[ra] && o[b] == order[rb] && ra < rb;
    }
  }

  /** The links of the cell the deleted document has at rank n, from what the cell had before. */
  ghost predicate LinkedAt(r: seq<Cell>, o: seq<nat>, n: nat)
    requires InArena(r, o) && n < |o|
  {
    r[o[n]].next == (if n + 1 < |o| then Some(o[n + 1]) else None) &&
    r[o[n]].prev == (if n == 0 then None else Some(o[n - 1])) &&
    DrawsForward(o, n, r[o[n]].nextToDraw)
  }

  /** The rank in `order` of a cell a drawing link at rank n leads to. */
  lemma ForwardRank(order: seq<nat>, n: nat, v: nat) returns (q: nat)
    requires n < |order| && v in order[n + 1..]
    ensures n < q < |order| && order[q] == v
  {
    var i := IndexOf(order[n + 1..], v);
    q := n + 1 + i;
  }

  /** The facts of Chain the deleted document needs of the cell at rank n. */
  ghost predicate LinksOf(cells: seq<Cell>, order: seq<nat>, n: nat)
    requires InArena(cells, order) && n < |order|
  {
    cells[order[n]].next == (if n + 1 < |order| then Some(order[n + 1]) else None) &&
    cells[order[n]].prev == (if n == 0 then None else Some(order[n - 1])) &&
    DrawsForward(order, n, cells[order[n]].nextToDraw)
  }

  /** A cell before the group, other than the one just before it. */
  lemma LinkedBefore(cells: seq<Cell>, c1: seq<Cell>, r: seq<Cell>, order: seq<nat>, o: seq<nat>, k: nat, j: nat, n: nat)
    requires Distinct(order) && InArena(cells, order) && k < j < |order| && n + 1 < k
    requires c1 == Spliced(cells, order, k, j) && r == Retargeted(c1, order, k, j) && o == Kept(order, k, j)
    requires InArena(r, o) && LinksOf(cells, order, n)
    ensures LinkedAt(r, o, n)
  {
    var x := order[n];
    assert c1[x] == cells[x];
    InSlice(order, 0, k, n);
    assert o[n] == x && o[n + 1] == order[n + 1];
    if IntoGroup(cells[x], order, k, j) {
      InLater(o, n, k);
    } else if cells[x].nextToDraw.Some? {
      var q := ForwardRank(order, n, cells[x].nextToDraw.value);
      if k <= q < j {
        InSlice(order, k, j, q);
      }
      var p := if q < k then q else q - (j - k);
      assert o[p] == order[q];
      InLater(o, n, p);
    }
  }

  /** The cell just before the group. */
  lemma LinkedBeforeGap(cells: seq<Cell>, c1: seq<Cell>, r: seq<Cell>, order: seq<nat>, o: seq<nat>, k: nat, j: nat)
    requires Distinct(order) && InArena(cells, order) && 0 < k < j < |order|
    requires c1 == Spliced(cells, order, k, j) && r == Retargeted(c1, order, k, j) && o == Kept(order, k, j)
    requires InArena(r, o) && LinksOf(cells, order, k - 1)
    ensures LinkedAt(r, o, k - 1)
  {
    var n := k - 1;
    var x := order[n];
    assert x != order[j] && x != order[j - 1];
    assert c1[x] == cells[x].(next := Some(order[j]), nextToDraw := Some(order[j]));
    NotInSlice(order, k, j, j);
    assert r[x] == c1[x];
    assert o[n] == x && o[n + 1] == order[j];
    InLater(o, n, k);
  }

  /** The main prompt after the group. */
  lemma LinkedAfterGap(cells: seq<Cell>, c1: seq<Cell>, r: seq<Cell>, order: seq<nat>, o: seq<nat>, k: nat, j: nat)
    requires Distinct(order) && InArena(cells, order) && k < j < |order|
    requires c1 == Spliced(cells, order, k, j) && r == Retargeted(c1, order, k, j) && o == Kept(order, k, j)
    requires InArena(r, o) && LinksOf(cells, order, j)
    ensures LinkedAt(r, o, k)
  {
    var n := k;
    var x := order[j];
    NotInSlice(order, 0, k, j);
    assert r[x] == c1[x];
    assert c1[x] == cells[x].(prev := if k == 0 then None else Some(order[k - 1]));
    assert o[n] == x;
    assert n > 0 ==> o[n - 1] == order[k - 1];
    assert n + 1 < |o| ==> o[n + 1] == order[j + 1];
    if cells[x].nextToDraw.Some? {
      var q := ForwardRank(order, j, cells[x].nextToDraw.value);
      assert o[q - (j - k)] == order[q];
      InLater(o, n, q - (j - k));
    }
  }

  /** A cell after the main prompt that ends the group. */
  lemma LinkedAfter(cells: seq<Cell>, c1: seq<Cell>, r: seq<Cell>, order: seq<nat>, o: seq<nat>, k: nat, j: nat, n: nat)
    requires Distinct(order) && InArena(cells, order) && k < j < |order| && k < n < |o|
    requires c1 == Spliced(cells, order, k, j) && r == Retargeted(c1, order, k, j) && o == Kept(order, k, j)
    requires InArena(r, o) && LinksOf(cells, order, n + j - k)
    ensures LinkedAt(r, o, n)
  {
    var q := n + j - k;
    var x := order[q];
    assert c1[x] == cells[x];
    NotInSlice(order, 0, k, q);
    assert r[x] == cells[x];
    assert o[n] == x && o[n - 1] == order[q - 1];
    assert n + 1 < |o| ==> o[n + 1] == order[q + 1];
    if cells[x].nextToDraw.Some? {
      var d := ForwardRank(order, q, cells[x].nextToDraw.value);
      assert o[d - (j - k)] == order[d];
      InLater(o, n, d - (j - k));
    }
  }

  /** A list whose every cell is linked as LinkedAt says is a document list. */
  lemma LinkedChain(r: seq<Cell>, o: seq<nat>)
    requires InArena(r, o) && Distinct(o) && forall n :: 0 <= n < |o| ==> LinkedAt(r, o, n)
    ensures Chain(r, o)
  {
    assert NextLinks(r, o) && PrevLinks(r, o) by {
      forall n | 0 <= n < |o|
        ensures r[o[n]].next == (if n + 1 < |o| then Some(o[n + 1]) else None)
        ensures r[o[n]].prev == (if n == 0 then None else Some(o[n - 1]))
      {
        assert LinkedAt(r, o, n);
      }
    }
    forall n | 0 <= n < |o|
      ensures DrawsForward(o, n, r[o[n]].nextToDraw)
    {
      assert LinkedAt(r, o, n);
    }
    if |o| > 0 {
      assert LinkedAt(r, o, |o| - 1) && LinkedAt(r, o, 0);
    }
  }

  /** The corrected deletion leaves a well-formed document. */
  lemma DeletedChain(cells: seq<Cell>, order: seq<nat>, k: nat)
    requires Chain(cells, order) && k < |order|
    ensures Chain(Deleted(cells, order, k).cells, Deleted(cells, order, k).order)
  {
    var j := GroupEnd(cells, order, k);
    if j < |order| {
      var c1 := Spliced(cells, order, k, j);
      var r := Retargeted(c1, order, k, j);
      var o := Kept(order, k, j);
      assert Deleted(cells, order, k) == Document(r, o);
      SplicedChain(cells, c1, r, order, o, k, j);
    }
  }

  lemma SplicedChain(cells: seq<Cell>, c1: seq<Cell>, r: seq<Cell>, order: seq<nat>, o: seq<nat>, k: nat, j: nat)
    requires Chain(cells, order) && k < j < |order|
    requires c1 == Spliced(cells, order, k, j) && r == Retargeted(c1, order, k, j) && o == Kept(order, k, j)
    ensures Chain(r, o)
  {
    KeptDistinct(order, k, j);
    assert InArena(r, o);
    forall n | 0 <= n < |order|
      ensures LinksOf(cells, order, n)
    {
    }
    forall n | 0 <= n < |o|
      ensures LinkedAt(r, o, n)
    {
      if n + 1 < k {
        LinkedBefore(cells, c1, r, order, o, k, j, n);
      } else if n + 1 == k {
        LinkedBeforeGap(cells, c1, r, order, o, k, j);
      } else if n == k {
        LinkedAfterGap(cells, c1, r, order, o, k, j);
      } else {
        LinkedAfter(cells, c1, r, order, o, k, j, n);
      }
    }
    LinkedChain(r, o);
  }

  // ---------------------------------------------------------------------
  // The walks of the corrected deletion

  /**
   * Walks the next links from the selected main prompt at rank k to the next
   * main prompt, collecting the cells passed (the first loop of
   * MathCtrl::DeleteSelection).
   */
  method GroupEndWalk(cells: seq<Cell>, start: nat, ghost order: seq<nat>, ghost k: nat) returns (tmp: Option<nat>, doomed: set<nat>)
    requires Chain(cells, order) && k < |order| && order[k] == start
    ensures tmp == At(order, GroupEnd(cells, order, k))
    ensures forall v :: v in doomed <==> v in order[k..GroupEnd(cells, order, k)]
  {
    ghost var j := GroupEnd(cells, order, k);
    doomed := {start};
    assert order[k..k + 1] == [start];
    ChainNext(cells, order, k);
    tmp := cells[start].next;
    ghost var m := k + 1;
    while tmp.Some? && cells[tmp.value].kind != MainPrompt
      invariant k + 1 <= m <= j
      invariant tmp == At(order, m)
      invariant forall v :: v in doomed <==> v in order[k..m]
      decreases |order| - m
    {
      assert order[k..m + 1] == order[k..m] + [order[m]];
      ChainNext(cells, order, m);
      doomed := doomed + {tmp.value};
      tmp := cells[tmp.value].next;
      m := m + 1;
    }
    assert m == j;
  }

  /**
   * Walks the previous links back from the cell before the group at rank k,
   * redirecting every drawing link into the group (whose cells are `doomed`)
   * to the main prompt t after it.
   */
  method RetargetBefore(c1: seq<Cell>, from: nat, doomed: set<nat>, t: nat, ghost order: seq<nat>, ghost k: nat, ghost j: nat)
    returns (r: seq<Cell>)
    requires Distinct(order) && InArena(c1, order) && 0 < k <= j < |order| && t == order[j] && from == order[k - 1]
    requires forall n :: 0 <= n < k ==> c1[order[n]].prev == (if n == 0 then None else Some(order[n - 1]))
    requires forall v :: v in doomed <==> v in order[k..j]
    ensures r == Retargeted(c1, order, k, j)
  {
    r := c1;
    var q := Some(from);
    ghost var m: nat := k;
    while q.Some?
      invariant 0 <= m <= k
      invariant q == (if m > 0 then Some(order[m - 1]) else None)
      invariant |r| == |c1|
      invariant forall x :: 0 <= x < |c1| ==> r[x] == Mended(c1, order, m, k, k, j, x)
      decreases m
    {
      var x := q.value;
      NotInSlice(order, m, k, m - 1);
      assert c1[x].prev == (if m - 1 == 0 then None else Some(order[m - 2]));
      assert r[x] == c1[x];
      assert order[m - 1..k] == [x] + order[m..k];
      if r[x].nextToDraw.Some? && r[x].nextToDraw.value in doomed {
        r := r[x := r[x].(nextToDraw := Some(t))];
      }
      q := r[x].prev;
      m := m - 1;
    }
    assert order[0..k] == order[..k];
  }

  /**
   * Deletes the group of the main prompt `start` at rank k (MathCtrl::DeleteSelection
   * after its guard), with the repair of drawing links that Deleted states.
   */
  method DeleteGroup(cells: seq<Cell>, tree: Option<nat>, start: nat, ghost order: seq<nat>, ghost k: nat)
    returns (r: seq<Cell>, tree': Option<nat>)
    requires Chain(cells, order) && tree == At(order, 0) && k < |order| && order[k] == start
    ensures r == Deleted(cells, order, k).cells && tree' == At(Deleted(cells, order, k).order, 0)
  {
    var tmp, doomed := GroupEndWalk(cells, start, order, k);
    ghost var j := GroupEnd(cells, order, k);
    if tmp.None? {
      return cells, tree;
    }
    assert k != 0 ==> order[0] != order[k];
    if Some(start) == tree {
      r := SpliceFirst(cells, tmp.value, order, k, j);
      tree' := tmp;
    } else {
      r := SpliceLater(cells, start, tmp.value, doomed, order, k, j);
      tree' := tree;
    }
  }

  /** Deleting the group that opens the document: the main prompt after it becomes the first cell. */
  method SpliceFirst(cells: seq<Cell>, t: nat, ghost order: seq<nat>, ghost k: nat, ghost j: nat) returns (r: seq<Cell>)
    requires Chain(cells, order) && k == 0 < |order| && j == GroupEnd(cells, order, k) && j < |order| && t == order[j]
    ensures r == Deleted(cells, order, k).cells
  {
    assert cells[order[j]].prev == Some(order[j - 1]);
    var last := cells[t].prev.value;
    r := cells[last := cells[last].(next := None)];
    r := r[t := r[t].(prev := None)];
    assert r == Spliced(cells, order, k, j);
    forall x | 0 <= x < |r|
      ensures r[x] == Retargeted(r, order, k, j)[x]
    {
    }
  }

  /**
   * Deleting a later group: the cell before it is linked to the main prompt
   * after it, and the drawing links into the group are redirected.
   */
  method SpliceLater(cells: seq<Cell>, start: nat, t: nat, doomed: set<nat>, ghost order: seq<nat>, ghost k: nat, ghost j: nat)
    returns (r: seq<Cell>)
    requires Chain(cells, order) && 0 < k < |order| && order[k] == start
    requires j == GroupEnd(cells, order, k) && j < |order| && t == order[j]
    requires forall v :: v in doomed <==> v in order[k..j]
    ensures r == Deleted(cells, order, k).cells
  {
    assert cells[order[j]].prev == Some(order[j - 1]);
    var last := cells[t].prev.value;
    r := cells[last := cells[last].(next := None)];
    assert cells[order[k]].prev == Some(order[k - 1]);
    var pv := cells[start].prev.value;
    r := r[pv := r[pv].(next := Some(t), nextToDraw := Some(t))];
    r := r[t := r[t].(prev := Some(pv))];
    assert r == Spliced(cells, order, k, j);
    forall n | 0 <= n < k
      ensures r[order[n]].prev == (if n == 0 then None else Some(order[n - 1]))
    {
    }
    r := RetargetBefore(r, pv, doomed, t, order, k, j);
  }

  // ---------------------------------------------------------------------
  // The repair as the control performs it

  /** The last position at or before i whose cell passes t, if any. */
  function LastUpTo(cs: seq<Cell>, t: Test, i: nat): (r: Option<nat>)
    requires i < |cs|
    ensures r.Some? ==> r.value <= i && Passes(t, cs[r.value]) && forall n :: r.value < n <= i ==> !Passes(t, cs[n])
    ensures r.None? ==> forall n :: 0 <= n <= i ==> !Passes(t, cs[n])
  {
    if Passes(t, cs[i]) then Some(i)
    else if i == 0 then None
    else LastUpTo(cs, t, i - 1)
  }

  /** The cells with the one at rank n drawing t, when it does not draw its next cell. */
  ghost function RetargetIfFolded(cs: seq<Cell>, order: seq<nat>, n: Option<nat>, t: nat): (r: seq<Cell>)
    requires InArena(cs, order) && (n.Some? ==> n.value < |order|)
    ensures |r| == |cs|
  {
    if n.Some? && cs[order[n.value]].nextToDraw != cs[order[n.value]].next then
      cs[order[n.value] := cs[order[n.value]].(nextToDraw := Some(t))]
    else cs
  }

  /**
   * The deletion as MathCtrl::DeleteSelection performs it: after splicing,
   * it walks back from the cell before the group to the nearest label and
   * redirects that label's drawing link if it is folded, then walks on back
   * to the nearest main prompt and does the same for it.
   */
  ghost function DeletedAsWritten(cells: seq<Cell>, order: seq<nat>, k: nat): Document
    requires Chain(cells, order) && k < |order|
  {
    var j := GroupEnd(cells, order, k);
    if j == |order| then Document(cells, order)
    else
      var c1 := Spliced(cells, order, k, j);
      if k == 0 then Document(c1, Kept(order, k, j))
      else
        var cs := CellsOf(cells, order);
        var nearLabel := LastUpTo(cs, KindIs(Label), k - 1);
        var c2 := RetargetIfFolded(c1, order, nearLabel, order[j]);
        var prompt := if nearLabel.None? then None else LastUpTo(cs, KindIs(MainPrompt), nearLabel.value);
        Document(RetargetIfFolded(c2, order, prompt, order[j]), Kept(order, k, j))
  }

  // ---------------------------------------------------------------------
  // Two documents on which the repair as written goes wrong

  /** A list in an arena of its own, linked in arena order, that draws forward. */
  ghost predicate InArenaOrder(r: seq<Cell>)
  {
    forall i :: 0 <= i < |r| ==>
      r[i].next == (if i + 1 < |r| then Some(i + 1) else None) &&
      r[i].prev == (if i == 0 then None else Some(i - 1)) &&
      (r[i].nextToDraw.None? || i < r[i].nextToDraw.value < |r|)
  }

  lemma InArenaOrderChain(r: seq<Cell>)
    requires InArenaOrder(r)
    ensures Chain(r, Upto(|r|))
  {
    var o := Upto(|r|);
    assert InArena(r, o) && Distinct(o);
    assert NextLinks(r, o);
    assert PrevLinks(r, o);
    forall k | 0 <= k < |o|
      ensures DrawsForward(o, k, r[o[k]].nextToDraw)
    {
      if r[k].nextToDraw.Some? {
        InLater(o, k, r[k].nextToDraw.value);
      }
    }
  }

  /** A cell of the given kind with the given links, everything else plain. */
  function Linked(kind: CellType, next: Option<nat>, prev: Option<nat>, nextToDraw: Option<nat>): Cell
  {
    Cell(kind, "", Box(0, 0, false, false, false), false, next == nextToDraw, Place(0, 0, 0, 0), next, prev, nextToDraw)
  }

  /**
   * Main prompt 0, input 1, main prompt 2, input 3, main prompt 4, with the
   * first prompt folded so that it draws prompt 2 next.
   */
  function FoldedToDeleted(): seq<Cell>
  {
    [Linked(MainPrompt, Some(1), None, Some(2)),
     Linked(Input, Some(2), Some(0), Some(2)),
     Linked(MainPrompt, Some(3), Some(1), Some(3)),
     Linked(Input, Some(4), Some(2), Some(4)),
     Linked(MainPrompt, None, Some(3), None)]
  }

  /** FoldedToDeleted is a document in which prompt 2 may be deleted, up to prompt 4. */
  lemma FoldedToDeletedDocument()
    ensures Chain(FoldedToDeleted(), [0, 1, 2, 3, 4])
    ensures CanDelete(FoldedToDeleted(), Some(2), Some(2))
    ensures GroupEnd(FoldedToDeleted(), [0, 1, 2, 3, 4], 2) == 4
  {
    var cells := FoldedToDeleted();
    var order := [0, 1, 2, 3, 4];
    assert InArenaOrder(cells);
    InArenaOrderChain(cells);
    assert Upto(5) == order;
    var cs := CellsOf(cells, order);
    assert cs[3].kind == Input && cs[4].kind == MainPrompt;
  }

  /**
   * Deleting prompt 2 of FoldedToDeleted: with no label before it the repair
   * as written stops at once, and prompt 0 still draws the removed prompt 2.
   */
  lemma AsWrittenLeavesDanglingLink()
    ensures Chain(FoldedToDeleted(), [0, 1, 2, 3, 4])
    ensures var r := DeletedAsWritten(FoldedToDeleted(), [0, 1, 2, 3, 4], 2);
      r.order == [0, 1, 4] && r.cells[0].nextToDraw == Some(2) && !Chain(r.cells, r.order)
  {
    FoldedToDeletedDocument();
    var cells := FoldedToDeleted();
    var order := [0, 1, 2, 3, 4];
    var c1 := Spliced(cells, order, 2, 4);
    assert c1[0] == cells[0];
    assert CellsOf(cells, order) == cells;
    assert LastUpTo(cells, KindIs(Label), 1) == None by {
      assert LastUpTo(cells, KindIs(Label), 0) == None;
    }
    var r := DeletedAsWritten(cells, order, 2);
    assert r == Document(c1, Kept(order, 2, 4));
    assert r.order == [0, 1, 4];
    assert r.order[1..] == [1, 4];
    assert !DrawsForward(r.order, 0, r.cells[r.order[0]].nextToDraw);
  }

  /** The corrected deletion of prompt 2 of FoldedToDeleted makes prompt 0 draw prompt 4. */
  lemma CorrectedMendsDanglingLink()
    ensures Chain(FoldedToDeleted(), [0, 1, 2, 3, 4])
    ensures Deleted(FoldedToDeleted(), [0, 1, 2, 3, 4], 2).cells[0].nextToDraw == Some(4)
  {
    FoldedToDeletedDocument();
    var cells := FoldedToDeleted();
    var order := [0, 1, 2, 3, 4];
    var c1 := Spliced(cells, order, 2, 4);
    assert c1[0] == cells[0];
    InSlice(order, 2, 4, 2);
    InSlice(order, 0, 2, 0);
    assert IntoGroup(c1[0], order, 2, 4);
  }

  /**
   * Main prompt 0, label 1, output 2, main prompt 3, main prompt 4, main
   * prompt 5, with the label folded so that it draws prompt 3 next.
   */
  function LabelFoldedBefore(): seq<Cell>
  {
    [Linked(MainPrompt, Some(1), None, Some(1)),
     Linked(Label, Some(2), Some(0), Some(3)),
     Linked(Variable, Some(3), Some(1), Some(3)),
     Linked(MainPrompt, Some(4), Some(2), Some(4)),
     Linked(MainPrompt, Some(5), Some(3), Some(5)),
     Linked(MainPrompt, None, Some(4), None)]
  }

  /** LabelFoldedBefore is a document in which prompt 4 may be deleted, up to prompt 5. */
  lemma LabelFoldedBeforeDocument()
    ensures Chain(LabelFoldedBefore(), [0, 1, 2, 3, 4, 5])
    ensures CanDelete(LabelFoldedBefore(), Some(4), Some(4))
    ensures GroupEnd(LabelFoldedBefore(), [0, 1, 2, 3, 4, 5], 4) == 5
  {
    var cells := LabelFoldedBefore();
    var order := [0, 1, 2, 3, 4, 5];
    assert InArenaOrder(cells);
    InArenaOrderChain(cells);
    assert Upto(6) == order;
    var cs := CellsOf(cells, order);
    assert cs[5].kind == MainPrompt;
  }

  /** Back from rank 3 of LabelFoldedBefore the nearest label is at rank 1; back from it the nearest main prompt is at rank 0. */
  lemma LabelFoldedBeforeWalks()
    ensures LastUpTo(LabelFoldedBefore(), KindIs(Label), 3) == Some(1)
    ensures LastUpTo(LabelFoldedBefore(), KindIs(MainPrompt), 1) == Some(0)
  {
    var cs := LabelFoldedBefore();
    assert LastUpTo(cs, KindIs(Label), 1) == Some(1);
    assert LastUpTo(cs, KindIs(Label), 2) == Some(1);
    assert LastUpTo(cs, KindIs(MainPrompt), 0) == Some(0);
  }

  /**
   * Deleting prompt 4 of LabelFoldedBefore: the repair as written finds the
   * folded label 1, whose fold has nothing to do with the deleted group, and
   * makes it draw prompt 5, so that the kept prompt 3 is no longer drawn.
   */
  lemma AsWrittenMovesUnrelatedFold()
    ensures Chain(LabelFoldedBefore(), [0, 1, 2, 3, 4, 5])
    ensures var r := DeletedAsWritten(LabelFoldedBefore(), [0, 1, 2, 3, 4, 5], 4);
      r.order == [0, 1, 2, 3, 5] && r.cells[1].nextToDraw == Some(5)
  {
    AsWrittenRepairs();
    RepairsMoveLabel();
  }

  /** The repairs of AsWrittenRepairs make label 1 draw prompt 5. */
  lemma RepairsMoveLabel()
    ensures var cells := LabelFoldedBefore();
      var order := [0, 1, 2, 3, 4, 5];
      InArena(cells, order) &&
      RetargetIfFolded(RetargetIfFolded(Spliced(cells, order, 4, 5), order, Some(1), 5), order, Some(0), 5)[1].nextToDraw == Some(5)
  {
    var cells := LabelFoldedBefore();
    var order := [0, 1, 2, 3, 4, 5];
    var c1 := Spliced(cells, order, 4, 5);
    assert c1[0] == cells[0] && c1[1] == cells[1];
  }

  /** The two repairs DeletedAsWritten applies when prompt 4 of LabelFoldedBefore is deleted. */
  lemma AsWrittenRepairs()
    ensures Chain(LabelFoldedBefore(), [0, 1, 2, 3, 4, 5])
    ensures var cells := LabelFoldedBefore();
      var order := [0, 1, 2, 3, 4, 5];
      var c1 := Spliced(cells, order, 4, 5);
      DeletedAsWritten(cells, order, 4) ==
        Document(RetargetIfFolded(RetargetIfFolded(c1, order, Some(1), 5), order, Some(0), 5), Kept(order, 4, 5))
  {
    LabelFoldedBeforeDocument();
    var cells := LabelFoldedBefore();
    var order := [0, 1, 2, 3, 4, 5];
    assert CellsOf(cells, order) == cells;
    LabelFoldedBeforeWalks();
  }

  /** The corrected deletion of prompt 4 of LabelFoldedBefore leaves the label drawing prompt 3. */
  lemma CorrectedKeepsUnrelatedFold()
    ensures Chain(LabelFoldedBefore(), [0, 1, 2, 3, 4, 5])
    ensures Deleted(LabelFoldedBefore(), [0, 1, 2, 3, 4, 5], 4).cells[1].nextToDraw == Some(3)
  {
    LabelFoldedBeforeDocument();
    var cells := LabelFoldedBefore();
    var order := [0, 1, 2, 3, 4, 5];
    var c1 := Spliced(cells, order, 4, 5);
    assert c1[1] == cells[1];
    NotInSlice(order, 4, 5, 3);
    assert !IntoGroup(c1[1], order, 4, 5);
  }
}
