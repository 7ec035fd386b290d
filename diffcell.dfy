/**
 * The cell of a formula that shows a derivative, diff(f, x, 1): two inner
 * cell lists, the function (the base) and the variable part (the diff), laid
 * out side by side and exported by concatenating the exports of the two
 * lists.
 *
 * An inner list is seen only through what the diff cell asks of it: its
 * exports and its measures, given as a record of functions (ListOps). The
 * fonts and the drawing behind the measures are not modelled.
 */
module DiffCell {
  import opened Wrappers
  import opened Strings
  import opened WorksheetLayout

  /** A cell of an inner list; only the flag the diff cell sets on it is visible. */
  datatype InnerCell = InnerCell(id: nat, suppressMultiplicationDot: bool)

  /** A list of cells, known by its first cell, followed by the cells after it. */
  datatype CellList = CellList(head: InnerCell, rest: seq<InnerCell>)

  /** The cells of a list after its first one, as a list of their own, if there are any. */
  function Next(l: CellList): Option<CellList>
  {
    if |l.rest| == 0 then None else Some(CellList(l.rest[0], l.rest[1..]))
  }

  /** The exports and measures of an inner list. */
  datatype ListOps = ListOps(
    toString: CellList -> string,
    toMatlab: CellList -> string,
    toTeX: CellList -> string,
    toMathML: CellList -> string,
    toOMML: CellList -> string,
    toXML: CellList -> string,
    fullWidth: CellList -> int,
    centerList: CellList -> int,
    maxDrop: CellList -> int)

  /** The TeX the diff part gets when derivatives are to be shown as partial ones. */
  const OrdinaryFraction: string := "\\frac{d}{d"
  const PartialFraction: string := "\\frac{\\partial}{\\partial"

  /** The TeX of the diff part, with every ordinary derivative fraction made partial when asked to. */
  function DiffTeX(diffTeX: string, usePartialForDiff: bool): string
  {
    if usePartialForDiff then ReplaceAll(diffTeX, OrdinaryFraction, PartialFraction) else diffTeX
  }

  /** A diff part with no ordinary derivative fraction in it comes out the same either way. */
  lemma DiffTeXWithoutFraction(diffTeX: string, usePartialForDiff: bool)
    requires !HasSub(diffTeX, OrdinaryFraction)
    ensures DiffTeX(diffTeX, usePartialForDiff) == diffTeX
  {
    ReplaceAllMissing(diffTeX, OrdinaryFraction, PartialFraction);
  }

  /** The width of the two lists side by side. */
  function ComposedWidth(ops: ListOps, base: CellList, diff: CellList): (r: int)
    ensures r - ops.fullWidth(diff) == ops.fullWidth(base)
  {
    ops.fullWidth(base) + ops.fullWidth(diff)
  }

  /** The center line: the lower of the two lists' center lines. */
  function ComposedCenter(ops: ListOps, base: CellList, diff: CellList): (r: int)
    ensures r >= ops.centerList(diff) && r >= ops.centerList(base)
    ensures r == ops.centerList(diff) || r == ops.centerList(base)
  {
    MaxInt(ops.centerList(diff), ops.centerList(base))
  }

  /** The height: the center line plus the larger of the two drops below it. */
  function ComposedHeight(ops: ListOps, base: CellList, diff: CellList): (r: int)
    ensures r - ComposedCenter(ops, base, diff) >= ops.maxDrop(diff)
    ensures r - ComposedCenter(ops, base, diff) >= ops.maxDrop(base)
    ensures r - ComposedCenter(ops, base, diff) == ops.maxDrop(diff) || r - ComposedCenter(ops, base, diff) == ops.maxDrop(base)
  {
    ComposedCenter(ops, base, diff) + MaxInt(ops.maxDrop(diff), ops.maxDrop(base))
  }

  /** The inner lists of a diff cell, the base first, the missing ones left out. */
  function InnerCells(base: Option<CellList>, diff: Option<CellList>): (r: seq<CellList>)
    ensures |r| == (if base.Some? then 1 else 0) + (if diff.Some? then 1 else 0)
    ensures base.Some? ==> r[0] == base.value
    ensures diff.Some? ==> r[|r| - 1] == diff.value
    ensures forall l :: l in r ==> Some(l) == base || Some(l) == diff
  {
    match (base, diff)
    case (Some(b), Some(d)) => [b, d]
    case (Some(b), None) => [b]
    case (None, Some(d)) => [d]
    case (None, None) => []
  }

  /** The head cell of a diff list as SetDiff stores it: with the multiplication dot suppressed. */
  function SuppressDot(l: CellList): (r: CellList)
    ensures r.head.suppressMultiplicationDot && r.head.id == l.head.id && r.rest == l.rest
  {
    CellList(l.head.(suppressMultiplicationDot := true), l.rest)
  }

  class DiffCell {
    /** The function being differentiated; never null once constructed. */
    var base: Option<CellList>
    /** The variable part, d/dx; never null once constructed. */
    var diff: Option<CellList>
    var isBrokenIntoLines: bool
    var forceBreakLine: bool
    var width: int
    var center: int
    var height: int

    /** Both inner lists are present. */
    predicate Valid()
      reads this
    {
      base.Some? && diff.Some?
    }

    /** A new diff cell holds a fresh empty text cell in each place. */
    constructor(emptyBase: InnerCell, emptyDiff: InnerCell)
      ensures Valid()
      ensures base == Some(CellList(emptyBase, [])) && diff == Some(CellList(emptyDiff, []))
      ensures !isBrokenIntoLines && !forceBreakLine
    {
      base := Some(CellList(emptyBase, []));
      diff := Some(CellList(emptyDiff, []));
      isBrokenIntoLines := false;
      forceBreakLine := false;
      width := 0;
      center := 0;
      height := 0;
    }

    /** The inner lists, the base first, a missing one left out. */
    function GetInnerCells(): (r: seq<CellList>)
      reads this
      ensures Valid() ==> r == [base.value, diff.value]
      ensures |r| <= 2 && forall l :: l in r ==> Some(l) == base || Some(l) == diff
    {
      InnerCells(base, diff)
    }

    /** A null diff changes nothing; otherwise it is stored with its dot suppressed. */
    method SetDiff(d: Option<CellList>)
      modifies this
      ensures d.None? ==> diff == old(diff)
      ensures d.Some? ==> diff == Some(SuppressDot(d.value))
      ensures base == old(base) && isBrokenIntoLines == old(isBrokenIntoLines) && forceBreakLine == old(forceBreakLine)
      ensures width == old(width) && center == old(center) && height == old(height)
      ensures old(Valid()) ==> Valid()
    {
      if d.None? {
        return;
      }
      diff := Some(SuppressDot(d.value));
    }

    /** A null base changes nothing; otherwise it is stored as it is. */
    method SetBase(b: Option<CellList>)
      modifies this
      ensures b.None? ==> base == old(base)
      ensures b.Some? ==> base == b
      ensures diff == old(diff) && isBrokenIntoLines == old(isBrokenIntoLines) && forceBreakLine == old(forceBreakLine)
      ensures width == old(width) && center == old(center) && height == old(height)
      ensures old(Valid()) ==> Valid()
    {
      if b.None? {
        return;
      }
      base := b;
    }

    /** Unless the cell is broken into lines, its width is that of both lists side by side. */
    method RecalculateWidths(ops: ListOps)
      requires Valid()
      modifies this
      ensures Valid()
      ensures !isBrokenIntoLines ==> width == ComposedWidth(ops, base.value, diff.value)
      ensures isBrokenIntoLines ==> width == old(width)
      ensures base == old(base) && diff == old(diff) && isBrokenIntoLines == old(isBrokenIntoLines)
      ensures forceBreakLine == old(forceBreakLine) && center == old(center) && height == old(height)
    {
      if !isBrokenIntoLines {
        width := ops.fullWidth(base.value) + ops.fullWidth(diff.value);
      }
    }

    /** Unless the cell is broken into lines, both lists share one center line and the larger drop. */
    method RecalculateHeight(ops: ListOps)
      requires Valid()
      modifies this
      ensures Valid()
      ensures !isBrokenIntoLines ==>
        center == ComposedCenter(ops, base.value, diff.value) && height == ComposedHeight(ops, base.value, diff.value)
      ensures isBrokenIntoLines ==> center == old(center) && height == old(height)
      ensures base == old(base) && diff == old(diff) && isBrokenIntoLines == old(isBrokenIntoLines)
      ensures forceBreakLine == old(forceBreakLine) && width == old(width)
    {
      if !isBrokenIntoLines {
        center := MaxInt(ops.centerList(diff.value), ops.centerList(base.value));
        height := center + MaxInt(ops.maxDrop(diff.value), ops.maxDrop(base.value));
      }
    }

    /** The export of the base list from its second cell on, if it has one, through `exportList`. */
    function BaseTail(exportList: CellList -> string): (r: string)
      reads this
      requires base.Some?
      ensures Next(base.value).None? ==> r == ""
    {
      match Next(base.value)
      case Some(t) => exportList(t)
      case None => ""
    }

    /**
     * ToString: empty when broken into lines; otherwise 'diff( , then the base
     * list without its first cell, then the diff list, then ).
     */
    function ToString(ops: ListOps): (r: string)
      reads this
      requires isBrokenIntoLines || Valid()
      ensures isBrokenIntoLines ==> r == ""
      ensures !isBrokenIntoLines ==>
        |r| >= 7 && r[..6] == "'diff(" && r[|r| - 1] == ')' &&
        r[6..|r| - 1] == BaseTail(ops.toString) + ops.toString(diff.value)
    {
      if isBrokenIntoLines then ""
      else "'diff(" + BaseTail(ops.toString) + ops.toString(diff.value) + ")"
    }

    /** ToMatlab: the same shape as ToString, from the lists' Matlab exports. */
    function ToMatlab(ops: ListOps): (r: string)
      reads this
      requires isBrokenIntoLines || Valid()
      ensures isBrokenIntoLines ==> r == ""
    {
      if isBrokenIntoLines then ""
      else "'diff(" + BaseTail(ops.toMatlab) + ops.toMatlab(diff.value) + ")"
    }

    /** ToTeX: empty when broken into lines; otherwise the diff part, then the function. */
    function ToTeX(ops: ListOps, usePartialForDiff: bool): (r: string)
      reads this
      requires isBrokenIntoLines || Valid()
      ensures isBrokenIntoLines ==> r == ""
      ensures !isBrokenIntoLines ==>
        r == DiffTeX(ops.toTeX(diff.value), usePartialForDiff) + ops.toTeX(base.value)
      ensures !isBrokenIntoLines && !usePartialForDiff ==> r == ops.toTeX(diff.value) + ops.toTeX(base.value)
    {
      if isBrokenIntoLines then "" else DiffTeX(ops.toTeX(diff.value), usePartialForDiff) + ops.toTeX(base.value)
    }

    /** ToMathML: one row of the diff list and, when present, the base list; it ignores line breaking. */
    function ToMathML(ops: ListOps): (r: string)
      reads this
      requires diff.Some?
      ensures base.None? ==> r == "<mrow>" + ops.toMathML(diff.value) + "</mrow>\n"
      ensures base.Some? ==> r == "<mrow>" + ops.toMathML(diff.value) + ops.toMathML(base.value) + "</mrow>\n"
      ensures |r| >= 14 && r[..6] == "<mrow>" && r[|r| - 8..] == "</mrow>\n"
    {
      "<mrow>" + ops.toMathML(diff.value) + (if base.Some? then ops.toMathML(base.value) else "") + "</mrow>\n"
    }

    /** ToOMML: the diff list, then the base list when present; it ignores line breaking. */
    function ToOMML(ops: ListOps): (r: string)
      reads this
      requires diff.Some?
      ensures base.None? ==> r == ops.toOMML(diff.value)
      ensures base.Some? ==> r == ops.toOMML(diff.value) + ops.toOMML(base.value)
      ensures |r| >= |ops.toOMML(diff.value)| && r[..|ops.toOMML(diff.value)|] == ops.toOMML(diff.value)
    {
      ops.toOMML(diff.value) + (if base.Some? then ops.toOMML(base.value) else "")
    }

    /** The attributes of the XML element: a line break only when one is forced. */
    function XmlFlags(): (r: string)
      reads this
      ensures r == "" <==> !forceBreakLine
    {
      if forceBreakLine then " breakline=\"true\"" else ""
    }

    /** ToXML: a d element holding the diff list, then the base list; it ignores line breaking. */
    function ToXML(ops: ListOps): (r: string)
      reads this
      requires Valid()
      ensures forceBreakLine ==> r == "<d breakline=\"true\">" + ops.toXML(diff.value) + ops.toXML(base.value) + "</d>"
      ensures !forceBreakLine ==> r == "<d>" + ops.toXML(diff.value) + ops.toXML(base.value) + "</d>"
    {
      "<d" + XmlFlags() + ">" + ops.toXML(diff.value) + ops.toXML(base.value) + "</d>"
    }
  }

  /** The Matlab export is the plain-text export taken with the lists' Matlab exports. */
  lemma MatlabIsStringShape(c: DiffCell, ops: ListOps)
    requires c.isBrokenIntoLines || c.Valid()
    ensures c.ToMatlab(ops) == c.ToString(ops.(toString := ops.toMatlab))
  {
  }

  /** The OMML export is the MathML export without its row, when the lists export the same to both. */
  lemma OMMLIsMathMLRow(c: DiffCell, ops: ListOps)
    requires c.diff.Some? && ops.toOMML == ops.toMathML
    ensures c.ToMathML(ops) == "<mrow>" + c.ToOMML(ops) + "</mrow>\n"
  {
  }

  /** Line breaking empties exactly the plain-text, Matlab and TeX exports. */
  lemma BrokenIntoLinesExports(c: DiffCell, ops: ListOps, usePartialForDiff: bool)
    requires c.Valid()
    ensures c.isBrokenIntoLines ==> c.ToString(ops) == "" && c.ToMatlab(ops) == "" && c.ToTeX(ops, usePartialForDiff) == ""
    ensures !c.isBrokenIntoLines ==> c.ToString(ops) != "" && c.ToMatlab(ops) != ""
    ensures c.ToMathML(ops) != "" && c.ToXML(ops) != ""
  {
  }

  /**
   * The MathML, OMML and XML exports do not look at line breaking: two cells
   * that differ at most in whether they are broken into lines export the same.
   */
  lemma ExportsIgnoreLineBreaking(c: DiffCell, c': DiffCell, ops: ListOps)
    requires c.Valid() && c'.base == c.base && c'.diff == c.diff && c'.forceBreakLine == c.forceBreakLine
    ensures c.ToMathML(ops) == c'.ToMathML(ops)
    ensures c.ToOMML(ops) == c'.ToOMML(ops)
    ensures c.ToXML(ops) == c'.ToXML(ops)
  {
  }

  /** An occurrence of `p` in a string starting with p[0] and a character other than p[1] lies in the rest. */
  lemma MismatchSecond(y: char, t: string, p: string)
    requires |p| >= 2 && y != p[1] && HasSub([p[0], y] + t, p)
    ensures HasSub([y] + t, p)
  {
    assert ([p[0], y] + t)[..|p|][1] == y;
    assert ([p[0], y] + t)[1..] == [y] + t;
  }

  /** `\partial` in front of a string adds no ordinary derivative fraction to it. */
  lemma PartialWordAhead(x: string)
    requires !HasSub(x, OrdinaryFraction)
    ensures !HasSub("\\partial" + x, OrdinaryFraction)
  {
    if HasSub("\\partial" + x, OrdinaryFraction) {
      assert "\\partial" + x == [OrdinaryFraction[0], 'p'] + ("artial" + x);
      MismatchSecond('p', "artial" + x, OrdinaryFraction);
      assert ['p'] + ("artial" + x) == "partial" + x;
      HasSubAfterOthers("partial", x, OrdinaryFraction);
    }
  }

  /** The partial fraction is `\frac{` followed by two `\partial` words. */
  lemma PartialFractionWords()
    ensures PartialFraction == "\\frac{" + "\\partial" + "}{" + "\\partial"
  {
  }

  /** No ordinary derivative fraction follows the partial fraction that replaced one. */
  lemma PartialFractionAhead(x: string)
    requires !HasSub(x, OrdinaryFraction)
    ensures !HasSub(PartialFraction + x, OrdinaryFraction)
  {
    var pat := OrdinaryFraction;
    var t3 := "\\partial" + x;
    PartialWordAhead(x);
    if HasSub("}{" + t3, pat) {
      HasSubAfterOthers("}{", t3, pat);
    }
    var t2 := "\\partial" + ("}{" + t3);
    PartialWordAhead("}{" + t3);
    var t1 := "\\frac{" + t2;
    PartialFractionWords();
    assert PartialFraction + x == t1;
    if HasSub(t1, pat) {
      assert t1[6] == t2[0];
      assert t1[..|pat|][6] != pat[6];
      assert t1[1..] == "frac{" + t2;
      HasSubAfterOthers("frac{", t2, pat);
    }
  }

  /** Making the derivative fractions partial leaves no ordinary derivative fraction behind. */
  lemma {:induction false} PartialLeavesNoOrdinary(diffTeX: string)
    ensures !HasSub(DiffTeX(diffTeX, true), OrdinaryFraction)
    decreases |diffTeX|
  {
    var pat := OrdinaryFraction;
    var r := ReplaceAll(diffTeX, pat, PartialFraction);
    if |diffTeX| < |pat| {
    } else if diffTeX[..|pat|] == pat {
      PartialLeavesNoOrdinary(diffTeX[|pat|..]);
      PartialFractionAhead(ReplaceAll(diffTeX[|pat|..], pat, PartialFraction));
    } else {
      var y := ReplaceAll(diffTeX[1..], pat, PartialFraction);
      PartialLeavesNoOrdinary(diffTeX[1..]);
      assert r == [diffTeX[0]] + y;
      assert r[1..] == y;
      if |pat| <= |r| {
        PrefixOrMarker(diffTeX[1..], pat, PartialFraction, |pat| - 1);
        assert r[..|pat|] == [diffTeX[0]] + y[..|pat| - 1];
        if '\\' in y[..|pat| - 1] {
          var k :| 0 <= k < |pat| - 1 && y[..|pat| - 1][k] == '\\';
          assert '\\' !in pat[1..];
          assert pat[k + 1] == pat[1..][k];
          assert r[..|pat|][k + 1] != pat[k + 1];
        } else {
          assert r[..|pat|] == [diffTeX[0]] + diffTeX[1..][..|pat| - 1] == diffTeX[..|pat|];
        }
      }
    }
  }
}
