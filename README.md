# A verified model of the wxMaxima worksheet core

This project models three parts of wxMaxima's worksheet in Dafny and proves
properties of the model:

- the worksheet control (`MathCtrl`);
- the text leaf of a formula (`TextCell`);
- the derivative cell (`DiffCell`).

The worksheet is a document list of cells, each linked three ways:

- to the cell after it (`m_next`);
- to the cell before it (`m_previous`);
- to the cell drawn after it (`m_nextToDraw`).

The drawing order follows the document but skips what a folded label or
main prompt hides. The model keeps the cells in an arena, a sequence
indexed by natural numbers, with optional indices as links. A ghost
sequence `order` records the document list the next links spell out, and
the predicate `Chain(cells, order)` says the three kinds of link agree
with it.

The control's walks over the list are methods with loop invariants:

- appending a line;
- breaking lines;
- computing the extent;
- copying text and cells;
- hit testing for rectangle and point selection;
- folding;
- deleting a group;
- destroying the tree.

Each method is proved against a pure function of the arena. Lemmas then
prove that function's properties: it keeps the list well formed, it
changes only what it should, its greedy decisions, its round trips and
its idempotence.

The text cell is a class with the fields its setters update. Its exports
to plain text, Matlab, TeX, MathML, OMML, RTF and XML are pure functions
of three inputs:

- a value describing the cell (`Leaf`);
- the configuration (`Config`);
- what the cell reads of its neighbours (`Context`).

The diff cell is a class holding its two inner lists. It reaches those
lists only through a record of functions (`ListOps`) standing for the
list operations of the general cell.

Modules:

| module | file | models |
|---|---|---|
| `Wrappers` | wrappers.dfy | `Option`, for a pointer that may be NULL |
| `Strings` | strings.dfy | the string class's replace-all, right trim and escaping, and decimal formatting |
| `WorksheetLayout` | worksheet_layout.dfy | the greedy line breaking, the extent and the copied text, as functions of what they read of a cell |
| `DocumentList` | documentlist.dfy | the arena, the document list and drawing runs; the walks of `BreakLines`, `GetMaxPoint`, `GetString`/`Copy` and `CopyTree`/`CopySelection` |
| `Selection` | selection.dfy | the hit searches and the row correction of `SelectRect`; the variable walks and the folds of `SelectPoint` |
| `Deletion` | deletion.dfy | `CanDeleteSelection` and the group deletion of `DeleteSelection` |
| `Worksheet` | worksheet.dfy | `AddLine` and the class `MathCtrl` |
| `Greek` | greek.dfy | the Greek-letter tables of `TextCell` |
| `TextCell` | textcell.dfy | the class `TextCell` and its exports |
| `DiffCell` | diffcell.dfy | the class `DiffCell` and its exports |

Three spacing constants come from a header that is not part of this model:

- the left indent, `MC_BASE_INDENT`;
- the gap between cells, `MC_CELL_SKIP`;
- the gap between lines, `MC_LINE_SKIP`.

The model takes them as the fields of a `Spacing` value.

## Model

| member | source | states |
|---|---|---|
| Worksheet.MathCtrl.constructor | src/MathCtrl.cpp:36-51 | A new control has no cells, no first or last cell and no selection, and its invariant holds. |
| Worksheet.MathCtrl.AddLine | src/MathCtrl.cpp:176-198 | A missing or empty line changes nothing. Otherwise the new state is the appended document with the drawing pass broken from the line's first cell to the client width less nine. The line becomes the document when there was none, and `m_last` then follows it. The selection is emptied and the invariant kept. |
| Worksheet.AppendLine | src/MathCtrl.cpp:181-189 | Without a document, the line becomes the first cell. With one, the walk finds the last cell, which then links to and draws the line's first cell. The result is the appended document. |
| Worksheet.WalkToTail | src/MathCtrl.cpp:186-188 | The walk from `m_last` along next links ends on the last cell of the document. |
| Worksheet.AppendedChain | src/MathCtrl.cpp:181-191 | Appending a line that is linked in its own order gives a well-formed document: the old order followed by the line's cells. |
| Worksheet.AppendedDrawsLine | src/MathCtrl.cpp:189-192 | The drawing pass from the new line's first cell visits exactly the line's cells, in order. |
| Worksheet.AddedLineBreaksLine | src/MathCtrl.cpp:191-192 | Adding a line sets break flags on the new line's cells only, each to the greedy decision for the line alone. |
| Worksheet.AddedLineKeepsDocument | src/MathCtrl.cpp:186-189 | Adding a line changes no old cell except the old last one, which now links to and draws the line's first cell. |
| Worksheet.MathCtrl.ClearWindow | src/MathCtrl.cpp:285-295 | Clearing the window leaves no tree, no `m_last` and no selection, and the invariant holds. |
| Worksheet.MathCtrl.SelectRect | src/MathCtrl.cpp:331-406 | Without cells nothing changes. Otherwise the selection is the pair of ends of `RectSpan` over the drawing pass, and no cell changes. |
| Worksheet.MathCtrl.SelectPoint | src/MathCtrl.cpp:411-511 | Without cells nothing changes. Otherwise the folds and the selection are those `Clicked` gives, a later drag selects whole lines, and the invariant is kept. |
| Worksheet.MathCtrl.GetString | src/MathCtrl.cpp:516-529 | Without a selection the text is empty. Otherwise it is the selected cells' texts joined in drawing order. |
| Worksheet.MathCtrl.Copy | src/MathCtrl.cpp:534-558 | The copy succeeds exactly when there is a selection and the clipboard opens. The clipboard then gets the selected cells' text, with a newline before each line start and a space before each prompt or input when line breaks are asked for. |
| Worksheet.MathCtrl.CanDeleteSelection | src/MathCtrl.cpp:564-575 | The answer is `CanDelete` of the selection. |
| Deletion.CanDeleteIff | src/MathCtrl.cpp:564-575 | On a document, a selection may be deleted exactly when it is a single main prompt that has a next cell. |
| Worksheet.MathCtrl.DeleteSelection | src/MathCtrl.cpp:580-624 | Without a deletable selection nothing changes. Otherwise the new cells and order are the corrected `Deleted` of the group, `m_last` becomes the first cell, the selection is emptied and the invariant is kept. |
| Worksheet.MathCtrl.DeleteSelected | src/MathCtrl.cpp:584-620 | The same corrected deletion, once the selection is known to be deletable. |
| Worksheet.DeleteAt | src/MathCtrl.cpp:584-617 | Deleting the main prompt at rank k returns the cells of the corrected `Deleted` and its first cell. |
| Deletion.GroupEndWalk | src/MathCtrl.cpp:584-586 | The walk from the main prompt stops on the next main prompt, having passed exactly the cells of the group. |
| Deletion.DeleteGroup | src/MathCtrl.cpp:588-617 | Deleting the group gives the arena the corrected `Deleted` describes. |
| Deletion.SpliceFirst | src/MathCtrl.cpp:588-595 | Deleting a group that opens the document gives the arena `Deleted` describes. |
| Deletion.SpliceLater | src/MathCtrl.cpp:597-617 | Deleting a later group links the cell before it to the next main prompt, both ways, and cuts the group off after its last cell, as 597-604 do. The drawing links are then mended by the corrected repair of the Findings rows for 605-613: every drawing link into the group leads to that prompt. |
| Deletion.RetargetBefore | src/MathCtrl.cpp:605-613 | The corrected repair of the Findings rows for these lines: walking back from the cell before the group, every drawing link into the group is redirected to the main prompt after it, and no other link changes. As written, the lines retarget only the nearest label and the main prompt before it, and only when folded. |
| Deletion.DeletedRemovesGroup | src/MathCtrl.cpp:584-617 | The document after deletion is the old one without the main prompt and the cells up to the next main prompt. |
| Deletion.DeletedOnlyLinks | src/MathCtrl.cpp:588-617 | Deletion changes only links: every kept cell keeps its kind, text, layout data and fold state. |
| Deletion.DeletedKeepsFolds | src/MathCtrl.cpp:597-613 | Under the corrected repair, kept cells before the group keep their drawing links, except that a link into the group now leads to the main prompt after it. The cell just before the group draws that prompt. |
| Deletion.DeletedChain | src/MathCtrl.cpp:580-624 | The corrected deletion leaves a well-formed document. |
| Deletion.FoldedToDeletedDocument | src/MathCtrl.cpp:564-575 | The first counterexample document is well formed, and its prompt 2 may be deleted. |
| Deletion.AsWrittenLeavesDanglingLink | src/MathCtrl.cpp:605-613 | Under the repair as written, prompt 0, folded over prompt 2, still draws the deleted prompt 2. |
| Deletion.CorrectedMendsDanglingLink | src/MathCtrl.cpp:605-613 | The corrected deletion makes prompt 0 draw prompt 4, the main prompt after the group. |
| Deletion.LabelFoldedBeforeDocument | src/MathCtrl.cpp:564-575 | The second counterexample document is well formed, and its prompt 4 may be deleted. |
| Deletion.AsWrittenMovesUnrelatedFold | src/MathCtrl.cpp:605-613 | Under the repair as written, a folded label whose fold does not reach the group is made to draw the prompt after the group, which hides the kept prompt 3. |
| Deletion.CorrectedKeepsUnrelatedFold | src/MathCtrl.cpp:605-613 | The corrected deletion leaves that label drawing prompt 3. |
| Worksheet.MathCtrl.GetMaxPoint | src/MathCtrl.cpp:653-677 | The width and height are those of `Extent` over the boxes of the drawing pass, starting from the indent. |
| DocumentList.ExtentRun | src/MathCtrl.cpp:662-675 | The loop's result is `Extent` of the run's boxes. |
| DocumentList.ExtentCell | src/MathCtrl.cpp:663-674 | One step of the loop is one `ExtentStep`. |
| WorksheetLayout.ExtentHeight | src/MathCtrl.cpp:653-677 | The height is the indent plus the line height of each cell that starts a line, plus a line skip when the cell before it asked for a big skip. |
| WorksheetLayout.ExtentWidth | src/MathCtrl.cpp:653-677 | The width is the largest of the indent and the line ends: at least each of them, and equal to the indent or to one of them. A line-starting cell's line end is its width with an indent on each side; any other cell's is the running line width up to it, without the gap after it. |
| Worksheet.MathCtrl.BreakLines | src/MathCtrl.cpp:687-704 | Line breaking sets the cells to `BrokenLines` of the drawing pass at the client width less nine. Nothing else of the control changes, and the invariant is kept. |
| DocumentList.BreakRun | src/MathCtrl.cpp:692-703 | The loop sets each cell of the run to its greedy decision and changes nothing else. |
| DocumentList.BreakCell | src/MathCtrl.cpp:693-702 | One step clears the flag, sets it when the cell is forced or would reach the full width, and advances the running width. |
| DocumentList.BrokenLinesSpec | src/MathCtrl.cpp:687-704 | Line breaking changes only break flags, and only of cells the drawing pass visits, each set to the greedy decision. Cells folded away are untouched. |
| DocumentList.BrokenLinesChain | src/MathCtrl.cpp:687-704 | Line breaking keeps the list well formed. |
| DocumentList.BrokenLinesIdempotent | src/MathCtrl.cpp:687-704 | Breaking lines a second time at the same width changes nothing. |
| WorksheetLayout.LineStartsFirstLine | src/MathCtrl.cpp:692-703 | Before the first break, a cell starts a line exactly when it is forced to, or when the running width, the widths and gaps of the cells before it and its own width together reach the full width. |
| WorksheetLayout.LineStartsGreedy | src/MathCtrl.cpp:692-703 | On each later line, a cell starts the next line exactly when it is forced to, or when the line's width with it (indent, cells and gaps) reaches the full width. |
| WorksheetLayout.LineStartsSuffix | src/MathCtrl.cpp:692-703 | After a cell that starts a line, the decisions are those of a fresh line holding just that cell. |
| WorksheetLayout.LineStartsIgnoresBreakFlags | src/MathCtrl.cpp:692-703 | The decisions read only the cells' widths and forced breaks, not the break flags of an earlier pass. |
| DocumentList.SetBreaksTwice | src/MathCtrl.cpp:692-703 | Setting the same flags twice is setting them once. |
| DocumentList.SetBreaksExactly | src/MathCtrl.cpp:692-703 | Cells that agree with the flags on the run and are untouched off it are the result of setting the flags. |
| DocumentList.RunText | src/MathCtrl.cpp:520-527 | The walk from the selection start to its end, visiting every cell between, returns `CopyText` of the cells' pieces. |
| WorksheetLayout.CopyTextPlain | src/MathCtrl.cpp:516-529 | Without separators, the text is the cells' texts joined. |
| WorksheetLayout.CopyTextInterleaves | src/MathCtrl.cpp:539-550 | With separators, the text has each cell's text behind its separator: a newline before a line start, a space before a prompt or input. |
| WorksheetLayout.CopyTextNoSeparators | src/MathCtrl.cpp:539-550 | When no cell starts a line or is a prompt, the text with separators equals the text without them. |
| DocumentList.UpToStep | src/MathCtrl.cpp:539-550 | The walk cut at the selection end visits the run's cells and stops exactly at the end. |
| Worksheet.MathCtrl.CopyTree | src/MathCtrl.cpp:790-808 | The copy holds the drawn cells, in drawing order, relinked as a list of their own. |
| Worksheet.MathCtrl.CopySelection | src/MathCtrl.cpp:845-869 | The copy holds the selected cells, in drawing order, relinked as a list of their own. |
| DocumentList.CopyRun | src/MathCtrl.cpp:852-866 | The loop copies the run's cells up to the selection end, each one appended to the copied list. |
| DocumentList.CopyWholeRun | src/MathCtrl.cpp:795-806 | The loop copies every cell of the drawing pass. |
| DocumentList.AppendCopy | src/MathCtrl.cpp:858-863 | The first copy starts the list; each later copy is linked after the last one. |
| DocumentList.RelinkedDrawnInFull | src/MathCtrl.cpp:790-869 | A copied list is a well-formed document, drawn in full from its first cell, and it exports the same text as the cells it copies. |
| DocumentList.CopiesContent | src/MathCtrl.cpp:790-869 | Each copy equals its cell except for its links. |
| DocumentList.CopiesLinear | src/MathCtrl.cpp:790-869 | Each copy links to the copies before and after it, and draws the next one. |
| Worksheet.MathCtrl.DestroyTree | src/MathCtrl.cpp:770-787 | The first cell is forgotten and the document list is empty. |
| Worksheet.DestroyList | src/MathCtrl.cpp:776-785 | The walk visits and destroys every cell of the list, in document order. |
| DocumentList.DrawRunIsRun | src/MathCtrl.cpp:662-703 | A drawing pass visits distinct cells, each following its predecessor's drawing link, and ends on the cell with none. |
| DocumentList.RunUnique | src/MathCtrl.cpp:662-703 | The drawing links determine the pass. |
| Selection.SelectInRect | src/MathCtrl.cpp:353-400 | The selection is the pair of ends of `RectSpan` over the drawing pass. |
| Selection.WalkToFirst | src/MathCtrl.cpp:359-363 | The hit search returns the first cell of the pass that the rectangle meets, or none. |
| Selection.WalkToLast | src/MathCtrl.cpp:364-368 | The search returns the last cell after the first hit that the rectangle meets, or the first hit. |
| Selection.CorrectRows | src/MathCtrl.cpp:373-397 | The row correction gives the ends of `RowSpan`. |
| Selection.RectSpanSymmetric | src/MathCtrl.cpp:344-351 | Dragging from one corner to the other selects the same as dragging back. |
| Selection.RectSpanEmpty | src/MathCtrl.cpp:359-363 | The selection is empty exactly when the rectangle meets no cell. |
| Selection.RectSpanOneRow | src/MathCtrl.cpp:359-371 | When every cell the rectangle meets lies on one row, the selection runs from the first to the last of them, and no cell outside it is met. |
| Selection.RectSpanWithinHits | src/MathCtrl.cpp:373-397 | The corrected start lies between the first and last hit. When it lies before the last hit, the corrected end does too. |
| Selection.ClickAt | src/MathCtrl.cpp:411-511 | The walks of a click give `Clicked`. |
| Selection.Pick | src/MathCtrl.cpp:436-508 | What a click does to the cell it hit is `Picked`. |
| Selection.ClickedValid | src/MathCtrl.cpp:411-511 | A click keeps the document well formed. It leaves a selection with both ends in the document, or no selection. |
| Selection.PickedOutputRow | src/MathCtrl.cpp:441-448 | A click on an output cell selects the whole row of output cells around it and changes no cell. |
| Selection.RowStartAfterOther | src/MathCtrl.cpp:442-444 | The row found by walking back starts the document or follows a cell of another kind. |
| Selection.RowEndBeforeOther | src/MathCtrl.cpp:445-447 | The row found by walking forward ends the pass or is followed by a cell of another kind. |
| Selection.WalkBackVariables | src/MathCtrl.cpp:442-444 | The walk back over variable cells stops at `VarStart`. |
| Selection.WalkForwardVariables | src/MathCtrl.cpp:445-447 | The walk forward stops on the last variable cell drawn after the hit. |
| Selection.FoldTarget | src/MathCtrl.cpp:459-469 | The fold loop returns `FoldTargetOf`: the first cell from two places on that ends the fold, or none. |
| Selection.Toggle | src/MathCtrl.cpp:452-502 | A click on a label or main prompt sets the arena to `Toggled`: a folded cell unfolds, and an unfolded one folds as far as its kind says. |
| Selection.ToggledChain | src/MathCtrl.cpp:452-502 | A toggle changes the drawing link and fold marks of one cell only, and keeps the document well formed. |
| Selection.FoldThenUnfold | src/MathCtrl.cpp:452-502 | Folding a cell and clicking it again restores it exactly, and nothing else changes. |
| WorksheetLayout.CopyTextStep | src/MathCtrl.cpp:539-550 | One more cell appends its separator and its text. |
| TextCell.TextCell.constructor | src/TextCell.cpp:33-78 | A new cell has its type from its style and its text as SetValue sets it. Its alternative glyphs are off, and it has no label, copy text or fold. |
| TextCell.TypeOfStyleClasses | src/TextCell.cpp:38-65 | Every formula style gives the default type, both label styles give the label type, and every other style has a type of its own. |
| TextCell.TextCell.SetStyle | src/TextCell.cpp:91-103 | The style is set. A gamma or psi function now shows its capital Greek letter. Labels and prompts start a hard line. Nothing else changes. |
| TextCell.TextCell.SetValue | src/TextCell.cpp:113-345 | The text gets the input substitutions and the displayed text follows it. A number is split anew for the displayed digits, and the digit setting is remembered. Both alternative glyph flags are cleared. Nothing else changes. |
| TextCell.ArrowRoundTrip | src/TextCell.cpp:120-126 | On text holding no newline, glyph minus or arrow glyph, the plain-text exports' rewriting undoes SetValue's. |
| TextCell.DisplayFor | src/TextCell.cpp:129-139 | Gamma and psi functions show as capital Gamma and Psi; every other text shows as it is. |
| TextCell.TruncateSplits | src/TextCell.cpp:219-237 | A number longer than the displayed digits is cut into head and tail of `KeptDigits` each, with a note giving exactly how many digits lie between. A number that fits gets three empty parts. |
| TextCell.DigitsNoteCount | src/TextCell.cpp:219-237 | The count in the note reads back as the number of digits left out. |
| TextCell.ShortNumberNotTruncated | src/TextCell.cpp:1622-1629 | A short number is never truncated when at least three digits are displayed. |
| TextCell.TextCell.RecalculateWidths | src/TextCell.cpp:409-450 | When no recalculation is due, nothing changes. When one is due, the label style is switched as the configuration asks and the glyphs are those SetAltText chooses for the switched style. A number whose displayed-digits setting changed is set anew: its text gets the input substitutions again, and it is split for the new setting. Copy text, user label, flags and type are unchanged. Afterwards the cell has no reason of its own to recalculate again. |
| TextCell.SwitchLabelStyleSettles | src/TextCell.cpp:391-436 | The switch leaves other styles alone, and a second switch changes nothing. It removes both label reasons to recalculate. A label is a user label exactly when user labels are wanted and there is one. |
| TextCell.TextCell.SetAltText | src/TextCell.cpp:1631-1677 | The glyphs become `NextAltGlyphs` of the old ones; nothing else changes. |
| TextCell.AltGlyphsChoice | src/TextCell.cpp:1631-1677 | Outside Greek constants and strings, each flag is set exactly when its glyph is not empty, and a TeX glyph comes with a Unicode one. The TeX font is CMR10 for `+` and `=`, CMMI10 for `%pi` and CMSY10 otherwise. |
| TextCell.IsOperatorTexts | src/TextCell.cpp:798-805 | The operator texts are exactly the runs of the four ASCII operators, the empty one included, and the glyph minus. |
| TextCell.DiffPartFields | src/TextCell.cpp:1617-1620 | A diff cell's argument, split at its commas, reads back as an empty field, the variable's text and the order 1, for a variable without a comma. |
| TextCell.ToStringRoundTrip | src/TextCell.cpp:807-881 | Text set through SetValue comes back unchanged from the plain-text export of a default-style cell with no copy text, label or line break. This holds for text without newlines, glyph minus or arrow glyphs. |
| TextCell.PlainNames | src/TextCell.cpp:830-853 | A variable or function name of one character, or of reserved characters only, is copied as it is. Any other name has each reserved character quoted by exactly one backslash, a kept trailing parenthesis excepted. |
| TextCell.QuoteNameEscapes | src/TextCell.cpp:852-853 | The escaping loop puts one backslash before each reserved character, and unescaping undoes it. |
| TextCell.EscapeEachUndone | src/TextCell.cpp:852-853 | Escaping a name and unescaping it gives the name back. |
| TextCell.PlainKeepsParenthesis | src/TextCell.cpp:847-853 | A cell keeping its trailing opening parenthesis exports it, unquoted, after the quoted rest of the name. |
| TextCell.PlainSuffixes | src/TextCell.cpp:858-878 | A string is put in double quotes. A label or prompt loses trailing white space and gets a tab. The next cell decides only whether a newline follows. |
| TextCell.ScanOperatorName | src/TextCell.cpp:831-841 | The scan is true exactly when every character of the name is reserved and none is a space. |
| TextCell.QuoteReserved | src/TextCell.cpp:852-853 | The loop returns `QuoteName`, which is `Escape` on the reserved set. |
| TextCell.MatlabNames | src/TextCell.cpp:883-961 | A Matlab variable or function name made only of reserved characters is copied as it is. Any other name, however short, unescapes back to its copy text, with `%e`, `%i` and `%pi` spelled `e`, `i` and `pi`. |
| TextCell.TeXSymbolsLeave | src/TextCell.cpp:986-1123 | A text holding no character the brace, umlaut and symbol substitutions replace passes them unchanged, in every style. |
| TextCell.TeXSymbolsKeepProducts | src/TextCell.cpp:986-1123 | The multiplication signs pass every substitution unchanged and reach the product handling. |
| TextCell.TeXUmlautsLeave | src/TextCell.cpp:1010-1015 | A text with no umlaut is left as it is. |
| TextCell.NorSignAsWritten | src/TextCell.cpp:1036-1038 | As written, the NOR sign U+22BD reaches TeX unchanged, because both rules name U+22BB. |
| TextCell.NorSignCorrected | src/TextCell.cpp:1036-1038 | With the second rule naming U+22BD, a NOR sign becomes a barred `\vee`. |
| TextCell.SpacedProductCounterexample | src/TextCell.cpp:1137-1143 | As written, "ab" times "c" gets no thin space, though "ab" is set in `\mathit`. |
| TextCell.SpacedProductEitherName | src/TextCell.cpp:1137-1143 | Corrected, between two variables without subscripts, the thin space appears exactly when either name has more than one character. |
| TextCell.HiddenProductInTeX | src/TextCell.cpp:1126-1151 | A hidden default-style multiplication sign becomes a thin space under the corrected two-variable test of the Findings row for 1137-1143 (either name longer than one character), and a plain space otherwise. |
| TextCell.HiddenOtherInTeX | src/TextCell.cpp:1126-1151 | Any other hidden default-style text exports as nothing. |
| TextCell.HideProductKeepsInvisibleTimes | src/TextCell.cpp:1385-1391 | A hidden cell's MathML content is the invisible-times entity or nothing. |
| TextCell.HiddenProductInMathML | src/TextCell.cpp:1375-1456 | In MathML, a hidden cell of a plain style is one operator element holding the invisible-times entity or nothing. |
| TextCell.HiddenProductInOMML | src/TextCell.cpp:1458-1531 | In OMML, a hidden cell other than a function name exports an invisible times or an empty run. |
| TextCell.OMMLTextKeepsProduct | src/TextCell.cpp:1473-1479 | The run text of a hidden product is the product sign or nothing, whatever the style. |
| TextCell.RTFCases | src/TextCell.cpp:1533-1554 | Only labels and empty cells have RTF. An empty cell gives a space. A label gives `\cf`, its style's code, then a group holding the escaped text and `\cf0`. The text is the user-defined label in parentheses when user labels are shown and one is set, otherwise the displayed text, with every `-->` made an arrow. The second replacement, of ` --> `, never finds anything (`SpacedArrowGone`). |
| TextCell.XmlAttributeNames | src/TextCell.cpp:1594-1612 | The attributes are written in a fixed order, each one only when its condition holds. |
| TextCell.XmlTagsAndAttributes | src/TextCell.cpp:1556-1615 | The tag is `h` for hidden cells whatever the style. User labels carry `userdefined="yes"`. `breakline` appears only for forced breaks outside labels. An error or warning gives a type. Label, copy text and tool tip appear exactly when they are not empty. |
| TextCell.XmlNamesPresent | src/TextCell.cpp:1594-1612 | Each attribute name is present exactly when its condition holds. |
| TextCell.SymbolTables | src/TextCell.cpp:1786-1994 | Keeping percent signs matters only for `%e` and `%i`, and every symbol with a TeX-font glyph also has a Unicode one. |
| Greek.GreekUnicodeNames | src/TextCell.cpp:1679-1784 | A Greek name gives the same letter with or without its percent sign, and a text that is no Greek name comes back unchanged. |
| Greek.GreekLetterInjective | src/TextCell.cpp:1679-1784 | Different Greek names give different letters. |
| Greek.GreekLetterInverse | src/TextCell.cpp:1679-1784 | Every letter of the Unicode table leads back to its name. |
| Greek.GreekTablesAgree | src/TextCell.cpp:1679-1956 | The Unicode and TeX-font tables know the same Greek names, and no entry is empty. |
| Greek.GreekXiAsWritten | src/TextCell.cpp:1216-1265 | As written, small and capital xi both give the undefined macro `\ui`. |
| Greek.GreekConstantTeXXi | src/TextCell.cpp:1188-1287 | Corrected, small and capital xi each have a macro no other constant shares, and `\ui` no longer appears. |
| DiffCell.DiffCell.constructor | src/DiffCell.cpp:33-38 | A new diff cell holds an empty text cell in each place. |
| DiffCell.DiffCell.GetInnerCells | src/DiffCell.cpp:55-63 | The inner lists, base first, with a missing one left out. When both are present, they are exactly base and diff. |
| DiffCell.InnerCells | src/DiffCell.cpp:55-63 | There is one entry per present list, the base first, and nothing else. |
| DiffCell.DiffCell.SetDiff | src/DiffCell.cpp:66-73 | A null diff changes nothing. Otherwise it is stored with its head's multiplication dot suppressed. Nothing else changes. |
| DiffCell.DiffCell.SetBase | src/DiffCell.cpp:75-80 | A null base changes nothing. Otherwise it is stored as it is. Nothing else changes. |
| DiffCell.DiffCell.RecalculateWidths | src/DiffCell.cpp:82-92 | Unless the cell is broken into lines, its width is both lists' widths side by side. |
| DiffCell.DiffCell.RecalculateHeight | src/DiffCell.cpp:94-104 | Unless the cell is broken into lines, the center line is the lower of the two lists' center lines, and the height adds the larger drop below it. |
| DiffCell.DiffCell.ToString | src/DiffCell.cpp:122-133 | When broken into lines, the export is empty. Otherwise it is `'diff(`, the base list from its second cell on, the diff list, then `)`. |
| DiffCell.MatlabIsStringShape | src/DiffCell.cpp:135-146 | The Matlab export is the plain-text export taken with the lists' Matlab exports. |
| DiffCell.DiffCell.ToTeX | src/DiffCell.cpp:148-162 | When broken into lines, the export is empty. Otherwise it is the diff part, made partial when asked, followed by the function. |
| DiffCell.DiffTeXWithoutFraction | src/DiffCell.cpp:148-162 | A diff part with no ordinary derivative fraction is the same whether or not partial derivatives are asked for. |
| DiffCell.PartialLeavesNoOrdinary | src/DiffCell.cpp:152-161 | When partial derivatives are asked for, no ordinary derivative fraction is left in the diff part, whatever its TeX. |
| DiffCell.DiffCell.ToMathML | src/DiffCell.cpp:164-177 | The export is one `mrow` holding the MathML of the diff list and then, when present, that of the base list. |
| DiffCell.OMMLIsMathMLRow | src/DiffCell.cpp:164-188 | The OMML export is the MathML export without its row, when the lists export the same to both. |
| DiffCell.DiffCell.ToXML | src/DiffCell.cpp:190-197 | The export is a `d` element holding the diff list, then the base list, with a line-break attribute exactly when one is forced. |
| DiffCell.BrokenIntoLinesExports | src/DiffCell.cpp:122-197 | Line breaking empties the plain-text, Matlab and TeX exports, while the MathML and XML exports stay non-empty. |
| DiffCell.ExportsIgnoreLineBreaking | src/DiffCell.cpp:164-197 | Two cells with the same lists and forced-break flag have the same MathML, OMML and XML, whether or not either is broken into lines. |
| Strings.EscapeEachIsEscape | src/TextCell.cpp:852-853 | Replacing each reserved character in turn, backslash first, is the one-pass escape. |
| Strings.UnescapeEscape | src/TextCell.cpp:852-853 | Unescaping an escaped text, followed by anything, gives the text back. |
| Strings.ParseNatToString | src/TextCell.cpp:219-237 | Formatting a number in decimal and reading it back gives the number. |

## Left out

- Fonts, text measurement and drawing are left out, because they need the GUI toolkit. This covers `Draw`, `SetFont`, `GetTextSize` and the measuring part of `RecalculateWidths`/`RecalculateSize`. Cell widths, heights and drops are inputs (`Box`, `Place`, `ListOps`).
- The window code is left out, because it is GUI state with no bearing on the document: Freeze/Thaw, Refresh, scrolling, `AdjustSize`, timers and mouse events.
- `SelectRect` and `SelectPoint` take the hit tests as predicates. Which cells the mouse rectangle meets, or the clicked point lies in, is a drawing question.
- `SelectInner` (src/MathCtrl.cpp:399-400) is not part of this model; the selection is left at its span.
- `Copy` takes the clipboard's opening as the parameter `clipboardOpens`. Clipboard data objects are left out.
- File, bitmap, HTML and other export code of the control is left out; it is outside this core.
- MathCell.h is not part of this model. Four assumptions stand in for it: a cell breaks here when its break flag or forced-break flag is set; `AppendCell` links forward, back and for drawing; `GetPrevious()` returns the back link `m_previous`, which `Selection.WalkBackVariables` and `VarStart` walk for a click on output (src/MathCtrl.cpp:441-449); and `Copy(false)` copies a cell's content without its links, on which `DocumentList.CopiesContent` and `Relinked` build for `CopyTree` and `CopySelection`.
- `Worksheet.MathCtrl.DestroyTree` states weaker than a full clear: `m_last` and the selection keep pointing at destroyed cells, as in the source. The destroyed cells stay in the arena.
- `Worksheet.MathCtrl.AddLine` does not model the `Freeze` without a `Thaw` on the early return for a NULL line (src/MathCtrl.cpp:179-180).
- `TextCell.TextCell.SetValue` leaves out the tool tips and the rounding-error checks. These are GUI hints with regular expressions that do not change the text.
- `TextCell.TextCell.SetValue` leaves out the substitution of character U+DCB6 (src/TextCell.cpp:120): it is a lone surrogate and not a character of a Dafny string.
- The copy constructors of TextCell (src/TextCell.cpp:354-372) and DiffCell (src/DiffCell.cpp:40-48) are not part of this model, because `CopyCommonData` and `CopyList` are defined elsewhere.
- `TextCell::GetInnerCells` (src/TextCell.cpp:85-89) is not part of this model; a text leaf has no inner cells.
- XML, RTF and MathML escaping, and the general cell's list exports, are parameters (`Collaborators`, `ListOps`), because they are defined outside the three core files.
- The RTF style number of a label comes as a parameter, because the style enumeration header is not part of this model.
- `TextCell.SymbolTables` covers the variant of GetSymbolUnicode for platforms other than Windows. The Windows variant (src/TextCell.cpp:1800-1817) is left out.
- `Greek.GreekConstantTeXXi` states weaker than full injectivity of the corrected Greek-constant table. It proves only that `\xi` and `\Xi` come from their own constants and that `\ui` is gone; the full 48-way case split is too costly.
- `Worksheet.MathCtrl.DeleteSelection` performs the corrected deletion of the Findings rows, not src/MathCtrl.cpp:605-613 as written, which retarget only the nearest folded label and the main prompt before it.
- `Worksheet.MathCtrl.DeleteSelected` performs the corrected deletion of the Findings rows, not src/MathCtrl.cpp:605-613 as written.
- `Worksheet.DeleteAt` returns the corrected deletion of the Findings rows, not the arena src/MathCtrl.cpp:584-617 produce as written (the function `DeletedAsWritten`).
- `Deletion.DeleteGroup` yields the corrected deletion of the Findings rows, not the arena src/MathCtrl.cpp:588-617 produce as written (the function `DeletedAsWritten`).
- `Deletion.DeletedChain` is stated for the corrected deletion; the deletion as written can leave a drawing link into the deleted group (`Deletion.AsWrittenLeavesDanglingLink`).
- `Deletion.SpliceLater` follows the corrected drawing-link repair of the Findings rows, not src/MathCtrl.cpp:605-613 as written; the as-written repair is the function `DeletedAsWritten`, used only by the counterexample lemmas.
- `Deletion.RetargetBefore` follows the corrected drawing-link repair of the Findings rows, not src/MathCtrl.cpp:605-613 as written, which retarget only the nearest label and the main prompt before it, and only when folded.
- `Deletion.DeletedKeepsFolds` states the fold repair of the corrected deletion, not that of src/MathCtrl.cpp:597-613 as written.
- `TextCell.HiddenProductInTeX` states the corrected thin-space test, not src/TextCell.cpp:1143 as written, which tests the next cell's name twice.
- `TextCell.ToTeX` is the corrected export: it uses the corrected thin-space test, the corrected NOR rule (src/TextCell.cpp:1036-1038) and the corrected Greek-constant table (src/TextCell.cpp:1216-1265) of the Findings rows, not those lines as written.
- `TextCell.TextCell.SetStyle` reads `HardLineBreak()` at src/TextCell.cpp:101 as setting a hard-line flag, and `ToOMML` (through `TextOnlyLine`) reads the same call at src/TextCell.cpp:1462-1463 as querying it. Cell.h, which declares it, is not part of this model; if the call at :101 is only a query, SetStyle leaves the flag as it was.
- `TextCell.TextCell.RecalculateWidths` does not promise that the tool tip is kept when a number is set anew, because SetValue's tool-tip messages are left out.
- `WorksheetLayout.LineStartsFirstLine` follows the code: a cell breaks when the line reaches the full width (`>=`), not only when it exceeds it.
- `Selection.FoldTarget` follows the code: a label fold stops at the first cell after it that is not a variable, not at the next prompt.

## Findings

| source | as written | input that shows it | evidently intended | confidence | as-written member | corrected member |
|---|---|---|---|---|---|---|
| src/TextCell.cpp:1137-1143 | The thin-space test between two variables checks the next cell's name length twice, and never the previous cell's. | A hidden `*` between variables "ab" and "c" | The thin space appears when either name is longer than one character | not executed | TextCell.SpacedProductCounterexample | TextCell.SpacedProductEitherName |
| src/TextCell.cpp:1036-1038 | Both NOR rules of the second symbol pass name U+22BB, so the second rule never fires. | A default-style cell holding U+22BD | U+22BD becomes a barred `\vee` | not executed | TextCell.NorSignAsWritten | TextCell.NorSignCorrected |
| src/TextCell.cpp:1216-1265 | Small and capital xi both return `\ui `, which is not a TeX macro. | The Greek constants `%xi` and `%Xi` | `\xi ` and `\Xi `, distinct from every other constant | not executed | Greek.GreekXiAsWritten | Greek.GreekConstantTeXXi |
| src/MathCtrl.cpp:605-613 | The drawing-link repair after a deletion starts from the nearest label before the group. With no label, it does nothing, so a folded main prompt keeps drawing the deleted one. | Main prompt 0 folded over prompt 2; delete prompt 2 | Every drawing link into the group leads to the main prompt after it | not executed | Deletion.AsWrittenLeavesDanglingLink | Deletion.CorrectedMendsDanglingLink |
| src/MathCtrl.cpp:605-613 | The repair redirects the nearest folded label before the group even when its fold ends before the group. | Label 1 folded up to prompt 3; delete prompt 4 | A fold that does not reach the group is kept | not executed | Deletion.AsWrittenMovesUnrelatedFold | Deletion.CorrectedKeepsUnrelatedFold |
