/**
  The low-stock highlight: the check `checkRowHighlight` /
  `checkRowHighlightMulti` makes on the fill of a row's identifier cell, and
  the fills the toggle paints over columns A..U of a row.
 */
module Highlight {
  import opened Wrappers
  import opened JsValues
  import opened Cells
  import opened Config
  import opened Sheets
  import opened Search

  /** The fill the toggle paints to highlight a row: solid opaque yellow. */
  const YellowFill := Fill("solid", Some(Color("FFFFFF00")))

  /** The fill the toggle paints to remove a highlight: no pattern, no colour. */
  const NoFill := Fill("none", None)

  /** The columns the toggle paints: A up to one past the last audit column. */
  const PaintEnd := DateEndIndex + 1

  /** The colour test as the editor writes it: `FFFF00` anywhere in the upper-cased ARGB text. */
  predicate IsYellowAsWritten(argb: string) {
    Contains(AsciiUpper(argb), "FFFF00")
  }

  /** The colour test as intended: the RGB part (the last six hex digits) is yellow. */
  predicate IsYellow(argb: string) {
    var u := AsciiUpper(argb);
    |u| >= 6 && u[|u| - 6..] == "FFFF00"
  }

  /** `cell.fill && cell.fill.fgColor` and the colour test as written. */
  predicate HasYellowFillAsWritten(fill: Option<Fill>) {
    fill.Some? && fill.value.fgColor.Some? && IsYellowAsWritten(fill.value.fgColor.value.argb)
  }

  /** `cell.fill && cell.fill.fgColor` and the intended colour test. */
  predicate HasYellowFill(fill: Option<Fill>) {
    fill.Some? && fill.value.fgColor.Some? && IsYellow(fill.value.fgColor.value.argb)
  }

  /** `checkRowHighlightMulti` with the colour test as written. */
  predicate CheckRowHighlightMultiAsWritten(sheets: seq<Sheet>, sheetName: string, row: int) {
    match FindSheet(sheets, sheetName)
    case None => false
    case Some(i) => HasYellowFillAsWritten(GetCell(sheets[i], row, SkuIndex).fill)
  }

  /** `checkRowHighlightMulti`: the identifier cell of the row carries a yellow fill. */
  function CheckRowHighlightMulti(sheets: seq<Sheet>, sheetName: string, row: int): (b: bool)
    ensures FindSheet(sheets, sheetName).None? ==> !b
  {
    match FindSheet(sheets, sheetName)
    case None => false
    case Some(i) => HasYellowFill(GetCell(sheets[i], row, SkuIndex).fill)
  }

  /** `checkRowHighlight`: the same check, written out separately for the WAREHOUSE sheet. */
  function CheckRowHighlight(sheets: seq<Sheet>, row: int): (b: bool)
    ensures FindSheet(sheets, HeaderSheet).None? ==> !b
    ensures b == CheckRowHighlightMulti(sheets, HeaderSheet, row)
  {
    var found := FindSheet(sheets, HeaderSheet);
    if found.None? then false
    else
      var cell := GetCell(sheets[found.value], row, SkuIndex);
      cell.fill.Some? && cell.fill.value.fgColor.Some? && IsYellow(cell.fill.value.fgColor.value.argb)
  }

  /** `checkRowHighlight` with the colour test as written. */
  function CheckRowHighlightAsWritten(sheets: seq<Sheet>, row: int): (b: bool)
    ensures FindSheet(sheets, HeaderSheet).None? ==> !b
    ensures b == CheckRowHighlightMultiAsWritten(sheets, HeaderSheet, row)
  {
    var found := FindSheet(sheets, HeaderSheet);
    if found.None? then false
    else
      var cell := GetCell(sheets[found.value], row, SkuIndex);
      cell.fill.Some? && cell.fill.value.fgColor.Some? && IsYellowAsWritten(cell.fill.value.fgColor.value.argb)
  }

  /** The row after columns 1..hi have been given `fill`; the values stay. */
  function PaintRow(sheet: Sheet, row: int, fill: Fill, hi: int): (s: Sheet)
    requires row >= 1
    ensures s.name == sheet.name
    ensures WellFormed(sheet) ==> WellFormed(s)
    ensures forall r, c ::
      GetCell(s, r, c) == if r == row && 1 <= c <= hi then GetCell(sheet, r, c).(fill := Some(fill)) else GetCell(sheet, r, c)
    decreases hi
  {
    if hi < 1 then sheet
    else
      var painted := PaintRow(sheet, row, fill, hi - 1);
      WriteCell(painted, row, hi, GetCell(painted, row, hi).(fill := Some(fill)))
  }

  /** A highlight never touches a value: every resolved value of the sheet stays. */
  lemma PaintKeepsValues(sheet: Sheet, row: int, fill: Fill, hi: int)
    requires row >= 1
    ensures forall r, c :: ValueAt(PaintRow(sheet, row, fill, hi), r, c) == ValueAt(sheet, r, c)
  {
  }

  /** Searching reads values only, so the matches do not depend on any fill. */
  lemma {:induction false} RowMatchesSameValues(a: Sheet, b: Sheet, query: string, skuCol: int, qtyCol: int, hi: int)
    requires a.name == b.name
    requires forall r, c :: ValueAt(a, r, c) == ValueAt(b, r, c)
    ensures RowMatches(a, query, skuCol, qtyCol, hi) == RowMatches(b, query, skuCol, qtyCol, hi)
    decreases hi
  {
    if hi >= 2 {
      RowMatchesSameValues(a, b, query, skuCol, qtyCol, hi - 1);
      assert MatchAt(a, hi, skuCol, qtyCol) == MatchAt(b, hi, skuCol, qtyCol);
    }
  }

  /** Highlighting a row of a sheet leaves what a search finds on it unchanged. */
  lemma HighlightKeepsSearch(sheet: Sheet, row: int, fill: Fill, query: string)
    requires 1 <= row <= sheet.rowCount
    ensures SheetMatches(PaintRow(sheet, row, fill, PaintEnd), query) == SheetMatches(sheet, query)
  {
    var painted := PaintRow(sheet, row, fill, PaintEnd);
    PaintKeepsValues(sheet, row, fill, PaintEnd);
    assert painted.rowCount == sheet.rowCount by {
      PaintKeepsRowCount(sheet, row, fill, PaintEnd);
    }
    RowMatchesSameValues(painted, sheet, query, SkuIndex, QtyIndex, sheet.rowCount);
  }

  /** Painting a row that exists does not add rows. */
  lemma {:induction false} PaintKeepsRowCount(sheet: Sheet, row: int, fill: Fill, hi: int)
    requires 1 <= row <= sheet.rowCount
    ensures PaintRow(sheet, row, fill, hi).rowCount == sheet.rowCount
    decreases hi
  {
    if hi >= 1 {
      PaintKeepsRowCount(sheet, row, fill, hi - 1);
    }
  }

  /** Yellow `FFFFFF00` passes both tests, and a fill without a colour passes neither. */
  lemma EditorFillsAgree()
    ensures HasYellowFill(Some(YellowFill)) && HasYellowFillAsWritten(Some(YellowFill))
    ensures !HasYellowFill(Some(NoFill)) && !HasYellowFillAsWritten(Some(NoFill))
  {
    var u := AsciiUpper("FFFFFF00");
    assert u == "FFFFFF00";
    assert OccursAt(u, "FFFF00", 2);
  }

  /** Every colour the intended test accepts, the test as written accepts too. */
  lemma CorrectedIsStricter(argb: string)
    requires IsYellow(argb)
    ensures IsYellowAsWritten(argb)
  {
    var u := AsciiUpper(argb);
    assert OccursAt(u, "FFFF00", |u| - 6);
  }

  /**
    The test as written takes opaque red `FFFF0000` for yellow: the alpha
    byte FF and the red byte FF are followed by a 00 green byte, and
    `FFFF00` occurs at the start.
   */
  lemma RedPassesAsWritten()
    ensures IsYellowAsWritten("FFFF0000")
    ensures !IsYellow("FFFF0000")
  {
    var u := AsciiUpper("FFFF0000");
    assert u == "FFFF0000";
    assert OccursAt(u, "FFFF00", 0);
    assert u[|u| - 6..] == "FF0000";
  }

  /** The test upper-cases first, so lower-case hex digits count the same. */
  lemma YellowIgnoresCase(argb: string)
    ensures IsYellow(AsciiUpper(argb)) == IsYellow(argb)
    ensures IsYellowAsWritten(AsciiUpper(argb)) == IsYellowAsWritten(argb)
  {
    UpperIdempotent(argb);
  }

  /** A red fill on a WAREHOUSE row: the check as written reports it highlighted. */
  lemma RedRowCountsAsHighlighted()
    ensures var red := Cell(Str("SKU-1"), Some(Fill("solid", Some(Color("FFFF0000")))));
      var sheet := Sheet(HeaderSheet, 2, map[(2, 2) := red]);
      && CheckRowHighlightMultiAsWritten([sheet], HeaderSheet, 2) && !CheckRowHighlightMulti([sheet], HeaderSheet, 2)
      && CheckRowHighlightAsWritten([sheet], 2) && !CheckRowHighlight([sheet], 2)
  {
    RedPassesAsWritten();
  }

  /**
    After the toggle has painted the row yellow the check reports it
    highlighted, and after it has painted it with no fill it does not.
   */
  lemma PaintDecidesCheck(sheet: Sheet, row: int, fill: Fill)
    requires row >= 1
    requires fill == YellowFill || fill == NoFill
    ensures HasYellowFill(GetCell(PaintRow(sheet, row, fill, PaintEnd), row, SkuIndex).fill) <==> fill == YellowFill
    ensures HasYellowFillAsWritten(GetCell(PaintRow(sheet, row, fill, PaintEnd), row, SkuIndex).fill) <==> fill == YellowFill
  {
    assert GetCell(PaintRow(sheet, row, fill, PaintEnd), row, SkuIndex).fill == Some(fill);
    EditorFillsAgree();
  }
}
