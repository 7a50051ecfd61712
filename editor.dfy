/**
  The loaded workbook and the editing actions on it: saving a quantity
  (`saveQuantity`, `saveQuantityMulti`), toggling the low-stock highlight
  (`toggleHighlight`, `toggleHighlightMulti`) and writing the header line
  (`handleUpdateHeader`). What the page reads from its inputs (the typed
  quantity, the name, whether the result is shown highlighted) and the
  current date are parameters.
 */
module Editor {
  import opened Wrappers
  import opened JsValues
  import opened Cells
  import opened Address
  import opened Config
  import opened Sheets
  import opened DateFormat
  import opened Audit
  import opened Highlight
  import opened Search

  /** The status a save ends with. */
  datatype SaveOutcome =
    | InvalidQuantity
    | SaveSheetMissing
      /** `dateColumn` is `None` when L..T had no blank column. */
    | Saved(oldQuantity: int, newQuantity: int, dateColumn: Option<int>)

  /** The status a header update ends with. */
  datatype HeaderOutcome =
    | NameMissing
    | HeaderSheetMissing
    | HeaderUpdated(text: string)

  /** The fill the toggle paints: none when the row is shown highlighted, yellow otherwise. */
  function ToggleFill(isCurrentlyHighlighted: bool): Fill {
    if isCurrentlyHighlighted then NoFill else YellowFill
  }

  /**
    The writes `saveQuantityMulti` makes on the found sheet once the entry
    text is known: J gets the new quantity, then the first blank column of
    L..T found after that write gets the entry and the column after it is
    cleared. Returns the sheet and the audit column.
   */
  method WriteRow(sheet: Sheet, rowNumber: int, newQuantity: int, dateStr: string)
    returns (saved: Sheet, dateColIndex: Option<int>)
    requires rowNumber >= 1
    ensures saved == RecordRow(sheet, rowNumber, newQuantity, dateStr)
    ensures dateColIndex == NextDateColumn(sheet, rowNumber)
    ensures WellFormed(sheet) ==> WellFormed(saved)
  {
    var qtyColIndex := ColumnLetterToIndex(QuantityColumn);
    assert qtyColIndex == 10 by {
      ColumnNumbers();
    }
    var updated := SetValue(sheet, rowNumber, qtyColIndex, Num(newQuantity));
    dateColIndex := FindNextEmptyDateColumn(updated, rowNumber);
    saved := updated;
    if dateColIndex.Some? {
      saved := SetValue(saved, rowNumber, dateColIndex.value, Str(dateStr));
      var clearColIndex := dateColIndex.value + 1;
      var endIndex := ColumnLetterToIndex(DateColumnsEnd);
      assert clearColIndex <= endIndex + 1 by {
        ColumnNumbers();
      }
      if clearColIndex <= endIndex + 1 {
        saved := SetValue(saved, rowNumber, clearColIndex, Empty);
      }
    }
    QuantityWriteKeepsSlot(sheet, rowNumber, newQuantity);
  }

  /**
    The loop of `toggleHighlightMulti`: every cell of columns A..U of the
    row gets no fill when the row is shown highlighted and yellow otherwise.
   */
  method PaintCells(sheet: Sheet, rowNumber: int, isCurrentlyHighlighted: bool) returns (painted: Sheet)
    requires rowNumber >= 1
    ensures painted == PaintRow(sheet, rowNumber, ToggleFill(isCurrentlyHighlighted), PaintEnd)
    ensures WellFormed(sheet) ==> WellFormed(painted)
  {
    painted := sheet;
    var startCol := ColumnLetterToIndex(FirstColumn);
    var endIndex := ColumnLetterToIndex(DateColumnsEnd);
    var endCol := endIndex + 1;
    assert startCol == 1 && endCol == PaintEnd by {
      ColumnNumbers();
    }
    for col := startCol to endCol + 1
      invariant painted == PaintRow(sheet, rowNumber, ToggleFill(isCurrentlyHighlighted), col - 1)
    {
      var cell := GetCell(painted, rowNumber, col);
      if isCurrentlyHighlighted {
        painted := WriteCell(painted, rowNumber, col, cell.(fill := Some(NoFill)));
      } else {
        painted := WriteCell(painted, rowNumber, col, cell.(fill := Some(YellowFill)));
      }
    }
  }

  /**
    What `saveQuantityMulti` does on the found sheet: read the old quantity
    from J, build the entry for the change, then make the writes.
   */
  method SaveOnSheet(sheet: Sheet, rowNumber: int, newQuantity: int, today: Date)
    returns (saved: Sheet, oldQuantity: int, dateColIndex: Option<int>)
    requires rowNumber >= 1
    ensures saved == SaveRow(sheet, rowNumber, newQuantity, today)
    ensures oldQuantity == OldQuantity(ValueAt(sheet, rowNumber, 10))
    ensures dateColIndex == NextDateColumn(sheet, rowNumber)
    ensures WellFormed(sheet) ==> WellFormed(saved)
  {
    var qtyColIndex := ColumnLetterToIndex(QuantityColumn);
    assert qtyColIndex == 10 by {
      ColumnNumbers();
    }
    oldQuantity := OldQuantity(ValueAt(sheet, rowNumber, qtyColIndex));
    var qtyChange := newQuantity - oldQuantity;
    var dateStr := FormatDateWithQty(today, qtyChange);
    assert dateStr == AuditEntry(sheet, rowNumber, newQuantity, today);
    saved, dateColIndex := WriteRow(sheet, rowNumber, newQuantity, dateStr);
  }

  /** Every sheet of the list stores cells only within its rows. */
  predicate AllWellFormed(sheets: seq<Sheet>) {
    forall j :: 0 <= j < |sheets| ==> WellFormed(sheets[j])
  }

  /** Replacing one sheet of a well-formed list by a well-formed sheet keeps the list well formed. */
  lemma ReplaceKeepsWellFormed(sheets: seq<Sheet>, i: int, sheet: Sheet)
    requires 0 <= i < |sheets| && WellFormed(sheet) && AllWellFormed(sheets)
    ensures AllWellFormed(sheets[i := sheet])
  {
    var updated := sheets[i := sheet];
    assert forall j :: 0 <= j < |sheets| && j != i ==> updated[j] == sheets[j];
  }

  /**
    The global `workbook`: its worksheets in workbook order. A loaded
    workbook stores cells only in the rows `eachRow` visits, and every
    action keeps it so.
   */
  class Workbook {
    var sheets: seq<Sheet>

    predicate Valid()
      reads this
    {
      AllWellFormed(sheets)
    }

    constructor(sheets: seq<Sheet>)
      requires AllWellFormed(sheets)
      ensures this.sheets == sheets
      ensures Valid()
    {
      this.sheets := sheets;
    }

    /**
      `saveQuantityMulti`: parse the typed quantity, reject NaN and negative
      numbers, then on the named sheet write J, the audit entry and the
      cleared column, exactly as `SaveRow` describes.
     */
    method SaveQuantityMulti(sheetName: string, rowNumber: int, input: string, today: Date)
      returns (outcome: SaveOutcome)
      requires rowNumber >= 1
      requires Valid()
      modifies this
      ensures Valid()
      ensures ValidQuantity(input).None? ==> outcome == InvalidQuantity && sheets == old(sheets)
      ensures ValidQuantity(input).Some? && FindSheet(old(sheets), sheetName).None? ==>
        outcome == SaveSheetMissing && sheets == old(sheets)
      ensures ValidQuantity(input).Some? && FindSheet(old(sheets), sheetName).Some? ==>
        var i := FindSheet(old(sheets), sheetName).value;
        var sheet := old(sheets)[i];
        && sheets == old(sheets)[i := SaveRow(sheet, rowNumber, ValidQuantity(input).value, today)]
        && outcome == Saved(OldQuantity(ValueAt(sheet, rowNumber, 10)), ValidQuantity(input).value,
                            NextDateColumn(sheet, rowNumber))
    {
      var parsed := ParseInt(input);
      if parsed.None? || parsed.value < 0 {
        return InvalidQuantity;
      }
      var newQuantity := parsed.value;
      var found := FindSheet(sheets, sheetName);
      if found.None? {
        return SaveSheetMissing;
      }
      var i := found.value;
      var saved, oldQuantity, dateColIndex := SaveOnSheet(sheets[i], rowNumber, newQuantity, today);
      sheets := sheets[i := saved];
      ReplaceKeepsWellFormed(old(sheets), i, saved);
      outcome := Saved(oldQuantity, newQuantity, dateColIndex);
    }

    /** `saveQuantity`: the same save, on the WAREHOUSE sheet. */
    method SaveQuantity(rowNumber: int, input: string, today: Date) returns (outcome: SaveOutcome)
      requires rowNumber >= 1
      requires Valid()
      modifies this
      ensures Valid()
      ensures ValidQuantity(input).None? ==> outcome == InvalidQuantity && sheets == old(sheets)
      ensures ValidQuantity(input).Some? && FindSheet(old(sheets), HeaderSheet).None? ==>
        outcome == SaveSheetMissing && sheets == old(sheets)
      ensures ValidQuantity(input).Some? && FindSheet(old(sheets), HeaderSheet).Some? ==>
        var i := FindSheet(old(sheets), HeaderSheet).value;
        var sheet := old(sheets)[i];
        && sheets == old(sheets)[i := SaveRow(sheet, rowNumber, ValidQuantity(input).value, today)]
        && outcome == Saved(OldQuantity(ValueAt(sheet, rowNumber, 10)), ValidQuantity(input).value,
                            NextDateColumn(sheet, rowNumber))
    {
      outcome := SaveQuantityMulti(HeaderSheet, rowNumber, input, today);
    }

    /**
      `toggleHighlightMulti`: paint columns A..U of the row, with no fill
      when it is shown highlighted and yellow otherwise. Afterwards the
      highlight check reports the opposite of what was shown.
     */
    method ToggleHighlightMulti(sheetName: string, rowNumber: int, isCurrentlyHighlighted: bool)
      returns (sheetFound: bool)
      requires rowNumber >= 1
      requires Valid()
      modifies this
      ensures Valid()
      ensures sheetFound <==> FindSheet(old(sheets), sheetName).Some?
      ensures !sheetFound ==> sheets == old(sheets)
      ensures sheetFound ==>
        var i := FindSheet(old(sheets), sheetName).value;
        sheets == old(sheets)[i := PaintRow(old(sheets)[i], rowNumber, ToggleFill(isCurrentlyHighlighted), PaintEnd)]
      ensures sheetFound ==> CheckRowHighlightMulti(sheets, sheetName, rowNumber) == !isCurrentlyHighlighted
    {
      var found := FindSheet(sheets, sheetName);
      if found.None? {
        return false;
      }
      var i := found.value;
      var painted := PaintCells(sheets[i], rowNumber, isCurrentlyHighlighted);
      sheets := sheets[i := painted];
      ReplaceKeepsWellFormed(old(sheets), i, painted);
      sheetFound := true;
      FindSheetAfterUpdate(old(sheets), i, painted, sheetName);
      PaintDecidesCheck(old(sheets)[i], rowNumber, ToggleFill(isCurrentlyHighlighted));
    }

    /** `toggleHighlight`: the same toggle, on the WAREHOUSE sheet. */
    method ToggleHighlight(rowNumber: int, isCurrentlyHighlighted: bool) returns (sheetFound: bool)
      requires rowNumber >= 1
      requires Valid()
      modifies this
      ensures Valid()
      ensures sheetFound <==> FindSheet(old(sheets), HeaderSheet).Some?
      ensures !sheetFound ==> sheets == old(sheets)
      ensures sheetFound ==>
        var i := FindSheet(old(sheets), HeaderSheet).value;
        sheets == old(sheets)[i := PaintRow(old(sheets)[i], rowNumber, ToggleFill(isCurrentlyHighlighted), PaintEnd)]
      ensures sheetFound ==> CheckRowHighlight(sheets, rowNumber) == !isCurrentlyHighlighted
    {
      sheetFound := ToggleHighlightMulti(HeaderSheet, rowNumber, isCurrentlyHighlighted);
    }

    /**
      `handleUpdateHeader`: a name that trims to nothing is refused;
      otherwise G1 of the WAREHOUSE sheet gets the header line for today.
     */
    method UpdateHeader(name: string, today: Date) returns (outcome: HeaderOutcome)
      requires Valid()
      modifies this
      ensures Valid()
      ensures Trim(name) == "" ==> outcome == NameMissing && sheets == old(sheets)
      ensures Trim(name) != "" && FindSheet(old(sheets), HeaderSheet).None? ==>
        outcome == HeaderSheetMissing && sheets == old(sheets)
      ensures Trim(name) != "" && FindSheet(old(sheets), HeaderSheet).Some? ==>
        var i := FindSheet(old(sheets), HeaderSheet).value;
        && outcome == HeaderUpdated(HeaderText(today, Trim(name)))
        && sheets == old(sheets)[i := SetValue(old(sheets)[i], 1, 7, Str(HeaderText(today, Trim(name))))]
    {
      var trimmed := Trim(name);
      if trimmed == "" {
        return NameMissing;
      }
      var found := FindSheet(sheets, HeaderSheet);
      if found.None? {
        return HeaderSheetMissing;
      }
      var i := found.value;
      var headerText := HeaderText(today, trimmed);
      var updated := SetValue(sheets[i], HeaderRow, HeaderIndex, Str(headerText));
      ReplaceKeepsWellFormed(sheets, i, updated);
      sheets := sheets[i := updated];
      outcome := HeaderUpdated(headerText);
    }
  }

  /**
    After a save, a search for the row's identifier reports the row with
    the new quantity: the identifier cell B is not written by a save.
   */
  lemma SavedQuantityIsFound(sheet: Sheet, row: int, newQuantity: int, today: Date, query: string)
    requires 2 <= row <= sheet.rowCount
    requires IsMatch(ValueAt(sheet, row, SkuIndex), query)
    ensures Match(sheet.name, row, ValueAt(sheet, row, SkuIndex), Number(newQuantity)) in
      SheetMatches(SaveRow(sheet, row, newQuantity, today), query)
  {
    var saved := SaveRow(sheet, row, newQuantity, today);
    SaveRowEffect(sheet, row, newQuantity, today);
    assert saved.rowCount >= sheet.rowCount by {
      SaveRowKeepsRows(sheet, row, newQuantity, today);
    }
    assert ValueAt(saved, row, 2) == ValueAt(sheet, row, 2);
    SheetMatchesExactly(saved, query, row);
  }

  /** A save never shrinks the sheet. */
  lemma SaveRowKeepsRows(sheet: Sheet, row: int, newQuantity: int, today: Date)
    requires row >= 1
    ensures SaveRow(sheet, row, newQuantity, today).rowCount >= sheet.rowCount
  {
  }
}
