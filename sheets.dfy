/**
  Worksheets as plain data: a name, the number of rows `eachRow` walks over,
  and the cells written so far. A position absent from `cells` holds the
  blank cell, which is what `getCell` hands back for it.
 */
module Sheets {
  import opened Wrappers
  import opened Cells

  datatype Sheet = Sheet(name: string, rowCount: nat, cells: map<(int, int), Cell>)

  /** Every stored cell lies in a row 1..rowCount and a column from 1 on. */
  predicate WellFormed(sheet: Sheet) {
    forall k :: k in sheet.cells ==> 1 <= k.0 <= sheet.rowCount && k.1 >= 1
  }

  /** `sheet.getCell(row, col)`. */
  function GetCell(sheet: Sheet, row: int, col: int): (cell: Cell) {
    if (row, col) in sheet.cells then sheet.cells[(row, col)] else BlankCell
  }

  /** The resolved value at a position: `getCellValue(row.getCell(col))`. */
  function ValueAt(sheet: Sheet, row: int, col: int): (r: Resolved) {
    Resolve(GetCell(sheet, row, col).value)
  }

  /**
    Assigning a cell (`cell.value = ...` or `cell.fill = ...`): exactly that
    position changes, and the sheet grows to include the row.
   */
  function WriteCell(sheet: Sheet, row: int, col: int, cell: Cell): (s: Sheet)
    requires row >= 1 && col >= 1
    ensures s.name == sheet.name
    ensures s.rowCount == if row > sheet.rowCount then row else sheet.rowCount
    ensures forall r, c :: GetCell(s, r, c) == if r == row && c == col then cell else GetCell(sheet, r, c)
    ensures WellFormed(sheet) ==> WellFormed(s)
  {
    Sheet(sheet.name, if row > sheet.rowCount then row else sheet.rowCount,
          sheet.cells[(row, col) := cell])
  }

  /** `workbook.getWorksheet(name)`: the position of the first sheet with that name. */
  function FindSheet(sheets: seq<Sheet>, name: string): (r: Option<nat>)
    ensures r.Some? ==> r.value < |sheets| && sheets[r.value].name == name
    ensures r.Some? ==> forall j :: 0 <= j < r.value ==> sheets[j].name != name
    ensures r.None? <==> forall j :: 0 <= j < |sheets| ==> sheets[j].name != name
  {
    if sheets == [] then None
    else if sheets[0].name == name then Some(0)
    else match FindSheet(sheets[1..], name)
      case None => None
      case Some(j) => Some(j + 1)
  }

  /** Replacing a sheet by one of the same name leaves every lookup by name as it was. */
  lemma FindSheetAfterUpdate(sheets: seq<Sheet>, i: int, sheet: Sheet, name: string)
    requires 0 <= i < |sheets| && sheet.name == sheets[i].name
    ensures FindSheet(sheets[i := sheet], name) == FindSheet(sheets, name)
  {
    var updated := sheets[i := sheet];
    assert forall j :: 0 <= j < |sheets| ==> updated[j].name == sheets[j].name;
    var a, b := FindSheet(updated, name), FindSheet(sheets, name);
    if a.Some? && b.Some? {
      assert !(a.value < b.value) && !(b.value < a.value);
    }
  }
}
