/**
  The row locator (`searchWarehouse`, `searchAllSheets`): find the rows whose
  identifier cell equals a query, ignoring case, and report each as a match
  record.
 */
module Search {
  import opened Wrappers
  import opened JsValues
  import opened Cells
  import opened Address
  import opened Config
  import opened Sheets
  import opened Seqs

  /** A match record: where the row is and what its identifier and quantity cells hold. */
  datatype Match = Match(sheetName: string, rowNumber: int, sku: Resolved, quantity: Resolved)

  /** `cellValue && cellValue.toString().toLowerCase() === sku.toLowerCase()`. */
  predicate IsMatch(v: Resolved, query: string) {
    Truthy(v) && AsciiLower(ToJsString(v)) == AsciiLower(query)
  }

  /** The record `searchWarehouse` pushes for row `row`. */
  function MatchAt(sheet: Sheet, row: int, skuCol: int, qtyCol: int): Match {
    Match(sheet.name, row, ValueAt(sheet, row, skuCol), ValueAt(sheet, row, qtyCol))
  }

  /** The records for the matching rows among 2..hi, in row order. */
  function RowMatches(sheet: Sheet, query: string, skuCol: int, qtyCol: int, hi: int): (ms: seq<Match>)
    decreases hi
  {
    if hi < 2 then []
    else
      RowMatches(sheet, query, skuCol, qtyCol, hi - 1) +
      (if IsMatch(ValueAt(sheet, hi, skuCol), query) then [MatchAt(sheet, hi, skuCol, qtyCol)] else [])
  }

  /** What one sheet contributes to a search: every row after the header. */
  function SheetMatches(sheet: Sheet, query: string): seq<Match> {
    RowMatches(sheet, query, SkuIndex, QtyIndex, sheet.rowCount)
  }

  /** What one sheet contributes to a search over all sheets. */
  function Contribution(sheet: Sheet, query: string, excluded: seq<string>): seq<Match> {
    if sheet.name in excluded then [] else SheetMatches(sheet, query)
  }

  /** What a search over all sheets reports: sheet by sheet, skipping excluded names. */
  function AllMatches(sheets: seq<Sheet>, query: string, excluded: seq<string>): (ms: seq<Match>)
    decreases |sheets|
  {
    if sheets == [] then []
    else AllMatches(sheets[..|sheets| - 1], query, excluded) + Contribution(sheets[|sheets| - 1], query, excluded)
  }

  /** The `eachRow` callback of both searches, run over every row of one sheet. */
  method CollectSheetMatches(sheet: Sheet, sku: string, skuColIndex: int, qtyColIndex: int)
    returns (matches: seq<Match>)
    ensures matches == RowMatches(sheet, sku, skuColIndex, qtyColIndex, sheet.rowCount)
  {
    matches := [];
    for rowNumber := 1 to sheet.rowCount + 1
      invariant matches == RowMatches(sheet, sku, skuColIndex, qtyColIndex, rowNumber - 1)
    {
      // Row 1 is the header.
      if rowNumber != 1 {
        var cellValue := Resolve(GetCell(sheet, rowNumber, skuColIndex).value);
        if Truthy(cellValue) && AsciiLower(ToJsString(cellValue)) == AsciiLower(sku) {
          matches := matches + [Match(sheet.name, rowNumber, cellValue,
                                      Resolve(GetCell(sheet, rowNumber, qtyColIndex).value))];
        }
      }
    }
  }

  /**
    `searchWarehouse`: the matches on the WAREHOUSE sheet; none, with
    `sheetFound` false (the "not found" status), when there is no such sheet.
   */
  method SearchWarehouse(sheets: seq<Sheet>, sku: string) returns (matches: seq<Match>, sheetFound: bool)
    ensures sheetFound <==> FindSheet(sheets, HeaderSheet).Some?
    ensures !sheetFound ==> matches == []
    ensures sheetFound ==> matches == SheetMatches(sheets[FindSheet(sheets, HeaderSheet).value], sku)
  {
    var skuColIndex := ColumnLetterToIndex(SkuColumn);
    var qtyColIndex := ColumnLetterToIndex(QuantityColumn);
    var found := FindSheet(sheets, HeaderSheet);
    if found.None? {
      return [], false;
    }
    matches := CollectSheetMatches(sheets[found.value], sku, skuColIndex, qtyColIndex);
    sheetFound := true;
  }

  /** `searchAllSheets`: the matches on every sheet not named in `excludeSheets`. */
  method SearchAllSheets(sheets: seq<Sheet>, sku: string, excludeSheets: seq<string>)
    returns (matches: seq<Match>)
    ensures matches == AllMatches(sheets, sku, excludeSheets)
  {
    var skuColIndex := ColumnLetterToIndex(SkuColumn);
    var qtyColIndex := ColumnLetterToIndex(QuantityColumn);
    assert skuColIndex == SkuIndex && qtyColIndex == QtyIndex;
    matches := [];
    for i := 0 to |sheets|
      invariant matches == AllMatches(sheets[..i], sku, excludeSheets)
    {
      AllMatchesStep(sheets, i, sku, excludeSheets);
      var sheet := sheets[i];
      if sheet.name !in excludeSheets {
        var found := CollectSheetMatches(sheet, sku, skuColIndex, qtyColIndex);
        matches := matches + found;
      }
    }
    assert sheets[..|sheets|] == sheets;
  }

  lemma AllMatchesStep(sheets: seq<Sheet>, i: int, query: string, excluded: seq<string>)
    requires 0 <= i < |sheets|
    ensures AllMatches(sheets[..i + 1], query, excluded) ==
      AllMatches(sheets[..i], query, excluded) + Contribution(sheets[i], query, excluded)
  {
    assert sheets[..i + 1][..i] == sheets[..i];
  }

  /**
    Every record comes from a row after the header of the searched sheet,
    whose identifier matches the query, and carries that row's values.
   */
  lemma {:induction false} RowMatchesSound(sheet: Sheet, query: string, skuCol: int, qtyCol: int, hi: int)
    ensures forall m :: m in RowMatches(sheet, query, skuCol, qtyCol, hi) ==>
      && 2 <= m.rowNumber <= hi
      && m == MatchAt(sheet, m.rowNumber, skuCol, qtyCol)
      && IsMatch(m.sku, query)
    decreases hi
  {
    if hi >= 2 {
      RowMatchesSound(sheet, query, skuCol, qtyCol, hi - 1);
    }
  }

  /** Every matching row after the header is reported. */
  lemma {:induction false} RowMatchesComplete(sheet: Sheet, query: string, skuCol: int, qtyCol: int, hi: int)
    ensures forall r :: 2 <= r <= hi && IsMatch(ValueAt(sheet, r, skuCol), query) ==>
      MatchAt(sheet, r, skuCol, qtyCol) in RowMatches(sheet, query, skuCol, qtyCol, hi)
    decreases hi
  {
    if hi >= 2 {
      RowMatchesComplete(sheet, query, skuCol, qtyCol, hi - 1);
    }
  }

  /** Strictly increasing row numbers. */
  predicate InRowOrder(ms: seq<Match>) {
    forall i, j :: 0 <= i < j < |ms| ==> ms[i].rowNumber < ms[j].rowNumber
  }

  /** Records come in increasing row order, so no row is reported twice. */
  lemma {:induction false} RowMatchesOrdered(sheet: Sheet, query: string, skuCol: int, qtyCol: int, hi: int)
    ensures InRowOrder(RowMatches(sheet, query, skuCol, qtyCol, hi))
    decreases hi
  {
    if hi >= 2 {
      RowMatchesOrdered(sheet, query, skuCol, qtyCol, hi - 1);
      RowMatchesSound(sheet, query, skuCol, qtyCol, hi - 1);
      var front := RowMatches(sheet, query, skuCol, qtyCol, hi - 1);
      var ms := RowMatches(sheet, query, skuCol, qtyCol, hi);
      if IsMatch(ValueAt(sheet, hi, skuCol), query) {
        assert ms == front + [MatchAt(sheet, hi, skuCol, qtyCol)];
        forall i, j | 0 <= i < j < |ms| ensures ms[i].rowNumber < ms[j].rowNumber {
          assert ms[i] == front[i] && front[i] in front;
          assert front[i].rowNumber <= hi - 1;
          if j < |front| {
            assert ms[j] == front[j];
            assert InRowOrder(front);
          } else {
            assert ms[j] == MatchAt(sheet, hi, skuCol, qtyCol);
          }
        }
      } else {
        assert ms == front;
        forall i, j | 0 <= i < j < |ms| ensures ms[i].rowNumber < ms[j].rowNumber {
          assert ms[i] == front[i] && ms[j] == front[j];
        }
      }
    }
  }

  /**
    The search finds a row exactly when the row matches; row 1 is never
    reported. On a well-formed sheet every row past `rowCount` is blank, so
    there the bound on the row drops out.
   */
  lemma SheetMatchesExactly(sheet: Sheet, query: string, row: int)
    ensures MatchAt(sheet, row, SkuIndex, QtyIndex) in SheetMatches(sheet, query) <==>
      2 <= row <= sheet.rowCount && IsMatch(ValueAt(sheet, row, SkuIndex), query)
    ensures WellFormed(sheet) ==>
      (MatchAt(sheet, row, SkuIndex, QtyIndex) in SheetMatches(sheet, query) <==>
       2 <= row && IsMatch(ValueAt(sheet, row, SkuIndex), query))
  {
    RowMatchesSound(sheet, query, SkuIndex, QtyIndex, sheet.rowCount);
    RowMatchesComplete(sheet, query, SkuIndex, QtyIndex, sheet.rowCount);
    if WellFormed(sheet) && row > sheet.rowCount {
      BlankBeyondRows(sheet, row, SkuIndex);
    }
  }

  /** A blank cell never matches: the empty text is not truthy. */
  lemma BlankBeyondRows(sheet: Sheet, row: int, col: int)
    requires WellFormed(sheet) && row > sheet.rowCount
    ensures forall query :: !IsMatch(ValueAt(sheet, row, col), query)
  {
    assert (row, col) !in sheet.cells;
  }

  /** Searching a list of sheets is searching each part in turn: sheets keep their order. */
  lemma {:induction false} AllMatchesAppend(a: seq<Sheet>, b: seq<Sheet>, query: string, excluded: seq<string>)
    ensures AllMatches(a + b, query, excluded) == AllMatches(a, query, excluded) + AllMatches(b, query, excluded)
    decreases |b|
  {
    if b == [] {
      assert a + b == a;
    } else {
      var b', last := b[..|b| - 1], b[|b| - 1];
      DropLastOfAppend(a, b);
      var tail := Contribution(last, query, excluded);
      AllMatchesAppend(a, b', query, excluded);
      AppendAssoc(AllMatches(a, query, excluded), AllMatches(b', query, excluded), tail);
    }
  }



  /**
    A record is reported exactly when it is reported for one of the sheets
    whose name is not excluded; excluded sheets contribute nothing.
   */
  lemma {:induction false} AllMatchesMembers(sheets: seq<Sheet>, query: string, excluded: seq<string>, m: Match)
    ensures m in AllMatches(sheets, query, excluded) <==>
      exists i :: 0 <= i < |sheets| && sheets[i].name !in excluded && m in SheetMatches(sheets[i], query)
    decreases |sheets|
  {
    if sheets != [] {
      var front, last := sheets[..|sheets| - 1], sheets[|sheets| - 1];
      AllMatchesMembers(front, query, excluded, m);
      assert AllMatches(sheets, query, excluded) ==
        AllMatches(front, query, excluded) + Contribution(last, query, excluded);
      assert m in Contribution(last, query, excluded) <==> last.name !in excluded && m in SheetMatches(last, query);
      assert forall i :: 0 <= i < |front| ==> front[i] == sheets[i];
    }
  }

  /** Only the lower-cased query matters: the search ignores the query's case. */
  lemma {:induction false} RowMatchesIgnoreCase(sheet: Sheet, q1: string, q2: string, skuCol: int, qtyCol: int, hi: int)
    requires AsciiLower(q1) == AsciiLower(q2)
    ensures RowMatches(sheet, q1, skuCol, qtyCol, hi) == RowMatches(sheet, q2, skuCol, qtyCol, hi)
    decreases hi
  {
    if hi >= 2 {
      RowMatchesIgnoreCase(sheet, q1, q2, skuCol, qtyCol, hi - 1);
    }
  }

  lemma {:induction false} AllMatchesIgnoreCase(sheets: seq<Sheet>, q1: string, q2: string, excluded: seq<string>)
    requires AsciiLower(q1) == AsciiLower(q2)
    ensures AllMatches(sheets, q1, excluded) == AllMatches(sheets, q2, excluded)
    decreases |sheets|
  {
    if sheets != [] {
      AllMatchesIgnoreCase(sheets[..|sheets| - 1], q1, q2, excluded);
      var last := sheets[|sheets| - 1];
      RowMatchesIgnoreCase(last, q1, q2, SkuIndex, QtyIndex, last.rowCount);
    }
  }

  /** Searching for the upper-cased query finds the same records. */
  lemma SearchIsCaseInsensitive(sheets: seq<Sheet>, query: string, excluded: seq<string>)
    ensures AllMatches(sheets, AsciiUpper(query), excluded) == AllMatches(sheets, query, excluded)
  {
    LowerOfUpper(query);
    AllMatchesIgnoreCase(sheets, AsciiUpper(query), query, excluded);
  }
}
