/**
  The audit-column allocator (`findNextEmptyDateColumn`) and the row update
  of the save workflow (`saveQuantity`, `saveQuantityMulti`): write the new
  quantity into J, the dated change into the first blank column of L..T,
  and clear the column after it.
 */
module Audit {
  import opened Wrappers
  import opened JsValues
  import opened Cells
  import opened Address
  import opened Config
  import opened Sheets
  import opened DateFormat

  /** The first blank column among lo..hi of a row, if there is one. */
  function FirstBlankColumn(sheet: Sheet, row: int, lo: int, hi: int): (r: Option<int>)
    ensures r.Some? ==> lo <= r.value <= hi && IsBlank(ValueAt(sheet, row, r.value))
    ensures r.Some? ==> forall c :: lo <= c < r.value ==> !IsBlank(ValueAt(sheet, row, c))
    ensures r.None? <==> forall c :: lo <= c <= hi ==> !IsBlank(ValueAt(sheet, row, c))
    decreases hi - lo
  {
    if lo > hi then None
    else if IsBlank(ValueAt(sheet, row, lo)) then Some(lo)
    else FirstBlankColumn(sheet, row, lo + 1, hi)
  }

  /** The column the next audit entry of a row goes to: the first blank one in L..T. */
  function NextDateColumn(sheet: Sheet, row: int): Option<int> {
    FirstBlankColumn(sheet, row, DateStartIndex, DateEndIndex)
  }

  /** `findNextEmptyDateColumn`: scan L..T and stop at the first blank cell. */
  method FindNextEmptyDateColumn(sheet: Sheet, row: int) returns (col: Option<int>)
    ensures col == NextDateColumn(sheet, row)
  {
    var startIndex := ColumnLetterToIndex(DateColumnsStart);
    var endIndex := ColumnLetterToIndex(DateColumnsEnd);
    assert startIndex == 12 && endIndex == 20 by {
      ColumnNumbers();
    }
    for i := startIndex to endIndex + 1
      invariant FirstBlankColumn(sheet, row, i, 20) == NextDateColumn(sheet, row)
    {
      var value := Resolve(GetCell(sheet, row, i).value);
      if value == Text("") || value == Null {
        return Some(i);
      }
    }
    return None;
  }

  /** `parseInt(getCellValue(quantityCell), 10) || 0`. */
  function OldQuantity(v: Resolved): (q: int) {
    match ParseInt(ToJsString(v))
    case None => 0
    case Some(n) => n
  }

  /**
    A number in J is read back as itself, and `null` counts as 0. A text
    counts as the number `parseInt` reads from it, and as 0 when it reads
    none (NaN, which `|| 0` replaces).
   */
  lemma OldQuantityReads(n: int, s: string)
    ensures OldQuantity(Number(n)) == n
    ensures OldQuantity(Null) == 0
    ensures ParseInt(s).None? ==> OldQuantity(Text(s)) == 0
    ensures ParseInt(s).Some? ==> OldQuantity(Text(s)) == ParseInt(s).value
  {
    assert OldQuantity(Number(n)) == n by {
      ParseIntOfIntToString(n);
    }
    assert OldQuantity(Null) == 0 by {
      NoLeadingNumber("null");
    }
  }

  /** A text that is empty, or starts with no digit, white space or sign, holds no number. */
  lemma NoLeadingNumber(s: string)
    requires s == [] || (!IsDigit(s[0]) && !IsSpace(s[0]) && s[0] != '-' && s[0] != '+')
    ensures ParseInt(s) == None
  {
    if s != [] {
      assert TrimStart(s) == s;
      assert DigitPrefix(s) == [];
    }
  }

  /** The new quantity typed in, unless it is NaN or negative. */
  function ValidQuantity(input: string): (q: Option<int>)
    ensures q.Some? <==> ParseInt(input).Some? && ParseInt(input).value >= 0
    ensures q.Some? ==> q == ParseInt(input)
  {
    match ParseInt(input)
    case Some(n) => if n < 0 then None else Some(n)
    case None => None
  }

  /** `cell.value = v`: the fill of the cell stays. */
  function SetValue(sheet: Sheet, row: int, col: int, v: CellValue): Sheet
    requires row >= 1 && col >= 1
  {
    WriteCell(sheet, row, col, GetCell(sheet, row, col).(value := v))
  }

  /** The audit entry written after the quantity write, when a column was free. */
  function WriteAuditEntry(sheet: Sheet, row: int, col: int, entry: string): Sheet
    requires row >= 1 && col >= 1
  {
    var dated := SetValue(sheet, row, col, Str(entry));
    if col + 1 <= DateEndIndex + 1 then SetValue(dated, row, col + 1, Empty) else dated
  }

  /** The audit entry a save writes: today's date and the size of the change to J. */
  function AuditEntry(sheet: Sheet, row: int, newQuantity: int, today: Date): string {
    FormatDateWithQty(today, newQuantity - OldQuantity(ValueAt(sheet, row, QtyIndex)))
  }

  /**
    The writes of a save once the entry text is known: J holds the new
    quantity, then the first blank column of L..T (found after that write)
    gets the entry and the column after it is cleared.
   */
  function RecordRow(sheet: Sheet, row: int, newQuantity: int, entry: string): Sheet
    requires row >= 1
  {
    var updated := SetValue(sheet, row, QtyIndex, Num(newQuantity));
    match NextDateColumn(updated, row)
    case None => updated
    case Some(col) => WriteAuditEntry(updated, row, col, entry)
  }

  /** The row after a valid save of `newQuantity` on the day `today`. */
  function SaveRow(sheet: Sheet, row: int, newQuantity: int, today: Date): Sheet
    requires row >= 1
  {
    RecordRow(sheet, row, newQuantity, AuditEntry(sheet, row, newQuantity, today))
  }

  /** Writing J does not move the audit slot: J lies outside L..T. */
  lemma QuantityWriteKeepsSlot(sheet: Sheet, row: int, newQuantity: int)
    requires row >= 1
    ensures NextDateColumn(SetValue(sheet, row, QtyIndex, Num(newQuantity)), row) == NextDateColumn(sheet, row)
  {
    var updated := SetValue(sheet, row, QtyIndex, Num(newQuantity));
    assert forall c :: 12 <= c <= 20 ==> ValueAt(updated, row, c) == ValueAt(sheet, row, c);
    SameBlanksSameSlot(sheet, updated, row, 12, 20);
  }

  /** A save as the three writes the editor makes, with the slot found before the quantity write. */
  lemma SaveRowSteps(sheet: Sheet, row: int, newQuantity: int, today: Date)
    requires row >= 1
    ensures var updated := SetValue(sheet, row, 10, Num(newQuantity));
      var entry := FormatDateWithQty(today, newQuantity - OldQuantity(ValueAt(sheet, row, 10)));
      var slot := NextDateColumn(sheet, row);
      && NextDateColumn(updated, row) == slot
      && SaveRow(sheet, row, newQuantity, today) ==
         if slot.None? then updated
         else SetValue(SetValue(updated, row, slot.value, Str(entry)), row, slot.value + 1, Empty)
  {
    var entry := AuditEntry(sheet, row, newQuantity, today);
    assert entry == FormatDateWithQty(today, newQuantity - OldQuantity(ValueAt(sheet, row, 10)));
    assert SaveRow(sheet, row, newQuantity, today) == RecordRow(sheet, row, newQuantity, entry);
    RecordRowSteps(sheet, row, newQuantity, entry);
  }

  /** `SaveRowSteps` for any entry text. */
  lemma RecordRowSteps(sheet: Sheet, row: int, newQuantity: int, entry: string)
    requires row >= 1
    ensures var updated := SetValue(sheet, row, 10, Num(newQuantity));
      var slot := NextDateColumn(sheet, row);
      && NextDateColumn(updated, row) == slot
      && RecordRow(sheet, row, newQuantity, entry) ==
         if slot.None? then updated
         else SetValue(SetValue(updated, row, slot.value, Str(entry)), row, slot.value + 1, Empty)
  {
    QuantityWriteKeepsSlot(sheet, row, newQuantity);
    var slot := NextDateColumn(sheet, row);
    if slot.Some? {
      assert slot.value + 1 <= DateEndIndex + 1;
    }
  }

  lemma {:induction false} SameBlanksSameSlot(a: Sheet, b: Sheet, row: int, lo: int, hi: int)
    requires forall c :: lo <= c <= hi ==> ValueAt(a, row, c) == ValueAt(b, row, c)
    ensures FirstBlankColumn(a, row, lo, hi) == FirstBlankColumn(b, row, lo, hi)
    decreases hi - lo
  {
    if lo <= hi {
      SameBlanksSameSlot(a, b, row, lo + 1, hi);
    }
  }

  /** The clearing guard `dateColIndex + 1 <= columnLetterToIndex('T') + 1` always holds. */
  lemma ClearGuardHolds(sheet: Sheet, row: int)
    ensures NextDateColumn(sheet, row).Some? ==> NextDateColumn(sheet, row).value + 1 <= DateEndIndex + 1
  {
  }

  /**
    What a save changes: J gets the new quantity; when L..T has a blank
    column it gets the entry for `new - old` and the column after it is
    cleared; no other cell of the sheet changes, and no fill changes.
   */
  lemma SaveRowEffect(sheet: Sheet, row: int, newQuantity: int, today: Date)
    requires row >= 1
    ensures var saved := SaveRow(sheet, row, newQuantity, today);
      var change := newQuantity - OldQuantity(ValueAt(sheet, row, 10));
      var slot := NextDateColumn(sheet, row);
      && saved.name == sheet.name
      && (WellFormed(sheet) ==> WellFormed(saved))
      && GetCell(saved, row, 10).value == Num(newQuantity)
      && (slot.Some? ==> GetCell(saved, row, slot.value).value == Str(FormatDateWithQty(today, change)))
      && (slot.Some? ==> GetCell(saved, row, slot.value + 1).value == Empty)
      && (forall r, c :: GetCell(saved, r, c).fill == GetCell(sheet, r, c).fill)
      && (forall r, c ::
            !(r == row && (c == 10 || (slot.Some? && (c == slot.value || c == slot.value + 1)))) ==>
            GetCell(saved, r, c) == GetCell(sheet, r, c))
  {
    RecordRowEffect(sheet, row, newQuantity, AuditEntry(sheet, row, newQuantity, today));
  }

  /** `SaveRowEffect` for any entry text. */
  lemma RecordRowEffect(sheet: Sheet, row: int, newQuantity: int, entry: string)
    requires row >= 1
    ensures var saved := RecordRow(sheet, row, newQuantity, entry);
      var slot := NextDateColumn(sheet, row);
      && saved.name == sheet.name
      && (WellFormed(sheet) ==> WellFormed(saved))
      && GetCell(saved, row, 10).value == Num(newQuantity)
      && (slot.Some? ==> GetCell(saved, row, slot.value).value == Str(entry))
      && (slot.Some? ==> GetCell(saved, row, slot.value + 1).value == Empty)
      && (forall r, c :: GetCell(saved, r, c).fill == GetCell(sheet, r, c).fill)
      && (forall r, c ::
            !(r == row && (c == 10 || (slot.Some? && (c == slot.value || c == slot.value + 1)))) ==>
            GetCell(saved, r, c) == GetCell(sheet, r, c))
  {
    QuantityWriteKeepsSlot(sheet, row, newQuantity);
    var updated := SetValue(sheet, row, 10, Num(newQuantity));
    var slot := NextDateColumn(sheet, row);
    if slot.Some? {
      assert slot.value + 1 <= DateEndIndex + 1;
      assert RecordRow(sheet, row, newQuantity, entry) ==
        SetValue(SetValue(updated, row, slot.value, Str(entry)), row, slot.value + 1, Empty);
    } else {
      assert RecordRow(sheet, row, newQuantity, entry) == updated;
    }
  }

  /** The first blank column is the one every earlier column of the range is filled before. */
  lemma FirstBlankIsUnique(sheet: Sheet, row: int, lo: int, hi: int, k: int)
    requires lo <= k <= hi && IsBlank(ValueAt(sheet, row, k))
    requires forall c :: lo <= c < k ==> !IsBlank(ValueAt(sheet, row, c))
    ensures FirstBlankColumn(sheet, row, lo, hi) == Some(k)
  {
  }

  /** The cells of the row an audit entry touches: the entry, the cleared cell, and nothing else. */
  lemma AuditEntryCells(sheet: Sheet, row: int, col: int, entry: string)
    requires row >= 1 && 12 <= col <= 20
    ensures ValueAt(WriteAuditEntry(sheet, row, col, entry), row, col) == Text(entry)
    ensures ValueAt(WriteAuditEntry(sheet, row, col, entry), row, col + 1) == Text("")
    ensures forall k :: k != col && k != col + 1 ==>
      ValueAt(WriteAuditEntry(sheet, row, col, entry), row, k) == ValueAt(sheet, row, k)
  {
  }

  /** An entry written into the first blank column moves the slot one column on. */
  lemma AuditEntryAdvancesSlot(sheet: Sheet, row: int, entry: string)
    requires row >= 1 && NextDateColumn(sheet, row).Some? && entry != ""
    ensures var c := NextDateColumn(sheet, row).value;
      NextDateColumn(WriteAuditEntry(sheet, row, c, entry), row) == if c < 20 then Some(c + 1) else None
  {
    var c := NextDateColumn(sheet, row).value;
    var written := WriteAuditEntry(sheet, row, c, entry);
    AuditEntryCells(sheet, row, c, entry);
    assert forall k :: 12 <= k <= c ==> !IsBlank(ValueAt(written, row, k));
    if c < 20 {
      FirstBlankIsUnique(written, row, 12, 20, c + 1);
    }
  }

  /**
    The audit trail fills L..T from left to right: after a save that wrote
    into column c, the next save writes into c + 1, or finds the range full
    when c was T.
   */
  lemma NextSaveUsesNextColumn(sheet: Sheet, row: int, newQuantity: int, today: Date)
    requires row >= 1
    requires NextDateColumn(sheet, row).Some?
    ensures var c := NextDateColumn(sheet, row).value;
      var next := NextDateColumn(SaveRow(sheet, row, newQuantity, today), row);
      (c < 20 ==> next == Some(c + 1)) && (c == 20 ==> next.None?)
  {
    var entry := AuditEntry(sheet, row, newQuantity, today);
    AuditEntryNonEmpty(today, newQuantity - OldQuantity(ValueAt(sheet, row, 10)));
    RecordAdvancesSlot(sheet, row, newQuantity, entry);
  }

  /** `NextSaveUsesNextColumn` for any non-empty entry text. */
  lemma RecordAdvancesSlot(sheet: Sheet, row: int, newQuantity: int, entry: string)
    requires row >= 1
    requires NextDateColumn(sheet, row).Some? && entry != ""
    ensures var c := NextDateColumn(sheet, row).value;
      var next := NextDateColumn(RecordRow(sheet, row, newQuantity, entry), row);
      (c < 20 ==> next == Some(c + 1)) && (c == 20 ==> next.None?)
  {
    var updated := SetValue(sheet, row, 10, Num(newQuantity));
    QuantityWriteKeepsSlot(sheet, row, newQuantity);
    AuditEntryAdvancesSlot(updated, row, entry);
  }

  /** A save with every audit column taken changes only the quantity. */
  lemma FullRangeOnlyQuantity(sheet: Sheet, row: int, newQuantity: int, today: Date)
    requires row >= 1
    requires forall c :: 12 <= c <= 20 ==> !IsBlank(ValueAt(sheet, row, c))
    ensures var saved := SaveRow(sheet, row, newQuantity, today);
      forall r, c :: GetCell(saved, r, c) == if r == row && c == 10 then GetCell(sheet, r, c).(value := Num(newQuantity)) else GetCell(sheet, r, c)
  {
    QuantityWriteKeepsSlot(sheet, row, newQuantity);
  }
}
