/**
  The editor's fixed column configuration: identifier in B, quantity in J,
  audit trail in L..T, header text in G1 of the WAREHOUSE sheet.
 */
module Config {
  import opened Address

  const SkuColumn := "B"
  const QuantityColumn := "J"
  /** Column K holds other data; the audit trail starts at L. */
  const DateColumnsStart := "L"
  const DateColumnsEnd := "T"
  /** The header cell G1, as row and column numbers. */
  const HeaderRow := 1
  const HeaderColumn := "G"
  const HeaderSheet := "WAREHOUSE"
  /** The highlight loop starts at column A. */
  const FirstColumn := "A"

  /** The column numbers of the configured letters. */
  const FirstIndex := 1
  const SkuIndex := 2
  const HeaderIndex := 7
  const QtyIndex := 10
  const DateStartIndex := 12
  const DateEndIndex := 20

  /** The column numbers are what `columnLetterToIndex` computes from the letters. */
  lemma ColumnNumbers()
    ensures LabelValue(FirstColumn) == FirstIndex && LabelValue(SkuColumn) == SkuIndex
    ensures LabelValue(HeaderColumn) == HeaderIndex && LabelValue(QuantityColumn) == QtyIndex
    ensures LabelValue(DateColumnsStart) == DateStartIndex && LabelValue(DateColumnsEnd) == DateEndIndex
  {
  }
}
