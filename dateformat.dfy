/**
  The date texts the editor writes: `formatDate` (D/M/YY, for the header),
  `formatDateWithQty` (D/M/YY-N, for an audit entry) and the header line of
  `handleUpdateHeader`. The date is a parameter instead of `new Date()`.
 */
module DateFormat {
  import opened Wrappers
  import opened JsValues

  /** A calendar date as `getDate()`, `getMonth() + 1` and `getFullYear()` give it. */
  datatype Date = Date(day: int, month: int, year: int)

  /** `String(year).slice(-2)`: the last two characters of the year's decimal text. */
  function YearSuffix(year: int): string {
    var s := IntToString(year);
    if |s| <= 2 then s else s[|s| - 2..]
  }

  /** `formatDate`: day and month without padding, then the two-character year. */
  function FormatDate(date: Date): (r: string) {
    IntToString(date.day) + "/" + IntToString(date.month) + "/" + YearSuffix(date.year)
  }

  /** `formatDateWithQty`: the same date text and the size of the change. */
  function FormatDateWithQty(date: Date, qtyChange: int): string {
    IntToString(date.day) + "/" + IntToString(date.month) + "/" + YearSuffix(date.year) +
    "-" + IntToString(Abs(qtyChange))
  }

  /** The text `handleUpdateHeader` writes into G1. */
  function HeaderText(date: Date, name: string): string {
    "Date Changed - " + FormatDate(date) + " " + name
  }

  /** An audit entry is the header date, a dash, and the change without its sign. */
  lemma AuditEntryIsDateAndMagnitude(date: Date, qtyChange: int)
    ensures FormatDateWithQty(date, qtyChange) == FormatDate(date) + "-" + NatToString(Abs(qtyChange))
    ensures FormatDateWithQty(date, qtyChange) == FormatDateWithQty(date, -qtyChange)
  {
  }

  /** An audit entry is never blank: it always holds the dash. */
  lemma AuditEntryNonEmpty(date: Date, qtyChange: int)
    ensures |FormatDateWithQty(date, qtyChange)| > 0
  {
    AuditEntryIsDateAndMagnitude(date, qtyChange);
  }

  /**
    From year 10 on, the year part is exactly two digits: the tens and the
    units of the year, so 2005 gives "05".
   */
  lemma YearSuffixTwoDigits(year: int)
    requires year >= 10
    ensures YearSuffix(year) == [DigitChar(year / 10 % 10), DigitChar(year % 10)]
  {
    var s, t := NatToString(year), NatToString(year / 10);
    assert s == t + [DigitChar(year % 10)];
    if year / 10 < 10 {
      assert t == [DigitChar(year / 10)];
    } else {
      assert t == NatToString(year / 100) + [DigitChar(year / 10 % 10)];
    }
    assert s[|s| - 2..] == [t[|t| - 1], DigitChar(year % 10)];
  }

  /** Day and month are written without zero padding: neither field starts with `0`. */
  lemma DateFieldsUnpadded(date: Date)
    requires date.day >= 1 && date.month >= 1
    ensures FormatDate(date) == NatToString(date.day) + "/" + NatToString(date.month) + "/" + YearSuffix(date.year)
    ensures NatToString(date.day)[0] != '0' && NatToString(date.month)[0] != '0'
  {
    NatToStringUnpadded(date.day);
    NatToStringUnpadded(date.month);
  }

  /** The examples the editor's own tests check. */
  lemma FormatExamples()
    ensures FormatDate(Date(16, 12, 2025)) == "16/12/25"
    ensures FormatDate(Date(5, 1, 2025)) == "5/1/25"
    ensures FormatDateWithQty(Date(16, 12, 2025), 3) == "16/12/25-3"
    ensures FormatDateWithQty(Date(16, 12, 2025), -2) == "16/12/25-2"
    ensures FormatDateWithQty(Date(16, 12, 2025), 0) == "16/12/25-0"
  {
    YearSuffixTwoDigits(2025);
  }
}
