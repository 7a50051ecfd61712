# XLSX inventory editor: a verified model of its editing core

The editor loads an Excel workbook in the browser, looks up a stock-keeping
unit (SKU) in column B, and lets the user correct its quantity in column J.
Every save leaves a dated audit entry in the first blank column of L..T and
clears the column after it. A row can be painted yellow as "low stock", and
a header line with a name and the date can be written into G1 of the
WAREHOUSE sheet.

This project models, in `js/app.js`:

- the column-letter codec;
- the cell-value resolver;
- the row search over one sheet or all sheets;
- the audit-column allocator;
- the save workflow;
- the date texts;
- the highlight check and toggle;
- the header update;
- the HTML escaping.

Worksheets are values (`Sheets.Sheet`: a name, a row count and a map from
(row, column) to cell). A position missing from the map is a blank cell,
which is what ExcelJS hands back for it. The loaded workbook is a class
(`Editor.Workbook`) with a `sheets` field. The save, toggle and header methods
build the new value of the one sheet they change from its cell writes, then
assign that sheet into `sheets`. Its invariant `Valid()` says that every sheet
stores cells only in rows 1..rowCount, the rows `eachRow` visits.

Modules, in dependency order:

- `Wrappers`: `Option`.
- `Seqs`: associativity and splitting lemmas for sequence concatenation, used by the proofs.
- `JsValues`: the JavaScript behaviour the code relies on, restricted to ASCII and integers. That is decimal rendering, `parseInt`, `trim`, lower/upper case and `includes`.
- `Address`: `columnLetterToIndex` and `indexToColumnLetter`, as bijective base 26.
- `Cells`: raw values, fills and `getCellValue`.
- `Config`: the fixed `CONFIG`.
- `Sheets`: cell access, cell writes and `getWorksheet`.
- `Search`: `searchWarehouse` and `searchAllSheets`.
- `DateFormat`: `formatDate`, `formatDateWithQty` and the header line.
- `Audit`: `findNextEmptyDateColumn` and the row update of a save.
- `Highlight`: the highlight check and the fills of the toggle.
- `Escape`: `escapeHtml`.
- `Editor`: the workbook and its actions.

## Model

| member | source | states |
|---|---|---|
| Config.ColumnNumbers | js/app.js:11-20 | The configured letters B, J, L, T, G and A are columns 2, 10, 12, 20, 7 and 1. |
| Address.Letters | js/app.js:548-556 | The label of a number is a non-empty string of capitals exactly when the number is at least 1. |
| Address.ColumnLetterToIndex | js/app.js:338-344 | The loop computes the label's base-26 value; for a label of capitals it is at least 1 and encodes back to the same label. |
| Address.IndexToColumnLetter | js/app.js:548-556 | The loop builds the label of the number; from 1 on it is a label of capitals that decodes back to the number. |
| Address.LabelValuePositive | js/app.js:338-344 | Every label of capitals decodes to a column number of at least 1. |
| Address.LabelRoundTrip | js/app.js:338-344 | Decoding a label of capitals and encoding the number gives the label back. |
| Address.LettersStep | js/app.js:548-556 | One more base-26 digit k (1..26) below a number v appends the letter of k to the label of v. |
| Address.NumberRoundTrip | js/app.js:548-556 | Encoding a number from 1 on and decoding the label gives the number back. |
| Cells.JoinKeepsFragment | js/app.js:357-359 | The joined rich text holds every fragment in order: fragment i sits right after the text of the fragments before it. |
| Cells.JoinAppend | js/app.js:357-359 | Joining a concatenation of fragment lists is concatenating the joined texts. |
| Cells.JoinEmpty | js/app.js:357-359 | The joined rich text is empty exactly when every fragment is empty. |
| Cells.Resolve | js/app.js:351-367 | A formula gives its cached result. Anything other than a formula gives a text or a number. A string and a number are handed back as they are. |
| Cells.ResolveBlank | js/app.js:351-367 | The resolver gives an empty value exactly for: no value; the empty string; rich text of empty fragments; a formula whose cached result is empty. A number, even 0, is never empty. |
| JsValues.ParseInt | js/app.js:409 | Defines `parseInt(s, 10)`: skip leading white space, take an optional sign, then read the longest run of decimal digits, or NaN when there is none. |
| JsValues.NatToString | js/app.js:527-528 | Decimal rendering is a non-empty digit string, one digit long exactly below 10. |
| JsValues.DigitPrefix | js/app.js:409 | The digit run `parseInt` reads is a prefix of the text, all digits, and not followed by a digit. |
| JsValues.TrimStart | js/app.js:657 | The result is a suffix of the input, does not start with white space, and everything cut off was white space. |
| JsValues.TrimEnd | js/app.js:657 | The result is a prefix of the input, does not end with white space, and everything cut off was white space. |
| JsValues.NatToStringUnpadded | js/app.js:525-526 | The rendering of a number starts with 0 only for 0 itself. |
| JsValues.ParseIntOfIntToString | js/app.js:409 | `parseInt` of the decimal rendering of any integer gives that integer back. |
| JsValues.ParseIntLeading | js/app.js:409 | `parseInt` reads back an integer's rendering followed by any text that does not start with a digit. |
| Sheets.WriteCell | js/app.js:412 | A cell assignment changes exactly the assigned position and keeps the sheet's name. The row count grows to cover the row. Well-formedness is kept. |
| Sheets.FindSheet | js/app.js:154 | `getWorksheet` finds the first sheet with the name; it finds none exactly when no sheet has that name. |
| Sheets.FindSheetAfterUpdate | js/app.js:412 | Writing into a sheet does not change which sheet a name finds. |
| Search.IsMatch | js/app.js:166 | Defines a match: the identifier is truthy and equals the query after lower-casing both. |
| Search.RowMatches | js/app.js:160-175 | Defines the records of rows 2..hi whose identifier matches, in row order. |
| Search.AllMatches | js/app.js:190-210 | Defines the records of every sheet whose name is not excluded, sheet by sheet. |
| Search.CollectSheetMatches | js/app.js:159-176 | The loop over rows 1..rowCount, skipping row 1, collects exactly the records `RowMatches` lists. |
| Search.SearchWarehouse | js/app.js:149-177 | The result is the WAREHOUSE sheet's matches. It is empty, with the not-found flag, exactly when there is no such sheet. |
| Search.SearchAllSheets | js/app.js:185-213 | The result is the matches of every sheet not in the exclusion list, sheet by sheet in workbook order. |
| Search.RowMatchesSound | js/app.js:159-176 | Every record is for a row after the header, on the searched sheet, whose identifier matches. It carries that row's identifier and J value. |
| Search.RowMatchesComplete | js/app.js:159-176 | Every row after the header whose identifier matches is reported. |
| Search.RowMatchesOrdered | js/app.js:159-176 | Records come in strictly increasing row order. |
| Search.SheetMatchesExactly | js/app.js:159-176 | A row's record is reported exactly when the row is in 2..rowCount and its identifier matches; row 1 never is. On a well-formed sheet the upper bound drops out: a row is reported exactly when it is after the header and its identifier matches. |
| Search.BlankBeyondRows | js/app.js:164-166 | On a well-formed sheet a cell past the last row is blank, so it matches no query. |
| Search.AllMatchesAppend | js/app.js:188-191 | Searching a list of sheets is searching each part in turn, keeping workbook order. |
| Search.AllMatchesMembers | js/app.js:188-212 | A record is reported exactly when it comes from a sheet that is not excluded. |
| Search.RowMatchesIgnoreCase | js/app.js:166 | Queries that agree when lower-cased find the same rows. |
| Search.AllMatchesIgnoreCase | js/app.js:200 | Queries that agree when lower-cased find the same records on all sheets. |
| Search.SearchIsCaseInsensitive | js/app.js:200 | Searching for the upper-cased query finds the same records as the query. |
| DateFormat.FormatDate | js/app.js:536-541 | Defines the date text: day, `/`, month, `/`, and the last two characters of the year. |
| DateFormat.FormatDateWithQty | js/app.js:524-529 | Defines the audit entry: the same date text, `-`, and the size of the change. |
| DateFormat.HeaderText | js/app.js:674-675 | Defines the header line: `Date Changed - `, the date text, a space and the name. |
| DateFormat.AuditEntryIsDateAndMagnitude | js/app.js:524-529 | An audit entry is the header date text, a dash and the size of the change; a rise and a fall of the same size read the same. |
| DateFormat.AuditEntryNonEmpty | js/app.js:528 | An audit entry is never the empty text, so it fills its column. |
| DateFormat.YearSuffixTwoDigits | js/app.js:539 | From year 10 on, the year part is the tens and units digits of the year. |
| DateFormat.DateFieldsUnpadded | js/app.js:536-541 | Day and month are written without zero padding. |
| DateFormat.FormatExamples | js/app.js:524-541 | 16/12/2025 gives "16/12/25". 5/1/2025 gives "5/1/25". The entries "16/12/25-3", "16/12/25-2" and "16/12/25-0" come from changes +3, -2 and 0. |
| Audit.FirstBlankColumn | js/app.js:503-516 | The result is the first blank column of the range, with all columns before it non-blank. It is none exactly when no column of the range is blank. |
| Audit.FindNextEmptyDateColumn | js/app.js:503-516 | The loop returns the column `Audit.FirstBlankColumn` picks in 12..20 (L..T): the least one whose resolved value is empty, or none when all nine are filled. The row is not changed. |
| Audit.FirstBlankIsUnique | js/app.js:503-516 | A blank column with every earlier column of the range filled is the one the allocator finds. |
| Audit.OldQuantity | js/app.js:409 | Defines the old quantity as `parseInt` of the value's text, or 0 when that is NaN. |
| Audit.OldQuantityReads | js/app.js:409 | A number in J is read back as itself and `null` counts as 0. A text counts as the number `parseInt` reads from it, or as 0 when `parseInt` reads none. |
| Audit.NoLeadingNumber | js/app.js:409 | `parseInt` reads no number from an empty text, nor from one whose first character is not a digit, white space or a sign. |
| Audit.ValidQuantity | js/app.js:392-397 | A typed quantity is accepted exactly when `parseInt` reads a number from it and that number is not negative. |
| Audit.RecordRow | js/app.js:412-425 | Defines the writes of a save for a given entry text: J, then the entry into the first blank column of L..T found after that write, then the clear of the next column. |
| Audit.SaveRow | js/app.js:405-425 | Defines a save: `Audit.RecordRow` with the entry for the change from the old quantity. |
| Audit.QuantityWriteKeepsSlot | js/app.js:412-416 | Writing J does not change which audit column the save picks. |
| Audit.SaveRowSteps | js/app.js:405-428 | A save is the J write, then the entry write and the clear. The slot can be looked up before or after the J write. |
| Audit.RecordRowSteps | js/app.js:412-425 | For any entry text, the writes are J, then the entry and the clear in the slot found before the J write. |
| Audit.SameBlanksSameSlot | js/app.js:503-516 | Rows with the same values in the range get the same audit column. |
| Audit.ClearGuardHolds | js/app.js:421-425 | The guard before clearing the next column always holds, since the slot is at most T. |
| Audit.RecordRowEffect | js/app.js:412-425 | For any entry text: J holds the new quantity, the first blank column of L..T holds the entry and the column after it is cleared. No other cell and no fill changes, and well-formedness is kept. |
| Audit.SaveRowEffect | js/app.js:405-428 | J holds the new quantity. The slot, if any, holds the entry for new minus old, and the next column is cleared. No other cell and no fill changes. |
| Audit.AuditEntryCells | js/app.js:417-425 | The entry write puts the entry in its column and clears the next, touching nothing else of the row. |
| Audit.AuditEntryAdvancesSlot | js/app.js:416-425 | After an entry goes into the first blank column, the next blank column is one further right, or none after T. |
| Audit.RecordAdvancesSlot | js/app.js:416-425 | Writing a non-empty entry moves the next free audit column from c to c + 1, or to none after T. |
| Audit.NextSaveUsesNextColumn | js/app.js:416-425 | After a save wrote into column c, the next save writes into c + 1, or finds L..T full when c is T. |
| Audit.FullRangeOnlyQuantity | js/app.js:426-428 | With L..T all filled, a save changes J only. |
| Highlight.IsYellowAsWritten | js/app.js:326 | Defines the colour test as written: `FFFF00` occurs somewhere in the upper-cased ARGB text. |
| Highlight.CheckRowHighlightMultiAsWritten | js/app.js:317-329 | Defines `checkRowHighlightMulti` as written: the sheet exists, the B cell has a fill with a colour, and the colour passes the test as written. |
| Highlight.CheckRowHighlightAsWritten | js/app.js:296-309 | `checkRowHighlight` as written: false without a WAREHOUSE sheet, and otherwise the same as `Highlight.CheckRowHighlightMultiAsWritten` on that sheet. |
| Highlight.CheckRowHighlightMulti | js/app.js:317-329 | A missing sheet gives false. |
| Highlight.CheckRowHighlight | js/app.js:296-309 | With the corrected colour test: a missing WAREHOUSE sheet gives false, and otherwise it agrees with `Highlight.CheckRowHighlightMulti` on that sheet. |
| Highlight.PaintRow | js/app.js:629-640 | Columns 1..hi of the row get the fill with their values kept; every other cell is unchanged and the name is kept. |
| Highlight.PaintKeepsValues | js/app.js:629-640 | Painting a row changes no resolved value anywhere on the sheet. |
| Highlight.RowMatchesSameValues | js/app.js:164-171 | The search reads values only: sheets with the same name and values give the same records. |
| Highlight.HighlightKeepsSearch | js/app.js:629-640 | Highlighting an existing row leaves the search results on that sheet unchanged. |
| Highlight.PaintKeepsRowCount | js/app.js:629-640 | Painting an existing row adds no rows. |
| Highlight.EditorFillsAgree | js/app.js:324-327 | The yellow fill FFFFFF00 passes the check as written and as corrected. The "none" fill passes neither. |
| Highlight.CorrectedIsStricter | js/app.js:324-327 | Any colour whose RGB part is yellow passes the check as written too. |
| Highlight.RedPassesAsWritten | js/app.js:324-327 | Opaque red FFFF0000 passes the check as written but not the corrected one. |
| Highlight.YellowIgnoresCase | js/app.js:326 | Both colour tests ignore the case of the hex digits. |
| Highlight.RedRowCountsAsHighlighted | js/app.js:296-329 | On a WAREHOUSE row whose B cell is filled red, both checks as written report a highlight and both corrected checks do not. |
| Highlight.PaintDecidesCheck | js/app.js:629-640 | After painting columns 1..21 yellow, both checks report the row highlighted. After painting them with no fill, neither does. |
| Escape.EscapeString | js/app.js:376-381 | Defines the chain of five global replacements, `&` first, then `<`, `>`, `"` and `'`. |
| Escape.EscapeHtml | js/app.js:374-382 | A non-string is returned unchanged. A string is escaped character by character into its entity. |
| Escape.EscapeChainIsSinglePass | js/app.js:376-381 | Because `&` is replaced first, the five global replacements equal a single pass over the characters. |
| Escape.EscapeStringChar | js/app.js:376-381 | On one character the replacement chain gives that character's entity. |
| Escape.EscapeCharsWellEscaped | js/app.js:376-381 | Escaped text has no raw `<`, `>`, `"` or `'`, and every `&` in it starts one of the five entities. |
| Escape.EscapeRoundTrip | js/app.js:376-381 | Reading the entities back gives the original text: escaping loses nothing. |
| Escape.EscapeHtmlIsSafe | js/app.js:374-382 | For a string, the output is well escaped and reads back as the input. |
| Escape.EscapeCharsAppend | js/app.js:376-381 | Escaping a concatenation is concatenating the escaped parts. |
| Escape.EscapeCharsPlain | js/app.js:376-381 | Text with none of the five special characters is left as it is. |
| Escape.UnescapeStep | js/app.js:376-381 | Reading back an escaped character followed by any text gives the character, then the reading of the rest. |
| Escape.EscapeBetween | js/app.js:376-381 | One character between two plain texts: only that character is replaced by its entity. |
| Escape.EscapeAround | js/app.js:376-381 | Plain text enclosed by the same character twice: both ends become the entity and the text stays. |
| Escape.EscapeTagExample | js/app.js:374-382 | A plain name in angle brackets, as in `<script>`, becomes `&lt;`, the name and `&gt;`. |
| Escape.EscapeQuoteExample | js/app.js:374-382 | A plain word in double quotes, as in `"quotes"`, becomes `&quot;`, the word and `&quot;`. |
| Escape.EscapeApostropheExample | js/app.js:374-382 | An apostrophe between plain texts, as in `it's`, becomes `&#039;`. |
| Escape.EscapeAmpersandExample | js/app.js:374-382 | Two plain words joined by a spaced ampersand, as in `a & b`: only the ampersand becomes `&amp;`. |
| Editor.WriteRow | js/app.js:412-425 | The writes of a save with a given entry text leave the sheet as `Audit.RecordRow`: J, then the entry into the first blank column of L..T and, under the guard, the clear of the next column. The column reported is the sheet's first blank one of L..T. |
| Editor.SaveOnSheet | js/app.js:405-425 | The old quantity is J read as `parseInt(...) \|\| 0`. The sheet becomes its `Audit.SaveRow`, and the column reported is its first blank one of L..T. |
| Editor.PaintCells | js/app.js:629-640 | The loop over columns 1..21 (A..U) gives each cell of the row the toggle's fill: no fill when the row was shown highlighted, yellow otherwise. |
| Editor.Workbook.Valid | js/app.js:160 | Defines the workbook invariant: every sheet stores cells only in rows 1..rowCount, the rows `eachRow` visits. |
| Editor.Workbook.constructor | js/app.js:67-68 | The workbook holds the loaded sheets and satisfies `Valid()`. |
| Editor.Workbook.SaveQuantityMulti | js/app.js:439-495 | An invalid quantity changes nothing, and neither does a missing sheet. Otherwise the named sheet becomes its `SaveRow` (see `Audit.SaveRowEffect`), the other sheets stay, and the outcome reports old quantity, new quantity and the audit column. `Valid()` is kept. |
| Editor.Workbook.SaveQuantity | js/app.js:389-430 | The same save on the WAREHOUSE sheet. |
| Editor.Workbook.ToggleHighlightMulti | js/app.js:608-651 | A missing sheet changes nothing. Otherwise columns A..U of the row are painted: no fill when the row was shown highlighted, yellow otherwise. Afterwards the highlight check reports the opposite of what was shown. `Valid()` is kept. |
| Editor.Workbook.ToggleHighlight | js/app.js:563-600 | The same toggle on the WAREHOUSE sheet, after which `checkRowHighlight` reports the opposite of what was shown. |
| Editor.Workbook.UpdateHeader | js/app.js:656-681 | A name that trims to nothing changes nothing, and neither does a missing WAREHOUSE sheet. Otherwise G1 gets "Date Changed - ", the date and the trimmed name, and nothing else changes. `Valid()` is kept. |
| Editor.SavedQuantityIsFound | js/app.js:405-428 | After a save of a matching row, the search reports that row with the new quantity. |
| Editor.SaveRowKeepsRows | js/app.js:405-428 | A save never removes rows. |

## Left out

- File loading and saving (`handleFileUpload`, `handleDownload`) are asynchronous ExcelJS and browser I/O.
- The page is not modelled: `init`, `showStatus` with its timer, `displayResults`, `createResultItem` and the result-item class list. The outcome datatypes `SaveOutcome` and `HeaderOutcome`, and the `sheetFound` results, stand in for the status messages.
- The inputs the save, toggle and header functions read from the page become parameters: the typed quantity, the name, and whether the result is shown highlighted. The same goes for the current date (`new Date()`).
- `handleSearch` (trimming the query, choosing single- or all-sheet search via `CONFIG.searchAllSheets`) is caller glue. Both searches are modelled, and so is `CONFIG.excludeSheets`, as a parameter.
- The checks for a loaded workbook and for a missing result item or quantity input are page state, so they are left out.
- Numbers are integers. Floating-point cell values, and `parseInt` precision beyond `Number.MAX_SAFE_INTEGER`, are left out.
- Case mapping, white space and `toString` cover ASCII only; JavaScript's Unicode `toLowerCase`, `toUpperCase` and `trim` are not modelled.
- `eachRow` is modelled as visiting rows 1..rowCount. ExcelJS skips rows with no cells, but such rows have an empty B cell, which never matches.
- ExcelJS style objects are reduced to a fill with a pattern and an optional ARGB colour. Shared style references are left out: each cell's fill is its own value. The fill's `type: 'pattern'` is the same for both toggle fills and is left out.
- `sheet.getCell('G1')` address parsing is taken as row 1, column 7.
- Editor.Workbook.constructor: requires every loaded sheet to store cells only in rows 1..rowCount. An ExcelJS sheet's row count covers every row holding a cell, so a loaded workbook meets it; every action then keeps `Valid()`.
- Editor.Workbook.SaveQuantityMulti: requires a row number of at least 1. Rows come from search results, which start at row 2; ExcelJS behaviour for row 0 or below is not modelled.
- Editor.Workbook.ToggleHighlightMulti: requires a row number of at least 1, for the same reason.
- Highlight.CheckRowHighlight: uses the corrected colour test (see Findings). The test as written is `Highlight.CheckRowHighlightAsWritten`; on a red `FFFF0000` or magenta `FFFF00FF` fill the two disagree, and on the fills the editor paints they agree.
- Highlight.CheckRowHighlightMulti: uses the corrected colour test (see Findings). The test as written is `Highlight.CheckRowHighlightMultiAsWritten`, and it agrees with the corrected one on every fill the editor paints.

## Findings

| source | as written | input that shows it | evidently intended | confidence | as-written member | corrected member |
|---|---|---|---|---|---|---|
| js/app.js:324-327 | It takes a fill as yellow when `FFFF00` occurs anywhere in the upper-cased ARGB text. | A B cell filled opaque red, ARGB `FFFF0000`: `FFFF00` occurs at position 0, so the row counts as highlighted. `checkRowHighlight` has the same test at js/app.js:303-307. | The colour's RGB part, its last six hex digits, is `FFFF00`. | not executed | Highlight.RedRowCountsAsHighlighted | Highlight.PaintDecidesCheck |
