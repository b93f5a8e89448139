# Excel importer ingestion pipeline, modelled in Dafny

This project models the ingestion pipeline of a spreadsheet importer web app.
The user drops an `.xlsx` file. Every row of every sheet is checked against
five business rules. The rows and their errors are shown in a paginated review
table and an error panel. Importing sends the error-free rows of the selected
sheet to an endpoint, which turns them into database documents.

The spreadsheet decoder is abstract: a workbook is a sequence of sheets, each a
name plus a sequence of rows. A row maps column headers to cells.

Modules, one per source component:

- `JsValues` (`js_values.dfy`): JavaScript cell values and their semantics.
  Cells are `undefined`, string, number, boolean or `Date`. The module gives
  truthiness, `Number(...)` coercion, `isNaN`, `<= 0`, `endsWith`, and the
  decimal rendering of row numbers inside template strings.
- `Validation` (`validation.dfy`): `validateRow`. The runtime's current month
  and its `new Date(x)` parser are an `Env` parameter.
- `Upload` (`upload.dfy`): the uploader component. It covers the `onDrop`
  validation loops with their duplicating global error list, first-sheet
  selection, sheet lookup, the props handed to the review table, and
  `handleImport`'s row filter and no-request guard.
- `DataTable` (`data_table.dfy`): the review table as a state machine over
  `rows`, `page` and `deleteIndex`. It covers JavaScript `slice`/`splice`
  index rules, ten-row pages, Previous/Next, deletion and row highlighting.
- `ImportRoute` (`import_route.dfy`): the `POST` handler. It refuses when the
  database address is missing, and otherwise maps each row to a document.
- `ErrorDisplay` (`error_display.dfy`): the error panel. It groups errors by
  sheet with a `reduce` and renders each one as `Row {row}: {error}`.
- `Pipeline` (`pipeline.dfy`): an end-to-end example on a two-row sheet.

Behaviour of the code that the model keeps as written:

- A `Date` that is present but unparsable produces "Date must be in current
  month". An Invalid Date object is truthy, and its `getMonth()` is NaN, which
  never equals the current month.
- `handleImport` re-validates the rows of the parsed `sheets` state. The
  review table keeps its own copy of the rows, so deleting a row in the table
  never changes what is sent.
- Selecting a sheet sets the selection unconditionally. The dropdown only
  offers loaded names, and the handler does not check the name.
- The global error list is not deduplicated. Each row that has errors
  re-appends the whole per-sheet list accumulated so far.
- The review table deletes by page-local index from the full row list. It
  also highlights by page-local row number.

## Model

| member | source | states |
|---|---|---|
| `JsValues.NotNaNAndPositive` | components/FileUpload.tsx:104 | `isNaN(x) \|\| x <= 0` is false exactly when `Number(x)` is a number above zero |
| `JsValues.NonNumericTextIsNaN` | components/FileUpload.tsx:104 | a string whose trimmed text is non-empty and has no digit characters coerces to NaN (empty or all-whitespace text reads as 0) |
| `JsValues.Truthy` | components/FileUpload.tsx:90-95 | predicate read by the `!row.X` and `if (row.Date)` tests; its meaning for each rule is stated by `Validation.ValidateRowMentions`, `ZeroAmountIsMissing` and `InvalidDateIsNotCurrentMonth` |
| `JsValues.ParseNumber` | components/FileUpload.tsx:104 | `Number(text)`; its contract is stated by `ParseNumberOfNatToString`, `PaddingIsIgnored`, `UnicodeSpacesAreTrimmed`, `PrefixedLiterals` and `NonNumericTextIsNaN` |
| `JsValues.PaddingIsIgnored` | components/FileUpload.tsx:104 | a JavaScript whitespace character before or after a text never changes the number it reads as |
| `JsValues.UnicodeSpacesAreTrimmed` | components/FileUpload.tsx:104 | no-break space, byte-order mark, vertical tab and ideographic space around a number are stripped |
| `JsValues.PrefixedLiterals` | components/FileUpload.tsx:104 | `0b101`, `0o17` and `0X1f` read as 5, 15 and 31; `0x` alone and `-0x10` are NaN |
| `JsValues.PaddedPrefixedLiteral` | components/FileUpload.tsx:104 | a prefixed literal with spaces around it keeps its value |
| `JsValues.ToNumber` | components/FileUpload.tsx:104 | `Number(cell)`; with `IsNaN` and `LessOrEqualZero`, its meaning for the positivity rule is stated by `NotNaNAndPositive` and `PositiveAmountPasses` |
| `JsValues.IsNaN` | components/FileUpload.tsx:104 | `isNaN(cell)`; stated by `NotNaNAndPositive` and `NonNumericTextIsNaN` |
| `JsValues.LessOrEqualZero` | components/FileUpload.tsx:104 | `cell <= 0`, false on NaN; stated by `NotNaNAndPositive` |
| `JsValues.EndsWith` | components/FileUpload.tsx:33 | `name.endsWith('.xlsx')`; its use is stated by `Upload.OnDrop` |
| `JsValues.Field` | components/FileUpload.tsx:90-104 | the property reads `row.Name`, `row.Amount`, `row.Date`, with `undefined` for a missing column; used by every rule lemma, e.g. `Validation.ValidateRowMentions` |
| `JsValues.NatToString` | components/FileUpload.tsx:90-105 | `${rowNumber}` in the templates: non-empty decimal digits with no leading zero; stated further by `ParseNumberOfNatToString` and `NatToStringInjective` |
| `JsValues.ParseNumberOfNatToString` | components/FileUpload.tsx:90-105 | the row number rendered into a message reads back as the same number |
| `JsValues.NatToStringInjective` | components/FileUpload.tsx:90-105 | different row numbers render to different texts |
| `Validation.ValidateRowFollowsRules` | components/FileUpload.tsx:86-109 | the pushes of `validateRow` are exactly the failing rules of the rule-by-rule table, in rule order |
| `Validation.Checks` | components/FileUpload.tsx:89-106 | the five `if`/push steps in order; proved equal to the rule table by `ValidateRowFollowsRules` |
| `Validation.ValidateRow` | components/FileUpload.tsx:86-109 | every message starts with `"Row n: "`; the rest of its contract is stated by the `ValidateRow...` lemmas below |
| `Validation.ToDate` | components/FileUpload.tsx:96 | `new Date(row.Date)`: a Date cell is kept, any other value goes through the environment's parser; used by `InvalidDateIsNotCurrentMonth` and `MonthRuleIgnoresYear` |
| `Validation.MonthOf` | components/FileUpload.tsx:98 | `getMonth()`, NaN for an Invalid Date; stated by `InvalidDateIsNotCurrentMonth` and `MonthRuleIgnoresYear` |
| `Validation.RowPrefix` | components/FileUpload.tsx:90-105 | the `Row ${rowNumber}: ` template prefix; stated by `RowNumberOnlyInPrefix` and `ValidateRowMessagesAreTagged` |
| `Validation.Message` | components/FileUpload.tsx:90-105 | one rule's message for a row; stated by `MessageInjective` and `ValidateRowMentions` |
| `Validation.MessageInjective` | components/FileUpload.tsx:90-105 | two messages for one row are equal only when they report the same rule |
| `Validation.ValidateRowMentions` | components/FileUpload.tsx:89-108 | each message appears iff its rule fails; "Name/Amount/Date is required" appear exactly when that field is falsy |
| `Validation.ValidateRowMessagesAreTagged` | components/FileUpload.tsx:90-105 | every message is `"Row n: "` followed by the text of a failing rule |
| `Validation.ValidateRowOrdered` | components/FileUpload.tsx:89-108 | messages come in the order Name, Amount, Date, month, positivity, with no rule twice |
| `Validation.AtMostThreeErrors` | components/FileUpload.tsx:91-105 | at most three messages; Amount missing and Amount non-positive never both fire; Date missing and wrong month never both fire |
| `Validation.ZeroAmountIsMissing` | components/FileUpload.tsx:91-105 | Amount 0 yields "Amount is required" and not "greater than zero" |
| `Validation.BadAmountIsNotPositive` | components/FileUpload.tsx:104-105 | a negative amount, or non-numeric text, yields "greater than zero" and not "is required" |
| `Validation.PositiveAmountPasses` | components/FileUpload.tsx:104-105 | a present amount passes the positivity rule iff it coerces to a number above zero |
| `Validation.NoBreakSpaceAmountPasses` | components/FileUpload.tsx:104-105 | an amount text of a no-break space followed by a positive number gets no positivity message |
| `Validation.InvalidDateIsNotCurrentMonth` | components/FileUpload.tsx:95-100 | a present Date value that `new Date(...)` turns into an Invalid Date (unparsable text or number, or an invalid Date cell) yields "Date must be in current month" and not "Date is required" |
| `Validation.MonthRuleIgnoresYear` | components/FileUpload.tsx:96-98 | changing a date's year or day within the same month changes no message |
| `Validation.RowNumberOnlyInPrefix` | components/FileUpload.tsx:86-108 | the row number only affects the `"Row n: "` prefix; the same texts follow it for any number |
| `Upload.Tag` | components/FileUpload.tsx:58-62 | each message becomes one error carrying the sheet name and row number, in order |
| `Upload.RowNumber` | components/FileUpload.tsx:56-60 | `index + 2`, the spreadsheet row of data row `index`; stated by `SheetErrorsShape`, `SheetErrorsComplete` and `ImportSendsOnlyValidRows` |
| `Upload.RowErrors` | components/FileUpload.tsx:57-62 | the tagged errors of one row; stated by `Tag`, `SheetErrorsShape` and `SheetErrorsComplete` |
| `Upload.SheetErrors` | components/FileUpload.tsx:54-62 | `sheet.errors` after the first `k` rows; stated by `SheetErrorsShape`, `SheetErrorsComplete` and `SheetErrorsLength`, and computed by `ValidateWorkbook` |
| `Upload.SheetErrorsLength` | components/FileUpload.tsx:54-62 | `sheet.errors` has one entry per message of the rows so far |
| `Upload.Cumulative` | components/FileUpload.tsx:57-63 | one sheet's pushes onto the global list; stated by `CumulativeSameElements`, `CumulativeLength` and `CumulativeSize` |
| `Upload.GlobalErrors` | components/FileUpload.tsx:53-66 | the global list sheet by sheet; stated by `GlobalErrorsCoverSheets`, and computed by `ValidateWorkbook` |
| `Upload.ValidateWorkbook` | components/FileUpload.tsx:53-66 | the nested loops produce, per sheet, the row-ordered concatenation of its rows' errors, and the cumulative global list |
| `Upload.ValidateSheet` | components/FileUpload.tsx:55-64 | the inner loop over one sheet leaves `sheet.errors` as its rows' errors in row order, and appends the cumulative contribution to the global list |
| `Upload.SheetErrorsShape` | components/FileUpload.tsx:54-62 | every entry of `sheet.errors` has that sheet's name and row number `i + 2`, and its text is a message of row `i` |
| `Upload.SheetErrorsComplete` | components/FileUpload.tsx:54-62 | every message of every row is recorded in `sheet.errors` under that row's number |
| `Upload.CumulativeSameElements` | components/FileUpload.tsx:57-63 | one sheet's contribution to the global list has exactly the elements of `sheet.errors` |
| `Upload.CumulativeLength` | components/FileUpload.tsx:57-63 | the contribution is at least as long as `sheet.errors`; it is empty iff no row fails; it has the same length iff at most one row fails |
| `Upload.ErroringInStep` | components/FileUpload.tsx:57-63 | counting rows with errors over `lo..hi-1` adds row `hi-1` to the count over `lo..hi-2` |
| `Upload.RepeatedSizeStep` | components/FileUpload.tsx:57-63 | one more failing row adds every earlier message once more to the count |
| `Upload.CumulativeSize` | components/FileUpload.tsx:57-63 | the contribution's exact length: each row's messages counted once for every failing row from it onwards, `c1 + (c1 + c2) + ...` |
| `Upload.TwoFailingRowsDuplicate` | components/FileUpload.tsx:57-63 | two rows with one error each contribute three entries, with the first row's error twice |
| `Upload.GlobalErrorsCoverSheets` | components/FileUpload.tsx:53-66 | an error is in the global list iff it is in some sheet's `errors` |
| `Upload.FirstSheetName` | components/FileUpload.tsx:70 | the selection after a load is the first sheet's name, or `''` when there are no sheets |
| `Upload.OnDrop` | components/FileUpload.tsx:31-75 | no file, a name not ending in `.xlsx`, or a decoding failure leaves the state unchanged; otherwise the state holds the validated sheets, the global list and the first sheet's name |
| `Upload.SelectSheet` | components/FileUpload.tsx:155-158 | changing the dropdown sets the selection and leaves sheets and errors alone |
| `Upload.FindSheet` | components/FileUpload.tsx:112-113 | the result is the first sheet with the given name, or None iff no sheet has it |
| `Upload.ValidRows` | components/FileUpload.tsx:114 | every kept row sits at an original position whose validation gave no message |
| `Upload.SelectValidRows` | components/FileUpload.tsx:112-114 | the kept rows are exactly the error-free rows, in original order, each traced to its position |
| `Upload.HandleImport` | components/FileUpload.tsx:111-123 | no request iff the selected sheet is missing or has no error-free row; otherwise the body is the error-free rows and the selected sheet name |
| `Upload.ImportSendsOnlyValidRows` | components/FileUpload.tsx:112-116 | every sent row is error-free at its original row number |
| `Upload.AllInvalidMeansNoRequest` | components/FileUpload.tsx:114-116 | a sheet whose every row fails produces no request |
| `Upload.NothingValidNothingKept` | components/FileUpload.tsx:114 | the filter keeps nothing when every row fails |
| `Upload.ErrorsOfSheet` | components/FileUpload.tsx:169 | the filtered list holds exactly the errors whose sheet is the given one, never more than the input; the error panel uses it as the per-sheet reference |
| `Upload.TableProps` | components/FileUpload.tsx:167-170 | the table gets the selected sheet's rows (or none) and exactly the selected sheet's errors |
| `DataTable.Slice` | components/DataTable.tsx:58 | `slice` within bounds is the sub-sequence, and never longer than the input |
| `DataTable.RelativeIndex` | components/DataTable.tsx:51 | JavaScript's index rule for `slice`/`splice`: in range it is the index, beyond the end it is the length, negative counts from the end |
| `DataTable.Mount` | components/DataTable.tsx:23-25 | initial state `rows = data`, `page = 1`, `deleteIndex = null`; stated through the transition lemmas |
| `DataTable.Visible` | components/DataTable.tsx:57-58 | the rows on screen; stated by `PageRows`, `PagesCoverRows` and `DeleteUsesPageLocalIndex` |
| `DataTable.SpliceOne` | components/DataTable.tsx:50-51 | `splice(k, 1)` removes exactly element `k` and keeps the rest in order; past the end it removes nothing |
| `DataTable.PageRows` | components/DataTable.tsx:57-58 | page `p >= 1` shows `rows[(p-1)*10 .. min(len, p*10)]`, never more than ten rows |
| `DataTable.TotalPages` | components/DataTable.tsx:59 | the page count is the ceiling of rows / 10 |
| `DataTable.Previous` | components/DataTable.tsx:99-100 | Previous never leaves the page below 1, goes back one page from above 1, gives page 1 when pressed on page 1 or below (disabled button, `Math.max` clamp), and keeps rows and pending index |
| `DataTable.Next` | components/DataTable.tsx:109-110 | Next never sets the page above the page count, advances one page from below it, gives exactly the page count when pressed on or past the last page (disabled button, `Math.min` clamp, e.g. back to page 1 after a deletion leaves 10 rows on page 2), and keeps rows and pending index |
| `DataTable.HandleDelete` | components/DataTable.tsx:44-46 | the trash button records the index and changes nothing else |
| `DataTable.ConfirmDelete` | components/DataTable.tsx:48-55 | with no pending index nothing changes; with an in-range index exactly that element is removed, order is kept, and the index is cleared |
| `DataTable.CancelDelete` | components/DataTable.tsx:117 | closing the dialog clears the pending index and keeps the rows |
| `DataTable.Highlighted` | components/DataTable.tsx:77 | `errors.some(e => e.row === index + 2)`; stated by `HighlightUsesPageLocalRow` and `SecondPageHighlightMismatch` |
| `DataTable.PagesArePrefix` | components/DataTable.tsx:57-59 | pages 1..k together are the first `10k` rows |
| `DataTable.PagesCoverRows` | components/DataTable.tsx:57-59 | pages 1..totalPages concatenate back to all rows |
| `DataTable.TwelveRowsTwoPages` | components/DataTable.tsx:57-59 | twelve rows give two pages: rows 0-9, then rows 10-11 |
| `DataTable.NextOnEmptyTableReachesPageZero` | components/DataTable.tsx:109-110 | with no rows, Next on page 1 is enabled and sets the page to 0 |
| `DataTable.NavigationStaysInRange` | components/DataTable.tsx:99-110 | from a page in `1..totalPages`, Previous and Next stay in that range |
| `DataTable.DeleteUsesPageLocalIndex` | components/DataTable.tsx:48-58 | display row `i` on page `p` is `rows[(p-1)*10 + i]`, but deleting it removes `rows[i]` |
| `DataTable.DeleteOnLaterPageKeepsClickedRow` | components/DataTable.tsx:48-58 | on a later page the clicked row survives its own deletion, moved from full index `(p-1)*10+i` down by one |
| `DataTable.HighlightUsesPageLocalRow` | components/DataTable.tsx:75-77 | on a later page, errors recorded for the displayed row never highlight it |
| `DataTable.SecondPageHighlightMismatch` | components/DataTable.tsx:57-77 | on page 2 the first display row is `rows[10]`, yet an error for row 12 does not mark it and an error for row 2 does |
| `ImportRoute.Documents` | app/api/import/route.ts:28-34 | one document per row, same length and order |
| `ImportRoute.ToDocument` | app/api/import/route.ts:28-34 | one row's document; stated by `DocumentsFollowRows` and `VerifiedOnlyForExactYes` |
| `DataTable.VerifiedLabel` | components/DataTable.tsx:82 | the table's Yes/No text, a truthiness test; stated by `ImportRoute.ShownVerifiedButStoredUnverified` |
| `ImportRoute.Post` | app/api/import/route.ts:16-45 | a missing or empty database address gives a 500 "not configured" response and no documents; a failed connection or a failed insert gives a 500 "Failed to import data" response; success iff configured, connected and inserted |
| `ImportRoute.DocumentsFollowRows` | app/api/import/route.ts:28-34 | documents copy Name and Amount, carry the request's sheet name, and are verified iff `Verified` is exactly the string "Yes" |
| `ImportRoute.VerifiedOnlyForExactYes` | app/api/import/route.ts:32 | "yes", "Yes ", `true` and an absent column all persist as unverified |
| `ImportRoute.ShownVerifiedButStoredUnverified` | components/DataTable.tsx:82 | a Verified cell "No" is shown as "Yes" in the table but stored as unverified |
| `ErrorDisplay.GroupBySheetCorrect` | components/ValidationErrors.tsx:8-14 | keys are the sheets in first-appearance order; each group is that sheet's errors in input order, duplicates kept, never empty |
| `ErrorDisplay.ErrorLandsInOwnGroup` | components/ValidationErrors.tsx:8-13 | every error is in the group of its own sheet and in no other group |
| `ErrorDisplay.AddError` | components/ValidationErrors.tsx:9-13 | one step of the reduce; its effect over a whole list is stated by `GroupBySheetCorrect` |
| `ErrorDisplay.GroupBySheet` | components/ValidationErrors.tsx:8-14 | the reduce; stated by `GroupBySheetCorrect`, `ErrorLandsInOwnGroup` and `PanelShowsEveryError` |
| `ErrorDisplay.Line` | components/ValidationErrors.tsx:25 | one list item; stated by `LinesAreDoublePrefixed` |
| `ErrorDisplay.GroupSizesSum` | components/ValidationErrors.tsx:9-12 | over distinct keys covering every sheet, per-sheet counts add up to the number of errors |
| `ErrorDisplay.PanelShowsEveryError` | components/ValidationErrors.tsx:8-14 | the group sizes add up to the input length |
| `ErrorDisplay.Render` | components/ValidationErrors.tsx:19-29 | the panel has one section per key |
| `ErrorDisplay.LinesAreDoublePrefixed` | components/ValidationErrors.tsx:25 | every displayed line of a validation error reads `"Row n: Row n: <rule text>"` |
| `Pipeline.GoodRowPasses` | components/FileUpload.tsx:86-109 | a complete row dated this month gets no messages |
| `Pipeline.BadRowMessage` | components/FileUpload.tsx:86-109 | the same row with an empty name, as row 3, gets only "Row 3: Name is required" |
| `Pipeline.JanuaryExample` | components/FileUpload.tsx:53-66 | for sheet "Jan" with those two rows, row 3's missing name is the only sheet and global error, and only the first row passes the import filter |
| `Pipeline.JanuaryDropAndImport` | components/FileUpload.tsx:31-122 | dropping `Jan.xlsx` through `OnDrop` selects "Jan" with that single error, and `HandleImport` sends only the first row |

## Left out

- Upload.OnDrop: does not model JavaScript's array length limits. Its contract claims the new state for every decoded workbook. In the code the global list grows quadratically: N failing rows with one message each give N(N+1)/2 entries. Past 2^32-1 entries, and in practice much sooner at the engine's array and spread-argument limits, `push` throws. The catch only logs, so the state stays unchanged. Sequences here are unbounded.
- XLSX decoding (`XLSX.read`, `sheet_to_json`) is a foreign library working on a binary container. The decoded workbook is an input, and a decoding failure is `None`.
- The dropzone MIME-type and 2 MB size settings are library configuration. Only the `.xlsx` suffix check is modelled.
- The `isUploading` flag only drives the "Processing file..." text. It is always false again once `onDrop` finishes.
- `fetch` in `handleImport` and its response handling are left out. The response is only logged. `HandleImport` returns the body it would send, or None when no request is made.
- The JSON encoding between browser and endpoint is left out. It turns `Date` cells into ISO strings. `ImportRoute` takes the rows as received.
- `mongoose.connect`, `insertMany` and the schema's casting and validation are store behaviour. Their outcome is the `connects` and `inserts` parameters.
- JavaScript date parsing, time zones and "now" are environment-dependent. They are the `Env` parameter: the current month and the parser for non-Date cells.
- Floating-point amounts are left out: numbers are integers. `Number(text)` is modelled for optionally signed decimal integers and unsigned `0x`/`0o`/`0b` literals, with any JavaScript whitespace around them. Decimals (`1.5`, `5.`), exponents and `Infinity` read as NaN here. NaN-valued number cells are not modelled.
- `formatDate` and `formatNumber` are locale formatting for display only.
- React re-mount behaviour is left out. `useState(data)` in the table is not re-synced when the selected sheet changes, so `DataTable.Mount` is the first mount only.
- Grouping keys use insertion order for every sheet name. JavaScript objects list integer-like keys first. A name inherited from `Object.prototype` (such as `constructor`) makes the push throw. Neither is modelled.
- `ErrorDisplay.Render`: its contract states only the number of sections. The grouping it renders is stated by `GroupBySheetCorrect`, and the line text by `LinesAreDoublePrefixed`.
- `app/page.tsx` is layout only. `types/index.ts` is type declarations, mirrored by the datatypes here.
