# Al-Ghadeer ledger: a verified model of the bookkeeping core

Al-Ghadeer is a browser application for keeping client statements. Each
client owns invoices. Each invoice holds two editable tables: the work done
(`t1`, "عمليات") and the payments received (`t2`, "قبوضات"). The amount
column, headed "المبلغ", is kept last in both tables. The pages add and remove
rows and columns, total the amount columns, and filter invoices by text and
date range. They export tables and whole clients as spreadsheets, and a second
page keeps a simpler ledger of names and invoices.

This project models the logic of those pages in Dafny and proves what they
promise. It covers:

- **The table engine** of the invoice page:
  - normalising stored tables;
  - pinning the amount column last;
  - numbering rows;
  - the guarded row and column edits;
  - the `TableEditor` class of the statement pages.
- **Amount parsing and totals**: Arabic-Indic digit normalisation, the lenient
  money parser, table sums, statement balances, client balances and ledger
  totals.
- **Exports**:
  - sheet-name cleaning;
  - the array-of-arrays builders with their totals row;
  - the SpreadsheetML 2003 writer;
  - the sheet list of a client workbook.
- **The stored records**:
  - the version check of the saved application record;
  - the first-invoice guarantee;
  - the client add, edit and cascading delete;
  - backup import;
  - the invoice list (load, create, rename, delete, filter, PDF range);
  - the accounts ledger (normalise, persist, totals, rename, delete).

## How the model maps the program

- **Amounts** are exact `real`s. JavaScript's `parseFloat` always runs on
  text that has already been cleaned down to ASCII digits, `.` and `-`. On such
  text it reduces to a prefix grammar, and `Numeric.ParseFloatPrefix` models
  that grammar exactly.
- **Rounding to text.** `Math.round` and `toFixed(2)` are modelled on exact
  values. `String(x)` is modelled for numbers with a terminating decimal
  expansion.
- **Inputs from the outside world become parameters**:
  - the clock: `today`, `now`;
  - the id generator `uid()`: `newId`, `invId`, `freshIds`;
  - `Date.parse`: `parse: string -> Option<int>`;
  - `prompt`: the answer as `Option<string>`, `None` when dismissed;
  - `confirm`: `confirmed: bool`;
  - the locale number formatter: `formatNumber`.
- **The DOM becomes data.** A rendered table is a header sequence and a
  sequence of rows of cell texts. `TableEditor` and the invoice page state are
  classes whose methods reassign these fields. The application record of the
  client pages is the class `Storage.App`.
- **JSON values.** Parsed JSON is the datatype `Accounts.Json`. A record read
  from storage is `Storage.StoredApp`, where `None` stands for a missing or
  falsy field.
- **JavaScript objects** used as maps with ordered keys, such as the accounts
  ledger, are association lists. Writing an existing key keeps its place, and
  a new key goes last. That is JavaScript's order for names that are not
  array indices. JavaScript lists index-like keys such as "7" first, in
  ascending order, and treats the key `__proto__` specially; the model does
  neither (see "Left out").

### Behaviour worth knowing

Each of these is a fact about the code, and a lemma states it:

- **Arabic-Indic digits in amounts.** `parseAmount` in
  `assets/js/invoice-page.js` does not normalise Arabic-Indic digits. It drops
  them as non-numeric, while `parseMoney` in `assets/js/utils.js` reads them
  (`InvoiceTables.ParsersDisagreeOnArabicDigits`). Without such digits the two
  parsers agree (`InvoiceTables.ParseAmountIsParseMoney`).
- **Pinning the amount column twice.** `pinAmountLast` is idempotent only when
  the amount label occurs at most once (`InvoiceTables.PinAmountLastIdempotent`).
  With the label twice, a second pinning moves another column
  (`InvoiceTables.PinTwiceWithDuplicateLabel`).
- **Undated invoices in the PDF range.** `invoiceInRange` always excludes an
  invoice whose date does not parse, even when both bounds are empty. So the
  PDF range drops such an invoice whenever another invoice has a date
  (`InvoicePage.PdfRangeDropsUndated`). When no invoice is in range, every
  invoice is printed (`InvoicePage.PdfRangeSelection`).
- **Renaming onto a name that differs only in case.** `handleEditSubmit` in
  `assets/js/accounts.js` looks for a clash ignoring case, and it takes the
  first match. Renaming "Ali" to "ALI" while "ALI" is another key therefore
  finds "Ali" itself and passes. The write then replaces the invoices of
  "ALI", which are lost (`Accounts.RenameOntoCaseTwin`).
- **Pages that re-render.** `addClient`, `saveEdit` and `deleteClientFromEdit`
  in `assets/js/clients-page.js` end by calling `render()`. So after each of
  them every client again has a first invoice; `ClientsPage.Render` states
  what that call does.

## Model

| member | source | states |
|---|---|---|
| Utils.EscapeHtml | assets/js/utils.js:16-20 | a missing value prints as empty text; the result is safe inside markup and decodes back to the input |
| Text.EscapeIsSafe | assets/js/utils.js:17-19 | the replace chain leaves no raw `<`, `>`, `"` or `'`, and every `&` opens an entity |
| Text.UnescapeEscape | assets/js/utils.js:17-19 | escaping loses nothing: decoding the escaped text gives the original |
| Utils.GetCurrencySymbol | assets/js/utils.js:22-26 | the result is one of IQD, USD, `$`; the two known codes map to themselves and everything else to `$` |
| Utils.NormalizeDigits | assets/js/utils.js:28-34 | normalising keeps the length |
| Utils.NormalizeDigitsChars | assets/js/utils.js:28-34 | each Arabic-Indic digit becomes the ASCII digit of the same value, every other character is unchanged, and no Arabic-Indic digit is left |
| Utils.NormalizeDigitsIdempotent | assets/js/utils.js:28-34 | normalising twice is normalising once |
| Utils.KeepClean | assets/js/utils.js:38 | the cleaned text holds only digits, `.` and `-`; clean text is kept and text without such characters becomes empty |
| Utils.ParseMoneyWithoutNumber | assets/js/utils.js:36-41 | text with no digit, `.` or `-`, and the texts `-` and `.`, are worth 0 |
| Utils.ParseMoneyNeedsDigit | assets/js/utils.js:36-41 | `parseMoney` is 0 on text without a Latin or Arabic-Indic digit, and negative only when the text holds a `-` |
| Utils.ParseMoneyReadsArabicDigits | assets/js/utils.js:36-41 | Arabic-Indic digits are read exactly like the Latin digits they stand for |
| Utils.ParseIntText | assets/js/utils.js:39 | `parseFloat(String(n))` is `n` for every integer |
| Utils.ParseMoneyOfLabelled | assets/js/utils.js:36-41 | an integer followed by a currency label without digits parses back to the integer |
| Numeric.DecimalPrefixShape | assets/js/utils.js:39 | a decimal prefix is read exactly when the text begins a number, its length is 0 exactly when nothing is read, and its value is never negative |
| Numeric.ParseFloatPrefixSome | assets/js/utils.js:39-40 | `parseFloat` on cleaned text finds a number exactly when, after an optional `-`, the text begins with a digit or `.` and a digit |
| Numeric.ParseNatText | assets/js/utils.js:39 | the digits of a natural number, followed by neither a digit nor a point, parse back to the number |
| Numeric.StringToNumber | assets/js/accounts.js:472 | `Number(text)`: blank text is 0 |
| Numeric.DecimalLiteralIsNumber | assets/js/accounts.js:472 | `Number` reads every decimal literal, with white space around it, as a number |
| Numeric.DecimalLiteralValue | assets/js/accounts.js:472 | a literal of whole digits, optionally a point and fraction digits, and an optional sign reads as its decimal value, negated after a `-` |
| Numeric.Round | assets/js/accounts.js:555 | `Math.round(x)` lies within half a unit of `x`, halves rounded up |
| Numeric.NumberText | assets/js/exports.js:42 | `String(x)` is a plain decimal literal: a sign or a digit first and a digit last |
| Numeric.NumberTextRoundTrip | assets/js/exports.js:42 | `Number(String(x))` is `x` for every number with at most 20 fraction digits |
| Numeric.DecimalLiteralEnds | assets/js/offline-excel.js:41 | text the number pattern accepts starts with a sign or a digit and ends with a digit |
| Numeric.ParseFloatPrefixNeeds | assets/js/utils.js:39 | `parseFloat` on cleaned text finds a number only where the text holds a digit, and a negative one only after a leading `-` |
| Text.TrimShape | assets/js/accounts.js:111 | `trim` drops a white prefix and a white suffix and keeps the middle of the text |
| Text.TrimAllWhite | assets/js/clients-page.js:98-99 | text made only of white characters trims to nothing |
| Text.TrimUnchanged | assets/js/accounts.js:111 | text without white characters at its ends is left as it is |
| Text.TrimKeepsFirst | assets/js/accounts.js:111 | text that does not begin with white space keeps its first character |
| Text.TrimKeepsNonWhite | assets/js/invoice-page.js:135 | trimming drops only white characters: the non-white characters are kept, in order |
| Text.TrimInnerGaps | assets/js/invoice-page.js:135 | trimming keeps the word boundaries: white separates two non-white characters after trimming exactly when it did before |
| Text.TrimStartGaps | assets/js/invoice-page.js:134 | dropping leading white changes only whether the text starts with white |
| Text.GapsConcat | assets/js/invoice-page.js:134 | the gaps of joined text are those of its parts, the gap at the seam set when either side has white there |
| Exports.ReplaceForbidden | assets/js/exports.js:4 | each of `[ ] * / \ ? :` becomes a space and nothing else changes |
| Exports.SanitizeSheetName | assets/js/exports.js:3-5 | the name is cut to 31 characters with no forbidden character left, and every other character is kept in place |
| Exports.SanitizeKeepsCleanName | assets/js/exports.js:3-5 | a clean name of at most 31 characters is kept as it is |
| Exports.Prefix | assets/js/exports.js:4 | `slice(0, n)` gives a prefix of at most `n` characters, the whole text when it is short enough |
| Exports.SanitizeSheetNameIdempotent | assets/js/exports.js:3-5 | cleaning a cleaned name changes nothing |
| Exports.TotalsRow | assets/js/exports.js:28-30 | the totals row has one cell per header, the label second to last, the value last and every other cell empty |
| Exports.TableDomToAoA | assets/js/exports.js:24-33 | the header row, then the body rows in order, then the totals row: body + 2 rows |
| Exports.AmountIndex | assets/js/exports.js:49 | the amount column is the last header's index, or 0 without headers |
| Exports.SumAmountFromPayload | assets/js/exports.js:47-55 | the loop computes the money in the amount column summed over the rows; a payload without row or header arrays totals 0 |
| Exports.MoneySumOfLabelled | assets/js/exports.js:47-55 | a column of integers written with a plain currency label totals the integers |
| Exports.MoneySumOfValues | assets/js/exports.js:51-53 | a column whose cells are worth the given integers totals their sum |
| Exports.PayloadToAoA | assets/js/exports.js:35-45 | headers and rows of the payload (none when not arrays) and a totals row whose last cell is the payload total directly followed by the symbol |
| OfflineExcel.EnsureXlsExtension | assets/js/offline-excel.js:13-16 | the result always ends in `.xls` or `.xml`; a name with that ending is kept and any other non-blank name gets `.xls` |
| OfflineExcel.EnsureXlsExtensionIdempotent | assets/js/offline-excel.js:13-16 | adding the extension once is enough |
| OfflineExcel.EscXml | assets/js/offline-excel.js:27-34 | escaped text is safe inside markup and decodes back to the text |
| OfflineExcel.IsNumberLike | assets/js/offline-excel.js:36-42 | a value is number-like only when it is present and its trimmed text starts with a sign or a digit and ends with a digit |
| OfflineExcel.NumbersAreNumberLike | assets/js/offline-excel.js:36-42 | every number written as text is number-like |
| OfflineExcel.BlankIsNotNumberLike | assets/js/offline-excel.js:37-39 | a missing value and blank text are not number-like |
| OfflineExcel.NotNumberLikeExamples | assets/js/offline-excel.js:41 | `1.`, `.5` and `+1` are refused by the pattern |
| OfflineExcel.NumberLikeExample | assets/js/offline-excel.js:41 | `-12.50` is accepted by the pattern |
| OfflineExcel.CellType | assets/js/offline-excel.js:88 | a cell is typed `Number` exactly when it is a number-like value outside the header row, else `String` |
| OfflineExcel.HeaderCellsAreText | assets/js/offline-excel.js:85-89 | header cells are always text, styled `sHeader` |
| OfflineExcel.DataNumbersAreNumbers | assets/js/offline-excel.js:85-89 | a number in a data row is typed `Number`, styled `sCell` |
| OfflineExcel.BuildCell | assets/js/offline-excel.js:85-90 | one `Cell` with the row's style and the value's type, whose data is markup-safe and decodes to the value's text, empty for a missing value |
| OfflineExcel.BuildRow | assets/js/offline-excel.js:80-83 | a `Row` element; a row that is not an array, or is empty, gives an empty `Row` |
| OfflineExcel.CellTexts | assets/js/offline-excel.js:81 | one `Cell` element per value, in order |
| OfflineExcel.CellsXmlConcat | assets/js/offline-excel.js:81 | the cells of joined rows are the joined cells, so cells follow the order of the values |
| OfflineExcel.CellsXmlSingle | assets/js/offline-excel.js:81 | a row of one value is exactly that value's cell |
| OfflineExcel.RowsXml | assets/js/offline-excel.js:70-71 | one `Row` element per row, and only row 0 is a header row |
| OfflineExcel.SheetNameXml | assets/js/offline-excel.js:69 | the written sheet name decodes to the name, or "Sheet", cut to 31 characters |
| OfflineExcel.BuildWorksheet | assets/js/offline-excel.js:68-78 | the worksheet opens with its tag carrying the escaped sheet name |
| OfflineExcel.WorksheetsXml | assets/js/offline-excel.js:45 | one worksheet per input sheet, in order, each built from that sheet's name and rows; a missing sheet gives an unnamed, empty worksheet |
| OfflineExcel.NoSheetsWithoutArray | assets/js/offline-excel.js:44-66 | without an array of sheets the workbook holds no worksheet |
| OfflineExcel.BuildSpreadsheetML | assets/js/offline-excel.js:44-66 | without an array of sheets, or with an empty one, the workbook is the declaration, the root element and the styles with nothing inside |
| OfflineExcel.WorkbookOfOneSheet | assets/js/offline-excel.js:44-66 | the workbook of one sheet holds exactly that sheet's worksheet |
| OfflineExcel.WorkbookAppendsSheet | assets/js/offline-excel.js:44-66 | one more sheet adds its worksheet after the others, separated by a line break |
| Storage.LoadedApp | assets/js/storage.js:5-18 | a missing record or one whose version is not 2 loads as the empty record; otherwise every field is kept and a missing collection becomes empty |
| Storage.SaveLoadRoundTrip | assets/js/storage.js:5-22 | saving a loaded record and loading it again gives the same record |
| Storage.App.constructor | assets/js/storage.js:5-18 | the page record holds exactly the given data |
| Storage.LoadApp | assets/js/storage.js:5-18 | the record the page works on is the loaded record |
| Storage.ClientIndex | assets/js/storage.js:29 | the index of the first client with the id, or none when no client has it |
| Storage.GetClient | assets/js/storage.js:28-30 | the first client with the id, or none exactly when no client has it |
| Storage.GetInvoices | assets/js/storage.js:32-34 | the client's invoice list, empty when the client has none |
| Storage.GetStatement | assets/js/storage.js:36-38 | the invoice's statement exactly when one is filed under its id |
| Storage.DefaultStatement | assets/js/storage.js:40-48 | version 1, dated today, an open period, the currency's symbol, the name or "فاتورة"; the work and payment tables both end in the amount column and hold one full row each |
| Storage.DefaultStatementTotalsZero | assets/js/storage.js:45-46 | both tables of a default statement total zero |
| Storage.ClientCurrency | assets/js/storage.js:59-60 | the currency of the first client with the id, or `$` |
| Storage.EnsureClientHasFirstInvoice | assets/js/storage.js:50-61 | afterwards the client has an invoice; a client that had one is left alone, otherwise exactly one entry "فاتورة 1" and its default statement are added (the record becomes `WithFirstInvoice`) |
| Storage.WithFirstInvoice | assets/js/storage.js:50-61 | the record with the client given a first invoice: the client then has invoices, and the clients and version are unchanged |
| ClientsPage.CalcInvoiceBalance | assets/js/clients-page.js:37-41 | the work table's total less the payments table's; no statement has no balance |
| ClientsPage.ClientTotalBalance | assets/js/clients-page.js:43-51 | the loop computes the sum of the balances of the client's invoices, 0 for a client with none |
| ClientsPage.DefaultInvoiceBalanceZero | assets/js/clients-page.js:37-41 | a new invoice with its default statement carries no balance |
| ClientsPage.FirstInvoiceBalanceZero | assets/js/clients-page.js:43-51 | a client whose only invoice is a fresh first invoice owes nothing |
| ClientsPage.BalanceSumConcat | assets/js/clients-page.js:46-49 | a client's balance is additive over its invoice list |
| ClientsPage.Visible | assets/js/clients-page.js:68-72 | never more clients are listed than the record holds |
| ClientsPage.VisibleMembers | assets/js/clients-page.js:71-72 | exactly the clients whose haystack contains the query (or all, for an empty query) are listed |
| ClientsPage.BlankQueryShowsAll | assets/js/clients-page.js:62-72 | a query of white space only lists every client, in order |
| ClientsPage.ShownByField | assets/js/clients-page.js:71-72 | a client is listed when the query occurs in its name, phone or location |
| ClientsPage.RenderClient | assets/js/clients-page.js:68-76 | one pass of the loop: the record becomes `WithFirstInvoice` for the client; a row is listed exactly when the query selects the client, and it shows the client, its symbol, its invoice count (at least 1) and its balance |
| ClientsPage.Render | assets/js/clients-page.js:60-95 | clients and version are kept and every client ends up with an invoice; a client that had invoices keeps its list; the rows are the selected clients in record order, each with its symbol and invoice count; when the new invoice ids are fresh each row shows its client's balance; the new record and the rows are exactly those of the client-by-client pass `RenderedData` and `RenderedRows` (an invoice added to each client without one, a row for each client the query selects) |
| ClientsPage.RowOf | assets/js/clients-page.js:71-76 | a client has a row exactly when the query selects it |
| ClientsPage.RenderedData | assets/js/clients-page.js:68-70 | the passes of `render` keep the clients and the version |
| ClientsPage.RenderedInv | assets/js/clients-page.js:60-95 | after any number of passes the clients so far have invoices, older lists are kept, the rows list the selected clients with their counts, and with fresh ids the rows show the balances |
| ClientsPage.RenderPass | assets/js/clients-page.js:68-76 | one pass keeps all of that, adding the client's row when it is listed |
| ClientsPage.FirstInvoiceKeepsLists | assets/js/storage.js:50-61 | giving a client its first invoice leaves every list that had invoices as it was |
| ClientsPage.FirstInvoiceKeepsBalance | assets/js/clients-page.js:43-51 | giving a client its first invoice under a fresh id leaves the balance of every client that had invoices unchanged |
| ClientsPage.FirstInvoiceKeepsFresh | assets/js/storage.js:50-61 | an id held by no invoice, other than the new invoice's id, is still held by none |
| ClientsPage.BalanceSumFrame | assets/js/clients-page.js:43-51 | invoices whose statements are the same in two records have the same balance in both |
| ClientsPage.AddClient | assets/js/clients-page.js:97-119 | a blank trimmed name changes nothing; otherwise one client with trimmed fields is appended, and a client with a fresh id gets exactly its first invoice and that invoice's default statement |
| ClientsPage.ClientIndexAfterAppend | assets/js/clients-page.js:106-114 | a client appended behind clients of other ids is the one `getClient` finds |
| ClientsPage.SaveEdit | assets/js/clients-page.js:186-210 | no edit, a blank name or a vanished client changes nothing; otherwise the first client with the id takes the trimmed fields and keeps its id and creation time |
| ClientsPage.WithoutClient | assets/js/clients-page.js:226 | exactly the clients with other ids are kept |
| ClientsPage.DeleteClientFromEdit | assets/js/clients-page.js:212-231 | once confirmed, the client's statements, its invoice list and the client are removed and nothing else; otherwise nothing changes |
| ClientsPage.DeletionRemovesOnlyTheClient | assets/js/clients-page.js:226 | no client with the id remains and every other client stays |
| ClientsPage.ImportBackup | assets/js/clients-page.js:142-148 | the record is replaced only by a version-2 file the user confirms |
| ClientsPage.ImportThenLoad | assets/js/clients-page.js:142-148 | an imported backup is what the next load reads; a declined import leaves the loaded record as it was |
| InvoiceTables.SetFirst | assets/js/invoice-page.js:233 | cell 0 takes the ordinal, an empty row grows to hold it, and the other cells are kept |
| InvoiceTables.Padded | assets/js/invoice-page.js:229-231 | a row is right-padded with empty cells to the header count and never shortened |
| InvoiceTables.DefaultRow | assets/js/invoice-page.js:267-271 | `cols` empty cells with "1" first |
| InvoiceTables.RenumberRows | assets/js/invoice-page.js:500-506 | every row holds its 1-based ordinal in cell 0, and no other cell changes |
| InvoiceTables.RenumberNumbered | assets/js/invoice-page.js:500-506 | numbered rows are left as they are |
| InvoiceTables.NormalizedTable | assets/js/invoice-page.js:223-236 | stored headers or the defaults, stored rows or one default row, each numbered with its other cells kept and padded to exactly the header count or its own length, whichever is larger (never cut); the column floor is the larger of the two |
| InvoiceTables.NormalizeTable | assets/js/invoice-page.js:223-236 | the copy-pad-number loop computes the normalised table |
| InvoiceTables.PadRow | assets/js/invoice-page.js:229-231 | the padding loop gives the padded row |
| InvoiceTables.FindAmount | assets/js/invoice-page.js:240 | the first header whose trimmed text is the amount label, or none |
| InvoiceTables.AtMostOneAmountPairs | assets/js/invoice-page.js:240 | at most one amount header means no two headers are both the label |
| InvoiceTables.PinAmountLast | assets/js/invoice-page.js:238-265 | pinning keeps the row count and the column floor and leaves at least one header |
| InvoiceTables.PinKeepsColumns | assets/js/invoice-page.js:238-265 | without the label, a header and an empty cell per row are appended; otherwise the amount column moves to the end and the other columns keep their order |
| InvoiceTables.PinEndsWithAmount | assets/js/invoice-page.js:238-265 | pinning always leaves the amount header last |
| InvoiceTables.PinnedIsFixed | assets/js/invoice-page.js:243-245 | a table whose only amount header is last is returned unchanged |
| InvoiceTables.PinLeavesOneAmount | assets/js/invoice-page.js:238-265 | with at most one amount header, pinning leaves exactly one, last |
| InvoiceTables.PinKeepsShape | assets/js/invoice-page.js:238-265 | pinning a table with one cell per header keeps one cell per header |
| InvoiceTables.PinAmountLastIdempotent | assets/js/invoice-page.js:238-265 | pinning twice is pinning once when the label occurs at most once |
| InvoiceTables.PinTwiceWithDuplicateLabel | assets/js/invoice-page.js:238-265 | with the label twice, a second pinning changes the table again |
| InvoiceTables.AmountCleaningIsKeepClean | assets/js/invoice-page.js:513-515 | the two cleaning passes of `parseAmount` keep exactly what `parseMoney`'s one pass keeps |
| InvoiceTables.KeepCleanTrim | assets/js/invoice-page.js:513 | trimming never changes what cleaning keeps |
| InvoiceTables.ParseAmountNeedsDigit | assets/js/invoice-page.js:512-518 | `parseAmount` is 0 on text without an ASCII digit, and negative only when the text holds a `-` |
| InvoiceTables.FormatAmount | assets/js/invoice-page.js:520-525 | the text always ends with the currency, and a whole amount is written in plain digits before it |
| InvoiceTables.ParseAmountIsParseMoney | assets/js/invoice-page.js:512-518 | without Arabic-Indic digits, `parseAmount` and `parseMoney` read the same value |
| InvoiceTables.ParsersDisagreeOnArabicDigits | assets/js/invoice-page.js:512-518 | "١" is 0 as an amount and 1 as money |
| InvoiceTables.FormatAmountOfInt | assets/js/invoice-page.js:520-525 | an integer amount is written in plain digits followed by the currency |
| InvoiceTables.ParseFormattedAmount | assets/js/invoice-page.js:512-525 | an integer amount formatted with a plain currency label reads back as the integer |
| InvoiceTables.ComputeTableSum | assets/js/invoice-page.js:527-533 | the loop computes the amounts in the cells of the amount column (column `|headers| - 1` of the pinned table), summed |
| InvoiceTables.AmountSumOfBlank | assets/js/invoice-page.js:527-533 | rows whose amount cells are empty add nothing |
| InvoiceTables.TableSumOfPinned | assets/js/invoice-page.js:527-533 | summing the last column of the pinned table is the table's total |
| InvoiceTables.NewRow | assets/js/invoice-page.js:618-623 | a new row has one cell per column, the ordinal first, the amount last and empty cells between |
| InvoiceTables.AddRowData | assets/js/invoice-page.js:611-630 | the pinned table with exactly one more row, the earlier rows unchanged |
| InvoiceTables.AddRowKeepsSum | assets/js/invoice-page.js:611-630 | the new row is numbered next, its amount is "0" and the currency, and the table's total is unchanged |
| InvoiceTables.AddRowStaysPinned | assets/js/invoice-page.js:611-630 | a table with a row added is already pinned |
| InvoiceTables.ZeroAmount | assets/js/invoice-page.js:520-525 | zero is written "0" and the currency and reads back as zero |
| InvoiceTables.InsertIndex | assets/js/invoice-page.js:665-668 | before the amount column, or right after a selected column in front of it; never after the amount column |
| InvoiceTables.InsertColumn | assets/js/invoice-page.js:670-676 | the header and every row get the new cell at `k`, keeping one cell per header |
| InvoiceTables.AddColPinnedData | assets/js/invoice-page.js:654-683 | the amount header stays last and the row count and floor are kept |
| InvoiceTables.AddColPinnedInserts | assets/js/invoice-page.js:654-683 | adding a column inserts exactly one non-amount column at the insertion index of the pinned table, which stays pinned and full |
| InvoiceTables.InsertColumnStaysPinned | assets/js/invoice-page.js:670-678 | inserting a non-amount column before the amount column keeps the table pinned |
| InvoiceTables.NewColumnHeaderNotAmount | assets/js/invoice-page.js:672 | a new column's title is never the amount label |
| InvoiceTables.InsertKeepsOnlyLast | assets/js/invoice-page.js:672-674 | inserting a non-amount header before the last place keeps the amount header the only one, last |
| InvoiceTables.DelRowData | assets/js/invoice-page.js:632-652 | an invalid selection or a single row changes nothing; otherwise one row fewer, renumbered, selection cleared |
| InvoiceTables.DelRowKeepsOthers | assets/js/invoice-page.js:632-652 | every other row keeps its cells past the ordinal, in order, and its length (one cell for a row that was empty) |
| InvoiceTables.DelColPinnedData | assets/js/invoice-page.js:685-714 | the guards make it a no-op; otherwise the amount header stays last and the selection is cleared |
| InvoiceTables.DelColPinnedRemoves | assets/js/invoice-page.js:685-714 | above the floor, with a selected column that is neither first nor amount, exactly that column is removed |
| InvoicePage.NormalizedInvoiceTable | assets/js/invoice-page.js:209-218 | a loaded table has the amount column last, at least one row and a floor of at least 6 |
| InvoicePage.NormalizeInvoice | assets/js/invoice-page.js:189-221 | each missing or empty text field takes its default (a fresh id, "فاتورة", today, `$`), and both tables come back pinned |
| InvoicePage.NormalizeStoredTable | assets/js/invoice-page.js:223-265 | normalising a table in stored form gives it back |
| InvoicePage.NormalizeStoredInvoice | assets/js/invoice-page.js:189-221 | an invoice saved and loaded back is the same invoice |
| InvoicePage.DefaultHeadersPinned | assets/js/invoice-page.js:273-284 | the default headers hold the amount label last and only there |
| InvoicePage.CreateDefaultInvoice | assets/js/invoice-page.js:273-284 | the given id, name (or "فاتورة"), date and `$`, and the default table twice |
| InvoicePage.DefaultTableTotalsZero | assets/js/invoice-page.js:273-284 | the default table totals zero |
| InvoicePage.DefaultInvoiceIsStored | assets/js/invoice-page.js:273-284 | a new invoice is in stored form and both of its tables total zero |
| InvoicePage.CollapseWhite | assets/js/invoice-page.js:134 | the other characters are kept in order, the only white left is single spaces, and white at the front becomes a space |
| InvoicePage.CollapseWhiteGaps | assets/js/invoice-page.js:134 | white stands before a kept character, or at the end, after collapsing exactly when it stood there before: each run of white becomes one space in its place |
| InvoicePage.NormalizeForSearch | assets/js/invoice-page.js:131-136 | the result is lower case, trimmed, with single inner spaces, keeps every non-white character of the lower-cased text in order, and has a space between two of them exactly when white separated them in the text |
| InvoicePage.NormalizeForSearchIdempotent | assets/js/invoice-page.js:131-136 | normalising search text twice is normalising it once |
| InvoicePage.ToDateNum | assets/js/invoice-page.js:138-142 | empty text is no date; otherwise it is what `Date.parse` gives |
| InvoicePage.InvoiceInRange | assets/js/invoice-page.js:144-154 | an invoice in range has a date that parses; with both bounds empty, exactly those invoices are in range |
| InvoicePage.InvoiceInRangeMeaning | assets/js/invoice-page.js:144-154 | in range exactly when the date parses and lies between the bounds, both inclusive, a missing bound being open |
| InvoicePage.InvoiceInRangeWidens | assets/js/invoice-page.js:144-154 | widening the range never drops an invoice |
| InvoicePage.NonEmpty | assets/js/invoice-page.js:325 | the non-empty parts, and only those |
| InvoicePage.EmptyFilterMatchesAll | assets/js/invoice-page.js:321-338 | an empty filter lets every invoice through |
| InvoicePage.Keep | assets/js/invoice-page.js:341 | exactly the invoices with the property are kept |
| InvoicePage.Deduped | assets/js/invoice-page.js:343-348 | the ids become distinct, every id is still there, and only listed invoices appear |
| InvoicePage.DedupeById | assets/js/invoice-page.js:343-348 | the `seen`-set loop computes the first invoice of each id |
| InvoicePage.CurrentInvoice | assets/js/invoice-page.js:290-292 | the current invoice is a listed invoice with the current id, and one exists whenever the id is listed |
| InvoicePage.GetFilteredInvoices | assets/js/invoice-page.js:340-349 | the method computes the filtered list |
| InvoicePage.FilteredInvoicesShow | assets/js/invoice-page.js:340-349 | the list has distinct ids, holds only listed invoices, includes every matching id, and keeps the current invoice's id |
| InvoicePage.MatchingIdsKept | assets/js/invoice-page.js:341 | every invoice that matches the filter has its id in the matching list |
| InvoicePage.PdfRangeSelection | assets/js/invoice-page.js:1187-1199 | when some invoice is in range exactly the invoices in range are printed, in order; when none is, every invoice is printed |
| InvoicePage.PdfRangeSelectsInRange | assets/js/invoice-page.js:1187-1199 | when some invoice is in range, exactly the invoices in range are printed |
| InvoicePage.PdfRangeDropsUndated | assets/js/invoice-page.js:1187-1199 | with both bounds empty, an undated invoice is still dropped when another invoice has a date |
| InvoicePage.SanitizeSheetName | assets/js/invoice-page.js:938-941 | 1 to 31 characters with no forbidden character |
| InvoicePage.SanitizeSheetNameKeeps | assets/js/invoice-page.js:938-941 | a clean trimmed name is kept and a blank one becomes "Sheet" |
| InvoicePage.SanitizeSheetNameContent | assets/js/invoice-page.js:938-941 | each kept character is the name's own character, or a space where a forbidden one stood, taken from the trimmed middle in order |
| InvoicePage.InvoiceDataToMatrix | assets/js/invoice-page.js:1063-1066 | the pinned header row followed by the pinned rows, ending in the amount column |
| InvoicePage.TextRows | assets/js/invoice-page.js:1063-1066 | every cell is written as a text cell, in place |
| InvoicePage.ClientSheets | assets/js/invoice-page.js:1068-1125 | the loop builds the summary sheet and three sheets per invoice |
| InvoicePage.SummarySheetShape | assets/js/invoice-page.js:1068-1125 | the first sheet is the summary: the header row, then one row per invoice in order |
| InvoicePage.SheetsOfTotals | assets/js/invoice-page.js:1068-1125 | the totals the loop computes give exactly the summary row and the three sheets of the invoice |
| InvoicePage.SummaryRowTotals | assets/js/invoice-page.js:1068-1125 | a summary row ends with the two table totals and the balance |
| InvoicePage.InvoiceSheetsAt | assets/js/invoice-page.js:1068-1125 | after the summary, each invoice has its three sheets, in order |
| InvoicePage.SheetsOfShape | assets/js/invoice-page.js:1068-1125 | the operations and receipts sheets hold the pinned tables, and the final sheet ends with the balance formatted in the invoice's currency |
| InvoiceState.WithTable | assets/js/invoice-page.js:611-714 | the invoice with one table replaced, everything else kept |
| InvoiceState.PromptNonEmpty | assets/js/invoice-page.js:747-752 | a dismissed or blank answer gives nothing; otherwise the trimmed answer |
| InvoiceState.PromptNonEmptyStable | assets/js/invoice-page.js:747-752 | an accepted answer is accepted again unchanged |
| InvoiceState.PromptBlank | assets/js/invoice-page.js:747-752 | a blank answer gives nothing |
| InvoiceState.FindFirst | assets/js/invoice-page.js:160-169 | the id of the first invoice finds the first invoice |
| InvoiceState.LoadedInvoicesEntries | assets/js/invoice-page.js:160-169 | a stored array keeps its length and each entry is normalised with its own fresh id; anything else loads one default invoice "فاتورة 1" |
| InvoiceState.LoadedInvoices | assets/js/invoice-page.js:160-169 | a load never gives an empty list |
| InvoiceState.LoadedInvoicesFilled | assets/js/invoice-page.js:160-169 | every loaded invoice has its text fields filled in and both tables pinned |
| InvoiceState.InvoicePageState.constructor | assets/js/invoice-page.js:85-99 | no invoices, no current invoice, nothing selected |
| InvoiceState.InvoicePageState.CurrentIndex | assets/js/invoice-page.js:290-292 | the position of the first invoice with the current id, or none when no invoice has it |
| InvoiceState.InvoicePageState.SetSelected | assets/js/invoice-page.js:593-595 | the table's selection is replaced and nothing else changes |
| InvoiceState.InvoicePageState.LoadAll | assets/js/invoice-page.js:160-169 | the invoices are the loaded list and the first of them is current |
| InvoiceState.InvoicePageState.UpdateCurrentTable | assets/js/invoice-page.js:611-714 | one table of the current invoice is replaced, and the current invoice stays current |
| InvoiceState.InvoicePageState.AddRow | assets/js/invoice-page.js:611-630 | the current invoice's table becomes the table with one row added; without a current invoice nothing changes |
| InvoiceState.InvoicePageState.DelRow | assets/js/invoice-page.js:632-652 | the current invoice's table and selection become the row-deletion outcome; the other table's selection is kept |
| InvoiceState.InvoicePageState.AddColPinned | assets/js/invoice-page.js:654-683 | the current invoice's table becomes the table with a column added; selections are kept |
| InvoiceState.InvoicePageState.DelColPinned | assets/js/invoice-page.js:685-714 | the current invoice's table and selection become the column-deletion outcome |
| InvoiceState.InvoicePageState.CreateInvoice | assets/js/invoice-page.js:754-767 | an accepted name puts a default invoice of that name first and makes it current; otherwise nothing changes |
| InvoiceState.InvoicePageState.RenameInvoice | assets/js/invoice-page.js:769-779 | an accepted name replaces the current invoice's name and nothing else |
| InvoiceState.InvoicePageState.DeleteInvoice | assets/js/invoice-page.js:781-796 | once confirmed, the current invoice is removed, an emptied list gets "فاتورة 1", and the first invoice becomes current |
| TableEditing.ColumnTitle | assets/js/table-editor.js:120 | a dismissed or empty answer gives "عمود جديد"; any other answer is trimmed |
| TableEditing.BlankAnswerGivesEmptyTitle | assets/js/table-editor.js:120 | a blank answer is kept and trims to an empty title |
| TableEditing.BuiltRow | assets/js/table-editor.js:209-226 | one cell per column: the ordinal first, then the payload values, a missing amount "0" and the symbol, other missing cells empty |
| TableEditing.BuiltRows | assets/js/table-editor.js:228-234 | one row per payload row, or one row when there are none |
| TableEditing.BuiltRowsNumbered | assets/js/table-editor.js:228-236 | the built rows are numbered and full |
| TableEditing.BuiltRowOfFullRow | assets/js/table-editor.js:209-226 | a full, numbered row is rebuilt as it is |
| TableEditing.AfterSelectedIndex | assets/js/table-editor.js:141-144 | right after a selected column strictly between the first and the amount column, else before the amount column |
| TableEditing.RowsWithColumn | assets/js/table-editor.js:151-156 | every row gets an empty cell at `k` |
| TableEditing.RowsWithoutColumn | assets/js/table-editor.js:173-175 | every row loses its cell at `k` |
| TableEditing.TableEditor.constructor | assets/js/table-editor.js:2-10 | the editor holds the table with nothing selected |
| TableEditing.InsertKeepsLast | assets/js/table-editor.js:123-132 | inserting before the last place keeps the last element last and puts the new one at `k` |
| TableEditing.TableEditor.Click | assets/js/table-editor.js:54-75 | a click selects the header cell (no row) or the body cell |
| TableEditing.TableEditor.Renumber | assets/js/table-editor.js:26-31 | cell 0 of row `i` becomes `i + 1`, and nothing else changes |
| TableEditing.TableEditor.MakeRow | assets/js/table-editor.js:209-226 | the loop builds the row `BuiltRow` describes |
| TableEditing.TableEditor.MakeRows | assets/js/table-editor.js:228-234 | the loop builds the rows `BuiltRows` describes |
| TableEditing.TableEditor.AddRow | assets/js/table-editor.js:77-100 | one full row is appended, numbered next, with amount "0" and the symbol; earlier rows keep their cells |
| TableEditing.TableEditor.RemoveSelectedRow | assets/js/table-editor.js:102-112 | with one row or no row selected nothing changes; otherwise exactly that row goes, the body is renumbered, and the selected row is cleared while the selected column stays |
| TableEditing.TableEditor.InsertColumnAt | assets/js/table-editor.js:123-132 | a titled column with empty cells is inserted at `k`, and the amount column stays last |
| TableEditing.TableEditor.AddColumn | assets/js/table-editor.js:114-135 | a column is inserted right before the amount column, titled by the answer or "عمود جديد" |
| TableEditing.TableEditor.AddColumnAfterSelected | assets/js/table-editor.js:137-159 | a column is inserted at `AfterSelectedIndex`, and the amount column stays last |
| TableEditing.TableEditor.RemoveSelectedColumn | assets/js/table-editor.js:161-180 | above the floor, a selected column that is neither first nor amount is removed everywhere, and the selection moves to `min(idx, n - 2)` for the new column count `n`; otherwise nothing changes |
| TableEditing.TableEditor.Serialize | assets/js/table-editor.js:182-186 | exactly the current headers and rows |
| TableEditing.TableEditor.Build | assets/js/table-editor.js:188-239 | the payload headers when there are at least `minCols` of them, else the current ones; the built rows; nothing selected |
| TableEditing.BuildSerializeRoundTrip | assets/js/table-editor.js:182-239 | building from what `serialize` returns gives a full, numbered table back |
| Accounts.FieldOfFound | assets/js/accounts.js:471-474 | a member that is found is a member of the object under that key |
| Accounts.ToNumber | assets/js/accounts.js:472 | `Number` of a number is itself, of `null` is 0, and of an object is NaN |
| Accounts.NormalizeInvoice | assets/js/accounts.js:465-476 | a non-object is the placeholder, an object always gets a note, and without `price` or `amount` the price is 0 |
| Accounts.NormalizeInvoiceMembers | assets/js/accounts.js:465-476 | a non-object gives the placeholder; text members that are strings are kept, else empty; the price comes from `price`, else `amount`, and NaN becomes 0 |
| Accounts.NormalizeInvoices | assets/js/accounts.js:445 | each invoice is normalised in place |
| Accounts.InvoiceRoundTrip | assets/js/accounts.js:465-480 | a written invoice reads back as itself (the placeholder gains an empty note) |
| Accounts.Names | assets/js/accounts.js:535 | the keys, in order |
| Accounts.IndexOf | assets/js/accounts.js:445 | the position of a key, or none exactly when it is not a key |
| Accounts.Lookup | assets/js/accounts.js:194 | a name has invoices exactly when it is a key |
| Accounts.Put | assets/js/accounts.js:130 | an existing key keeps its place, a new key is added last, and keys stay distinct |
| Accounts.PutLookup | assets/js/accounts.js:130 | after the write the name reads as the new list and every other name as before |
| Accounts.Remove | assets/js/accounts.js:234 | exactly the entries with other names are kept |
| Accounts.RemoveDistinct | assets/js/accounts.js:234 | deleting a key keeps the keys distinct |
| Accounts.LookupMember | assets/js/accounts.js:194 | with distinct keys, a name's list is that of its one entry |
| Accounts.RemoveLookup | assets/js/accounts.js:234 | after the delete the name is gone and every other name reads as before |
| Accounts.EntryName | assets/js/accounts.js:438-439 | the first truthy of `name`, `client`, `title`, or none exactly when all are falsy |
| Accounts.FieldInvoices | assets/js/accounts.js:453-459 | a value that is neither an array nor an object with an `invoices` array gives no invoices |
| Accounts.NormalizeAccounts | assets/js/accounts.js:428-463 | the two loops compute the normalised ledger |
| Accounts.NormalizedAccounts | assets/js/accounts.js:428-463 | a falsy value, a number or a boolean gives an empty ledger |
| Accounts.NormalizedDistinct | assets/js/accounts.js:428-463 | a normalised ledger never holds a name twice |
| Accounts.NamelessEntrySkipped | assets/js/accounts.js:437-439 | an array entry that is not an object or has no truthy name is skipped |
| Accounts.NamedEntryFiled | assets/js/accounts.js:438-445 | a named array entry files its normalised invoices under its name |
| Accounts.MemberFiled | assets/js/accounts.js:451-460 | each member with a non-empty key is filed under its key with its normalised invoices |
| Accounts.AccountsJson | assets/js/accounts.js:478-480 | one member per name, in order, holding the invoice array |
| Accounts.PersistRoundTrip | assets/js/accounts.js:478-492 | a ledger with distinct, non-empty names whose invoices carry notes is read back exactly |
| Accounts.InvoicesRoundTrip | assets/js/accounts.js:465-480 | a list of invoices that carry notes is read back exactly |
| Accounts.MembersRoundTrip | assets/js/accounts.js:451-460 | the object members written for a persistable ledger file back, name by name, into the same ledger |
| Accounts.FromEntriesDistinct | assets/js/accounts.js:435-449 | the array form never files a name twice |
| Accounts.FromFieldsDistinct | assets/js/accounts.js:451-460 | the object form never files a name twice |
| Accounts.LoadedAccounts | assets/js/accounts.js:482-492 | nothing stored gives an empty ledger, and the loaded ledger's names are distinct |
| Accounts.TopTotal | assets/js/accounts.js:418-421 | the largest name total, or 0 when none is positive |
| Accounts.ComputeTotals | assets/js/accounts.js:407-425 | the number of names, of invoices and the balance; the first name with the largest positive total, else no name and 0 |
| Accounts.RemoveTotals | assets/js/accounts.js:234 | deleting a name takes exactly its invoices out of the totals |
| Accounts.BalanceConcat | assets/js/accounts.js:413-422 | the balance and the invoice count are additive over the ledger |
| Accounts.FindName | assets/js/accounts.js:533-536 | the first name equal to the target ignoring case, or none when there is none |
| Accounts.FindExistingName | assets/js/accounts.js:533-536 | a key equal to the name ignoring case, the first one, or none exactly when there is none |
| Accounts.FormatDelta | assets/js/accounts.js:558-572 | a dash without a previous value, "بدون تغيير" for no change, else an up or down arrow and the size of the change |
| Accounts.FormatDeltaSwap | assets/js/accounts.js:558-572 | swapping the values turns the arrow round and keeps the size |
| Accounts.Renamed | assets/js/accounts.js:193-195 | renaming keeps the keys distinct |
| Accounts.RenamedLookup | assets/js/accounts.js:193-195 | the new name holds the old name's invoices, the old name is gone, and every other name reads as before |
| Accounts.RenameKeepsBalance | assets/js/accounts.js:193-195 | renaming to a fresh name keeps the balance |
| Accounts.RenameKeepsCounts | assets/js/accounts.js:193-195 | renaming to a fresh name keeps the number of names and of invoices |
| Accounts.RenameOntoCaseTwin | assets/js/accounts.js:186-195 | renaming "Ali" to "ALI" while "ALI" is another key is allowed, and it loses that key's invoices |
| Accounts.RenamedAppends | assets/js/accounts.js:193-195 | renaming to a fresh name is removing the old key from the ledger with the renamed entry appended |
| Accounts.EditDecision | assets/js/accounts.js:175-204 | no selection, a blank name, a name taken by another key, the same name, or a rename, each exactly in its case |
| Accounts.LoadAccounts | assets/js/accounts.js:482-492 | the method loads the ledger `LoadedAccounts` describes |
| Accounts.AccountsPage.constructor | assets/js/accounts.js:37-46 | the loaded ledger, an empty filter, no selection, single delete mode |
| Accounts.AccountsPage.Search | assets/js/accounts.js:110-113 | the filter becomes the input trimmed and in lower case |
| Accounts.AccountsPage.AddClient | assets/js/accounts.js:115-138 | a blank name is refused, an existing name ignoring case is reported, anything else is added last with no invoices |
| Accounts.AccountsPage.Select | assets/js/accounts.js:165-213 | the name becomes the selection, and the delete dialog sets single mode |
| Accounts.AccountsPage.RequestClearAll | assets/js/accounts.js:215-222 | nothing selected, delete everything |
| Accounts.AccountsPage.EditSubmit | assets/js/accounts.js:175-204 | the outcome is `EditDecision`; only a rename changes the ledger, and a rename or an unchanged name clears the selection |
| Accounts.AccountsPage.DeleteSubmit | assets/js/accounts.js:224-242 | mode "all" empties the ledger, otherwise the selected name is deleted; the selection is cleared |
| Accounts.AccountsPage.Import | assets/js/accounts.js:244-269 | an unreadable file changes nothing, otherwise the ledger becomes the normalised file |

## Left out

- DOM rendering and event wiring are not modelled: rendering tables and pickers, dialogs, toasts, `highlightRow`, tab switching, selection styles, footer colspan, `openEdit`/`closeEdit`/`clearAddForm` and the click dispatchers. The model works on the data these show.
- The printable HTML (`buildPrintable*`, `printInvoices`, `window.print`) and `assets/js/report.js` are left out, because they are page layout and a PDF library.
- The XLSX library path (`exportWorkbook`, `exportWorkbookXlsx`, `exportTabExcel`, `exportInvoiceExcel`, `tableElToMatrix`, `exportXlsFallback`) is left out, because it calls a foreign library. The offline SpreadsheetML writer and the client sheet list are modelled.
- `exportSpreadsheetMLWorkbook`, `downloadBlob`, `exportBackup` and `exportData` are left out, because they are only file downloads.
- `localStorage` reads and writes, `JSON.parse` and `JSON.stringify` of text are not modelled. Parsed values are the datatypes `Accounts.Json` and `Storage.StoredApp`, and unreadable text is `None`.
- `saveAll`, `requestSave`, `saveSnapshot`/`loadSnapshot`, `seedDemoData` and `syncNow` are left out, because they are storage plumbing and timers.
- `readTable` and `saveCurrentFromDom` are not modelled, because they read the page. The pinning and renumbering they apply are modelled.
- `setCurrentInvoice` only assigns the current id and re-renders, so it is not modelled.
- The clock, `uid`, `Math.random`, `prompt` and `confirm` are not modelled. They become parameters.
- `Date.parse` is a parameter, not its grammar.
- `Intl.NumberFormat` is a parameter `formatNumber` of `Accounts.FormatDelta`.
- `Text.Lower` lower-cases ASCII letters only, not all of Unicode.
- Numeric.NumberText: writes at most 20 fraction digits, cutting any beyond them, and never uses an exponent. `String` of a double writes the shortest text that reads back as the same double, in exponent form from 1e21 up and below 1e-6. The round trip `Numeric.NumberTextRoundTrip` is proved for numbers with at most 20 fraction digits.
- Numeric.StringToNumber: reads only optionally signed decimal literals with white space around them. `Number` also accepts exponents ("1e3"), hexadecimal, octal and binary literals ("0x10") and "Infinity"; the model reads these as NaN. A stored invoice price written "1e3" is therefore 1000 in the program but 0 in `Accounts.NormalizeInvoice`.
- Floating-point rounding is not modelled. Amounts are exact `real`s, so totals have no rounding error.
- `Numeric.ParseFloatPrefix` is defined on cleaned text only, which is all the application passes to `parseFloat`.
- `Accounts.ToNumber`: an object is NaN directly, without going through its text.
- `TableEditing.TableEditor.constructor`: requires `minCols >= 1` and at least one header. The page always builds editors over tables with headers, and with an empty header row `renumber` would fail.
- Accounts.Put: a new key always goes last. JavaScript enumerates index-like keys ("7", "123") before all others, in ascending order, and an assignment to `__proto__` sets the prototype instead of adding a key. The model keeps plain insertion order for every key.
- Accounts.ComputeTotals: "the first name with the largest total" follows the model's key order. With index-like names the program differs: for the ledger imported from `[{name: "Ali", invoices: [{price: 5}]}, {name: "7", invoices: [{price: 5}]}]`, the program reports "7" and the model "Ali".
- Accounts.AccountsPage.AddClient: "added last" holds for names that are not index-like; an index-like name is listed among the index-like keys, in ascending order.
- Accounts.Renamed: the renamed entry goes last, which holds for new names that are not index-like.
- TableEditing.TableEditor.Build: rows are typed `seq<seq<string>>`. A `null` row or a non-string cell in the payload, which `values?.[c] ?? …` in `assets/js/table-editor.js` tolerates, cannot be expressed.
- Accounts.Field: takes the first member with the key, as does `Accounts.FieldOf`. `JSON.parse` keeps the last of duplicate keys, so stored text with a repeated key reads differently; the model's objects are meant to hold each key once.
- Accounts.StringEntries: indexes a string by code point. `Object.entries` indexes by UTF-16 code unit, so a character outside the Basic Multilingual Plane gives two entries there and one here.
- Exports.Prefix: counts characters as code points. `slice(0, 31)` counts UTF-16 code units, so a name with characters outside the Basic Multilingual Plane is cut at a different place. `OfflineExcel.SheetNameXml` and both sheet-name cleaners inherit this.
- `InvoiceState.LoadedInvoicesFilled`: requires non-empty fresh ids and date, as `uid()` and `nowIsoDate()` always give.
