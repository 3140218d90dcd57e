# Print-shop transaction recap, modelled in Dafny

The shop's two browser pages keep one list of print transactions under the
storage key `op3_transactions_v1`, newest first. The cashier page
(`assets/js/kasir.js`) enters records. The recap page
(`assets/js/recapprint.js`) lists them. Both pages render the list with an
optional date filter, a row count and a grand total. Both can delete one
record by id, clear the whole list after confirmation, and export the list
as CSV.

The project models that shared core:

- `wrappers.dfy` holds `Option`.
- `text.dfy` holds JavaScript's `trim` and the decimal writing of integers, with a parser as its partner.
- `html.dfy` holds `escapeHtml`, with an unescaper as its partner and its safety properties.
- `csv.dfy` holds the field quoting and `join`, with a small RFC 4180-style reader (line feeds between records, not CRLF) as their partner.
- `transactions.dfy` holds the record, the total, the date filter, removal by id, row rendering and the export as functions on values, and the properties proved about them.
- `store.dfy` holds the stored list as the `txs` field of the class `TransactionStore`. Its methods load, change and save it the way the pages' handlers do. The two `forEach` loops (render and export) are methods with loop invariants.

The two pages differ in two ways, and `Page = Kasir | RecapPrint` selects which applies:

- The recap page shows a notes column.
- The recap page guards buyer and service with `|| ''` in the export. The cashier page does not, so a stored record without a buyer or service makes its export throw. The model calls that outcome `Failed`.

Buyer, service and notes are `Option<string>`, because a record read back from storage may lack them.

## Model

| member | source | states |
|---|---|---|
| Transactions.Max | assets/js/kasir.js:186-188 | `Math.max` of two numbers: the result is at least both and is one of them |
| Transactions.ComputeTotal | assets/js/kasir.js:189 | the total is never negative, is at least `pages*unitPrice - discount`, and is either 0 or exactly that difference |
| Transactions.ClampedTotal | assets/js/kasir.js:186-189 | with pages raised to at least 1 and price and discount raised to at least 0, the stored total is `pages*unitPrice - discount` when that is not negative, and 0 otherwise |
| Transactions.ComputeSubtotal | assets/js/kasir.js:30-37 | the live subtotal shown while typing applies the same formula to the raw inputs: it is never negative, is at least `pages*unitPrice - discount`, and is either 0 or exactly that difference |
| Transactions.SubtotalDiffersFromStoredTotal | assets/js/kasir.js:30-37 | two concrete inputs where the live subtotal differs from the stored total: pages 0, price 1000, discount 0 (0 against 1000) and pages 1, price 1000, discount -500 (1500 against 1000) |
| Transactions.PagesZeroDiffers | assets/js/kasir.js:30-37 | for pages 0 and any discount from 0 up to below a positive price, the live subtotal is 0 while the stored total is positive |
| Transactions.NegativeDiscountDiffers | assets/js/kasir.js:186-189 | for pages at least 1, price at least 0 and any negative discount, the live subtotal exceeds the stored total by exactly the discount's size |
| Transactions.SubtotalAgreesInRange | assets/js/kasir.js:186-189 | when the inputs already lie in the clamped ranges, the live subtotal equals the stored total |
| Transactions.CreateTx | assets/js/kasir.js:186-201 | a created record has pages at least 1, price and discount at least 0, the clamped total, trimmed buyer and notes, the service as entered, and is consistent |
| Transactions.SampleTx | assets/js/kasir.js:251-261 | the sample record has the given id and date, pages 2, unit price 1000, discount 0 and total 2000, buyer `Contoh`, service `Print Hitam Putih` and notes `Contoh transaksi`, and is consistent |
| Transactions.OnDate | assets/js/kasir.js:58-60 | the date filter never grows the list, every kept record has the date, and a record is kept exactly when it is in the list with that date |
| Transactions.FilterByDate | assets/js/recapprint.js:37-42 | a missing or empty filter shows every record; any other filter shows exactly the records of that date |
| Transactions.OnDateAppend | assets/js/kasir.js:59 | the filter keeps order: it distributes over concatenation |
| Transactions.OnDateIdempotent | assets/js/kasir.js:59 | filtering twice by a date equals filtering once |
| Transactions.SumTotals | assets/js/kasir.js:63-65 | the sum of the records' totals; it has no contract of its own, and SumTotalsAppend, SumTotalsNonNegative and SumTotalsSplitByDate state its properties |
| Transactions.SumTotalsAppend | assets/js/kasir.js:63-65 | the grand total of a concatenation is the sum of the parts' grand totals |
| Transactions.SumTotalsNonNegative | assets/js/kasir.js:63-65 | the grand total of consistent records is never negative |
| Transactions.SumTotalsSplitByDate | assets/js/kasir.js:57-65 | a date's grand total plus the other dates' grand total is the whole list's grand total |
| Transactions.RemoveById | assets/js/kasir.js:116-119 | removal never grows the list, no kept record has the id, and a record is kept exactly when it is in the list with another id |
| Transactions.RemoveByIdAppend | assets/js/recapprint.js:90-93 | removal keeps order: it distributes over concatenation |
| Transactions.RemoveByIdAbsent | assets/js/kasir.js:116-119 | removing an id that no record has leaves the list unchanged |
| Transactions.RemoveByIdIdempotent | assets/js/recapprint.js:90-93 | removing twice equals removing once |
| Transactions.RemoveByIdLength | assets/js/kasir.js:116-119 | removal shortens the list by exactly the number of records with that id |
| Transactions.RemoveUndoesAdd | assets/js/kasir.js:109-119 | removing the id of a freshly added record with a new id gives back the list before the add |
| Transactions.RemovePreservesConsistent | assets/js/recapprint.js:90-93 | removal keeps every record's total consistent with its inputs |
| Transactions.RenderRow | assets/js/recapprint.js:50-62 | one table row: position, date, escaped buyer and service, the numbers, escaped notes on the recap page only, and the id for the delete button; it has no contract of its own, and RenderRowSafe states its properties |
| Transactions.RenderRowSafe | assets/js/recapprint.js:50-59 | the buyer, service and notes cells hold no `<`, `>`, `"` or `'` and unescape to the record's text; the notes cell is present on the recap page only |
| Transactions.RowFields | assets/js/kasir.js:138-148 | the nine written fields of a record in header order; it has no contract of its own, and CsvRowIsEncoded states what they are |
| Transactions.CsvRow | assets/js/kasir.js:138-149 | a record's line cannot be built exactly on the cashier page when buyer or service is missing |
| Transactions.CsvRows | assets/js/recapprint.js:111-124 | the data lines exist exactly unless the cashier page meets a record missing buyer or service; there is one line per record, in list order |
| Transactions.CsvExport | assets/js/recapprint.js:103-125 | the empty list exports nothing; the export fails exactly on the cashier page with a record missing buyer or service; the recap page always downloads otherwise |
| Transactions.HeaderCellsEncoded | assets/js/kasir.js:135-136 | the header line is the nine column names, written bare |
| Transactions.CsvRowIsEncoded | assets/js/kasir.js:138-149 | when the id and the date hold no `"`, each data line is the nine fields in header order: the text fields quoted with `"` doubled, the numbers bare |
| Transactions.ExportIsEncoded | assets/js/kasir.js:129-151 | when no id or date holds a `"`, the download is the header record followed by one encoded record per list entry, joined by line feeds |
| Transactions.ExportReadsBack | assets/js/recapprint.js:109-125 | reading the download with the RFC 4180-style reader (LF record separators) gives the header names and then each record's nine field texts, with missing text fields read as empty |
| Transactions.DecodeRowTexts | assets/js/recapprint.js:112-122 | a record's nine field texts decode back to that record, with missing text fields as empty strings |
| Transactions.ExportImportRoundTrip | assets/js/recapprint.js:103-125 | importing an export gives back the exported list, with missing text fields as empty strings, when no id or date holds a `"` |
| Text.Trim | assets/js/kasir.js:194 | a non-empty trimmed text neither starts nor ends with whitespace |
| Text.TrimIsSlice | assets/js/kasir.js:194 | the trimmed text is a contiguous slice of the input |
| Text.TrimDropsOnlyWhitespace | assets/js/kasir.js:200 | every character that trimming drops is whitespace |
| Text.TrimIdempotent | assets/js/kasir.js:194 | trimming twice equals trimming once |
| Text.IntToDecimal | assets/js/kasir.js:143-146 | a written number is non-empty and holds no comma, quote or line feed, so it needs no CSV quoting |
| Text.NatDecimalRoundTrip | assets/js/kasir.js:143-146 | reading back the decimal digits of a natural number gives the number |
| Text.IntDecimalRoundTrip | assets/js/recapprint.js:117-120 | reading back a written integer, sign included, gives the integer |
| Html.EscapeField | assets/js/kasir.js:168-170 | a missing or empty field escapes to the empty text |
| Html.EscapeHtml | assets/js/kasir.js:169 | replaces each of `& < > " '` by its character reference and keeps every other character; it has no contract of its own, and EscapeHtmlSafe, EscapeHtmlPlain, EscapeHtmlAppend and EscapeHtmlRoundTrip state its properties |
| Html.EscapeHtmlAppend | assets/js/kasir.js:168-170 | escaping works character by character: it distributes over concatenation |
| Html.EscapeHtmlPlain | assets/js/recapprint.js:33-35 | text without `& < > " '` passes through unchanged |
| Html.EscapeHtmlSafe | assets/js/kasir.js:168-170 | the output holds no `<`, `>`, `"` or `'`, and every `&` in it begins one of the five character references |
| Html.EscapeHtmlRoundTrip | assets/js/recapprint.js:33-35 | unescaping the output gives back the input, so no character is lost or reordered |
| Csv.DoubleQuotes | assets/js/kasir.js:141-142 | doubling the quotes never shortens the text, and leaves its length unchanged exactly when the text holds no `"` |
| Csv.Quote | assets/js/kasir.js:147 | a written text field starts and ends with `"` and is at least two characters longer than the text |
| Csv.Join | assets/js/kasir.js:149-151 | `join` with one separator between neighbouring parts; it has no contract of its own, and ReadRecordRoundTrip and ReadCsvRoundTrip show that the reader splits a join back into its parts |
| Csv.QuoteRoundTrip | assets/js/kasir.js:141-142 | a quoted field with each `"` doubled reads back as the original text |
| Csv.ReadQuotedDoubled | assets/js/recapprint.js:115-116 | the reader undoes the doubling of `"` inside a quoted field |
| Csv.ReadRecordRoundTrip | assets/js/kasir.js:149 | a line of fields joined by commas reads back as those fields |
| Csv.ReadCsvRoundTrip | assets/js/kasir.js:151 | lines joined by line feeds read back as those records |
| Store.CsvRowsOf | assets/js/kasir.js:137-150 | one line built from each record, in order, is the export's data lines |
| Store.PushRows | assets/js/recapprint.js:110-124 | the export loop fails exactly when the cashier page meets a broken record; otherwise it yields the starting lines followed by the data lines |
| Store.RenderRows | assets/js/recapprint.js:45-64 | the render loop numbers the shown records from 1 in order and sums their totals |
| Store.TransactionStore.constructor | assets/js/kasir.js:40-43 | a store with no entry loads as the empty list |
| Store.TransactionStore.Add | assets/js/kasir.js:109-112 | the new record is first, the old list follows unchanged, and the length grows by one |
| Store.TransactionStore.Submit | assets/js/kasir.js:184-203 | submitting adds the created record in front and keeps every record consistent |
| Store.TransactionStore.Remove | assets/js/recapprint.js:90-93 | the stored list becomes the records with another id, and consistency is kept |
| Store.TransactionStore.ClearAll | assets/js/recapprint.js:97-100 | a confirmed clear empties the list; a cancelled one changes nothing |
| Store.TransactionStore.SeedIfEmpty | assets/js/kasir.js:248-265 | only an empty list is seeded, with exactly the sample record; any other list is unchanged |
| Store.TransactionStore.Render | assets/js/kasir.js:55-97 | the count is the number of shown records, the rows are those records numbered from 1, and the grand total is their sum; no filter shows every record; an empty store shows 0 rows and total 0 |
| Store.TransactionStore.ExportCsv | assets/js/kasir.js:129-151 | the export of the stored list is the one `CsvExport` defines |

## Left out

- Reading and writing the storage entry, and JSON, are modelled as reading and assigning `txs`. The `catch` path that turns unreadable storage into `[]` is not modelled.
- `uid()` and the date of today come from the clock and randomness, so they are parameters (`id`, `date`, `today`).
- `formatIDR` (locale currency formatting), the markup around each cell, the delete-button wiring, the `anime` effects and the download mechanics (Blob, object URL, file name) are not modelled.
- `confirm(...)` is a boolean parameter of `ClearAll`.
- `Number(x) || 0`: form inputs are taken as already-coerced integers. NaN, fractions, floating-point rounding and the exponent notation JavaScript uses for very large numbers are not modelled.
- Stored records are assumed to carry id, date and the four numbers. Only a missing buyer, service or notes is modelled, because that is where the two pages' exports differ.
- Ids are compared as strings. `String(t.id) !== String(id)` on non-string ids is not modelled.
- The date and the id are written into the page markup unescaped. The model keeps them as given and proves nothing about them.
- Transactions.ExportImportRoundTrip: holds only when no id or date contains `"`, because the export writes those two fields inside quotes without doubling.
- Transactions.ExportReadsBack: needs the same condition, for the same reason.
- Transactions.CsvRowIsEncoded: needs the same condition, for the same reason.
- Transactions.ExportIsEncoded: needs the same condition, for the same reason.
- `assets/js/app.js` and the pages' markup are not part of this model.

## Findings

| source | as written | input that shows it | evidently intended | confidence | as-written member | corrected member |
|---|---|---|---|---|---|---|
| assets/js/kasir.js:30-37 | the live subtotal uses the raw inputs, but submitting clamps pages to at least 1 and price and discount to at least 0 before computing the stored total (kasir.js:186-189) | pages 0, price 1000, discount 0: subtotal 0, stored total 1000; pages 1, price 1000, discount -500: subtotal 1500, stored total 1000 | the preview shows the total that will be stored | medium, not executed | Transactions.SubtotalDiffersFromStoredTotal | Transactions.ClampedTotal |
