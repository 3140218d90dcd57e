/** The print-shop transaction recap shared by the POS page (assets/js/kasir.js)
    and the recap page (assets/js/recapprint.js): the record, the total formula,
    the date filter with its count and grand total, deletion by id, the table
    rows and the CSV export. The two pages differ in two places, selected by
    `Page`: the recap page shows a notes column, and its export writes a missing
    buyer or service as an empty field where the POS page's export fails. */
module Transactions {
  import opened Wrappers
  import Text
  import Html
  import Csv

  datatype Page = Kasir | RecapPrint

  /** One stored transaction. Text fields that the POS page always fills may be
      missing in a stored record, so they are optional. */
  datatype Tx = Tx(
    id: string,
    date: string,
    buyer: Option<string>,
    service: Option<string>,
    pages: int,
    unitPrice: int,
    discount: int,
    total: int,
    notes: Option<string>)

  function Max(a: int, b: int): (m: int)
    ensures m >= a && m >= b && (m == a || m == b)
  {
    if a >= b then a else b
  }

  // ---------------------------------------------------------------------------
  // Totals

  /** `Math.max(0, pages * unitPrice - discount)`. */
  function ComputeTotal(pages: int, unitPrice: int, discount: int): (r: int)
    ensures r >= 0 && r >= pages * unitPrice - discount
    ensures r == 0 || r == pages * unitPrice - discount
  {
    Max(0, pages * unitPrice - discount)
  }

  /** The total the submit handler stores: the formula applied to the clamped
      inputs (at least one page, no negative price or discount). */
  function ClampedTotal(pagesInput: int, unitPriceInput: int, discountInput: int): (r: int)
    ensures var pages := if pagesInput >= 1 then pagesInput else 1;
            var unitPrice := if unitPriceInput >= 0 then unitPriceInput else 0;
            var discount := if discountInput >= 0 then discountInput else 0;
            r == (if pages * unitPrice - discount >= 0 then pages * unitPrice - discount else 0)
  {
    ComputeTotal(Max(1, pagesInput), Max(0, unitPriceInput), Max(0, discountInput))
  }

  /** The live subtotal of the POS form, as written: the formula applied to the
      inputs WITHOUT the clamping that the submit handler applies. */
  function ComputeSubtotal(pagesInput: int, unitPriceInput: int, discountInput: int): (r: int)
    ensures r >= 0 && r >= pagesInput * unitPriceInput - discountInput
    ensures r == 0 || r == pagesInput * unitPriceInput - discountInput
  {
    ComputeTotal(pagesInput, unitPriceInput, discountInput)
  }

  /** Two inputs on which the live subtotal and the stored total disagree: with
      no page count entered the preview shows 0 while 1000 is recorded, and with a
      discount of -500 the preview shows 1500 while 1000 is recorded. */
  lemma SubtotalDiffersFromStoredTotal()
    ensures ComputeSubtotal(0, 1000, 0) == 0 && ClampedTotal(0, 1000, 0) == 1000
    ensures ComputeSubtotal(1, 1000, -500) == 1500 && ClampedTotal(1, 1000, -500) == 1000
  {
    assert Max(1, 0) == 1 && Max(0, 1000) == 1000 && Max(0, -500) == 0;
    assert 0 * 1000 - 0 == 0 && 1 * 1000 - 0 == 1000 && 1 * 1000 - -500 == 1500;
  }

  /** With no page count and a discount below a positive price, the preview
      shows 0 while the submit records a positive total. */
  lemma PagesZeroDiffers(unitPriceInput: int, discountInput: int)
    requires 0 <= discountInput < unitPriceInput
    ensures ComputeSubtotal(0, unitPriceInput, discountInput) == 0
    ensures ClampedTotal(0, unitPriceInput, discountInput) > 0
  {
  }

  /** With a page count and price in range, a negative discount raises the
      preview above the recorded total by exactly the discount's size. */
  lemma NegativeDiscountDiffers(pagesInput: int, unitPriceInput: int, discountInput: int)
    requires pagesInput >= 1 && unitPriceInput >= 0 && discountInput < 0
    ensures ComputeSubtotal(pagesInput, unitPriceInput, discountInput)
         == ClampedTotal(pagesInput, unitPriceInput, discountInput) - discountInput
    ensures ComputeSubtotal(pagesInput, unitPriceInput, discountInput)
          > ClampedTotal(pagesInput, unitPriceInput, discountInput)
  {
  }

  /** The two agree exactly on inputs already inside the clamped ranges. */
  lemma SubtotalAgreesInRange(pagesInput: int, unitPriceInput: int, discountInput: int)
    requires pagesInput >= 1 && unitPriceInput >= 0 && discountInput >= 0
    ensures ComputeSubtotal(pagesInput, unitPriceInput, discountInput)
         == ClampedTotal(pagesInput, unitPriceInput, discountInput)
  {
  }

  /** A record whose quantities obey the clamping and whose total is the formula. */
  predicate Consistent(tx: Tx) {
    tx.pages >= 1 && tx.unitPrice >= 0 && tx.discount >= 0 &&
    tx.total == ComputeTotal(tx.pages, tx.unitPrice, tx.discount)
  }

  predicate AllConsistent(list: seq<Tx>) {
    forall tx :: tx in list ==> Consistent(tx)
  }

  /** The record the submit handler builds from the form: quantities clamped,
      total computed, buyer and notes trimmed, the service taken as selected. */
  function CreateTx(id: string, date: string, buyerInput: string, serviceInput: string,
                    pagesInput: int, unitPriceInput: int, discountInput: int,
                    notesInput: string): (tx: Tx)
    ensures Consistent(tx) && tx.total >= 0
    ensures tx.pages == (if pagesInput >= 1 then pagesInput else 1)
    ensures tx.unitPrice == (if unitPriceInput >= 0 then unitPriceInput else 0)
    ensures tx.discount == (if discountInput >= 0 then discountInput else 0)
    ensures tx.total == ClampedTotal(pagesInput, unitPriceInput, discountInput)
    ensures tx.id == id && tx.date == date
    ensures tx.buyer == Some(Text.Trim(buyerInput)) && tx.service == Some(serviceInput)
    ensures tx.notes == Some(Text.Trim(notesInput))
  {
    var pages := Max(1, pagesInput);
    var unitPrice := Max(0, unitPriceInput);
    var discount := Max(0, discountInput);
    Tx(id, date, Some(Text.Trim(buyerInput)), Some(serviceInput),
       pages, unitPrice, discount, ComputeTotal(pages, unitPrice, discount),
       Some(Text.Trim(notesInput)))
  }

  /** The sample record written into an empty store. */
  function SampleTx(id: string, today: string): (tx: Tx)
    ensures Consistent(tx) && tx.total == 2000
    ensures tx.pages == 2 && tx.unitPrice == 1000 && tx.discount == 0
    ensures tx.id == id && tx.date == today
    ensures tx.buyer == Some("Contoh") && tx.service == Some("Print Hitam Putih")
    ensures tx.notes == Some("Contoh transaksi")
  {
    Tx(id, today, Some("Contoh"), Some("Print Hitam Putih"), 2, 1000, 0, 2 * 1000,
       Some("Contoh transaksi"))
  }

  // ---------------------------------------------------------------------------
  // Filtering by date, count and grand total

  /** `list.filter(tx => tx.date === d)`. */
  function OnDate(list: seq<Tx>, d: string): (r: seq<Tx>)
    ensures |r| <= |list|
    ensures forall k :: 0 <= k < |r| ==> r[k].date == d
    ensures forall tx :: tx in r <==> tx in list && tx.date == d
  {
    if list == [] then []
    else (if list[0].date == d then [list[0]] else []) + OnDate(list[1..], d)
  }

  /** The rows `renderTable(filter)` shows: all records when the filter is
      missing or empty, otherwise the records of that date. */
  function FilterByDate(list: seq<Tx>, filter: Option<string>): (r: seq<Tx>)
    ensures filter == None || filter == Some("") ==> r == list
    ensures filter.Some? && filter.value != "" ==>
      forall tx :: tx in r <==> tx in list && tx.date == filter.value
  {
    if filter.Some? && filter.value != "" then OnDate(list, filter.value) else list
  }

  /** The date filter keeps the records' order: it distributes over concatenation. */
  lemma {:induction false} OnDateAppend(a: seq<Tx>, b: seq<Tx>, d: string)
    ensures OnDate(a + b, d) == OnDate(a, d) + OnDate(b, d)
    decreases |a|
  {
    if a == [] {
      assert a + b == b;
    } else {
      assert (a + b)[1..] == a[1..] + b;
      OnDateAppend(a[1..], b, d);
    }
  }

  /** Filtering by a date twice is filtering once. */
  lemma {:induction false} OnDateIdempotent(list: seq<Tx>, d: string)
    ensures OnDate(OnDate(list, d), d) == OnDate(list, d)
    decreases |list|
  {
    if list != [] {
      var head := if list[0].date == d then [list[0]] else [];
      OnDateAppend(head, OnDate(list[1..], d), d);
      OnDateIdempotent(list[1..], d);
      if list[0].date == d {
        assert OnDate(head, d) == head by {
          assert head[1..] == [];
        }
      }
    }
  }

  /** The grand total: the sum of the records' totals. */
  function SumTotals(list: seq<Tx>): int {
    if list == [] then 0 else list[0].total + SumTotals(list[1..])
  }

  lemma {:induction false} SumTotalsAppend(a: seq<Tx>, b: seq<Tx>)
    ensures SumTotals(a + b) == SumTotals(a) + SumTotals(b)
    decreases |a|
  {
    if a == [] {
      assert a + b == b;
    } else {
      assert (a + b)[1..] == a[1..] + b;
      SumTotalsAppend(a[1..], b);
    }
  }

  /** Records built by the form never make the grand total negative. */
  lemma {:induction false} SumTotalsNonNegative(list: seq<Tx>)
    requires AllConsistent(list)
    ensures SumTotals(list) >= 0
    decreases |list|
  {
    if list != [] {
      assert list[0] in list;
      assert AllConsistent(list[1..]) by {
        forall tx | tx in list[1..] ensures Consistent(tx) {
          assert tx in list;
        }
      }
      SumTotalsNonNegative(list[1..]);
    }
  }

  /** The records of other dates. */
  function OffDate(list: seq<Tx>, d: string): seq<Tx> {
    if list == [] then []
    else (if list[0].date != d then [list[0]] else []) + OffDate(list[1..], d)
  }

  /** The grand total of one date plus that of all other dates is the grand
      total of the whole list: the date filter loses and duplicates nothing. */
  lemma {:induction false} SumTotalsSplitByDate(list: seq<Tx>, d: string)
    ensures SumTotals(OnDate(list, d)) + SumTotals(OffDate(list, d)) == SumTotals(list)
    decreases |list|
  {
    if list != [] {
      var on := if list[0].date == d then [list[0]] else [];
      var off := if list[0].date != d then [list[0]] else [];
      SumTotalsAppend(on, OnDate(list[1..], d));
      SumTotalsAppend(off, OffDate(list[1..], d));
      SumTotalsSplitByDate(list[1..], d);
    }
  }

  // ---------------------------------------------------------------------------
  // Deletion by id

  /** `list.filter(t => String(t.id) !== String(id))`. */
  function RemoveById(list: seq<Tx>, id: string): (r: seq<Tx>)
    ensures |r| <= |list|
    ensures forall k :: 0 <= k < |r| ==> r[k].id != id
    ensures forall tx :: tx in r <==> tx in list && tx.id != id
  {
    if list == [] then []
    else (if list[0].id != id then [list[0]] else []) + RemoveById(list[1..], id)
  }

  /** Deletion keeps the order of the records that stay: it distributes over
      concatenation. */
  lemma {:induction false} RemoveByIdAppend(a: seq<Tx>, b: seq<Tx>, id: string)
    ensures RemoveById(a + b, id) == RemoveById(a, id) + RemoveById(b, id)
    decreases |a|
  {
    if a == [] {
      assert a + b == b;
    } else {
      assert (a + b)[1..] == a[1..] + b;
      RemoveByIdAppend(a[1..], b, id);
    }
  }

  /** Deleting an id no record has leaves the list as it was. */
  lemma {:induction false} RemoveByIdAbsent(list: seq<Tx>, id: string)
    requires forall k :: 0 <= k < |list| ==> list[k].id != id
    ensures RemoveById(list, id) == list
    decreases |list|
  {
    if list != [] {
      RemoveByIdAbsent(list[1..], id);
      assert [list[0]] + list[1..] == list;
    }
  }

  /** Deleting twice is deleting once. */
  lemma RemoveByIdIdempotent(list: seq<Tx>, id: string)
    ensures RemoveById(RemoveById(list, id), id) == RemoveById(list, id)
  {
    RemoveByIdAbsent(RemoveById(list, id), id);
  }

  /** The number of records that carry `id`. */
  function CountId(list: seq<Tx>, id: string): nat {
    if list == [] then 0 else (if list[0].id == id then 1 else 0) + CountId(list[1..], id)
  }

  /** Deletion removes exactly the records carrying the id, no more, no fewer. */
  lemma {:induction false} RemoveByIdLength(list: seq<Tx>, id: string)
    ensures |RemoveById(list, id)| == |list| - CountId(list, id)
    decreases |list|
  {
    if list != [] {
      RemoveByIdLength(list[1..], id);
    }
  }

  /** Deleting the record just added, when its id is new, gives back the list
      as it was before the addition. */
  lemma RemoveUndoesAdd(tx: Tx, list: seq<Tx>)
    requires forall k :: 0 <= k < |list| ==> list[k].id != tx.id
    ensures RemoveById([tx] + list, tx.id) == list
  {
    assert ([tx] + list)[1..] == list;
    RemoveByIdAbsent(list, tx.id);
  }

  lemma RemovePreservesConsistent(list: seq<Tx>, id: string)
    requires AllConsistent(list)
    ensures AllConsistent(RemoveById(list, id))
  {
  }

  // ---------------------------------------------------------------------------
  // Table rows

  /** What one table row shows. Amounts are kept as numbers (their currency
      formatting is not modelled); `notes` is present only on the recap page;
      `deleteId` is the id the row's delete button carries. */
  datatype Row = Row(
    position: nat,
    date: string,
    buyer: string,
    service: string,
    pages: int,
    unitPrice: int,
    discount: int,
    total: int,
    notes: Option<string>,
    deleteId: string)

  function RenderRow(page: Page, tx: Tx, position: nat): Row {
    Row(position, tx.date, Html.EscapeField(tx.buyer), Html.EscapeField(tx.service),
        tx.pages, tx.unitPrice, tx.discount, tx.total,
        if page == RecapPrint then Some(Html.EscapeField(tx.notes)) else None,
        tx.id)
  }

  /** No markup character reaches the page through the buyer, service or notes
      cells, and each of them still reads as the record's own text. */
  lemma RenderRowSafe(page: Page, tx: Tx, position: nat)
    ensures Html.UnescapeHtml(RenderRow(page, tx, position).buyer) == tx.buyer.GetOr("")
    ensures Html.UnescapeHtml(RenderRow(page, tx, position).service) == tx.service.GetOr("")
    ensures RenderRow(page, tx, position).notes.Some? <==> page == RecapPrint
    ensures page == RecapPrint ==>
      Html.UnescapeHtml(RenderRow(page, tx, position).notes.value) == tx.notes.GetOr("")
    ensures forall k :: 0 <= k < |RenderRow(page, tx, position).buyer| ==>
      !(RenderRow(page, tx, position).buyer[k] in {'<', '>', '"', '\''})
    ensures forall k :: 0 <= k < |RenderRow(page, tx, position).service| ==>
      !(RenderRow(page, tx, position).service[k] in {'<', '>', '"', '\''})
    ensures page == RecapPrint ==>
      forall k :: 0 <= k < |RenderRow(page, tx, position).notes.value| ==>
        !(RenderRow(page, tx, position).notes.value[k] in {'<', '>', '"', '\''})
  {
    Html.EscapeHtmlRoundTrip(tx.buyer.GetOr(""));
    Html.EscapeHtmlRoundTrip(tx.service.GetOr(""));
    Html.EscapeHtmlRoundTrip(tx.notes.GetOr(""));
    Html.EscapeHtmlSafe(tx.buyer.GetOr(""));
    Html.EscapeHtmlSafe(tx.service.GetOr(""));
    Html.EscapeHtmlSafe(tx.notes.GetOr(""));
  }

  // ---------------------------------------------------------------------------
  // CSV export

  /** The header row's column names, in order. */
  const Headers: seq<string> :=
    ["id", "date", "buyer", "service", "pages", "unitPrice", "discount", "total", "notes"]

  /** What the export gives: nothing when there is no record, a failure when a
      row cannot be built, or the CSV text to download. */
  datatype Export = NoData | Failed | Download(csv: string)

  /** On the POS page a missing buyer or service makes `.replace` throw. */
  predicate BreaksKasirRow(tx: Tx) {
    tx.buyer.None? || tx.service.None?
  }

  /** One data row: id and date in quotes as they are, buyer, service and notes
      quoted with doubled quotes, the four amounts in decimal. */
  function CsvRow(page: Page, tx: Tx): (r: Option<string>)
    ensures r.None? <==> page == Kasir && BreaksKasirRow(tx)
  {
    if page == Kasir && BreaksKasirRow(tx) then None
    else Some(Csv.Join(RowFields(tx), ','))
  }

  /** The nine written fields of a row, in header order. */
  function RowFields(tx: Tx): seq<string> {
    ["\"" + tx.id + "\"",
     "\"" + tx.date + "\"",
     Csv.Quote(tx.buyer.GetOr("")),
     Csv.Quote(tx.service.GetOr("")),
     Text.IntToDecimal(tx.pages),
     Text.IntToDecimal(tx.unitPrice),
     Text.IntToDecimal(tx.discount),
     Text.IntToDecimal(tx.total),
     Csv.Quote(tx.notes.GetOr(""))]
  }

  /** Some record of the list misses its buyer or service. */
  predicate HasBrokenRow(list: seq<Tx>) {
    exists k :: 0 <= k < |list| && BreaksKasirRow(list[k])
  }

  /** The data rows of the whole list, in list order; `None` as soon as one of
      them cannot be built. */
  function CsvRows(page: Page, list: seq<Tx>): (r: Option<seq<string>>)
    ensures r.None? <==> page == Kasir && HasBrokenRow(list)
    ensures r.Some? ==> |r.value| == |list|
    ensures r.Some? ==> forall k :: 0 <= k < |list| ==> CsvRow(page, list[k]) == Some(r.value[k])
  {
    if list == [] then Some([])
    else
      var row := CsvRow(page, list[0]);
      var rest := CsvRows(page, list[1..]);
      assert HasBrokenRow(list) <==> BreaksKasirRow(list[0]) || HasBrokenRow(list[1..]) by {
        assert forall k :: 1 <= k < |list| ==> list[k] == list[1..][k - 1];
      }
      if row.None? || rest.None? then None
      else Some([row.value] + rest.value)
  }

  /** `exportCSV`: nothing to export for an empty list; otherwise the header
      line followed by one line per record, joined by line feeds. */
  function CsvExport(page: Page, list: seq<Tx>): (r: Export)
    ensures r.NoData? <==> list == []
    ensures r.Failed? <==> list != [] && page == Kasir && HasBrokenRow(list)
    ensures page == RecapPrint && list != [] ==> r.Download?
  {
    if list == [] then NoData
    else
      match CsvRows(page, list)
      case None => Failed
      case Some(rows) => Download(Csv.Join([Csv.Join(Headers, ',')] + rows, '\n'))
  }

  /** Ids and dates are written inside quotes without doubling, so reading them
      back needs them to hold no quote. */
  predicate QuoteFreeKeys(list: seq<Tx>) {
    forall k :: 0 <= k < |list| ==>
      (forall j :: 0 <= j < |list[k].id| ==> list[k].id[j] != '"') &&
      (forall j :: 0 <= j < |list[k].date| ==> list[k].date[j] != '"')
  }

  /** The header line's fields, written bare. */
  function HeaderCells(): (r: seq<Csv.Cell>)
    ensures |r| == 9
  {
    seq(9, k requires 0 <= k < 9 => Csv.Bare(Headers[k]))
  }

  /** The header names hold no separator or quote, so they read back as written. */
  lemma HeaderCellsReadable()
    ensures Csv.Readable(HeaderCells())
  {
    // Found unaided on some solver seeds only; these steps keep the proof reliable and cheap.
    assert Csv.IsPlain("id") && Csv.IsPlain("date") && Csv.IsPlain("buyer");
    assert Csv.IsPlain("service") && Csv.IsPlain("pages") && Csv.IsPlain("unitPrice");
    assert Csv.IsPlain("discount") && Csv.IsPlain("total") && Csv.IsPlain("notes");
  }

  lemma HeaderCellsTexts()
    ensures Csv.Texts(HeaderCells()) == Headers
  {
  }

  /** Written bare, the header cells are the header names joined by commas. */
  lemma HeaderCellsEncoded()
    ensures Csv.EncodeCells(HeaderCells()) == Headers
  {
  }

  /** The fields of a record's row as the reader sees them. */
  function RowCells(tx: Tx): seq<Csv.Cell> {
    [Csv.Quoted(tx.id), Csv.Quoted(tx.date),
     Csv.Quoted(tx.buyer.GetOr("")), Csv.Quoted(tx.service.GetOr("")),
     Csv.Bare(Text.IntToDecimal(tx.pages)), Csv.Bare(Text.IntToDecimal(tx.unitPrice)),
     Csv.Bare(Text.IntToDecimal(tx.discount)), Csv.Bare(Text.IntToDecimal(tx.total)),
     Csv.Quoted(tx.notes.GetOr(""))]
  }

  function RowsCells(list: seq<Tx>): (r: seq<seq<Csv.Cell>>)
    ensures |r| == |list|
    ensures forall k :: 0 <= k < |list| ==> r[k] == RowCells(list[k])
  {
    if list == [] then [] else [RowCells(list[0])] + RowsCells(list[1..])
  }

  lemma RowCellsReadable(tx: Tx)
    ensures |RowCells(tx)| == 9 && Csv.Readable(RowCells(tx))
  {
  }

  /** A row that could be built is the encoding of `RowCells`. */
  lemma CsvRowIsEncoded(page: Page, tx: Tx)
    requires forall j :: 0 <= j < |tx.id| ==> tx.id[j] != '"'
    requires forall j :: 0 <= j < |tx.date| ==> tx.date[j] != '"'
    requires CsvRow(page, tx).Some?
    ensures CsvRow(page, tx).value == Csv.Join(Csv.EncodeCells(RowCells(tx)), ',')
  {
    Csv.DoubleQuotesPlain(tx.id);
    Csv.DoubleQuotesPlain(tx.date);
    var cells := RowCells(tx);
    var parts := Csv.EncodeCells(cells);
    var fields := RowFields(tx);
    assert |parts| == |fields| == 9;
    forall k | 0 <= k < 9 ensures parts[k] == fields[k] {
      assert parts[k] == Csv.EncodeCell(cells[k]);
    }
    assert parts == fields;
  }

  /** The records' field texts, as the reader returns them. */
  function RowTexts(tx: Tx): seq<string> {
    [tx.id, tx.date, tx.buyer.GetOr(""), tx.service.GetOr(""),
     Text.IntToDecimal(tx.pages), Text.IntToDecimal(tx.unitPrice),
     Text.IntToDecimal(tx.discount), Text.IntToDecimal(tx.total), tx.notes.GetOr("")]
  }

  lemma RowsEncoded(page: Page, list: seq<Tx>)
    requires CsvRows(page, list).Some?
    requires QuoteFreeKeys(list)
    ensures Csv.EncodeRecords(RowsCells(list)) == CsvRows(page, list).value
  {
    var rows := CsvRows(page, list).value;
    var lines := Csv.EncodeRecords(RowsCells(list));
    forall k | 0 <= k < |lines| ensures lines[k] == rows[k] {
      CsvRowIsEncoded(page, list[k]);
    }
  }

  /** The export is the RFC 4180-style encoding (LF record separators) of the header cells followed by each
      record's cells. */
  lemma ExportIsEncoded(page: Page, list: seq<Tx>)
    requires list != [] && !(page == Kasir && HasBrokenRow(list))
    requires QuoteFreeKeys(list)
    ensures CsvExport(page, list).csv ==
      Csv.Join(Csv.EncodeRecords([HeaderCells()] + RowsCells(list)), '\n')
  {
    var all := [HeaderCells()] + RowsCells(list);
    assert all[1..] == RowsCells(list);
    HeaderCellsEncoded();
    RowsEncoded(page, list);
  }

  lemma AllRecordsReadable(list: seq<Tx>)
    ensures forall k :: 0 <= k < |list| + 1 ==>
      |([HeaderCells()] + RowsCells(list))[k]| >= 1 && Csv.Readable(([HeaderCells()] + RowsCells(list))[k])
  {
    // Found unaided on some solver seeds only; these steps keep the proof reliable and cheap.
    var all := [HeaderCells()] + RowsCells(list);
    HeaderCellsReadable();
    forall k | 1 <= k < |all| ensures |all[k]| >= 1 && Csv.Readable(all[k]) {
      assert all[k] == RowCells(list[k - 1]);
      RowCellsReadable(list[k - 1]);
    }
  }

  lemma RowCellsTexts(tx: Tx)
    ensures Csv.Texts(RowCells(tx)) == RowTexts(tx)
  {
  }

  function RowsTexts(list: seq<Tx>): (r: seq<seq<string>>)
    ensures |r| == |list|
    ensures forall k :: 0 <= k < |list| ==> r[k] == RowTexts(list[k])
  {
    if list == [] then [] else [RowTexts(list[0])] + RowsTexts(list[1..])
  }

  lemma RowsCellsTexts(list: seq<Tx>)
    ensures Csv.TextsOf(RowsCells(list)) == RowsTexts(list)
  {
    var texts := Csv.TextsOf(RowsCells(list));
    forall k | 0 <= k < |list| ensures texts[k] == RowsTexts(list)[k] {
      RowCellsTexts(list[k]);
    }
  }

  /** An exported document reads back, with the RFC 4180-style reader, as the nine header names
      followed by one nine-field record per transaction, in list order, each
      field holding the text that was quoted. */
  lemma ExportReadsBack(page: Page, list: seq<Tx>)
    requires list != [] && !(page == Kasir && HasBrokenRow(list))
    requires QuoteFreeKeys(list)
    ensures Csv.ReadCsv(CsvExport(page, list).csv) == Some([Headers] + RowsTexts(list))
  {
    var all := [HeaderCells()] + RowsCells(list);
    ExportIsEncoded(page, list);
    AllRecordsReadable(list);
    Csv.ReadCsvRoundTrip(all);
    assert all[1..] == RowsCells(list);
    assert Csv.TextsOf(all) == [Csv.Texts(HeaderCells())] + Csv.TextsOf(RowsCells(list));
    HeaderCellsTexts();
    RowsCellsTexts(list);
  }

  // ---------------------------------------------------------------------------
  // Reading an export back into records

  /** A record of the CSV with its nine fields, the four amounts in decimal. */
  function DecodeRow(fields: seq<string>): Option<Tx> {
    if |fields| != 9 then None
    else
      match (Text.ParseInt(fields[4]), Text.ParseInt(fields[5]),
             Text.ParseInt(fields[6]), Text.ParseInt(fields[7]))
      case (Some(p), Some(u), Some(d), Some(t)) =>
        Some(Tx(fields[0], fields[1], Some(fields[2]), Some(fields[3]), p, u, d, t, Some(fields[8])))
      case _ => None
  }

  function DecodeRows(records: seq<seq<string>>): Option<seq<Tx>> {
    if records == [] then Some([])
    else
      match (DecodeRow(records[0]), DecodeRows(records[1..]))
      case (Some(tx), Some(txs)) => Some([tx] + txs)
      case _ => None
  }

  /** Reads an exported document back into records. */
  function ImportCsv(text: string): Option<seq<Tx>> {
    match Csv.ReadCsv(text)
    case None => None
    case Some(records) => if records[0] == Headers then DecodeRows(records[1..]) else None
  }

  /** A record with its missing text fields made empty, as the export writes them. */
  function Normalize(tx: Tx): Tx {
    tx.(buyer := Some(tx.buyer.GetOr("")), service := Some(tx.service.GetOr("")),
        notes := Some(tx.notes.GetOr("")))
  }

  function NormalizeAll(list: seq<Tx>): (r: seq<Tx>)
    ensures |r| == |list|
    ensures forall k :: 0 <= k < |list| ==> r[k] == Normalize(list[k])
  {
    if list == [] then [] else [Normalize(list[0])] + NormalizeAll(list[1..])
  }

  lemma DecodeRowTexts(tx: Tx)
    ensures DecodeRow(RowTexts(tx)) == Some(Normalize(tx))
  {
    Text.IntDecimalRoundTrip(tx.pages);
    Text.IntDecimalRoundTrip(tx.unitPrice);
    Text.IntDecimalRoundTrip(tx.discount);
    Text.IntDecimalRoundTrip(tx.total);
  }

  lemma {:induction false} DecodeRowsTexts(records: seq<seq<string>>, list: seq<Tx>)
    requires |records| == |list|
    requires forall k :: 0 <= k < |list| ==> records[k] == RowTexts(list[k])
    ensures DecodeRows(records) == Some(NormalizeAll(list))
    decreases |list|
  {
    if list != [] {
      DecodeRowTexts(list[0]);
      DecodeRowsTexts(records[1..], list[1..]);
      assert NormalizeAll(list) == [Normalize(list[0])] + NormalizeAll(list[1..]);
    }
  }

  /** Importing an export gives back the exported records, in order, with
      missing text fields as empty text. */
  lemma ExportImportRoundTrip(page: Page, list: seq<Tx>)
    requires list != [] && !(page == Kasir && HasBrokenRow(list))
    requires QuoteFreeKeys(list)
    ensures ImportCsv(CsvExport(page, list).csv) == Some(NormalizeAll(list))
  {
    ExportReadsBack(page, list);
    DecodeRowsTexts(RowsTexts(list), list);
  }
}
