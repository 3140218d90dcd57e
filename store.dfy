/** The recap's state: the list kept under the `op3_transactions_v1` storage key,
    read and rewritten by both pages. Reading the entry and writing it back are
    modelled as reading and assigning the `txs` field. */
module Store {
  import opened Wrappers
  import opened Transactions
  import Csv

  /** The loop step of the grand total: one more row adds its total. */
  lemma SumTotalsStep(list: seq<Tx>, i: nat)
    requires i < |list|
    ensures SumTotals(list[..i + 1]) == SumTotals(list[..i]) + list[i].total
  {
    assert list[..i + 1] == list[..i] + [list[i]];
    SumTotalsAppend(list[..i], [list[i]]);
  }

  /** Rows built one per record, each from its own record, are the export's
      data rows. */
  lemma {:induction false} CsvRowsOf(page: Page, list: seq<Tx>, rows: seq<string>)
    requires |rows| == |list|
    requires forall k :: 0 <= k < |list| ==> CsvRow(page, list[k]) == Some(rows[k])
    ensures CsvRows(page, list) == Some(rows)
  {
    if list != [] {
      assert CsvRow(page, list[0]) == Some(rows[0]);
      assert forall k :: 0 <= k < |list| - 1 ==> CsvRow(page, list[1..][k]) == Some(rows[1..][k]) by {
        forall k | 0 <= k < |list| - 1
          ensures CsvRow(page, list[1..][k]) == Some(rows[1..][k])
        {
          assert list[1..][k] == list[k + 1] && rows[1..][k] == rows[k + 1];
        }
      }
      CsvRowsOf(page, list[1..], rows[1..]);
      assert rows == [rows[0]] + rows[1..];
    }
  }

  /** The `forEach` of `exportCSV`: starting from `start`, push one line per
      record; `None` when a record's line cannot be built. */
  method PushRows(page: Page, list: seq<Tx>, start: seq<string>) returns (lines: Option<seq<string>>)
    ensures lines.None? <==> page == Kasir && HasBrokenRow(list)
    ensures lines.Some? ==> CsvRows(page, list).Some? && lines.value == start + CsvRows(page, list).value
  {
    var acc := start;
    var i := 0;
    while i < |list|
      invariant 0 <= i <= |list|
      invariant |acc| == |start| + i && acc[..|start|] == start
      invariant forall k :: 0 <= k < i ==> CsvRow(page, list[k]) == Some(acc[|start| + k])
    {
      var row := CsvRow(page, list[i]);
      if row.None? {
        assert BreaksKasirRow(list[i]);
        return None;
      }
      acc := acc + [row.value];
      i := i + 1;
    }
    CsvRowsOf(page, list, acc[|start|..]);
    assert acc == start + acc[|start|..];
    return Some(acc);
  }

  /** The first `i` shown records, rendered and numbered from 1. */
  function RenderedPrefix(page: Page, shown: seq<Tx>, i: nat): seq<Row>
    requires i <= |shown|
  {
    seq(i, k requires 0 <= k < i => RenderRow(page, shown[k], k + 1))
  }

  /** The `forEach` of `renderTable`: one numbered row per shown record, and
      the running grand total. */
  method RenderRows(page: Page, shown: seq<Tx>) returns (rows: seq<Row>, grandTotal: int)
    ensures |rows| == |shown|
    ensures forall k :: 0 <= k < |shown| ==> rows[k] == RenderRow(page, shown[k], k + 1)
    ensures grandTotal == SumTotals(shown)
  {
    rows, grandTotal := [], 0;
    var i := 0;
    while i < |shown|
      invariant 0 <= i <= |shown|
      invariant rows == RenderedPrefix(page, shown, i)
      invariant grandTotal == SumTotals(shown[..i])
    {
      SumTotalsStep(shown, i);
      grandTotal := grandTotal + shown[i].total;
      rows := rows + [RenderRow(page, shown[i], i + 1)];
      i := i + 1;
    }
    assert shown[..i] == shown;
  }

  class TransactionStore {
    /** The stored transactions, newest first. */
    var txs: seq<Tx>

    /** A store with no entry yet: loading gives the empty list. */
    constructor ()
      ensures txs == []
    {
      txs := [];
    }

    /** `addTransaction`: the record goes to the front, the older ones follow in
        their order (POS page only). */
    method Add(tx: Tx)
      modifies this
      ensures txs == [tx] + old(txs)
      ensures |txs| == |old(txs)| + 1 && txs[0] == tx && txs[1..] == old(txs)
    {
      txs := [tx] + txs;
    }

    /** The form's submit handler: build the record from the entered values and
        add it (POS page only). Records built this way keep the store consistent. */
    method Submit(id: string, date: string, buyerInput: string, serviceInput: string,
                  pagesInput: int, unitPriceInput: int, discountInput: int, notesInput: string)
      modifies this
      ensures txs == [CreateTx(id, date, buyerInput, serviceInput, pagesInput,
                               unitPriceInput, discountInput, notesInput)] + old(txs)
      ensures old(AllConsistent(txs)) ==> AllConsistent(txs)
    {
      var tx := CreateTx(id, date, buyerInput, serviceInput, pagesInput,
                         unitPriceInput, discountInput, notesInput);
      Add(tx);
    }

    /** `removeTransaction`: keep the records whose id differs, in order. */
    method Remove(id: string)
      modifies this
      ensures txs == RemoveById(old(txs), id)
      ensures old(AllConsistent(txs)) ==> AllConsistent(txs)
    {
      txs := RemoveById(txs, id);
    }

    /** `clearAllTransactions`: only when the user confirms is the entry removed. */
    method ClearAll(confirmed: bool)
      modifies this
      ensures txs == if confirmed then [] else old(txs)
    {
      if confirmed {
        txs := [];
      }
    }

    /** `seedIfEmpty`: an empty store receives the one sample record; any other
        store is left alone (POS page only). */
    method SeedIfEmpty(id: string, today: string)
      modifies this
      ensures old(txs) == [] ==> txs == [SampleTx(id, today)]
      ensures old(txs) != [] ==> txs == old(txs)
      ensures old(AllConsistent(txs)) ==> AllConsistent(txs)
    {
      if |txs| == 0 {
        txs := [SampleTx(id, today)];
      }
    }

    /** `renderTable(filter)` without the markup: the rows shown, numbered from 1,
        their count and the grand total of their totals. */
    method Render(page: Page, filter: Option<string>) returns (rows: seq<Row>, count: nat, grandTotal: int)
      ensures count == |FilterByDate(txs, filter)| && |rows| == count
      ensures forall k :: 0 <= k < count ==>
        rows[k] == RenderRow(page, FilterByDate(txs, filter)[k], k + 1)
      ensures grandTotal == SumTotals(FilterByDate(txs, filter))
      ensures filter == None ==> count == |txs|
      ensures txs == [] ==> rows == [] && count == 0 && grandTotal == 0
    {
      var shown := FilterByDate(txs, filter);
      rows, grandTotal := RenderRows(page, shown);
      count := |shown|;
    }

    /** `exportCSV`: no download for an empty list; otherwise the header line and
        one line per record, built in list order. */
    method ExportCsv(page: Page) returns (out: Export)
      ensures out == CsvExport(page, txs)
    {
      var list := txs;
      if |list| == 0 {
        return NoData;
      }
      var lines := PushRows(page, list, [Csv.Join(Headers, ',')]);
      if lines.None? {
        return Failed;
      }
      out := Download(Csv.Join(lines.value, '\n'));
    }
  }
}
