/** The comma-separated text the export writes, and a reader for it in the style
    of section 2 of RFC 4180, with a line feed rather than CRLF between records:
    fields are separated by `,`, and a field wrapped in double quotes may hold any
    text once each `"` in it is doubled (item 7). The reader is the partner of the writer: reading back what
    was written gives the original field texts. */
module Csv {
  import opened Wrappers

  /** `s.replace(/"/g, '""')`. */
  function DoubleQuotes(s: string): (r: string)
    ensures |r| >= |s|
    ensures |r| == |s| <==> forall k :: 0 <= k < |s| ==> s[k] != '"'
  {
    if s == [] then []
    else
      assert forall k :: 1 <= k < |s| ==> s[k] == s[1..][k - 1];
      (if s[0] == '"' then "\"\"" else [s[0]]) + DoubleQuotes(s[1..])
  }

  /** A text field as the export writes it: quote, doubled text, quote. */
  function Quote(s: string): (r: string)
    ensures |r| >= |s| + 2 && r[0] == '"' && r[|r| - 1] == '"'
  {
    "\"" + DoubleQuotes(s) + "\""
  }

  /** `parts.join(sep)`. */
  function Join(parts: seq<string>, sep: char): string {
    if parts == [] then []
    else if |parts| == 1 then parts[0]
    else parts[0] + [sep] + Join(parts[1..], sep)
  }

  /** A field as written: quoted, or bare (written as it is). */
  datatype Cell = Quoted(text: string) | Bare(text: string)

  /** A bare field can be read back only if it holds no separator and no quote. */
  predicate IsPlain(s: string) {
    forall k :: 0 <= k < |s| ==> s[k] != ',' && s[k] != '\n' && s[k] != '"'
  }

  predicate Readable(cells: seq<Cell>) {
    forall k :: 0 <= k < |cells| ==> (cells[k].Bare? ==> IsPlain(cells[k].text))
  }

  function EncodeCell(c: Cell): string {
    match c
    case Quoted(t) => Quote(t)
    case Bare(t) => t
  }

  function EncodeCells(cells: seq<Cell>): (r: seq<string>)
    ensures |r| == |cells|
    ensures forall k :: 0 <= k < |cells| ==> r[k] == EncodeCell(cells[k])
  {
    if cells == [] then [] else [EncodeCell(cells[0])] + EncodeCells(cells[1..])
  }

  function Texts(cells: seq<Cell>): (r: seq<string>)
    ensures |r| == |cells|
    ensures forall k :: 0 <= k < |cells| ==> r[k] == cells[k].text
  {
    if cells == [] then [] else [cells[0].text] + Texts(cells[1..])
  }

  // ---------------------------------------------------------------------------
  // Reader

  /** Reads the inside of a quoted field, after its opening quote: up to the first
      `"` that is not doubled, turning each `""` into `"`. Gives the text and what
      follows the closing quote; `None` if the closing quote is missing. */
  function ReadQuoted(s: string): (r: Option<(string, string)>)
    ensures r.Some? ==> |r.value.1| < |s|
  {
    if s == [] then None
    else if s[0] == '"' then
      if |s| > 1 && s[1] == '"' then
        match ReadQuoted(s[2..])
        case None => None
        case Some((t, rest)) => Some(("\"" + t, rest))
      else Some(([], s[1..]))
    else
      match ReadQuoted(s[1..])
      case None => None
      case Some((t, rest)) => Some(([s[0]] + t, rest))
  }

  /** Reads a bare field: everything up to the next `,`, line feed or the end. */
  function ReadBare(s: string): (r: (string, string))
    ensures |r.1| <= |s|
    ensures r.0 + r.1 == s
    ensures r.1 == [] || r.1[0] == ',' || r.1[0] == '\n'
  {
    if s == [] || s[0] == ',' || s[0] == '\n' then ([], s)
    else
      var (t, rest) := ReadBare(s[1..]);
      ([s[0]] + t, rest)
  }

  function ReadField(s: string): (r: Option<(string, string)>)
    ensures r.Some? ==> |r.value.1| <= |s|
  {
    if s != [] && s[0] == '"' then ReadQuoted(s[1..]) else Some(ReadBare(s))
  }

  /** Reads the fields of one record; what is left is empty or starts with the
      line feed that ends the record. `None` if text follows a closing quote. */
  function ReadRecord(s: string): (r: Option<(seq<string>, string)>)
    ensures r.Some? ==> |r.value.0| >= 1 && |r.value.1| <= |s|
    ensures r.Some? ==> r.value.1 == [] || r.value.1[0] == '\n'
    decreases |s|
  {
    match ReadField(s)
    case None => None
    case Some((f, rest)) =>
      if rest == [] || rest[0] == '\n' then Some(([f], rest))
      else if rest[0] == ',' then
        match ReadRecord(rest[1..])
        case None => None
        case Some((fs, rest')) => Some(([f] + fs, rest'))
      else None
  }

  /** Reads a whole document: records separated by line feeds. */
  function ReadCsv(s: string): (r: Option<seq<seq<string>>>)
    ensures r.Some? ==> |r.value| >= 1
    decreases |s|
  {
    match ReadRecord(s)
    case None => None
    case Some((fields, rest)) =>
      if rest == [] then Some([fields])
      else
        match ReadCsv(rest[1..])
        case None => None
        case Some(records) => Some([fields] + records)
  }

  // ---------------------------------------------------------------------------
  // Writing then reading

  /** Text without quotes is not changed by the doubling. */
  lemma {:induction false} DoubleQuotesPlain(s: string)
    requires forall k :: 0 <= k < |s| ==> s[k] != '"'
    ensures DoubleQuotes(s) == s
    decreases |s|
  {
    if s != [] {
      DoubleQuotesPlain(s[1..]);
    }
  }

  /** Undoing the doubling: the reader takes back exactly the original text and
      stops right after the closing quote, provided no quote follows it. */
  lemma {:induction false} ReadQuotedDoubled(s: string, tail: string)
    requires tail == [] || tail[0] != '"'
    ensures ReadQuoted(DoubleQuotes(s) + "\"" + tail) == Some((s, tail))
    decreases |s|
  {
    var w := DoubleQuotes(s) + "\"" + tail;
    if s == [] {
      assert DoubleQuotes(s) == [];
      assert w == "\"" + tail;
      assert w[1..] == tail;
    } else {
      ReadQuotedDoubled(s[1..], tail);
      var rest := DoubleQuotes(s[1..]) + "\"" + tail;
      if s[0] == '"' {
        assert w == "\"\"" + rest;
        assert w[2..] == rest;
      } else {
        assert w == [s[0]] + rest;
        assert w[1..] == rest;
      }
      assert [s[0]] + s[1..] == s;
    }
  }

  /** A quoted field on its own reads back as its text. */
  lemma QuoteRoundTrip(s: string)
    ensures ReadField(Quote(s)) == Some((s, []))
  {
    ReadQuotedDoubled(s, []);
    assert Quote(s)[1..] == DoubleQuotes(s) + "\"" + [];
  }

  /** A plain bare field reads back up to the separator that follows it. */
  lemma {:induction false} ReadBarePlain(s: string, tail: string)
    requires IsPlain(s)
    requires tail == [] || tail[0] == ',' || tail[0] == '\n'
    ensures ReadBare(s + tail) == (s, tail)
    decreases |s|
  {
    if s == [] {
      assert s + tail == tail;
    } else {
      assert (s + tail)[1..] == s[1..] + tail;
      assert (s + tail)[0] == s[0];
      ReadBarePlain(s[1..], tail);
      assert [s[0]] + s[1..] == s;
    }
  }

  lemma ReadCell(c: Cell, tail: string)
    requires c.Bare? ==> IsPlain(c.text)
    requires tail == [] || tail[0] == ',' || tail[0] == '\n'
    ensures ReadField(EncodeCell(c) + tail) == Some((c.text, tail))
  {
    match c
    case Quoted(t) =>
      var w := EncodeCell(c) + tail;
      assert w[1..] == DoubleQuotes(t) + "\"" + tail;
      ReadQuotedDoubled(t, tail);
    case Bare(t) =>
      ReadBarePlain(t, tail);
  }

  /** One record of readable fields reads back as the texts of its fields. */
  lemma {:induction false} ReadRecordRoundTrip(cells: seq<Cell>, tail: string)
    requires |cells| >= 1 && Readable(cells)
    requires tail == [] || tail[0] == '\n'
    ensures ReadRecord(Join(EncodeCells(cells), ',') + tail) == Some((Texts(cells), tail))
    decreases |cells|
  {
    var parts := EncodeCells(cells);
    if |cells| == 1 {
      assert Join(parts, ',') == EncodeCell(cells[0]);
      ReadCell(cells[0], tail);
      assert Texts(cells) == [cells[0].text];
    } else {
      assert parts[1..] == EncodeCells(cells[1..]);
      var more := Join(parts[1..], ',') + tail;
      assert Join(parts, ',') + tail == EncodeCell(cells[0]) + ("," + more);
      ReadCell(cells[0], "," + more);
      assert ("," + more)[1..] == more;
      ReadRecordRoundTrip(cells[1..], tail);
      assert Texts(cells) == [cells[0].text] + Texts(cells[1..]);
    }
  }

  function EncodeRecords(records: seq<seq<Cell>>): (r: seq<string>)
    ensures |r| == |records|
    ensures forall k :: 0 <= k < |records| ==> r[k] == Join(EncodeCells(records[k]), ',')
  {
    if records == [] then [] else [Join(EncodeCells(records[0]), ',')] + EncodeRecords(records[1..])
  }

  function TextsOf(records: seq<seq<Cell>>): (r: seq<seq<string>>)
    ensures |r| == |records|
    ensures forall k :: 0 <= k < |records| ==> r[k] == Texts(records[k])
  {
    if records == [] then [] else [Texts(records[0])] + TextsOf(records[1..])
  }

  /** A document of records, each non-empty and readable, written one record per
      line, reads back as the texts of all fields, record by record. */
  lemma {:induction false} ReadCsvRoundTrip(records: seq<seq<Cell>>)
    requires |records| >= 1
    requires forall k :: 0 <= k < |records| ==> |records[k]| >= 1 && Readable(records[k])
    ensures ReadCsv(Join(EncodeRecords(records), '\n')) == Some(TextsOf(records))
    decreases |records|
  {
    var lines := EncodeRecords(records);
    if |records| == 1 {
      ReadRecordRoundTrip(records[0], []);
      assert Join(lines, '\n') == lines[0] + [];
      assert TextsOf(records) == [Texts(records[0])];
    } else {
      assert lines[1..] == EncodeRecords(records[1..]);
      var more := Join(lines[1..], '\n');
      assert Join(lines, '\n') == lines[0] + ("\n" + more);
      ReadRecordRoundTrip(records[0], "\n" + more);
      assert ("\n" + more)[1..] == more;
      ReadCsvRoundTrip(records[1..]);
      assert TextsOf(records) == [Texts(records[0])] + TextsOf(records[1..]);
    }
  }
}
