/** The shape both export screens give their CSV text: the header names joined by commas, then
    one record per row holding one field per header, in header order, the records joined by
    line breaks. The screens differ only in how a cell value becomes a field. */
module CsvExport {
  import opened Base
  import opened Text
  import opened JsValue
  import opened Csv

  /** The fields of one row: `headers.map(h => field(row[h]))`. */
  function Fields(row: Row, headers: seq<string>, field: Value -> string): (r: seq<string>)
    ensures |r| == |headers|
  {
    seq(|headers|, j requires 0 <= j < |headers| => field(Lookup(row, headers[j])))
  }

  /** One line per row: the row's fields joined by commas. */
  function Records(headers: seq<string>, data: seq<Row>, field: Value -> string): (r: seq<string>)
    ensures |r| == |data|
    ensures forall i :: 0 <= i < |data| ==> r[i] == Join(Fields(data[i], headers, field), ",")
  {
    seq(|data|, i requires 0 <= i < |data| => Join(Fields(data[i], headers, field), ","))
  }

  /** `[headers.join(','), ...data.map(row => Fields(row).join(','))].join('\n')`. */
  function TableText(headers: seq<string>, data: seq<Row>, field: Value -> string): (r: string)
    ensures |data| == 0 ==> r == Join(headers, ",")
    ensures |data| > 0 ==> r == Join(headers, ",") + "\n" + Join(Records(headers, data, field), "\n")
  {
    if |data| > 0 then
      JoinCons(Join(headers, ","), Records(headers, data, field), "\n");
      Join([Join(headers, ",")] + Records(headers, data, field), "\n")
    else
      Join([Join(headers, ",")] + Records(headers, data, field), "\n")
  }

  /** The table of texts `text` gives for every cell, row by row, in header order. */
  function Cells(headers: seq<string>, data: seq<Row>, text: Value -> string): (r: seq<seq<string>>)
    ensures |r| == |data|
    ensures forall i :: 0 <= i < |data| ==> |r[i]| == |headers|
  {
    seq(|data|, i requires 0 <= i < |data| => Fields(data[i], headers, text))
  }

  /** Header names that read back unchanged without quotes. */
  predicate BareHeaders(headers: seq<string>)
  {
    |headers| >= 1 && forall j :: 0 <= j < |headers| ==> Bare(headers[j])
  }

  /** When every cell's field encodes the cell's text, reading the export back gives the header
      record followed by, for each row, exactly one text per header, in header order. */
  lemma TableTextReadsBack(headers: seq<string>, data: seq<Row>, field: Value -> string, text: Value -> string)
    requires BareHeaders(headers)
    requires forall i, j :: 0 <= i < |data| && 0 <= j < |headers| ==>
      Encodes(field(Lookup(data[i], headers[j])), text(Lookup(data[i], headers[j])))
    ensures ParseCsv(TableText(headers, data, field)) == Some([headers] + Cells(headers, data, text))
  {
    var lines := [Join(headers, ",")] + Records(headers, data, field);
    var encs := [headers] + Cells(headers, data, field);
    var texts := [headers] + Cells(headers, data, text);
    forall i, j | 0 <= i < |encs| && 0 <= j < |encs[i]|
      ensures Encodes(encs[i][j], texts[i][j])
    {
      if i == 0 {
        assert encs[i][j] == texts[i][j] == headers[j];
      } else {
        assert encs[i][j] == field(Lookup(data[i - 1], headers[j]));
        assert texts[i][j] == text(Lookup(data[i - 1], headers[j]));
      }
    }
    assert EncodesTable(lines, encs, texts);
    ParseCsvOf(lines, encs, texts);
  }
}
