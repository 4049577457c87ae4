/** The reports screen (`src/components/Reports.tsx`): who is sent away, which columns the table
    view shows, what each cell shows, the header labels, and the CSV export of the selected
    table. */
module Reports {
  import opened Base
  import opened Text
  import opened JsValue
  import opened Csv
  import opened CsvExport

  /** The screen sends a signed-in user who is neither admin nor owner back to the dashboard;
      with nobody signed in it stays. */
  predicate Redirects(user: Option<User>)
    ensures Redirects(user) <==> user.Some? && user.value.role != "admin" && user.value.role != "owner"
  {
    user.Some? && !IsPrivileged(user.value.role)
  }

  /** The profit column is hidden in the sales log for anyone whose role, `''` when nobody is
      signed in, is neither admin nor owner. */
  predicate HidesProfit(table: string, user: Option<User>)
    ensures user.None? ==> (HidesProfit(table, user) <==> table == "sales_log")
    ensures user.Some? ==> (HidesProfit(table, user) <==>
      table == "sales_log" && user.value.role != "admin" && user.value.role != "owner")
  {
    table == "sales_log" && !IsPrivileged(RoleOf(user))
  }

  /** A user who is signed in and not sent away always sees the profit column: the column
      filter only ever acts when nobody is signed in. */
  lemma ProfitHiddenOnlyWhenSignedOut(table: string, user: Option<User>)
    requires HidesProfit(table, user)
    ensures user.None? || Redirects(user)
  {
  }

  /** `headers.filter(h => h !== 'profit')`. */
  function WithoutProfit(hs: seq<string>): (r: seq<string>)
    ensures |r| <= |hs|
    ensures forall h :: h in r <==> h in hs && h != "profit"
  {
    if |hs| == 0 then []
    else (if hs[0] == "profit" then [] else [hs[0]]) + WithoutProfit(hs[1..])
  }

  /** The filter keeps the order of the headers: it distributes over concatenation. */
  lemma {:induction false} WithoutProfitAppend(a: seq<string>, b: seq<string>)
    ensures WithoutProfit(a + b) == WithoutProfit(a) + WithoutProfit(b)
  {
    if |a| > 0 {
      WithoutProfitAppend(a[1..], b);
      assert (a + b)[1..] == a[1..] + b;
    } else {
      assert a + b == b;
    }
  }

  /** A list without `profit` goes through the filter unchanged. */
  lemma {:induction false} WithoutProfitKeeps(hs: seq<string>)
    requires "profit" !in hs
    ensures WithoutProfit(hs) == hs
  {
    if |hs| > 0 {
      WithoutProfitKeeps(hs[1..]);
      assert [hs[0]] + hs[1..] == hs;
    }
  }

  /** `getTableHeaders`: the keys of the first row, without `profit` where it is hidden. */
  function TableHeaders(table: string, user: Option<User>, data: seq<Row>): (r: seq<string>)
    ensures |data| == 0 ==> r == []
    ensures |data| > 0 && !HidesProfit(table, user) ==> r == Keys(data[0])
    ensures HidesProfit(table, user) ==> "profit" !in r
    ensures |data| > 0 ==> forall h :: h in r <==> h in Keys(data[0]) && (h != "profit" || !HidesProfit(table, user))
  {
    if |data| == 0 then []
    else if HidesProfit(table, user) then WithoutProfit(Keys(data[0]))
    else Keys(data[0])
  }

  /** What a cell of the table view shows: a dash for a missing value, the compact JSON text of
      an object, the `String` text of anything else. */
  function DisplayText(v: Value): (r: string)
    ensures v.Null? || v.Undefined? ==> r == "-"
    ensures v.Obj? ==> r == v.json
    ensures v.Str? ==> r == v.s
    ensures v.Num? ==> r == v.text
    ensures v.Bool? ==> r == (if v.b then "true" else "false")
  {
    if v.Null? || v.Undefined? then "-" else if v.Obj? then v.json else ToText(v)
  }

  /** The cells of one row of the table view: every entry of the row in its own key order,
      skipping `profit` where it is hidden. */
  function RenderRow(row: Row, hideProfit: bool): (r: seq<string>)
    ensures |r| <= |row|
    ensures !hideProfit ==> |r| == |row|
    ensures hideProfit && |r| == |row| ==> forall i :: 0 <= i < |row| ==> row[i].0 != "profit"
  {
    if |row| == 0 then []
    else if hideProfit && row[0].0 == "profit" then RenderRow(row[1..], hideProfit)
    else [DisplayText(row[0].1)] + RenderRow(row[1..], hideProfit)
  }

  predicate DistinctKeys(row: Row)
  {
    forall i, j :: 0 <= i < j < |row| ==> row[i].0 != row[j].0
  }

  function ShownKeys(row: Row, hideProfit: bool): seq<string>
  {
    if hideProfit then WithoutProfit(Keys(row)) else Keys(row)
  }

  lemma LookupSkipsHead(row: Row, h: string)
    requires |row| > 0 && row[0].0 != h
    ensures Lookup(row, h) == Lookup(row[1..], h)
  {
  }

  lemma KeysTail(row: Row)
    requires |row| > 0
    ensures Keys(row) == [row[0].0] + Keys(row[1..])
  {
  }

  /** The texts shown for the values of `row` under the keys `hs`, in that order. */
  function CellTexts(row: Row, hs: seq<string>): (r: seq<string>)
    ensures |r| == |hs| && forall k :: 0 <= k < |hs| ==> r[k] == DisplayText(Lookup(row, hs[k]))
  {
    seq(|hs|, k requires 0 <= k < |hs| => DisplayText(Lookup(row, hs[k])))
  }

  /** The cells of a row line up with its shown keys: cell `k` shows the value under key `k`. */
  lemma {:induction false} RenderRowAligned(row: Row, hideProfit: bool)
    requires DistinctKeys(row)
    ensures RenderRow(row, hideProfit) == CellTexts(row, ShownKeys(row, hideProfit))
  {
    if |row| > 0 {
      RenderRowAligned(row[1..], hideProfit);
      RenderRowStep(row, hideProfit);
    }
  }

  /** The keys shown after the first entry do not repeat its key. */
  lemma HeadKeyNotShownLater(row: Row, hideProfit: bool)
    requires |row| > 0 && DistinctKeys(row)
    ensures forall h :: h in ShownKeys(row[1..], hideProfit) ==> h != row[0].0
  {
    var rest := row[1..];
    forall h | h in ShownKeys(rest, hideProfit) ensures h != row[0].0 {
      assert h in Keys(rest);
      var i :| 0 <= i < |rest| && rest[i].0 == h;
      assert row[i + 1].0 == h;
    }
  }

  lemma ShownKeysStep(row: Row, hideProfit: bool)
    requires |row| > 0
    ensures ShownKeys(row, hideProfit) ==
      (if hideProfit && row[0].0 == "profit" then [] else [row[0].0]) + ShownKeys(row[1..], hideProfit)
  {
    KeysTail(row);
    if hideProfit {
      assert ([row[0].0] + Keys(row[1..]))[1..] == Keys(row[1..]);
    }
  }

  /** Past the first entry, the texts under the later shown keys are the same in the row and in
      its tail. */
  lemma CellTextsOfTail(row: Row, hideProfit: bool)
    requires |row| > 0 && DistinctKeys(row)
    ensures CellTexts(row, ShownKeys(row[1..], hideProfit)) == CellTexts(row[1..], ShownKeys(row[1..], hideProfit))
  {
    var hr := ShownKeys(row[1..], hideProfit);
    HeadKeyNotShownLater(row, hideProfit);
    forall k | 0 <= k < |hr| ensures Lookup(row, hr[k]) == Lookup(row[1..], hr[k]) {
      assert hr[k] in hr;
      LookupSkipsHead(row, hr[k]);
    }
  }

  lemma CellTextsCons(row: Row, h: string, hr: seq<string>)
    ensures CellTexts(row, [h] + hr) == [DisplayText(Lookup(row, h))] + CellTexts(row, hr)
  {
    var a := CellTexts(row, [h] + hr);
    var b := [DisplayText(Lookup(row, h))] + CellTexts(row, hr);
    forall k | 0 <= k < |a| ensures a[k] == b[k] {
      if k > 0 {
        assert ([h] + hr)[k] == hr[k - 1];
      }
    }
  }

  lemma RenderRowStep(row: Row, hideProfit: bool)
    requires |row| > 0 && DistinctKeys(row)
    requires RenderRow(row[1..], hideProfit) == CellTexts(row[1..], ShownKeys(row[1..], hideProfit))
    ensures RenderRow(row, hideProfit) == CellTexts(row, ShownKeys(row, hideProfit))
  {
    var hr := ShownKeys(row[1..], hideProfit);
    ShownKeysStep(row, hideProfit);
    CellTextsOfTail(row, hideProfit);
    if hideProfit && row[0].0 == "profit" {
      assert ShownKeys(row, hideProfit) == hr;
    } else {
      assert ShownKeys(row, hideProfit) == [row[0].0] + hr;
      CellTextsCons(row, row[0].0, hr);
    }
  }

  /** Table view and headers agree: for a row with the same keys as the first row, the row has
      exactly one cell per header, showing the value under that header. */
  lemma RowMatchesHeaders(table: string, user: Option<User>, data: seq<Row>, i: nat)
    requires i < |data| && Keys(data[i]) == Keys(data[0]) && DistinctKeys(data[i])
    ensures RenderRow(data[i], HidesProfit(table, user)) == CellTexts(data[i], TableHeaders(table, user, data))
  {
    RenderRowAligned(data[i], HidesProfit(table, user));
  }

  /** `s.replace('_', ' ')`: only the first underscore becomes a space. */
  function ReplaceFirstUnderscore(s: string): (r: string)
    ensures |r| == |s|
  {
    if '_' !in s then s else var k := CharIndex(s, '_'); s[..k] + " " + s[k + 1..]
  }

  lemma ReplaceFirstUnderscoreAt(s: string)
    ensures forall i :: 0 <= i < |s| ==>
      ReplaceFirstUnderscore(s)[i] == if s[i] == '_' && '_' !in s[..i] then ' ' else s[i]
  {
    var t := ReplaceFirstUnderscore(s);
    if '_' in s {
      var k := CharIndex(s, '_');
      forall i | 0 <= i < |s| ensures t[i] == if s[i] == '_' && '_' !in s[..i] then ' ' else s[i] {
        if i < k {
          assert s[..i] == s[..k][..i];
        } else if i > k {
          assert s[k] in s[..i];
        }
      }
    }
  }

  /** The title and column labels: the first underscore replaced by a space, then upper case. */
  function Label(s: string): (r: string)
    ensures |r| == |s|
    ensures forall i :: 0 <= i < |s| ==>
      r[i] == if s[i] == '_' && '_' !in s[..i] then ' ' else UpperChar(s[i])
  {
    ReplaceFirstUnderscoreAt(s);
    ToUpper(ReplaceFirstUnderscore(s))
  }

  /** Field of the CSV export for one value: empty for null and undefined, an object's JSON text
      with its quotes doubled but not enclosed (enclosing the result in quotes gives a field that
      reads back as the JSON text, and the result starts as the JSON text does), anything else its `String` text enclosed in
      quotes with its quotes doubled. */
  function ExportField(v: Value): (r: string)
    ensures v.Null? || v.Undefined? ==> r == ""
    ensures !v.Obj? && !v.Null? && !v.Undefined? ==> |r| >= 2 && r[0] == '"' && r[|r| - 1] == '"'
    ensures v.Obj? ==> |r| >= |v.json| && (Bare(v.json) ==> r == v.json)
    ensures v.Obj? ==> Unquote("\"" + r + "\"") == Some(v.json)
    ensures v.Obj? && v.json != [] && v.json[0] != '"' ==> r != [] && r[0] == v.json[0]
  {
    if v.Null? || v.Undefined? then ""
    else if v.Obj? then
      UnquoteQuote(v.json); EscapeChars(v.json);
      assert "\"" + Escape(v.json) + "\"" == Quote(v.json);
      (if Bare(v.json) then EscapeWithoutQuotes(v.json); Escape(v.json) else Escape(v.json))
    else Quote(ToText(v))
  }

  /** The text a reader is meant to get back from a field of the export. */
  function ExportedText(v: Value): string
  {
    if v.Null? || v.Undefined? then "" else if v.Obj? then v.json else ToText(v)
  }

  /** `downloadCSV`: nothing, and an error notice, for an empty table; otherwise the CSV text with
      the keys of the first row as headers. */
  function ExportCsv(data: seq<Row>): (r: Option<string>)
    ensures r.None? <==> |data| == 0
  {
    if |data| == 0 then None else Some(TableText(Keys(data[0]), data, ExportField))
  }

  /** A null or undefined value is an empty field; any other value that is not an object reads
      back as its `String` text. */
  lemma ExportFieldReadsBack(v: Value)
    ensures (v.Null? || v.Undefined?) ==> ExportField(v) == ""
    ensures !v.Obj? && !v.Null? && !v.Undefined? ==> Unquote(ExportField(v)) == Some(ToText(v))
  {
    if !v.Obj? && !v.Null? && !v.Undefined? {
      UnquoteQuote(ToText(v));
    }
  }

  /** The cells of the export whose field encodes the text meant for them: all but objects whose
      JSON text holds a quote, comma or line break. */
  predicate ObjectsBare(headers: seq<string>, data: seq<Row>)
  {
    forall i, j :: 0 <= i < |data| && 0 <= j < |headers| && Lookup(data[i], headers[j]).Obj? ==>
      Bare(Lookup(data[i], headers[j]).json)
  }

  /** The export reads back as the header record and one record per row holding one text per
      header, as long as no object cell's JSON needs quoting. */
  lemma ExportCsvReadsBack(data: seq<Row>)
    requires |data| > 0 && BareHeaders(Keys(data[0])) && ObjectsBare(Keys(data[0]), data)
    ensures ParseCsv(ExportCsv(data).value) == Some([Keys(data[0])] + Cells(Keys(data[0]), data, ExportedText))
  {
    var headers := Keys(data[0]);
    forall i, j | 0 <= i < |data| && 0 <= j < |headers|
      ensures Encodes(ExportField(Lookup(data[i], headers[j])), ExportedText(Lookup(data[i], headers[j])))
    {
      var v := Lookup(data[i], headers[j]);
      if v.Obj? {
        EscapeWithoutQuotes(v.json);
      }
    }
    TableTextReadsBack(headers, data, ExportField, ExportedText);
  }

  lemma TableTextOneCell(h: string, row: Row, field: Value -> string)
    ensures TableText([h], [row], field) == Join([h, field(Lookup(row, h))], "\n")
  {
    assert Fields(row, [h], field) == [field(Lookup(row, h))];
    assert [Join([h], ",")] + Records([h], [row], field) == [h, field(Lookup(row, h))];
  }

  /** An object under a single header comes out as its JSON text without quotes: the header
      line, a line break, and the JSON text. */
  lemma ObjectFieldUnquoted(json: string, pretty: string)
    requires '"' !in json
    ensures ExportCsv([[("v", Obj(json, pretty))]]) == Some(Join(["v", json], "\n"))
  {
    var row := [("v", Obj(json, pretty))];
    assert Keys(row) == ["v"];
    assert Lookup(row, "v") == Obj(json, pretty);
    EscapeWithoutQuotes(json);
    assert ExportField(Obj(json, pretty)) == json;
    TableTextOneCell("v", row, ExportField);
  }

  lemma JoinTwo(a: string, b: string, sep: string)
    ensures Join([a, b], sep) == a + sep + b
  {
    assert [a, b][1..] == [b];
  }

  /** A header line over a line of two bare fields reads back as one field over two. */
  lemma TwoFieldRecordReadsBack(h: string, x: string, y: string)
    requires Bare(h) && Bare(x) && Bare(y)
    ensures ParseCsv(Join([h, x + "," + y], "\n")) == Some([[h], [x, y]])
  {
    var lines := [h, x + "," + y];
    var cells := [[h], [x, y]];
    JoinTwo(x, y, ",");
    assert lines[0] == Join(cells[0], ",") && lines[1] == Join(cells[1], ",");
    BareEncodes(cells);
    ParseCsvOf(lines, cells, cells);
  }

  /** The only cell of a one-column, one-row export, holding an object whose JSON text's first
      comma is followed by a quoted key (`{"tag_no":"T1","profit":5}` is `x` = `{"tag_no":"T1"`
      and `y` = `profit":5}`), comes out as a bare field whose part after that comma starts with
      a doubled quote: the reader takes that as an empty quoted field followed by text, and the
      export does not read back at all. */
  lemma ObjectFieldUnreadable(x: string, y: string, pretty: string)
    requires ',' !in x && '\n' !in x && (x == [] || x[0] != '"')
    requires |y| > 0 && y[0] != '"' && y[0] != ',' && y[0] != '\n'
    ensures ParseCsv(ExportCsv([[("v", Obj(x + ",\"" + y, pretty))]]).value) == None
  {
    ObjectWithKeysExported(x, y, pretty);
    EscapeChars(x);
    EscapeChars(y);
    var body := Escape(x) + (",\"\"" + Escape(y));
    UnreadableLine(Escape(x), Escape(y));
    UnreadableAfterHeader("v", body);
  }

  /** The export of such an object under one header: the header, a line break, and the JSON
      text with its quotes doubled. */
  lemma ObjectWithKeysExported(x: string, y: string, pretty: string)
    ensures ExportCsv([[("v", Obj(x + ",\"" + y, pretty))]]) ==
      Some(Join(["v", Escape(x) + (",\"\"" + Escape(y))], "\n"))
  {
    var json := x + ",\"" + y;
    var row := [("v", Obj(json, pretty))];
    assert Keys(row) == ["v"];
    assert Lookup(row, "v") == Obj(json, pretty);
    TableTextOneCell("v", row, ExportField);
    assert json[|x|] == ',';
    EscapeAtComma(x, y);
  }

  lemma EscapeAtComma(x: string, y: string)
    ensures Escape(x + ",\"" + y) == Escape(x) + (",\"\"" + Escape(y))
  {
    EscapeAppend(x, ",\"" + y);
    EscapeAppend(",\"", y);
    assert Escape(",\"") == ",\"\"" by {
      assert ",\""[1..] == "\"" && "\""[1..] == "";
    }
    assert x + ",\"" + y == x + (",\"" + y);
  }

  /** A line holding a bare field, a comma, an empty quoted field and more text before any comma
      or line break is not a record. */
  lemma UnreadableLine(ex: string, ey: string)
    requires ',' !in ex && '\n' !in ex && (ex == [] || ex[0] != '"')
    requires |ey| > 0 && ey[0] != '"' && ey[0] != ',' && ey[0] != '\n'
    ensures ReadRecord(ex + (",\"\"" + ey)) == None
  {
    var body := ex + (",\"\"" + ey);
    ReadBareOf(ex, ",\"\"" + ey);
    assert ReadField(body) == Some((ex, ",\"\"" + ey)) by {
      if ex != [] {
        assert body[0] == ex[0];
      }
    }
    assert (",\"\"" + ey)[1..] == "\"\"" + ey;
    EmptyQuotedThenText(ey);
  }

  /** An empty quoted field followed by text other than a comma or line break is not a record. */
  lemma EmptyQuotedThenText(ey: string)
    requires |ey| > 0 && ey[0] != '"' && ey[0] != ',' && ey[0] != '\n'
    ensures ReadRecord("\"\"" + ey) == None
  {
    var second := "\"\"" + ey;
    assert second[1..] == "\"" + ey && ("\"" + ey)[1..] == ey;
    assert ReadField(second) == Some(("", ey));
  }

  /** Text that does not read after a bare header line makes the whole file unreadable. */
  lemma UnreadableAfterHeader(h: string, body: string)
    requires Bare(h) && ReadRecord(body) == None
    ensures ParseCsv(Join([h, body], "\n")) == None
  {
    JoinTwo(h, body, "\n");
    ReadBareOf(h, "\n" + body);
    var text := h + "\n" + body;
    assert text == h + ("\n" + body);
    assert |h| > 0 ==> text[0] == h[0];
    assert ReadRecord(text) == Some(([h], Some(body)));
  }

  lemma BareEncodes(cells: seq<seq<string>>)
    requires forall i, j :: 0 <= i < |cells| && 0 <= j < |cells[i]| ==> Bare(cells[i][j])
    ensures forall i, j :: 0 <= i < |cells| && 0 <= j < |cells[i]| ==> Encodes(cells[i][j], cells[i][j])
  {
  }

  /** An object whose JSON text holds a comma, such as the array `[1,2]`, comes out unquoted
      under its header and reads back as two fields where the header row has one. */
  lemma ObjectFieldSplitsRecord(x: string, y: string, pretty: string)
    requires Bare(x) && Bare(y)
    ensures ExportCsv([[("v", Obj(x + "," + y, pretty))]]) == Some(Join(["v", x + "," + y], "\n"))
    ensures ParseCsv(ExportCsv([[("v", Obj(x + "," + y, pretty))]]).value) == Some([["v"], [x, y]])
    ensures ParseCsv(ExportCsv([[("v", Obj(x + "," + y, pretty))]]).value) != Some([["v"], [x + "," + y]])
  {
    ObjectFieldUnquoted(x + "," + y, pretty);
    TwoFieldRecordReadsBack("v", x, y);
    assert [x, y] != [x + "," + y];
  }

  /** Field of the export with objects enclosed in quotes like every other value. */
  function ExportFieldQuoted(v: Value): string
  {
    if v.Null? || v.Undefined? then "" else if v.Obj? then Quote(v.json) else Quote(ToText(v))
  }

  function ExportCsvQuoted(data: seq<Row>): (r: Option<string>)
    ensures r.None? <==> |data| == 0
  {
    if |data| == 0 then None else Some(TableText(Keys(data[0]), data, ExportFieldQuoted))
  }

  /** With objects quoted, every export reads back as the header record and one text per header
      for every row. */
  lemma ExportCsvQuotedReadsBack(data: seq<Row>)
    requires |data| > 0 && BareHeaders(Keys(data[0]))
    ensures ParseCsv(ExportCsvQuoted(data).value) == Some([Keys(data[0])] + Cells(Keys(data[0]), data, ExportedText))
  {
    TableTextReadsBack(Keys(data[0]), data, ExportFieldQuoted, ExportedText);
  }
}
