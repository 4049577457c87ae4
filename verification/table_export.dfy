/** The table export screen (`src/components/TableDataExport.tsx`): who may use it, the query a
    fetch builds, the columns of the result, the preview, the cell texts and the CSV download. */
module TableDataExport {
  import opened Base
  import opened Text
  import opened JsValue
  import opened Csv
  import opened CsvExport
  import Reports

  /** Only admins and owners may use the screen. */
  function HasAccess(user: Option<User>): (r: bool)
    ensures r <==> user.Some? && (user.value.role == "admin" || user.value.role == "owner")
  {
    user.Some? && IsPrivileged(user.value.role)
  }

  /** The date condition of a query: `column >= lower` and `column <= upper`. */
  datatype DateFilter = DateFilter(column: string, lower: string, upper: string)

  /** What a fetch does: nothing, or one query on the table, filtered by date and ordered on a
      column, ascending or (newest first) descending. */
  datatype FetchPlan =
    | Refused
    | Query(table: string, filter: DateFilter, orderBy: string, ascending: bool)

  /** Tables whose rows carry a full timestamp rather than a date. */
  predicate StampedTable(table: string)
  {
    table == "activity_log" || table == "users"
  }

  /** `fetchTableData` up to the network call. */
  function PlanFetch(table: string, fromDate: string, toDate: string): (r: FetchPlan)
    ensures r.Refused? <==> table == "" || fromDate == "" || toDate == ""
    ensures r.Query? ==> r.table == table && r.orderBy == "created_at" && !r.ascending
    ensures r.Query? && !StampedTable(table) ==> r.filter == DateFilter("asof_date", fromDate, toDate)
    ensures r.Query? && StampedTable(table) ==>
      r.filter.column == (if table == "activity_log" then "timestamp" else "created_at")
      && r.filter.lower == fromDate + "T00:00:00" && r.filter.upper == toDate + "T23:59:59"
  {
    if table == "" || fromDate == "" || toDate == "" then Refused
    else if table == "activity_log" then
      Query(table, DateFilter("timestamp", fromDate + "T00:00:00", toDate + "T23:59:59"), "created_at", false)
    else if table == "users" then
      Query(table, DateFilter("created_at", fromDate + "T00:00:00", toDate + "T23:59:59"), "created_at", false)
    else
      Query(table, DateFilter("asof_date", fromDate, toDate), "created_at", false)
  }

  /** The order of fixed-width ISO dates and timestamps written as text: character by
      character. */
  predicate TextLe(a: string, b: string)
  {
    |a| == 0 || (|b| > 0 && (a[0] < b[0] || (a[0] == b[0] && TextLe(a[1..], b[1..]))))
  }

  predicate Passes(f: DateFilter, v: string)
  {
    TextLe(f.lower, v) && TextLe(v, f.upper)
  }

  /** A time of day `HH:MM:SS`. */
  predicate ClockTime(t: string)
  {
    && |t| == 8 && t[2] == ':' && t[5] == ':'
    && forall i :: 0 <= i < 8 && i != 2 && i != 5 ==> '0' <= t[i] <= '9'
  }

  lemma {:induction false} TextLeRefl(a: string)
    ensures TextLe(a, a)
  {
    if |a| > 0 {
      TextLeRefl(a[1..]);
    }
  }

  /** Comparing two texts that start with prefixes of the same length: the prefixes decide
      unless they are equal. */
  lemma {:induction false} TextLeAppend(a: string, b: string, c: string, d: string)
    requires |a| == |c| && TextLe(a, c) && (a == c ==> TextLe(b, d))
    ensures TextLe(a + b, c + d)
  {
    if |a| > 0 {
      assert (a + b)[0] == a[0] && (c + d)[0] == c[0];
      assert (a + b)[1..] == a[1..] + b && (c + d)[1..] == c[1..] + d;
      if a[0] == c[0] {
        if a[1..] == c[1..] {
          assert a == [a[0]] + a[1..] && c == [c[0]] + c[1..];
        }
        TextLeAppend(a[1..], b, c[1..], d);
      }
    } else {
      assert a + b == b && c + d == d;
    }
  }

  /** ... and a comparison of the whole texts implies that of the prefixes. */
  lemma {:induction false} TextLePrefix(a: string, b: string, c: string, d: string)
    requires |a| == |c| && TextLe(a + b, c + d)
    ensures TextLe(a, c)
  {
    if |a| > 0 {
      assert (a + b)[1..] == a[1..] + b && (c + d)[1..] == c[1..] + d;
      if a[0] == c[0] {
        TextLePrefix(a[1..], b, c[1..], d);
      }
    }
  }

  lemma {:induction false} TextLeAntisymmetric(a: string, b: string)
    requires |a| == |b| && TextLe(a, b) && TextLe(b, a)
    ensures a == b
  {
    if |a| > 0 {
      TextLeAntisymmetric(a[1..], b[1..]);
      assert a == [a[0]] + a[1..] && b == [b[0]] + b[1..];
    }
  }

  /** Each character at least the one in the same place: no smaller. */
  lemma {:induction false} TextLePointwise(a: string, b: string)
    requires |a| == |b| && forall i :: 0 <= i < |a| ==> a[i] <= b[i]
    ensures TextLe(a, b)
  {
    if |a| > 0 {
      TextLePointwise(a[1..], b[1..]);
    }
  }

  /** A row of a stamped table passes the filter whenever its day lies between the chosen
      dates and its time is a whole second (`HH:MM:SS`), at most 23:59:59. */
  lemma StampInRangePasses(table: string, fromDate: string, toDate: string, day: string, time: string)
    requires table != "" && fromDate != "" && toDate != "" && StampedTable(table)
    requires |day| == |fromDate| == |toDate| && TextLe(fromDate, day) && TextLe(day, toDate)
    requires ClockTime(time) && TextLe(time, "23:59:59")
    ensures Passes(PlanFetch(table, fromDate, toDate).filter, day + "T" + time)
  {
    var f := PlanFetch(table, fromDate, toDate).filter;
    TextLePointwise("T00:00:00", "T" + time);
    TextLeAppend(fromDate, "T00:00:00", day, "T" + time);
    TextLeRefl("T");
    TextLeAppend("T", time, "T", "23:59:59");
    assert "T" + "23:59:59" == "T23:59:59";
    TextLeAppend(day, "T" + time, toDate, "T23:59:59");
    assert day + "T" + time == day + ("T" + time);
  }

  /** ... and a row stamped on a day before the first chosen date never passes. */
  lemma StampBeforeRangeFails(table: string, fromDate: string, toDate: string, day: string, time: string)
    requires table != "" && fromDate != "" && toDate != "" && StampedTable(table)
    requires |day| == |fromDate| && TextLe(day, fromDate) && day != fromDate
    ensures !Passes(PlanFetch(table, fromDate, toDate).filter, day + "T" + time)
  {
    var f := PlanFetch(table, fromDate, toDate).filter;
    assert f.lower == fromDate + "T00:00:00";
    var v := day + "T" + time;
    assert v == day + ("T" + time);
    if TextLe(f.lower, v) {
      TextLePrefix(fromDate, "T00:00:00", day, "T" + time);
      TextLeAntisymmetric(day, fromDate);
    }
  }

  /** A text is never at most a proper prefix of itself followed by more characters. */
  lemma {:induction false} TextLeLonger(p: string, x: string)
    requires |x| > 0
    ensures !TextLe(p + x, p)
  {
    if |p| > 0 {
      assert (p + x)[0] == p[0] && (p + x)[1..] == p[1..] + x;
      TextLeLonger(p[1..], x);
    }
  }

  /** ... but a row stamped within the last second of the last chosen day, with a non-zero fraction
      of a second (`.5`, `.001`) written after `23:59:59`, does not pass: the upper bound stops at the whole second. */
  lemma FractionalLastSecondFails(table: string, fromDate: string, toDate: string, fraction: string)
    requires table != "" && fromDate != "" && toDate != "" && StampedTable(table)
    requires |fraction| >= 2 && fraction[0] == '.'
    requires forall i :: 1 <= i < |fraction| ==> '0' <= fraction[i] <= '9'
    requires exists i :: 1 <= i < |fraction| && fraction[i] != '0'
    ensures !Passes(PlanFetch(table, fromDate, toDate).filter, toDate + "T23:59:59" + fraction)
  {
    assert PlanFetch(table, fromDate, toDate).filter.upper == toDate + "T23:59:59";
    TextLeLonger(toDate + "T23:59:59", fraction);
  }

  /** The columns are the keys of the first row, none for an empty result. */
  function Columns(data: seq<Row>): (r: seq<string>)
    ensures |data| == 0 ==> r == []
    ensures |data| > 0 ==> |r| == |data[0]| && forall j :: 0 <= j < |r| ==> r[j] == data[0][j].0
  {
    if |data| > 0 then Keys(data[0]) else []
  }

  /** The text a field of the download stands for: an object's JSON, `''` for a falsy value,
      otherwise `String(value)`. */
  function ExportedText(v: Value): (r: string)
    ensures Falsy(v) ==> r == ""
  {
    if v.Obj? then v.json else if Falsy(v) then "" else ToText(v)
  }

  /** Field of the download: every value enclosed in quotes with its quotes doubled. */
  function ExportField(v: Value): (r: string)
    ensures Falsy(v) ==> r == "\"\""
    ensures |r| >= 2 && r[0] == '"' && r[|r| - 1] == '"'
  {
    Quote(ExportedText(v))
  }

  /** Every field, objects included, reads back as the text it stands for. */
  lemma ExportFieldRoundTrip(v: Value)
    ensures Unquote(ExportField(v)) == Some(ExportedText(v))
  {
    UnquoteQuote(ExportedText(v));
  }

  /** `downloadCSV`: nothing for an empty table, otherwise the header line and one line per row. */
  function DownloadCsv(columns: seq<string>, data: seq<Row>): (r: Option<string>)
    ensures r.None? <==> |data| == 0
  {
    if |data| == 0 then None else Some(TableText(columns, data, ExportField))
  }

  /** The download reads back as the columns followed by, for every row, one text per column in
      column order: for every table, whatever its values. */
  lemma DownloadCsvReadsBack(columns: seq<string>, data: seq<Row>)
    requires |data| > 0 && BareHeaders(columns)
    ensures ParseCsv(DownloadCsv(columns, data).value) == Some([columns] + Cells(columns, data, ExportedText))
  {
    TableTextReadsBack(columns, data, ExportField, ExportedText);
  }

  /** `formatCellValue`. */
  function FormatCell(v: Value): (r: string)
    ensures v.Null? || v.Undefined? ==> r == "-"
    ensures v.Obj? ==> r == v.prettyJson
    ensures v.Bool? ==> r == (if v.b then "Yes" else "No")
    ensures v.Num? || v.Str? ==> r == ToText(v)
  {
    match v
    case Null => "-"
    case Undefined => "-"
    case Obj(_, pretty) => pretty
    case Bool(b) => if b then "Yes" else "No"
    case _ => ToText(v)
  }

  /** This screen and the reports screen show the same text for a cell except for objects, shown
      indented here, and booleans, shown as Yes and No here. */
  lemma FormatCellMatchesReports(v: Value)
    ensures !v.Obj? && !v.Bool? ==> FormatCell(v) == Reports.DisplayText(v)
    ensures v.Bool? ==> FormatCell(v) != Reports.DisplayText(v)
    ensures v.Obj? ==> (FormatCell(v) == Reports.DisplayText(v) <==> v.prettyJson == v.json)
  {
  }

  const PreviewRows := 50

  /** The rows the preview shows: the first 50. */
  function Preview(data: seq<Row>): (r: seq<Row>)
    ensures |r| == if |data| < PreviewRows then |data| else PreviewRows
    ensures r == data[..|r|]
  {
    if |data| <= PreviewRows then data else data[..PreviewRows]
  }

  /** The notice below the preview. */
  predicate ShowsMoreNotice(data: seq<Row>)
  {
    |data| > PreviewRows
  }

  /** The notice appears exactly when the preview leaves rows out. */
  lemma NoticeIffRowsHidden(data: seq<Row>)
    ensures ShowsMoreNotice(data) <==> |Preview(data)| < |data|
  {
  }

  /** `column.replace(/_/g, ' ').toUpperCase()`. */
  function ColumnLabel(s: string): (r: string)
    ensures |r| == |s|
    ensures forall i :: 0 <= i < |s| ==> r[i] == if s[i] == '_' then ' ' else UpperChar(s[i])
  {
    seq(|s|, i requires 0 <= i < |s| => if s[i] == '_' then ' ' else UpperChar(s[i]))
  }

  /** The two screens label a column alike when its name has at most one underscore ... */
  lemma LabelsAgree(s: string)
    requires forall i, j :: 0 <= i < j < |s| ==> !(s[i] == '_' && s[j] == '_')
    ensures ColumnLabel(s) == Reports.Label(s)
  {
    forall i | 0 <= i < |s| ensures ColumnLabel(s)[i] == Reports.Label(s)[i] {
      if s[i] == '_' {
        assert '_' !in s[..i];
      }
    }
  }

  /** ... and differ on every name with two: the reports screen keeps the second underscore. */
  lemma LabelsDiffer(s: string, i: nat, j: nat)
    requires i < j < |s| && s[i] == '_' && s[j] == '_'
    ensures ColumnLabel(s) != Reports.Label(s)
  {
    assert s[i] in s[..j];
    assert ColumnLabel(s)[j] == ' ' && Reports.Label(s)[j] == UpperChar('_');
  }
}
