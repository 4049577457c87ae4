# Karat tracker: a verified model of its deterministic core

Karat tracker is a web front end for a jewellery shop. It sits over a hosted PostgreSQL database reached through its REST client. This project models, in Dafny, the logic that sits between the network calls and the markup:

- **Reports** (`src/components/Reports.tsx`):
  - the role gate;
  - the column list of the table view, with `profit` hidden in the sales log;
  - the text of every cell;
  - the title and column labels;
  - the hand-built CSV export.
- **Table data export** (`src/components/TableDataExport.tsx`):
  - access;
  - the date filter a fetch builds for each table;
  - the columns of a result;
  - the 50-row preview and its notice;
  - cell formatting;
  - column labels;
  - its own CSV export, which quotes every field.
- **Query assistant** (`src/lib/openaiService.ts`):
  - `parseResponse`: the JSON candidate and its defaults, the fenced-code-block fallback, and the line scan for explanation and summary;
  - the date section of the prompt;
  - the empty-result, sample and aggregation rules of `generateSummary`;
  - the audio file name.
- **Sale entry** (`src/components/AddSales.tsx`): the form, the required fields, the stored row with its profit, and the submit and edit handlers.
- **Expense entry** (`src/components/AddExpense.tsx`):
  - the form and the submit guard;
  - the duplicate rule on (date, type, item);
  - the stored row;
  - the form reset after a save;
  - the edit handlers.

  The expense log is a sequence of rows.
- **Daily rates banner** (`src/components/DailyRatesBanner.tsx`):
  - the committed rates, an editing buffer kept in an array, and the editing flag;
  - fetch, edit, cancel, a one-cell edit and save.

  Save upserts the buffer into the daily rates table, keyed on (date, material, karat).

Supporting modules:

- `Base`: optional values and users.
- `Text`: joining, splitting, searching, trimming and ASCII case mapping of strings.
- `NumberText`: a model of JavaScript's `parseFloat`, where `None` stands for NaN.
- `JsValue`: the cell values the database client returns.
- `Csv`: the quoting rule of section 2 of RFC 4180, with a reader for the format. Both exports are read back with this reader.
- `CsvExport`: the header-plus-records shape both exports share.

Network results enter the model as parameters:

- whether a request succeeded;
- the rows a query returned;
- what `JSON.parse` produced;
- how the model's summary request ended.

Stateful screens are classes. Their fields are what the source keeps in component state, plus the table they write to.

## Model

| member | source | states |
|---|---|---|
| Text.Split | src/lib/openaiService.ts:358 | `split('\n')`: every piece is free of the separator, and the pieces joined by it give back the text |
| Text.Trim | src/lib/openaiService.ts:352 | the result neither starts nor ends with white space and holds only characters of the input |
| Text.TrimMiddle | src/lib/openaiService.ts:352 | the result is a contiguous middle of the input with only white space before and after it |
| Text.TrimOfSpaces | src/lib/openaiService.ts:362 | a text of white space alone trims to the empty text |
| Text.IndexOfFrom | src/lib/openaiService.ts:351 | the first occurrence of a pattern at or after a position, or none at all |
| NumberText.ParseFloatOfNatToString | src/components/AddSales.tsx:53-55 | the decimal digits of a whole number, followed by anything that cannot continue a number, parse as that number |
| NumberText.ParseFloat | src/components/AddSales.tsx:53-55 | a text parses as a number only if it holds a digit, so a text without one, the empty text included, is NaN |
| NumberText.ParseUnsigned | src/components/AddSales.tsx:53-55 | the unsigned part of a number is never negative, and it needs a digit |
| NumberText.OrZero | src/components/AddSales.tsx:53-55 | `parseFloat(x) \|\| 0`: NaN becomes 0, any number stays |
| Csv.Escape | src/components/Reports.tsx:114-115 | doubling the quotes never shortens a text |
| Csv.EscapeLength | src/components/Reports.tsx:114-115 | doubling the quotes adds exactly one character per double quote |
| Csv.EscapeAppend | src/components/Reports.tsx:114 | doubling the quotes works character by character: it distributes over concatenation |
| Csv.EscapeChars | src/components/Reports.tsx:114 | doubling the quotes adds no other character, and keeps a first character that is not a quote |
| Csv.Quote | src/components/TableDataExport.tsx:131-133 | a quoted field starts and ends with a double quote |
| Csv.UnquoteQuote | src/components/TableDataExport.tsx:131-133 | a quoted field, with its quotes doubled, reads back as the text it encloses |
| Csv.EscapeWithoutQuotes | src/components/Reports.tsx:114 | doubling the quotes of a text without quotes leaves it unchanged |
| Csv.ReadFieldOf | src/components/Reports.tsx:113-115 | a field that encodes a text, followed by a comma, a line break or the end, reads back as that text |
| Csv.ReadRecordOf | src/components/Reports.tsx:110-116 | fields joined by commas read back as one record holding their texts in order |
| Csv.ParseCsvOf | src/components/Reports.tsx:107-118 | records joined by line breaks read back as the table of their texts |
| CsvExport.Records | src/components/Reports.tsx:109-117 | one line per row, each line the row's fields in header order joined by commas |
| CsvExport.TableText | src/components/Reports.tsx:105-118 | the text is the header line alone for an empty table, and otherwise the header line, a line break, then the records joined by line breaks |
| CsvExport.Cells | src/components/TableDataExport.tsx:126-134 | one text per header for every row |
| CsvExport.TableTextReadsBack | src/components/Reports.tsx:105-118 | for at least one column name, none holding a quote, comma or line break, and when every field encodes its cell's text, the CSV reads back as the header record followed by one record per row, one text per header, in header order |
| Reports.Redirects | src/components/Reports.tsx:37-42 | a signed-in user is sent away exactly when the role is neither `admin` nor `owner`; with nobody signed in the screen stays |
| Reports.HidesProfit | src/components/Reports.tsx:171-173 | `profit` is hidden only in `sales_log`: always when nobody is signed in, and otherwise exactly for a role other than `admin` and `owner` |
| Reports.ProfitHiddenOnlyWhenSignedOut | src/components/Reports.tsx:38-43 | whenever the profit column is hidden, nobody is signed in or the user is sent to the dashboard |
| Reports.WithoutProfit | src/components/Reports.tsx:172 | the filter keeps exactly the headers other than `profit` |
| Reports.WithoutProfitAppend | src/components/Reports.tsx:172 | the filter keeps the order of the headers: it distributes over concatenation |
| Reports.WithoutProfitKeeps | src/components/Reports.tsx:172 | a header list without `profit` passes unchanged |
| Reports.TableHeaders | src/components/Reports.tsx:164-176 | none for an empty table; otherwise the keys of the first row, without `profit` exactly when the sales log is shown to a role outside admin and owner |
| Reports.DisplayText | src/components/Reports.tsx:154-156 | `-` for null and undefined, the compact JSON text for an object, the text of a string, the written form of a number, `true` or `false` for a boolean |
| Reports.RenderRow | src/components/Reports.tsx:144-161 | at most one cell per entry of the row; exactly one when `profit` is not hidden, and with `profit` hidden a full row means the row has no `profit` entry |
| Reports.CellTexts | src/components/Reports.tsx:154-156 | the cell under each header shows `-` for null and undefined, the JSON text for objects, and otherwise `String(value)` |
| Reports.RenderRowAligned | src/components/Reports.tsx:144-161 | the cells of a row are, in order, the texts of the values under its shown keys, with `profit` skipped exactly where it is hidden |
| Reports.RowMatchesHeaders | src/components/Reports.tsx:144-176 | a row with the keys of the first row has one cell per column header, showing the value under that header |
| Reports.ReplaceFirstUnderscoreAt | src/components/Reports.tsx:293 | `replace('_', ' ')` turns only the first underscore into a space |
| Reports.Label | src/components/Reports.tsx:272 | the label has the name's length; the first underscore becomes a space, and every other character is upper-cased |
| Reports.ExportCsv | src/components/Reports.tsx:98-103 | an empty table exports nothing, and any other table exports text |
| Reports.ExportField | src/components/Reports.tsx:111-115 | null and undefined give an empty field; other non-objects are enclosed in double quotes; an object's JSON text is written with its quotes doubled and nothing else changed (enclosed in quotes, the field reads back as the JSON text) and not enclosed (the field starts as the JSON text does), unchanged when it holds no quote, comma or line break |
| Reports.ExportFieldReadsBack | src/components/Reports.tsx:113-115 | null and undefined give an empty field; any other non-object value reads back as its `String` text |
| Reports.ExportCsvReadsBack | src/components/Reports.tsx:105-118 | when the first row has at least one key and no key holds a quote, comma or line break, the export reads back as the headers and one text per header for every row, provided no object's JSON needs quoting |
| Reports.ObjectFieldUnquoted | src/components/Reports.tsx:114 | an object goes out as its bare JSON text, without enclosing quotes |
| Reports.ObjectFieldSplitsRecord | src/components/Reports.tsx:114 | an object whose JSON holds a comma reads back as two fields under one header, and not as its JSON text |
| Reports.ObjectFieldUnreadable | src/components/Reports.tsx:114 | a one-column, one-row export whose only cell is an object whose JSON text's first comma is followed by a quoted key does not read back as CSV at all |
| Reports.ObjectWithKeysExported | src/components/Reports.tsx:105-118 | such an object under one header is exported as the header, a line break and its JSON text with quotes doubled |
| Reports.UnreadableLine | src/components/Reports.tsx:114 | a bare field followed by a comma, an empty quoted field and more text is not a record |
| Reports.ExportCsvQuoted | src/components/Reports.tsx:98-118 | the export with objects quoted: nothing exactly for an empty table |
| Reports.ExportCsvQuotedReadsBack | src/components/Reports.tsx:105-118 | with objects quoted, and when the first row has at least one key and no key holds a quote, comma or line break, every export reads back as the headers and one text per header for every row |
| TableDataExport.HasAccess | src/components/TableDataExport.tsx:41 | access is granted exactly to a signed-in admin or owner |
| TableDataExport.PlanFetch | src/components/TableDataExport.tsx:53-83 | no query when the table or either date is empty; otherwise `activity_log` is filtered on `timestamp` and `users` on `created_at`, both from `T00:00:00` to `T23:59:59`; every other table is filtered on `asof_date` with the bare dates; results are ordered on `created_at`, newest first |
| TableDataExport.StampInRangePasses | src/components/TableDataExport.tsx:68-75 | a timestamp on a day between the chosen dates, with a whole-second time of day up to 23:59:59, passes the filter |
| TableDataExport.TextLeLonger | src/components/TableDataExport.tsx:68-75 | a text followed by more characters is never at most that text |
| TableDataExport.FractionalLastSecondFails | src/components/TableDataExport.tsx:70-75 | a timestamp in the last second of the last chosen day with a non-zero decimal fraction of a second (a point, digits, not all zero) written after `23:59:59` fails the filter |
| TableDataExport.StampBeforeRangeFails | src/components/TableDataExport.tsx:68-75 | a timestamp on a day before the first chosen date never passes |
| TableDataExport.Columns | src/components/TableDataExport.tsx:91-96 | the columns are the keys of the first row, or none |
| TableDataExport.ExportedText | src/components/TableDataExport.tsx:130-133 | every falsy value stands for the empty text |
| TableDataExport.ExportField | src/components/TableDataExport.tsx:130-133 | every field is enclosed in quotes; a falsy value is `""` |
| TableDataExport.ExportFieldRoundTrip | src/components/TableDataExport.tsx:130-133 | every field, objects included, reads back as the text it stands for |
| TableDataExport.DownloadCsv | src/components/TableDataExport.tsx:114-122 | nothing exactly for an empty table |
| TableDataExport.DownloadCsvReadsBack | src/components/TableDataExport.tsx:124-137 | the download reads back as the columns, then one text per column for every row, in column order, whatever the values, for at least one column name and none holding a quote, comma or line break |
| TableDataExport.FormatCell | src/components/TableDataExport.tsx:156-163 | `-` for null and undefined; indented JSON for objects; `Yes`/`No` for booleans; `String(value)` otherwise |
| TableDataExport.FormatCellMatchesReports | src/components/TableDataExport.tsx:156-163 | the two screens show the same cell text except for booleans, which always differ, and objects, which agree exactly when the indented and compact JSON texts agree |
| TableDataExport.Preview | src/components/TableDataExport.tsx:295 | the preview is the first 50 rows, or all of them when there are fewer |
| TableDataExport.NoticeIffRowsHidden | src/components/TableDataExport.tsx:306 | the notice shows exactly when the preview leaves rows out |
| TableDataExport.ColumnLabel | src/components/TableDataExport.tsx:289 | every underscore becomes a space and every other character is upper-cased |
| TableDataExport.LabelsAgree | src/components/TableDataExport.tsx:289 | this screen and the reports screen label a column alike when its name has at most one underscore |
| TableDataExport.LabelsDiffer | src/components/TableDataExport.tsx:289 | the labels differ for every name with two underscores |
| OpenAiService.JsonSpan | src/lib/openaiService.ts:335 | the span runs from the first `{` to the last `}` after it; there is no span exactly when no `{` comes before a `}` |
| OpenAiService.JsonCandidate | src/lib/openaiService.ts:335-336 | the candidate starts with `{` and ends with `}` |
| OpenAiService.OrElse | src/lib/openaiService.ts:339-342 | a present, non-empty field wins; otherwise the default |
| OpenAiService.FromJson | src/lib/openaiService.ts:338-343 | the sql field, or `''`; the explanation, summary and result type, or their fixed defaults, so none of those three is empty |
| OpenAiService.CodeBlock | src/lib/openaiService.ts:351 | no block when the opening fence is absent; a block found leaves room in the reply for both fences |
| OpenAiService.CodeBlockFound | src/lib/openaiService.ts:351 | a block found is the text right after the first opening fence, up to the first closing fence after it, and no closing fence starts inside it |
| OpenAiService.FallbackSql | src/lib/openaiService.ts:351-352 | the query is trimmed and made only of characters of the reply |
| OpenAiService.BlockChars | src/lib/openaiService.ts:351 | a block's body is made of characters of the reply |
| OpenAiService.CodeBlockOf | src/lib/openaiService.ts:351 | a fenced block with no backquote before it or inside it yields its body |
| OpenAiService.SqlFenceRoundTrip | src/lib/openaiService.ts:351-352 | a reply holding a `sql` fenced block gives that block's body, trimmed, as the query |
| OpenAiService.NoBlockWithoutBackquote | src/lib/openaiService.ts:351 | a reply without a backquote has no fenced block |
| OpenAiService.NoFenceWholeReply | src/lib/openaiService.ts:352 | such a reply gives the whole reply, trimmed, as the query |
| OpenAiService.RemoveSummaryTag | src/lib/openaiService.ts:365 | a line without `summary` in any case is unchanged; otherwise exactly its first `summary`, with the colon right after it if there is one, is cut, and the text on both sides is kept |
| OpenAiService.ExplanationOffers | src/lib/openaiService.ts:359-363 | line i offers the trimmed next line when it mentions `explanation` or `this query` in any case and that next line is not empty |
| OpenAiService.SummaryOffers | src/lib/openaiService.ts:359-366 | line i offers its summary candidate when it mentions `summary`, `insight` or `shows` in any case and the candidate is not empty |
| OpenAiService.LastOffer | src/lib/openaiService.ts:355-367 | the result is the default or one of the values offered |
| OpenAiService.LastOfferWins | src/lib/openaiService.ts:359-367 | the last offer wins over every earlier one |
| OpenAiService.NoOfferDefault | src/lib/openaiService.ts:355-367 | with no offer the default stays |
| OpenAiService.ExplanationAfter | src/lib/openaiService.ts:355-363 | the explanation after n lines is never empty |
| OpenAiService.SummaryAfter | src/lib/openaiService.ts:356-366 | the summary after n lines is never empty |
| OpenAiService.ExplanationLastMatchWins | src/lib/openaiService.ts:359-363 | the explanation is the trimmed line after the last line that sets it |
| OpenAiService.ExplanationDefault | src/lib/openaiService.ts:355-363 | when no line sets it, the explanation is the fixed default |
| OpenAiService.SummaryLastMatchWins | src/lib/openaiService.ts:364-366 | the summary is the candidate of the last line that sets it |
| OpenAiService.SummaryDefault | src/lib/openaiService.ts:356-366 | when no line sets it, the summary is the fixed default |
| OpenAiService.ExplanationStep | src/lib/openaiService.ts:361-362 | reading a line changes the explanation only when the line sets it, and then to the trimmed next line |
| OpenAiService.SummaryStep | src/lib/openaiService.ts:364-365 | reading a line changes the summary only when the line sets it, and then to its candidate |
| OpenAiService.ScanLines | src/lib/openaiService.ts:358-367 | the loop over the lines ends with the explanation and the summary of the last lines that set them, or the defaults |
| OpenAiService.ParseResponse | src/lib/openaiService.ts:332-375 | a candidate that parses gives its fields with defaults; anything else gives the fallback query, the scanned explanation and summary, and `list` |
| OpenAiService.WordFrom | src/lib/openaiService.ts:227 | true exactly when the word occurs between word boundaries at or after the position |
| OpenAiService.DateContext | src/lib/openaiService.ts:231-234 | the date section is present exactly when the query mentions dates and a range is known, and then it names the range |
| OpenAiService.IsoDateDetected | src/lib/openaiService.ts:228 | a query holding a `YYYY-MM-DD` date between word boundaries mentions dates |
| OpenAiService.DateDetectionIgnoresCase | src/lib/openaiService.ts:226-229 | the same query in capitals is just as much about dates |
| OpenAiService.ResultColumns | src/lib/openaiService.ts:152 | the keys of the first row, or none |
| OpenAiService.SummaryFocus | src/lib/openaiService.ts:155-175 | the prompt asks for the aggregate exactly when some column contains `total_`, `sum_`, `count_` or `avg_` |
| OpenAiService.AggregateColumnFocus | src/lib/openaiService.ts:156-158 | a column such as `total_sales` makes the summary focus on the aggregate |
| OpenAiService.SummarySample | src/lib/openaiService.ts:151 | the sample is the first ten rows, or all of them when there are fewer |
| OpenAiService.GenerateSummary | src/lib/openaiService.ts:141-214 | no rows give the fixed no-data text; a failed request gives the row count; a reply gives its text or the fixed failure text; never empty |
| OpenAiService.FoundTextCount | src/lib/openaiService.ts:213 | the number in the fallback summary reads back as the number of rows |
| OpenAiService.AudioFileName | src/lib/openaiService.ts:95-96 | `webm` wins over `mp4`, which wins over the default `wav` |
| AddSales.EmptyForm | src/components/AddSales.tsx:19-38 | a fresh form holds today's date and every other field empty |
| AddSales.Set | src/components/AddSales.tsx:112-117 | the named field takes the value and every other field keeps its text |
| AddSales.SetIdempotent | src/components/AddSales.tsx:112-117 | re-entering a field's own text changes nothing; of two edits to one field only the second counts |
| AddSales.RequiredFieldsFilled | src/components/AddSales.tsx:43-45 | the list of required fields is exactly the ten fields the guard names |
| AddSales.Validate | src/components/AddSales.tsx:43-45 | the submit goes ahead exactly when a user is signed in and customer name, phone, tag, item, material, type, purchase grams, purity and cost, and selling cost are all filled |
| AddSales.ValidateCases | src/components/AddSales.tsx:43-48 | the submit is refused exactly when nobody is signed in or a required field is empty; optional fields play no part |
| AddSales.OptionalIsParse | src/components/AddSales.tsx:70-78 | the emptiness test of the optional fields gives what `parseFloat` gives anyway |
| AddSales.NonZero | src/components/AddSales.tsx:74 | `x \|\| null`: null exactly for 0 |
| AddSales.BuildSale | src/components/AddSales.tsx:53-79 | the stored profit is the stored selling cost less the stored purchase cost and old cost (0 when null), and the row carries the user |
| AddSales.SaleRowFacts | src/components/AddSales.tsx:53-79 | the stored costs are what `parseFloat` reads, or 0; profit is the selling cost less the purchase and old costs; the old cost is null exactly when it reads as 0 and otherwise holds that amount; the user and the text fields are copied; every measured field holds what `parseFloat` reads from it, so an empty optional field is null |
| AddSales.AmountOfNat | src/components/AddSales.tsx:53-55 | a whole amount typed as digits is stored as that amount |
| AddSales.WholeRupeeProfit | src/components/AddSales.tsx:53-74 | for whole amounts typed as digits, the profit is their difference and the stored costs are the amounts |
| AddSales.AddSalesScreen.constructor | src/components/AddSales.tsx:19-39 | the screen starts with a fresh form, not busy |
| AddSales.AddSalesScreen.HandleInputChange | src/components/AddSales.tsx:112-117 | only the named field of the form changes |
| AddSales.AddSalesScreen.HandleSubmit | src/components/AddSales.tsx:41-110 | a refused submit changes nothing. An accepted one appends the built row and moves on when the insert succeeds, and leaves the log as it was otherwise. Either way the busy flag ends cleared |
| AddExpense.EmptyForm | src/components/AddExpense.tsx:19-25 | a fresh form holds today's date, is not filled and is not on credit |
| AddExpense.Set | src/components/AddExpense.tsx:104-109 | the named field takes the value; every other field and the check box keep theirs |
| AddExpense.TextFieldsFilled | src/components/AddExpense.tsx:36 | every text field is filled exactly when the date, type, item and cost are |
| AddExpense.Filled | src/components/AddExpense.tsx:36 | the form passes exactly when every text field is non-empty; the check box plays no part |
| AddExpense.Cleared | src/components/AddExpense.tsx:87-94 | after a save the date is kept and type, item, cost and credit are cleared |
| AddExpense.BuildExpense | src/components/AddExpense.tsx:56-63 | the row carries the user, the parsed cost, the credit flag and the form's triple |
| AddExpense.Matches | src/components/AddExpense.tsx:111-118 | the duplicate query selects only rows with the given triple |
| AddExpense.DuplicateLookup | src/components/AddExpense.tsx:111-125 | the check names an entry exactly when one row matches, and the name is that row's `inserted_by` |
| AddExpense.MatchesEmpty | src/components/AddExpense.tsx:112-118 | the query selects nothing exactly when no row has the triple |
| AddExpense.AtMostOneMatch | src/components/AddExpense.tsx:112-118 | in a log without duplicate triples at most one row matches |
| AddExpense.LookupExactWithoutDuplicates | src/components/AddExpense.tsx:45-54 | in such a log a duplicate is reported exactly when an entry with the same triple exists, and its author is named |
| AddExpense.RepeatedEntryNotSeen | src/components/AddExpense.tsx:118-124 | once two rows share a triple, the check reports neither |
| AddExpense.InsertKeepsNoDuplicates | src/components/AddExpense.tsx:45-69 | inserting a row the check let through keeps the log free of duplicate triples |
| AddExpense.AddExpenseScreen.constructor | src/components/AddExpense.tsx:19-26 | the screen starts with a fresh form, not busy |
| AddExpense.AddExpenseScreen.HandleInputChange | src/components/AddExpense.tsx:104-109 | only the named text field changes |
| AddExpense.AddExpenseScreen.HandleUdhaarChange | src/components/AddExpense.tsx:104-109 | only the credit check box changes |
| AddExpense.AddExpenseScreen.HandleSubmit | src/components/AddExpense.tsx:28-102 | nobody signed in, then an incomplete form, are refused with nothing changed. A reported duplicate inserts nothing. A successful insert appends the built row and clears the form. A failed duplicate query, or a failed insert after no duplicate was found, ends in a failure with nothing changed. The busy flag ends cleared on every path past the guard. A log without duplicate triples stays so |
| DailyRates.SetPrice | src/components/DailyRatesBanner.tsx:62-66 | only the named price of the row changes, to the typed text |
| DailyRates.UpsertRows | src/components/DailyRatesBanner.tsx:75-82 | one upsert row per editing row, in order, stamped with the user and the chosen day; material, karat and both prices copied |
| DailyRates.Upsert | src/components/DailyRatesBanner.tsx:84-90 | the upsert fails exactly when two rows of the batch share a conflict key |
| DailyRates.MergeKeys | src/components/DailyRatesBanner.tsx:84-86 | after the upsert the table holds its old keys and the keys of the rows |
| DailyRates.MergeKeeps | src/components/DailyRatesBanner.tsx:84-86 | a row whose key no upsert row carries is untouched |
| DailyRates.MergeStores | src/components/DailyRatesBanner.tsx:84-86 | with distinct keys, every upsert row ends up stored under its key |
| DailyRates.UpsertEffect | src/components/DailyRatesBanner.tsx:84-86 | a successful upsert stores every row under its key, keeps every other row, and adds no other key |
| DailyRates.SaveUnchangedKeepsPrices | src/components/DailyRatesBanner.tsx:75-86 | saving the rates of the day unedited stores each back under its own key as it was, only stamped with the saving user |
| DailyRates.SavedRatesShown | src/components/DailyRatesBanner.tsx:84-107 | when the fetch after a successful save returns the day's rows of the table, they include every row saved, as saved |
| DailyRates.CopyRates | src/components/DailyRatesBanner.tsx:45 | the buffer is a fresh array holding the rates in order |
| DailyRates.RatesBanner.constructor | src/components/DailyRatesBanner.tsx:22-25 | the banner starts on the given day with no rates, not editing |
| DailyRates.RatesBanner.Fetch | src/components/DailyRatesBanner.tsx:32-51 | fetched rows become the committed rates, and a fresh copy of them becomes the buffer; a failed fetch changes nothing |
| DailyRates.RatesBanner.SelectDate | src/components/DailyRatesBanner.tsx:25-30 | choosing a day, which the disabled input allows only when not editing, fetches that day's rates |
| DailyRates.RatesBanner.Edit | src/components/DailyRatesBanner.tsx:53-55 | editing starts; rates and buffer are untouched |
| DailyRates.RatesBanner.Cancel | src/components/DailyRatesBanner.tsx:57-60 | editing stops and the buffer is again a fresh copy of the committed rates |
| DailyRates.RatesBanner.HandleInputChange | src/components/DailyRatesBanner.tsx:62-66 | only the named price of the named row of the buffer changes; every other row stays, and the committed rates are not in its frame |
| DailyRates.RatesBanner.Save | src/components/DailyRatesBanner.tsx:68-113 | with nobody signed in, or a failed or conflicting upsert, nothing changes. Otherwise the table becomes the upsert of the buffer's rows, editing stops, and the rates are fetched again |

## Left out

- Network and storage: every database query, insert and upsert, and the OpenAI and Whisper requests, are parameters of the operations that use them. The screens' "today" is also a parameter.
- The browser: toasts, page navigation (kept as a flag on the sale screen), the download plumbing (Blob, link, click), the download's file name, and the markup.
- Sign-in and the session (`src/contexts/AuthContext.tsx`): a user is an optional value.
- Activity logging (`src/utils/activityLogger.ts`) catches its own errors, so it changes no outcome and is left out. `src/lib/activityLogger.ts`, which the expense screen calls, is not part of this model. The model takes it to fail no more than its sibling does.
- The reports screen's `fetchReportData` is left out: its four queries are network calls. The model takes the fetched table as its input.
- `JSON.stringify` is data carried by an object value, in its compact and indented forms. `JSON.parse` is a parameter of `OpenAiService.ParseResponse`. The data masking of prompts and the free text of the prompt templates are left out.
- The regular expressions are written out as searches for the specific patterns they match.
- `NumberText.ParseFloat`: exact decimal arithmetic. Infinity, IEEE rounding and `toFixed(2)` are not modelled.
- `Text.ToLower` and `Text.ToUpper`: ASCII letters only, because the texts compared are ASCII keywords.
- `AddExpense.DuplicateLookup`: the read-then-insert race between two submissions is not modelled. Submissions are sequential.
- `DailyRates.RatesBanner.Save`: the database's conversion of a typed price text into a number is not modelled. A typed price stays the text the user typed (`Entered`).
- The row id and time stamps of the daily rates table are left out. The screen uses the id only as a display key.
- `DailyRates.RatesBanner.Fetch`: the order in which the database returns a day's rates is not modelled. The fetched rows are a parameter.
- `DailyRates.RatesBanner.HandleInputChange`: the source copies the buffer's array but writes into the row object it shares with the old array. Because the committed rates are a separate copy, the model updates the buffer in place. An index outside the buffer is excluded by a precondition, since the source would throw there.
- `TableDataExport.StampInRangePasses`: the lemma covers whole-second times (`HH:MM:SS`). A stamp with a fraction of a second in the last second of the last day fails the filter; `TableDataExport.FractionalLastSecondFails` states this. The filter is modelled as a comparison of texts, where the database compares time stamps as values. So a stamp written with a zero fraction (`.000`) or a time zone suffix (`+00:00`) is not covered by either lemma, nor are stamps of other lengths.
- `OpenAiService.FromJson`: a field of the parsed JSON that is present but not a string (a number, say) is read as absent, so it gets the default, where the source keeps any truthy value. Non-string JSON values are not modelled.
- `Reports.ObjectFieldUnreadable`: the failure to read back is proved only for a one-column, one-row export whose object's first comma is followed by a quoted key. Objects with an earlier comma (inside an array or a string) and object cells after other fields of a record are not covered.
- `Reports.ExportCsvReadsBack`: the read-back holds only when no object's JSON text needs quoting. See Findings.
- `CsvExport.TableTextReadsBack`, `Reports.ExportCsvReadsBack`, `Reports.ExportCsvQuotedReadsBack`, `TableDataExport.DownloadCsvReadsBack`: both screens write the header line unquoted (`src/components/Reports.tsx:108`, `src/components/TableDataExport.tsx:125`), so the read-back is proved only for a table with at least one column whose names hold no quote, comma or line break.

## Findings

| source | as written | input that shows it | evidently intended | confidence | as-written member | corrected member |
|---|---|---|---|---|---|---|
| src/components/Reports.tsx:114 | an object or array cell is written as its JSON text with quotes doubled, but not enclosed in quotes | a one-column, one-row export whose cell is an `activity_log` `metadata` object logged by the sale screen (`src/components/AddSales.tsx:99`, stored by `src/utils/activityLogger.ts:25`), such as `{"tag_no":"T1","profit":5}`: the field is written bare as `{""tag_no"":""T1"",""profit"":5}`, its first comma ends it early, and the rest starts with a doubled quote that closes an empty quoted field followed by `profit`, so the export does not read back as CSV at all | enclose the JSON text in quotes as line 115 does for other values, as the table export screen does (`src/components/TableDataExport.tsx:131`) | not executed | Reports.ObjectFieldUnreadable | Reports.ExportCsvQuotedReadsBack |
