/** The deterministic parts of the query assistant's service (`src/lib/openaiService.ts`):
    reading a model reply into a query response, deciding which sections a prompt includes, the
    summary's fixed texts, and the audio file name. The HTTP calls are replaced by their
    outcome, passed in as a parameter. */
module OpenAiService {
  import opened Base
  import opened Text
  import opened NumberText
  import opened JsValue

  // ---------------------------------------------------------------------------------------
  // Reading a reply

  /** What the assistant hands back for a question. */
  datatype QueryResponse = QueryResponse(sql: string, explanation: string, summary: string, expectedResultType: string)

  /** The four fields read from a parsed JSON object; `None` for a field that is absent or
      not a string. */
  datatype JsonFields = JsonFields(sql: Option<string>, explanation: Option<string>, summary: Option<string>, expectedResultType: Option<string>)

  const DefaultExplanation := "Generated SQL query based on your request"
  const DefaultSummary := "Custom query to analyze your business data"
  const DefaultResultType := "list"

  /** Where the JSON candidate lies: from the first `{` to the last `}`, when that `}` comes
      after that `{` (the greedy pattern `\{[\s\S]*\}`). */
  function JsonSpan(content: string): (r: Option<(nat, nat)>)
    ensures r.Some? ==> r.value.0 < r.value.1 < |content|
    ensures r.Some? ==> content[r.value.0] == '{' && '{' !in content[..r.value.0]
    ensures r.Some? ==> content[r.value.1] == '}' && '}' !in content[r.value.1 + 1..]
    ensures r.None? ==> forall i, j :: 0 <= i < j < |content| && content[i] == '{' ==> content[j] != '}'
  {
    var f := FirstCharIndex(content, '{');
    var l := LastCharIndex(content, '}');
    if f.Some? && l.Some? && f.value < l.value then Some((f.value, l.value))
    else
      NoBraceAfterBrace(content, f, l);
      None
  }

  lemma NoBraceAfterBrace(content: string, f: Option<nat>, l: Option<nat>)
    requires f == FirstCharIndex(content, '{') && l == LastCharIndex(content, '}')
    requires !(f.Some? && l.Some? && f.value < l.value)
    ensures forall i, j :: 0 <= i < j < |content| && content[i] == '{' ==> content[j] != '}'
  {
    if f.Some? {
      forall k | 0 <= k < f.value ensures content[k] != '{' {
        assert content[..f.value][k] == content[k];
      }
    }
    if l.Some? {
      forall k | l.value < k < |content| ensures content[k] != '}' {
        assert content[l.value + 1..][k - l.value - 1] == content[k];
      }
    }
    forall i, j | 0 <= i < j < |content| && content[i] == '{' ensures content[j] != '}' {
      assert content[i] in content && content[j] in content;
    }
  }

  /** `content.match(/\{[\s\S]*\}/)`. */
  function JsonCandidate(content: string): (r: Option<string>)
    ensures r.Some? ==> |r.value| >= 2 && r.value[0] == '{' && r.value[|r.value| - 1] == '}'
  {
    var span := JsonSpan(content);
    if span.Some? then Some(content[span.value.0..span.value.1 + 1]) else None
  }

  /** `field || fallback`. */
  function OrElse(field: Option<string>, fallback: string): (r: string)
    ensures field.Some? && field.value != "" ==> r == field.value
    ensures field.None? || field.value == "" ==> r == fallback
  {
    if field.Some? && field.value != "" then field.value else fallback
  }

  /** The response built from a parsed JSON object: each field, or its default when it is
      missing or empty. Only the SQL may come out empty. */
  function FromJson(fields: JsonFields): (r: QueryResponse)
    ensures r.sql == OrElse(fields.sql, "")
    ensures r.explanation == OrElse(fields.explanation, DefaultExplanation) && r.explanation != ""
    ensures r.summary == OrElse(fields.summary, DefaultSummary) && r.summary != ""
    ensures r.expectedResultType == OrElse(fields.expectedResultType, DefaultResultType) && r.expectedResultType != ""
  {
    QueryResponse(
      OrElse(fields.sql, ""),
      OrElse(fields.explanation, DefaultExplanation),
      OrElse(fields.summary, DefaultSummary),
      OrElse(fields.expectedResultType, DefaultResultType))
  }

  const SqlFence := "```sql\n"
  const PlainFence := "```\n"
  const ClosingFence := "\n```"

  /** The body of the first fenced block opened by `open`: the shortest text after the first
      `open` that is followed by a closing fence (the lazy pattern `open([\s\S]*?)\n```). */
  function CodeBlock(s: string, open: string): (r: Option<string>)
    ensures !Contains(s, open) ==> r.None?
    ensures r.Some? ==> |open| + |r.value| + |ClosingFence| <= |s|
  {
    var p := IndexOfFrom(s, open, 0);
    if p.None? then None
    else
      var q := IndexOfFrom(s, ClosingFence, p.value + |open|);
      if q.None? then None else Some(s[p.value + |open|..q.value])
  }

  /** The SQL of a reply that is not JSON: the trimmed body of the first `sql` block, else of
      the first plain block, else the whole reply trimmed. */
  function FallbackSql(content: string): (r: string)
    ensures r == "" || (!IsSpace(r[0]) && !IsSpace(r[|r| - 1]))
    ensures forall c :: c in r ==> c in content
  {
    BlockChars(content, SqlFence);
    BlockChars(content, PlainFence);
    var sqlBlock := CodeBlock(content, SqlFence);
    var block := if sqlBlock.Some? then sqlBlock else CodeBlock(content, PlainFence);
    if block.Some? then Trim(block.value) else Trim(content)
  }

  /** A block found is the text right after the first opening fence, up to the first closing
      fence after it. */
  lemma CodeBlockFound(s: string, open: string)
    ensures var r := CodeBlock(s, open);
      r.Some? ==> exists p: nat :: (OccursAt(s, open, p)
        && (forall j :: 0 <= j < p ==> !OccursAt(s, open, j))
        && OccursAt(s, ClosingFence, p + |open| + |r.value|)
        && s[p + |open|..p + |open| + |r.value|] == r.value
        && (forall j :: p + |open| <= j < p + |open| + |r.value| ==> !OccursAt(s, ClosingFence, j)))
  {
    var p := IndexOfFrom(s, open, 0);
    if p.Some? {
      var q := IndexOfFrom(s, ClosingFence, p.value + |open|);
      if q.Some? {
        assert OccursAt(s, open, p.value);
      }
    }
  }

  /** The body of a block is text of the reply. */
  lemma BlockChars(s: string, open: string)
    ensures CodeBlock(s, open).Some? ==> forall c :: c in CodeBlock(s, open).value ==> c in s
  {
    var p := IndexOfFrom(s, open, 0);
    if p.Some? {
      var q := IndexOfFrom(s, ClosingFence, p.value + |open|);
      if q.Some? {
        var b := s[p.value + |open|..q.value];
        forall c | c in b ensures c in s {
          var i :| 0 <= i < |b| && b[i] == c;
          assert s[p.value + |open| + i] == c;
        }
      }
    }
  }

  /** A block whose text before it and whose body hold no backquote is found, and its body is
      exactly what was fenced. */
  lemma CodeBlockOf(pre: string, open: string, body: string, post: string)
    requires |open| > 0 && open[0] == '`'
    requires '`' !in pre && '`' !in body
    ensures CodeBlock(pre + open + body + ClosingFence + post, open) == Some(body)
  {
    var s := pre + open + body + ClosingFence + post;
    var b := |pre| + |open|;
    var q := b + |body|;
    assert s[..|pre|] == pre && s[|pre|..b] == open;
    assert s[b..q] == body && s[q..q + 4] == ClosingFence;
    CodeBlockAt(s, pre, open, body);
  }

  lemma CodeBlockAt(s: string, pre: string, open: string, body: string)
    requires |open| > 0 && open[0] == '`'
    requires '`' !in pre && '`' !in body
    requires |pre| + |open| + |body| + 4 <= |s|
    requires s[..|pre|] == pre && s[|pre|..|pre| + |open|] == open
    requires s[|pre| + |open|..|pre| + |open| + |body|] == body
    requires s[|pre| + |open| + |body|..|pre| + |open| + |body| + 4] == ClosingFence
    ensures CodeBlock(s, open) == Some(body)
  {
    FirstOpenAt(s, pre, open);
    FirstCloseAt(s, |pre| + |open|, body);
  }

  /** An opening fence right after a text without backquotes is the first one. */
  lemma FirstOpenAt(s: string, pre: string, open: string)
    requires |open| > 0 && open[0] == '`' && '`' !in pre
    requires |pre| + |open| <= |s| && s[..|pre|] == pre && s[|pre|..|pre| + |open|] == open
    ensures IndexOfFrom(s, open, 0) == Some(|pre|)
  {
    forall j | 0 <= j < |pre| ensures !OccursAt(s, open, j) {
      assert s[j] == pre[j] && pre[j] in pre;
      assert s[j..j + |open|][0] == s[j];
    }
    IndexOfFromIs(s, open, 0, |pre|);
  }

  /** A closing fence right after a body without backquotes is the first one after the body's
      start. */
  lemma FirstCloseAt(s: string, b: nat, body: string)
    requires '`' !in body
    requires b + |body| + 4 <= |s| && s[b..b + |body|] == body && s[b + |body|..b + |body| + 4] == ClosingFence
    ensures IndexOfFrom(s, ClosingFence, b) == Some(b + |body|)
  {
    var q := b + |body|;
    forall j | b <= j < q ensures !OccursAt(s, ClosingFence, j) {
      if j + 1 < q {
        assert s[j + 1] == body[j + 1 - b] && body[j + 1 - b] in body;
      } else {
        assert s[j + 1] == s[q..q + 4][0];
      }
      assert s[j..j + 4][1] == s[j + 1];
    }
    IndexOfFromIs(s, ClosingFence, b, q);
  }

  /** A reply that fences its SQL in an `sql` block yields exactly that SQL, trimmed. */
  lemma SqlFenceRoundTrip(pre: string, body: string, post: string)
    requires '`' !in pre && '`' !in body
    ensures FallbackSql(pre + SqlFence + body + ClosingFence + post) == Trim(body)
  {
    CodeBlockOf(pre, SqlFence, body, post);
  }

  /** A text without backquotes holds no fenced block. */
  lemma NoBlockWithoutBackquote(content: string, open: string)
    requires |open| > 0 && open[0] == '`' && '`' !in content
    ensures CodeBlock(content, open) == None
  {
    forall j: nat | j + |open| <= |content| ensures !OccursAt(content, open, j) {
      assert content[j] in content;
      assert content[j..j + |open|][0] == content[j];
    }
  }

  /** A reply without any backquote is taken as SQL as a whole, trimmed. */
  lemma NoFenceWholeReply(content: string)
    requires '`' !in content
    ensures FallbackSql(content) == Trim(content)
  {
    NoBlockWithoutBackquote(content, SqlFence);
    NoBlockWithoutBackquote(content, PlainFence);
  }

  // ---------------------------------------------------------------------------------------
  // Explanation and summary lines

  /** The trimmed line after line `i`, `''` after the last line. */
  function NextTrimmed(lines: seq<string>, i: nat): string
  {
    if i + 1 < |lines| then Trim(lines[i + 1]) else ""
  }

  predicate ExplanationMarker(line: string)
  {
    var low := ToLower(line);
    Contains(low, "explanation") || Contains(low, "this query")
  }

  predicate SummaryMarker(line: string)
  {
    var low := ToLower(line);
    Contains(low, "summary") || Contains(low, "insight") || Contains(low, "shows")
  }

  /** `line.replace(/summary:?/i, '')`: the first `summary` in any letter case, with the colon
      right after it if there is one, removed; the text on either side is kept as it was. */
  function RemoveSummaryTag(line: string): (r: string)
    ensures !Contains(ToLower(line), "summary") ==> r == line
    ensures Contains(ToLower(line), "summary") ==> exists k: nat :: (OccursAt(ToLower(line), "summary", k)
      && (forall j :: 0 <= j < k ==> !OccursAt(ToLower(line), "summary", j))
      && r == line[..k] + line[k + (if k + 7 < |line| && line[k + 7] == ':' then 8 else 7)..])
    ensures Contains(ToLower(line), "summary") ==> |r| == |line| - 7 || |r| == |line| - 8
  {
    var k := IndexOfFrom(ToLower(line), "summary", 0);
    if k.None? then line
    else
      var e := k.value + 7;
      var cut := if e < |line| && line[e] == ':' then e + 1 else e;
      line[..k.value] + line[cut..]
  }

  /** Line `i` sets the explanation: it mentions one, and the line after it has text. */
  predicate SetsExplanation(lines: seq<string>, i: nat)
    requires i < |lines|
  {
    ExplanationMarker(lines[i]) && NextTrimmed(lines, i) != ""
  }

  /** What line `i` offers as summary: the next line, or else the line itself without its
      `summary:` tag. */
  function SummaryCandidate(lines: seq<string>, i: nat): string
    requires i < |lines|
  {
    if NextTrimmed(lines, i) != "" then NextTrimmed(lines, i) else Trim(RemoveSummaryTag(lines[i]))
  }

  predicate SetsSummary(lines: seq<string>, i: nat)
    requires i < |lines|
  {
    SummaryMarker(lines[i]) && SummaryCandidate(lines, i) != ""
  }

  /** What each line offers as explanation: the line after it, when it sets the explanation. */
  function ExplanationOffers(lines: seq<string>): (r: seq<Option<string>>)
    ensures |r| == |lines|
    ensures forall i :: 0 <= i < |lines| ==>
      r[i] == if SetsExplanation(lines, i) then Some(NextTrimmed(lines, i)) else None
  {
    seq(|lines|, i requires 0 <= i < |lines| =>
      if SetsExplanation(lines, i) then Some(NextTrimmed(lines, i)) else None)
  }

  /** What each line offers as summary, when it sets the summary. */
  function SummaryOffers(lines: seq<string>): (r: seq<Option<string>>)
    ensures |r| == |lines|
    ensures forall i :: 0 <= i < |lines| ==>
      r[i] == if SetsSummary(lines, i) then Some(SummaryCandidate(lines, i)) else None
  {
    seq(|lines|, i requires 0 <= i < |lines| =>
      if SetsSummary(lines, i) then Some(SummaryCandidate(lines, i)) else None)
  }

  /** The value of the last offer among the first `n`, or `default` when none of them offers
      one: a variable overwritten by every offer in turn. */
  function LastOffer(offers: seq<Option<string>>, n: nat, default: string): (r: string)
    requires n <= |offers|
    ensures r == default || exists j :: 0 <= j < n && offers[j] == Some(r)
  {
    if n == 0 then default
    else if offers[n - 1].Some? then offers[n - 1].value
    else LastOffer(offers, n - 1, default)
  }

  /** The last offer decides ... */
  lemma {:induction false} LastOfferWins(offers: seq<Option<string>>, n: nat, k: nat, default: string)
    requires k < n <= |offers| && offers[k].Some?
    requires forall j :: k < j < n ==> offers[j].None?
    ensures LastOffer(offers, n, default) == offers[k].value
  {
    if n - 1 > k {
      LastOfferWins(offers, n - 1, k, default);
    }
  }

  /** ... and without any offer the default stays. */
  lemma {:induction false} NoOfferDefault(offers: seq<Option<string>>, n: nat, default: string)
    requires n <= |offers|
    requires forall j :: 0 <= j < n ==> offers[j].None?
    ensures LastOffer(offers, n, default) == default
  {
    if n > 0 {
      NoOfferDefault(offers, n - 1, default);
    }
  }

  /** The explanation once the first `n` lines are read. */
  function ExplanationAfter(lines: seq<string>, n: nat): (r: string)
    requires n <= |lines|
    ensures r != ""
  {
    LastOffer(ExplanationOffers(lines), n, DefaultExplanation)
  }

  /** The summary once the first `n` lines are read. */
  function SummaryAfter(lines: seq<string>, n: nat): (r: string)
    requires n <= |lines|
    ensures r != ""
  {
    LastOffer(SummaryOffers(lines), n, DefaultSummary)
  }

  /** The last line that sets the explanation decides it. */
  lemma ExplanationLastMatchWins(lines: seq<string>, n: nat, k: nat)
    requires k < n <= |lines| && SetsExplanation(lines, k)
    requires forall j :: k < j < n ==> !SetsExplanation(lines, j)
    ensures ExplanationAfter(lines, n) == NextTrimmed(lines, k)
  {
    var offers := ExplanationOffers(lines);
    forall j | k < j < n ensures offers[j].None? {
      assert !SetsExplanation(lines, j);
    }
    LastOfferWins(offers, n, k, DefaultExplanation);
  }

  /** With no line that sets it, the explanation keeps its default. */
  lemma ExplanationDefault(lines: seq<string>, n: nat)
    requires n <= |lines|
    requires forall j :: 0 <= j < n ==> !SetsExplanation(lines, j)
    ensures ExplanationAfter(lines, n) == DefaultExplanation
  {
    var offers := ExplanationOffers(lines);
    forall j | 0 <= j < n ensures offers[j].None? {
      assert !SetsExplanation(lines, j);
    }
    NoOfferDefault(offers, n, DefaultExplanation);
  }

  /** The last line that sets the summary decides it. */
  lemma SummaryLastMatchWins(lines: seq<string>, n: nat, k: nat)
    requires k < n <= |lines| && SetsSummary(lines, k)
    requires forall j :: k < j < n ==> !SetsSummary(lines, j)
    ensures SummaryAfter(lines, n) == SummaryCandidate(lines, k)
  {
    var offers := SummaryOffers(lines);
    forall j | k < j < n ensures offers[j].None? {
      assert !SetsSummary(lines, j);
    }
    LastOfferWins(offers, n, k, DefaultSummary);
  }

  /** With no line that sets it, the summary keeps its default. */
  lemma SummaryDefault(lines: seq<string>, n: nat)
    requires n <= |lines|
    requires forall j :: 0 <= j < n ==> !SetsSummary(lines, j)
    ensures SummaryAfter(lines, n) == DefaultSummary
  {
    var offers := SummaryOffers(lines);
    forall j | 0 <= j < n ensures offers[j].None? {
      assert !SetsSummary(lines, j);
    }
    NoOfferDefault(offers, n, DefaultSummary);
  }

  /** Reading line `i` changes the explanation only when the line sets it. */
  lemma ExplanationStep(lines: seq<string>, i: nat)
    requires i < |lines|
    ensures ExplanationAfter(lines, i + 1) ==
      if SetsExplanation(lines, i) then NextTrimmed(lines, i) else ExplanationAfter(lines, i)
  {
    assert ExplanationOffers(lines)[i] == if SetsExplanation(lines, i) then Some(NextTrimmed(lines, i)) else None;
  }

  /** Reading line `i` changes the summary only when the line sets it. */
  lemma SummaryStep(lines: seq<string>, i: nat)
    requires i < |lines|
    ensures SummaryAfter(lines, i + 1) ==
      if SetsSummary(lines, i) then SummaryCandidate(lines, i) else SummaryAfter(lines, i)
  {
    assert SummaryOffers(lines)[i] == if SetsSummary(lines, i) then Some(SummaryCandidate(lines, i)) else None;
  }

  /** The line loop of `parseResponse`. */
  method ScanLines(lines: seq<string>) returns (explanation: string, summary: string)
    ensures explanation == ExplanationAfter(lines, |lines|)
    ensures summary == SummaryAfter(lines, |lines|)
  {
    explanation := DefaultExplanation;
    summary := DefaultSummary;
    for i := 0 to |lines|
      invariant explanation == ExplanationAfter(lines, i)
      invariant summary == SummaryAfter(lines, i)
    {
      ExplanationStep(lines, i);
      SummaryStep(lines, i);
      if ExplanationMarker(lines[i]) {
        var next := NextTrimmed(lines, i);
        if next != "" {
          explanation := next;
        }
      }
      if SummaryMarker(lines[i]) {
        var next := NextTrimmed(lines, i);
        if next != "" {
          summary := next;
        } else {
          var stripped := Trim(RemoveSummaryTag(lines[i]));
          if stripped != "" {
            summary := stripped;
          }
        }
      }
    }
  }

  /** `parseResponse`. `parseJson` stands for `JSON.parse` followed by reading the four fields;
      `None` stands for a parse that throws. */
  method ParseResponse(content: string, parseJson: string -> Option<JsonFields>) returns (r: QueryResponse)
    ensures var c := JsonCandidate(content);
      c.Some? && parseJson(c.value).Some? ==> r == FromJson(parseJson(c.value).value)
    ensures var c := JsonCandidate(content);
      !(c.Some? && parseJson(c.value).Some?) ==>
        var lines := Split(content, '\n');
        r == QueryResponse(FallbackSql(content), ExplanationAfter(lines, |lines|), SummaryAfter(lines, |lines|), DefaultResultType)
  {
    var candidate := JsonCandidate(content);
    if candidate.Some? {
      var parsed := parseJson(candidate.value);
      if parsed.Some? {
        return FromJson(parsed.value);
      }
    }
    var sql := FallbackSql(content);
    var explanation, summary := ScanLines(Split(content, '\n'));
    r := QueryResponse(sql, explanation, summary, DefaultResultType);
  }

  // ---------------------------------------------------------------------------------------
  // Prompt sections

  /** A character `\w` matches. */
  predicate WordChar(c: char)
  {
    'a' <= c <= 'z' || 'A' <= c <= 'Z' || '0' <= c <= '9' || c == '_'
  }

  /** `\b` at position `i`: a word character on exactly one side. */
  predicate Boundary(s: string, i: nat)
  {
    (0 < i <= |s| && WordChar(s[i - 1])) != (i < |s| && WordChar(s[i]))
  }

  /** `w` stands at `i` as a whole word. */
  predicate WordAt(s: string, w: string, i: nat)
  {
    OccursAt(s, w, i) && Boundary(s, i) && Boundary(s, i + |w|)
  }

  /** Searches for `w` as a whole word from `from` on. */
  function WordFrom(s: string, w: string, from: nat): (r: bool)
    ensures r <==> exists i :: from <= i && WordAt(s, w, i)
    decreases |s| + 1 - from
  {
    if from > |s| then
      assert forall i :: from <= i ==> !OccursAt(s, w, i);
      false
    else WordAt(s, w, from) || WordFrom(s, w, from + 1)
  }

  /** `/\b(w1|w2|...)\b/.test(s)`. */
  predicate AnyWord(s: string, words: seq<string>)
  {
    exists k :: 0 <= k < |words| && WordFrom(s, words[k], 0)
  }

  const DateWords := ["today", "yesterday", "this month", "last month", "this week", "last week",
    "this year", "last year", "between", "from", "to", "since", "until", "ago", "recent", "latest", "current"]

  const MonthNames := ["january", "february", "march", "april", "may", "june", "july", "august",
    "september", "october", "november", "december"]

  predicate IsDigitAt(s: string, i: nat)
  {
    i < |s| && '0' <= s[i] <= '9'
  }

  /** `\b\d{4}-\d{2}-\d{2}\b` matches at `i`. */
  predicate IsoDateAt(s: string, i: nat)
  {
    && i + 10 <= |s|
    && IsDigitAt(s, i) && IsDigitAt(s, i + 1) && IsDigitAt(s, i + 2) && IsDigitAt(s, i + 3)
    && s[i + 4] == '-' && IsDigitAt(s, i + 5) && IsDigitAt(s, i + 6)
    && s[i + 7] == '-' && IsDigitAt(s, i + 8) && IsDigitAt(s, i + 9)
    && Boundary(s, i) && Boundary(s, i + 10)
  }

  predicate HasIsoDate(s: string)
  {
    exists i :: 0 <= i <= |s| && IsoDateAt(s, i)
  }

  /** `hasDatesInQuery`: a date word or a month name in the lower-cased query, or an ISO date in
      the query as written. */
  predicate HasDatesInQuery(query: string)
  {
    var low := ToLower(query);
    AnyWord(low, DateWords) || HasIsoDate(query) || AnyWord(low, MonthNames)
  }

  /** The dates the data covers, as handed to the prompt builder. */
  datatype DateRange = DateRange(from: string, to: string)

  /** `dateContext`: the date-range lines of the prompt, only for a query about dates and only
      when a range is known. */
  function DateContext(query: string, dateRange: Option<DateRange>): (r: string)
    ensures r != "" <==> HasDatesInQuery(query) && dateRange.Some?
    ensures r != "" ==> r == RangeLines(dateRange.value)
  {
    if HasDatesInQuery(query) && dateRange.Some? then RangeLines(dateRange.value) else ""
  }

  /** The two prompt lines that state the range. */
  function RangeLines(range: DateRange): (r: string)
    ensures r != ""
  {
    "- Available date range: " + range.from + " to " + range.to
    + "\n- Use this date range in your WHERE clauses when dates are mentioned\n"
  }

  /** An ISO date standing on its own in a query makes it a query about dates. */
  lemma IsoDateDetected(pre: string, date: string, post: string)
    requires |date| == 10 && date[4] == '-' && date[7] == '-'
    requires forall i :: 0 <= i < 10 && i != 4 && i != 7 ==> '0' <= date[i] <= '9'
    requires pre == "" || !WordChar(pre[|pre| - 1])
    requires post == "" || !WordChar(post[0])
    ensures HasDatesInQuery(pre + date + post)
  {
    var s := pre + date + post;
    var i := |pre|;
    assert forall k :: 0 <= k < 10 ==> s[i + k] == date[k];
    assert IsoDateAt(s, i);
  }

  lemma LowerUpperChar(c: char)
    ensures LowerChar(UpperChar(c)) == LowerChar(c)
    ensures WordChar(UpperChar(c)) == WordChar(c)
    ensures ('0' <= UpperChar(c) <= '9') == ('0' <= c <= '9')
    ensures (UpperChar(c) == '-') == (c == '-')
  {
  }

  /** The same query typed in capitals is just as much a query about dates. */
  lemma DateDetectionIgnoresCase(query: string)
    ensures HasDatesInQuery(ToUpper(query)) == HasDatesInQuery(query)
  {
    var up := ToUpper(query);
    forall i | 0 <= i < |query| ensures ToLower(up)[i] == ToLower(query)[i] {
      LowerUpperChar(query[i]);
    }
    assert ToLower(up) == ToLower(query);
    forall i | 0 <= i <= |query| ensures IsoDateAt(up, i) == IsoDateAt(query, i) {
      forall k | 0 <= k < |query| ensures WordChar(up[k]) == WordChar(query[k]) && (('0' <= up[k] <= '9') == ('0' <= query[k] <= '9')) && ((up[k] == '-') == (query[k] == '-')) {
        LowerUpperChar(query[k]);
      }
    }
  }

  // ---------------------------------------------------------------------------------------
  // Summaries

  const NoDataText := "No data found matching your query criteria."
  const NoSummaryText := "Summary generation failed."
  const AggregateFocus := "Focus only on the main aggregated value and its business meaning."
  const PointFocus := "Mention the most important data point found."
  const SampleRows := 10

  /** The column names that mark a result as an aggregate. */
  predicate AggregateColumn(column: string)
  {
    Contains(column, "total_") || Contains(column, "sum_") || Contains(column, "count_") || Contains(column, "avg_")
  }

  /** The columns of a result: the keys of its first row. */
  function ResultColumns(results: seq<Row>): (r: seq<string>)
    ensures |results| == 0 ==> r == []
    ensures |results| > 0 ==> r == Keys(results[0])
  {
    if |results| > 0 then Keys(results[0]) else []
  }

  predicate HasAggregations(columns: seq<string>)
  {
    exists j :: 0 <= j < |columns| && AggregateColumn(columns[j])
  }

  /** The closing instruction of the summary prompt. */
  function SummaryFocus(results: seq<Row>): (r: string)
    ensures r == AggregateFocus <==> HasAggregations(ResultColumns(results))
    ensures r == PointFocus <==> !HasAggregations(ResultColumns(results))
  {
    if HasAggregations(ResultColumns(results)) then AggregateFocus else PointFocus
  }

  /** A column named, say, `total_sales` makes the summary focus on the aggregate. */
  lemma AggregateColumnFocus(results: seq<Row>, j: nat, pre: string, post: string)
    requires |results| > 0 && j < |results[0]| && results[0][j].0 == pre + "total_" + post
    ensures SummaryFocus(results) == AggregateFocus
  {
    var c := results[0][j].0;
    assert c[|pre|..|pre| + 6] == "total_";
    ContainsAt(c, "total_", |pre|);
    assert AggregateColumn(ResultColumns(results)[j]);
  }

  /** The rows of the result shown to the model: the first ten. */
  function SummarySample(results: seq<Row>): (r: seq<Row>)
    ensures |r| == if |results| < SampleRows then |results| else SampleRows
    ensures r == results[..|r|]
  {
    if |results| <= SampleRows then results else results[..SampleRows]
  }

  /** How the request for a summary ended: it failed (a network error, a status that is not OK,
      a reply without choices), or the model replied with the text of its first choice, if any. */
  datatype ModelReply = Failed | Replied(content: Option<string>)

  function FoundText(count: nat): string
  {
    "Found " + NatToString(count) + " records matching your query."
  }

  /** `generateSummary`. */
  function GenerateSummary(results: seq<Row>, reply: ModelReply): (r: string)
    ensures |results| == 0 ==> r == NoDataText
    ensures |results| > 0 && reply.Failed? ==> r == FoundText(|results|)
    ensures |results| > 0 && reply.Replied? ==> r == OrElse(reply.content, NoSummaryText)
    ensures r != ""
  {
    if |results| == 0 then NoDataText
    else if reply.Failed? then FoundText(|results|)
    else OrElse(reply.content, NoSummaryText)
  }

  /** When the request fails, the number in the summary reads back as the number of rows. */
  lemma FoundTextCount(results: seq<Row>)
    requires |results| > 0
    ensures var r := GenerateSummary(results, Failed);
      r[..6] == "Found " && ParseFloat(r[6..]) == Some(|results| as real)
  {
    var n := NatToString(|results|);
    var r := FoundText(|results|);
    assert r == "Found " + (n + " records matching your query.");
    assert r[6..] == n + " records matching your query.";
    ParseFloatOfNatToString(|results|, " records matching your query.");
  }

  // ---------------------------------------------------------------------------------------
  // Audio

  /** The file name the recording is sent under, from its MIME type. */
  function AudioFileName(mimeType: string): (r: string)
    ensures Contains(mimeType, "webm") ==> r == "audio.webm"
    ensures !Contains(mimeType, "webm") && Contains(mimeType, "mp4") ==> r == "audio.mp4"
    ensures r == "audio.wav" <==> !Contains(mimeType, "webm") && !Contains(mimeType, "mp4")
  {
    if Contains(mimeType, "webm") then "audio.webm"
    else if Contains(mimeType, "mp4") then "audio.mp4"
    else "audio.wav"
  }
}
