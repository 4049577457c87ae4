/** Comma-separated text as section 2 of RFC 4180 describes it: fields joined by commas,
    records by line breaks (here a single "\n"), a field that is enclosed in double quotes
    writes each double quote inside it twice (rule 7). `ParseCsv` reads such text back; the
    lemmas show that the texts the export screens build read back field by field. */
module Csv {
  import opened Base
  import opened Text

  /** `s.replace(/"/g, '""')`: every double quote written twice. */
  function Escape(s: string): (r: string)
    ensures |r| >= |s|
  {
    if s == [] then [] else (if s[0] == '"' then "\"\"" else [s[0]]) + Escape(s[1..])
  }

  /** Escaping adds exactly one character per double quote of the text. */
  lemma {:induction false} EscapeLength(s: string)
    ensures |Escape(s)| == |s| + multiset(s)['"']
  {
    if s != [] {
      EscapeLength(s[1..]);
      assert s == [s[0]] + s[1..];
    }
  }

  /** Escaping works character by character: it distributes over concatenation. */
  lemma {:induction false} EscapeAppend(a: string, b: string)
    ensures Escape(a + b) == Escape(a) + Escape(b)
  {
    if a != [] {
      EscapeAppend(a[1..], b);
      assert (a + b)[1..] == a[1..] + b;
    } else {
      assert a + b == b;
    }
  }

  /** Escaping adds no character but double quotes, and keeps a first character that is not one. */
  lemma {:induction false} EscapeChars(s: string)
    ensures forall c :: c in Escape(s) && c != '"' ==> c in s
    ensures s != [] && s[0] != '"' ==> Escape(s)[0] == s[0]
  {
    if s != [] {
      EscapeChars(s[1..]);
      assert Escape(s) == (if s[0] == '"' then "\"\"" else [s[0]]) + Escape(s[1..]);
    }
  }

  lemma {:induction false} EscapeWithoutQuotes(s: string)
    requires '"' !in s
    ensures Escape(s) == s
  {
    if s != [] {
      EscapeWithoutQuotes(s[1..]);
      assert [s[0]] + s[1..] == s;
    }
  }

  /** A field enclosed in double quotes, its own double quotes doubled. */
  function Quote(s: string): (r: string)
    ensures |r| >= 2 && r[0] == '"' && r[|r| - 1] == '"'
  {
    "\"" + Escape(s) + "\""
  }

  /** A field that reads back unchanged without quotes: no quote, comma or line break. */
  predicate Bare(s: string)
  {
    '"' !in s && ',' !in s && '\n' !in s
  }

  /** What may follow a field: nothing, the next field, or the next record. */
  predicate FieldEnd(t: string)
  {
    t == [] || t[0] == ',' || t[0] == '\n'
  }

  /** Reads the inside of a quoted field, `s` starting just after its opening quote: the field's
      text with each doubled quote read as one, and the text after the closing quote. */
  function ReadQuoted(s: string): (r: Option<(string, string)>)
    ensures r.Some? ==> |r.value.1| < |s|
    decreases |s|
  {
    if |s| == 0 then None
    else if s[0] == '"' then
      if |s| >= 2 && s[1] == '"' then
        var r := ReadQuoted(s[2..]);
        if r.None? then None else Some(("\"" + r.value.0, r.value.1))
      else Some(("", s[1..]))
    else
      var r := ReadQuoted(s[1..]);
      if r.None? then None else Some(([s[0]] + r.value.0, r.value.1))
  }

  /** Reads an unquoted field: everything up to the next comma or line break. */
  function ReadBare(s: string): (r: (string, string))
    ensures r.0 + r.1 == s
    ensures FieldEnd(r.1)
  {
    if FieldEnd(s) then ("", s)
    else
      var (f, rest) := ReadBare(s[1..]);
      ([s[0]] + f, rest)
  }

  function ReadField(s: string): (r: Option<(string, string)>)
    ensures r.Some? ==> |r.value.1| <= |s|
  {
    if |s| > 0 && s[0] == '"' then ReadQuoted(s[1..]) else Some(ReadBare(s))
  }

  /** Reads one record: its fields, and the text after its line break, or `None` at the end of
      the text. */
  function ReadRecord(s: string): (r: Option<(seq<string>, Option<string>)>)
    ensures r.Some? && r.value.1.Some? ==> |r.value.1.value| < |s|
    decreases |s|
  {
    var field := ReadField(s);
    if field.None? then None
    else
      var (f, rest) := field.value;
      if rest == [] then Some(([f], None))
      else if rest[0] == '\n' then Some(([f], Some(rest[1..])))
      else if rest[0] == ',' then
        var more := ReadRecord(rest[1..]);
        if more.None? then None else Some(([f] + more.value.0, more.value.1))
      else None
  }

  /** Reads comma-separated text into its records; `None` when a quoted field is not closed or
      is followed by something other than a comma or a line break. */
  function ParseCsv(s: string): (r: Option<seq<seq<string>>>)
    ensures r.Some? ==> |r.value| >= 1
    decreases |s|
  {
    var first := ReadRecord(s);
    if first.None? then None
    else if first.value.1.None? then Some([first.value.0])
    else
      var recs := ParseCsv(first.value.1.value);
      if recs.None? then None else Some([first.value.0] + recs.value)
  }

  /** Reads a single field written alone: strips the enclosing quotes and reads each doubled
      quote as one. */
  function Unquote(e: string): (r: Option<string>)
  {
    if |e| > 0 && e[0] == '"' then
      var r := ReadQuoted(e[1..]);
      if r.Some? && r.value.1 == [] then Some(r.value.0) else None
    else None
  }

  /** `e` is how a writer puts the text `x` in a field: quoted, or bare when that reads back. */
  predicate Encodes(e: string, x: string)
  {
    e == Quote(x) || (e == x && Bare(x))
  }

  lemma ReadQuotedDoubled(tail: string)
    ensures ReadQuoted("\"\"" + tail) ==
      var r := ReadQuoted(tail); if r.None? then None else Some(("\"" + r.value.0, r.value.1))
  {
    assert ("\"\"" + tail)[2..] == tail;
  }

  lemma ReadQuotedPlain(c: char, tail: string)
    requires c != '"'
    ensures ReadQuoted([c] + tail) ==
      var r := ReadQuoted(tail); if r.None? then None else Some(([c] + r.value.0, r.value.1))
  {
    assert ([c] + tail)[1..] == tail;
  }

  lemma ReadQuotedClose(t: string)
    requires t == [] || t[0] != '"'
    ensures ReadQuoted("\"" + t) == Some(("", t))
  {
    assert ("\"" + t)[1..] == t;
  }

  lemma {:induction false} ReadQuotedEscape(x: string, t: string)
    requires t == [] || t[0] != '"'
    ensures ReadQuoted(Escape(x) + "\"" + t) == Some((x, t))
  {
    if x == [] {
      assert Escape(x) + "\"" + t == "\"" + t;
      ReadQuotedClose(t);
    } else {
      ReadQuotedEscape(x[1..], t);
      ReadQuotedEscapeStep(x, t);
    }
  }

  lemma ReadQuotedEscapeStep(x: string, t: string)
    requires x != [] && ReadQuoted(Escape(x[1..]) + "\"" + t) == Some((x[1..], t))
    ensures ReadQuoted(Escape(x) + "\"" + t) == Some((x, t))
  {
    var tail := Escape(x[1..]) + "\"" + t;
    if x[0] == '"' {
      EscapeQuoteHead(x, tail, t);
      ReadQuotedDoubled(tail);
      assert "\"" + x[1..] == x;
    } else {
      EscapePlainHead(x, tail, t);
      ReadQuotedPlain(x[0], tail);
      assert [x[0]] + x[1..] == x;
    }
  }

  lemma EscapeQuoteHead(x: string, tail: string, t: string)
    requires x != [] && x[0] == '"' && tail == Escape(x[1..]) + "\"" + t
    ensures Escape(x) + "\"" + t == "\"\"" + tail
  {
    assert Escape(x) == "\"\"" + Escape(x[1..]);
  }

  lemma EscapePlainHead(x: string, tail: string, t: string)
    requires x != [] && x[0] != '"' && tail == Escape(x[1..]) + "\"" + t
    ensures Escape(x) + "\"" + t == [x[0]] + tail
  {
    assert Escape(x) == [x[0]] + Escape(x[1..]);
  }

  /** Field-level round trip: unquoting a quoted field gives back its text. */
  lemma UnquoteQuote(x: string)
    ensures Unquote(Quote(x)) == Some(x)
  {
    ReadQuotedEscape(x, "");
    assert Quote(x)[1..] == Escape(x) + "\"" + "";
  }

  lemma {:induction false} ReadBareOf(x: string, t: string)
    requires ',' !in x && '\n' !in x && FieldEnd(t)
    ensures ReadBare(x + t) == (x, t)
  {
    if x != [] {
      ReadBareOf(x[1..], t);
      assert (x + t)[1..] == x[1..] + t;
      assert [x[0]] + x[1..] == x;
    } else {
      assert x + t == t;
    }
  }

  lemma ReadFieldOf(e: string, x: string, t: string)
    requires Encodes(e, x) && FieldEnd(t)
    ensures ReadField(e + t) == Some((x, t))
  {
    if e == Quote(x) {
      ReadQuotedEscape(x, t);
      assert (e + t)[1..] == Escape(x) + "\"" + t;
    } else {
      ReadBareOf(x, t);
      assert |x| > 0 ==> (x + t)[0] == x[0];
    }
  }

  /** Record-level round trip: the fields joined by commas read back as their texts. */
  lemma {:induction false} ReadRecordOf(encs: seq<string>, xs: seq<string>, t: string)
    requires |encs| == |xs| >= 1
    requires forall i :: 0 <= i < |encs| ==> Encodes(encs[i], xs[i])
    requires t == [] || t[0] == '\n'
    ensures ReadRecord(Join(encs, ",") + t) == Some((xs, if t == [] then None else Some(t[1..])))
  {
    if |encs| == 1 {
      ReadRecordOfOne(encs, xs, t);
    } else {
      ReadRecordOf(encs[1..], xs[1..], t);
      ReadRecordOfMore(encs, xs, t, ReadRecord(Join(encs[1..], ",") + t).value.1);
    }
  }

  lemma ReadRecordOfOne(encs: seq<string>, xs: seq<string>, t: string)
    requires |encs| == |xs| == 1 && Encodes(encs[0], xs[0])
    requires t == [] || t[0] == '\n'
    ensures ReadRecord(Join(encs, ",") + t) == Some((xs, if t == [] then None else Some(t[1..])))
  {
    ReadFieldOf(encs[0], xs[0], t);
    assert xs == [xs[0]];
  }

  lemma ReadRecordOfMore(encs: seq<string>, xs: seq<string>, t: string, next: Option<string>)
    requires |encs| == |xs| >= 2 && Encodes(encs[0], xs[0])
    requires ReadRecord(Join(encs[1..], ",") + t) == Some((xs[1..], next))
    ensures ReadRecord(Join(encs, ",") + t) == Some((xs, next))
  {
    var more := Join(encs[1..], ",") + t;
    ReadFieldOf(encs[0], xs[0], "," + more);
    JoinAfterComma(encs, t);
    ReadRecordStep(encs[0] + ("," + more), xs[0], more);
    assert [xs[0]] + xs[1..] == xs;
  }

  lemma JoinAfterComma(encs: seq<string>, t: string)
    requires |encs| >= 2
    ensures Join(encs, ",") + t == encs[0] + ("," + (Join(encs[1..], ",") + t))
  {
  }

  lemma ReadRecordStep(s: string, f: string, more: string)
    requires ReadField(s) == Some((f, "," + more))
    ensures ReadRecord(s) ==
      var m := ReadRecord(more); if m.None? then None else Some(([f] + m.value.0, m.value.1))
  {
    assert ("," + more)[1..] == more;
  }

  /** Every record `i` of `lines` is the fields `encs[i]` joined by commas, and each of those
      fields encodes the matching text of `texts`. */
  predicate EncodesTable(lines: seq<string>, encs: seq<seq<string>>, texts: seq<seq<string>>)
  {
    && |lines| == |encs| == |texts|
    && (forall i :: 0 <= i < |lines| ==> lines[i] == Join(encs[i], ","))
    && (forall i :: 0 <= i < |encs| ==> |encs[i]| == |texts[i]| >= 1)
    && (forall i, j :: 0 <= i < |encs| && 0 <= j < |encs[i]| ==> Encodes(encs[i][j], texts[i][j]))
  }

  lemma EncodesTableTail(lines: seq<string>, encs: seq<seq<string>>, texts: seq<seq<string>>)
    requires |lines| >= 1 && EncodesTable(lines, encs, texts)
    ensures EncodesTable(lines[1..], encs[1..], texts[1..])
    ensures |encs[0]| == |texts[0]| >= 1 && lines[0] == Join(encs[0], ",")
    ensures forall j :: 0 <= j < |encs[0]| ==> Encodes(encs[0][j], texts[0][j])
  {
    forall i, j | 0 <= i < |encs| - 1 && 0 <= j < |encs[1..][i]|
      ensures Encodes(encs[1..][i][j], texts[1..][i][j])
    {
      assert encs[1..][i] == encs[i + 1];
    }
  }

  lemma ParseCsvStep(s: string, rec: seq<string>, next: string)
    requires ReadRecord(s) == Some((rec, Some(next)))
    ensures ParseCsv(s) == var r := ParseCsv(next); if r.None? then None else Some([rec] + r.value)
  {
  }

  /** Document-level round trip: records joined by line breaks read back as the table of texts. */
  lemma {:induction false} ParseCsvOf(lines: seq<string>, encs: seq<seq<string>>, texts: seq<seq<string>>)
    requires |lines| >= 1 && EncodesTable(lines, encs, texts)
    ensures ParseCsv(Join(lines, "\n")) == Some(texts)
  {
    EncodesTableTail(lines, encs, texts);
    if |lines| == 1 {
      ParseCsvOfOne(lines, encs[0], texts);
    } else {
      ParseCsvOf(lines[1..], encs[1..], texts[1..]);
      ParseCsvCons(lines, encs[0], texts[0], texts[1..]);
      assert [texts[0]] + texts[1..] == texts;
    }
  }

  lemma ParseCsvOfOne(lines: seq<string>, enc: seq<string>, texts: seq<seq<string>>)
    requires |lines| == |texts| == 1 && lines[0] == Join(enc, ",") && |enc| == |texts[0]| >= 1
    requires forall j :: 0 <= j < |enc| ==> Encodes(enc[j], texts[0][j])
    ensures ParseCsv(Join(lines, "\n")) == Some(texts)
  {
    ReadRecordOf(enc, texts[0], "");
    assert Join(lines, "\n") == Join(enc, ",") + "";
    assert texts == [texts[0]];
  }

  lemma JoinLines(lines: seq<string>)
    requires |lines| >= 2
    ensures Join(lines, "\n") == lines[0] + ("\n" + Join(lines[1..], "\n"))
  {
    JoinCons(lines[0], lines[1..], "\n");
    assert [lines[0]] + lines[1..] == lines;
  }

  lemma ReadRecordBeforeBreak(enc: seq<string>, text: seq<string>, rest: string)
    requires |enc| == |text| >= 1
    requires forall j :: 0 <= j < |enc| ==> Encodes(enc[j], text[j])
    ensures ReadRecord(Join(enc, ",") + ("\n" + rest)) == Some((text, Some(rest)))
  {
    ReadRecordOf(enc, text, "\n" + rest);
    assert ("\n" + rest)[1..] == rest;
  }

  lemma ParseCsvCons(lines: seq<string>, enc: seq<string>, text: seq<string>, more: seq<seq<string>>)
    requires |lines| >= 2 && lines[0] == Join(enc, ",") && |enc| == |text| >= 1
    requires forall j :: 0 <= j < |enc| ==> Encodes(enc[j], text[j])
    requires ParseCsv(Join(lines[1..], "\n")) == Some(more)
    ensures ParseCsv(Join(lines, "\n")) == Some([text] + more)
  {
    JoinLines(lines);
    ReadRecordBeforeBreak(enc, text, Join(lines[1..], "\n"));
    ParseCsvStep(Join(lines, "\n"), text, Join(lines[1..], "\n"));
  }
}
