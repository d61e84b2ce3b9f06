/** The CSV export of the response analysis page (js/responses.js): one
    header row, one row per shown response, every field quoted with inner
    quotes doubled, fields separated by "," and rows by a line feed, the
    whole prefixed with a byte order mark. A reader that undoes this quoting
    recovers the table exactly, whatever the fields hold. */
module Csv {
  import opened Options
  import opened Text
  import opened Answers
  import opened Surveys

  const Bom: string := "\U{FEFF}"

  /** Inner quotes doubled. */
  function Escape(f: string): (e: string)
    ensures |e| >= |f|
    decreases |f|
  {
    if f == [] then []
    else (if f[0] == '"' then "\"\"" else [f[0]]) + Escape(f[1..])
  }

  /** A field as written: escaped and between quotes. */
  function Quote(f: string): (q: string)
    ensures |q| >= 2 && q[0] == '"' && q[|q| - 1] == '"'
  {
    "\"" + Escape(f) + "\""
  }

  function QuoteAll(row: seq<string>): (qs: seq<string>)
    ensures |qs| == |row|
    ensures forall k :: 0 <= k < |row| ==> qs[k] == Quote(row[k])
  {
    seq(|row|, k requires 0 <= k < |row| => Quote(row[k]))
  }

  /** A row as written: its quoted fields joined with ",". */
  function EncodeRow(row: seq<string>): string {
    Join(QuoteAll(row), ",")
  }

  function EncodeRows(rows: seq<seq<string>>): (lines: seq<string>)
    ensures |lines| == |rows|
    ensures forall k :: 0 <= k < |rows| ==> lines[k] == EncodeRow(rows[k])
  {
    seq(|rows|, k requires 0 <= k < |rows| => EncodeRow(rows[k]))
  }

  /** A table as written: its rows joined with line feeds. */
  function EncodeTable(rows: seq<seq<string>>): string {
    Join(EncodeRows(rows), "\n")
  }

  /** The file contents: the byte order mark, then the table. */
  function EncodeCsv(rows: seq<seq<string>>): (csv: string)
    ensures |csv| >= 1 && csv[0] == Bom[0]
  {
    Bom + EncodeTable(rows)
  }

  function PushChar(c: char, r: Option<(string, string)>): (p: Option<(string, string)>)
    ensures p.Some? <==> r.Some?
    ensures p.Some? ==> p.value.0 == [c] + r.value.0 && p.value.1 == r.value.1
  {
    match r
    case None => None
    case Some((f, rest)) => Some(([c] + f, rest))
  }

  /** Reads the inside of a quoted field up to its closing quote, turning
      each doubled quote back into one; gives the field and what follows
      the closing quote, or None when no closing quote comes. */
  function ParseBody(s: string): (r: Option<(string, string)>)
    ensures r.Some? ==> |r.value.1| < |s|
    decreases |s|
  {
    if s == [] then None
    else if s[0] == '"' then
      if |s| >= 2 && s[1] == '"' then PushChar('"', ParseBody(s[2..]))
      else Some(([], s[1..]))
    else PushChar(s[0], ParseBody(s[1..]))
  }

  /** Reads one quoted field. */
  function ParseField(s: string): (r: Option<(string, string)>)
    ensures r.Some? ==> |r.value.1| < |s|
  {
    if s != [] && s[0] == '"' then ParseBody(s[1..]) else None
  }

  /** Reads one row: fields separated by ",", up to the first character
      after a field that is not ",". */
  function ParseRow(s: string): (r: Option<(seq<string>, string)>)
    ensures r.Some? ==> |r.value.0| >= 1 && |r.value.1| < |s|
    decreases |s|
  {
    match ParseField(s)
    case None => None
    case Some((f, rest)) =>
      if rest != [] && rest[0] == ',' then
        match ParseRow(rest[1..])
        case None => None
        case Some((fs, rest')) => Some(([f] + fs, rest'))
      else Some(([f], rest))
  }

  /** Reads rows separated by line feeds up to the end of the input. */
  function ParseTable(s: string): (r: Option<seq<seq<string>>>)
    ensures r.Some? ==> |r.value| >= 1
    decreases |s|
  {
    match ParseRow(s)
    case None => None
    case Some((row, rest)) =>
      if rest == [] then Some([row])
      else if rest[0] == '\n' then
        match ParseTable(rest[1..])
        case None => None
        case Some(rows) => Some([row] + rows)
      else None
  }

  /** Reads a whole file: the byte order mark, then a table. */
  function ParseCsv(s: string): Option<seq<seq<string>>> {
    if s != [] && s[0] == Bom[0] then ParseTable(s[1..]) else None
  }

  /** The escaped field is read back up to its closing quote, whatever the
      field holds, provided what follows cannot be read as a doubled
      quote. */
  lemma {:induction false} BodyRoundTrip(f: string, rest: string)
    requires rest == [] || rest[0] != '"'
    ensures ParseBody(Escape(f) + "\"" + rest) == Some((f, rest))
    decreases |f|
  {
    if f == [] {
      assert Escape(f) + "\"" + rest == "\"" + rest;
    } else {
      var t := Escape(f[1..]) + "\"" + rest;
      BodyRoundTrip(f[1..], rest);
      var h := if f[0] == '"' then "\"\"" else [f[0]];
      assert Escape(f) == h + Escape(f[1..]);
      ConcatAssoc(h, Escape(f[1..]), "\"" + rest);
      ConcatAssoc(Escape(f), "\"", rest);
      ConcatAssoc(Escape(f[1..]), "\"", rest);
      if f[0] == '"' {
        ReadDoubledQuote(t);
      } else {
        ReadPlainChar(f[0], t);
      }
      assert [f[0]] + f[1..] == f;
    }
  }

  lemma ConcatAssoc(a: string, b: string, c: string)
    ensures a + b + c == a + (b + c)
  {
  }

  lemma ReadDoubledQuote(t: string)
    ensures ParseBody("\"\"" + t) == PushChar('"', ParseBody(t))
  {
    assert ("\"\"" + t)[2..] == t;
  }

  lemma ReadPlainChar(c: char, t: string)
    requires c != '"'
    ensures ParseBody([c] + t) == PushChar(c, ParseBody(t))
  {
    assert ([c] + t)[1..] == t;
  }

  lemma FieldRoundTrip(f: string, rest: string)
    requires rest == [] || rest[0] != '"'
    ensures ParseField(Quote(f) + rest) == Some((f, rest))
  {
    BodyRoundTrip(f, rest);
    assert (Quote(f) + rest)[1..] == Escape(f) + "\"" + rest;
  }

  /** A written row is read back field for field, when what follows it is
      not a quote or a comma. */
  lemma {:induction false} RowRoundTrip(row: seq<string>, rest: string)
    requires row != []
    requires rest == [] || (rest[0] != '"' && rest[0] != ',')
    ensures ParseRow(EncodeRow(row) + rest) == Some((row, rest))
    decreases |row|
  {
    if |row| == 1 {
      assert EncodeRow(row) == Quote(row[0]);
      FieldRoundTrip(row[0], rest);
      assert [row[0]] == row;
    } else {
      var tail := EncodeRow(row[1..]) + rest;
      assert QuoteAll(row)[1..] == QuoteAll(row[1..]);
      assert EncodeRow(row) + rest == Quote(row[0]) + ("," + tail);
      FieldRoundTrip(row[0], "," + tail);
      assert ("," + tail)[1..] == tail;
      RowRoundTrip(row[1..], rest);
      assert [row[0]] + row[1..] == row;
    }
  }

  /** A written table of non-empty rows is read back row for row. */
  lemma {:induction false} TableRoundTrip(rows: seq<seq<string>>)
    requires rows != []
    requires forall k :: 0 <= k < |rows| ==> rows[k] != []
    ensures ParseTable(EncodeTable(rows)) == Some(rows)
    decreases |rows|
  {
    if |rows| == 1 {
      assert EncodeTable(rows) == EncodeRow(rows[0]) + [];
      RowRoundTrip(rows[0], []);
      assert [rows[0]] == rows;
    } else {
      var tail := EncodeTable(rows[1..]);
      assert EncodeRows(rows)[1..] == EncodeRows(rows[1..]);
      assert EncodeTable(rows) == EncodeRow(rows[0]) + ("\n" + tail);
      RowRoundTrip(rows[0], "\n" + tail);
      assert ("\n" + tail)[1..] == tail;
      TableRoundTrip(rows[1..]);
      assert [rows[0]] + rows[1..] == rows;
    }
  }

  /** The whole file is read back as the table it was written from. */
  lemma CsvRoundTrip(rows: seq<seq<string>>)
    requires rows != []
    requires forall k :: 0 <= k < |rows| ==> rows[k] != []
    ensures ParseCsv(EncodeCsv(rows)) == Some(rows)
  {
    TableRoundTrip(rows);
    assert EncodeCsv(rows)[1..] == EncodeTable(rows);
  }

  /** JavaScript's String(n) on an integer. */
  function IntText(n: int): (s: string)
    ensures |s| >= 1
    ensures (s[0] == '-') <==> n < 0
  {
    if n < 0 then "-" + Decimal(-n) else Decimal(n)
  }

  /** The header: three fixed columns, then "Q<number>: <title>" per
      question. */
  function Header(qs: seq<Question>): (h: seq<string>)
    ensures |h| == 3 + |qs|
    ensures h[..3] == ["回答ID", "回答日時", "IPアドレス"]
    ensures forall i :: 0 <= i < |qs| ==> h[3 + i] == "Q" + Decimal(i + 1) + ": " + qs[i].title
  {
    ["回答ID", "回答日時", "IPアドレス"]
      + seq(|qs|, i requires 0 <= i < |qs| => "Q" + Decimal(i + 1) + ": " + qs[i].title)
  }

  /** The cell of one answer: empty for a missing or empty answer, the
      selected values joined with "; " for an array, "null" for null. */
  function Cell(a: Option<Answer>): (c: string)
    ensures a == None || a == Some(Scalar("")) ==> c == ""
    ensures a == Some(Absent) ==> c == "null"
  {
    match a
    case None => ""
    case Some(Absent) => "null"
    case Some(Scalar(s)) => s
    case Some(Multi(items)) => Join(items, "; ")
  }

  /** The row of one response: its id, its submission time as the page
      renders it (`dateText`), its IP address, then one cell per question
      read under the question's positional key. */
  function Row(r: ResponseRecord, qs: seq<Question>, dateText: string -> string): (row: seq<string>)
    ensures |row| == 3 + |qs|
    ensures row[..3] == [IntText(r.id), dateText(r.submittedAt), r.ipAddress]
    ensures forall i :: 0 <= i < |qs| ==> row[3 + i] == Cell(JsAnswer(r.answers, Key(i)))
  {
    [IntText(r.id), dateText(r.submittedAt), r.ipAddress]
      + seq(|qs|, i requires 0 <= i < |qs| => Cell(JsAnswer(r.answers, Key(i))))
  }

  /** The exported table: the header, then one row per response in list
      order, every row as wide as the header. */
  function Table(rs: seq<ResponseRecord>, qs: seq<Question>, dateText: string -> string): (t: seq<seq<string>>)
    ensures |t| == 1 + |rs| && t[0] == Header(qs)
    ensures forall j :: 0 <= j < |rs| ==> t[1 + j] == Row(rs[j], qs, dateText)
    ensures forall k :: 0 <= k < |t| ==> |t[k]| == |t[0]|
  {
    [Header(qs)] + seq(|rs|, j requires 0 <= j < |rs| => Row(rs[j], qs, dateText))
  }

  /** The row of one response, built cell by cell. */
  method ResponseRow(response: ResponseRecord, qs: seq<Question>, dateText: string -> string)
    returns (row: seq<string>)
    ensures row == Row(response, qs, dateText)
  {
    row := [IntText(response.id), dateText(response.submittedAt), response.ipAddress];
    var i := 0;
    while i < |qs|
      invariant 0 <= i <= |qs|
      invariant |row| == 3 + i && row[..3] == [IntText(response.id), dateText(response.submittedAt), response.ipAddress]
      invariant forall k :: 0 <= k < i ==> row[3 + k] == Cell(JsAnswer(response.answers, Key(k)))
    {
      row := row + [Cell(JsAnswer(response.answers, Key(i)))];
      i := i + 1;
    }
    var expected := Row(response, qs, dateText);
    assert |row| == |expected|;
    forall k | 0 <= k < |row| ensures row[k] == expected[k] {
      if k < 3 {
        assert row[k] == row[..3][k] && expected[k] == expected[..3][k];
      } else {
        assert row[3 + (k - 3)] == expected[3 + (k - 3)];
      }
    }
  }

  /** The export: nothing when no response is shown; otherwise the file,
      built row by row, that reads back as the header followed by one row
      per shown response. */
  method ExportCsv(rs: seq<ResponseRecord>, qs: seq<Question>, dateText: string -> string)
    returns (csv: Option<string>)
    ensures rs == [] <==> csv == None
    ensures csv.Some? ==> csv.value == EncodeCsv(Table(rs, qs, dateText))
    ensures csv.Some? ==> ParseCsv(csv.value) == Some(Table(rs, qs, dateText))
  {
    if |rs| == 0 {
      return None;
    }
    var csvData := [Header(qs)];
    var j := 0;
    while j < |rs|
      invariant 0 <= j <= |rs|
      invariant |csvData| == 1 + j && csvData[0] == Header(qs)
      invariant forall k :: 0 <= k < j ==> csvData[1 + k] == Row(rs[k], qs, dateText)
    {
      var row := ResponseRow(rs[j], qs, dateText);
      csvData := csvData + [row];
      j := j + 1;
    }
    assert csvData == Table(rs, qs, dateText);
    var table := csvData;
    forall k | 0 <= k < |table| ensures table[k] != [] {
      assert |table[k]| == |table[0]| == 3 + |qs|;
    }
    CsvRoundTrip(table);
    csv := Some(EncodeCsv(table));
  }
}
