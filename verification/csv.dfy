/**
 * The two CSV printers, and a reader for the format of section 2 of RFC 4180 that also accepts a bare
 * line feed between records.
 */
module Csv {
  import opened Wrappers

  type Row = seq<string>

  // ----- printing -----

  function DoubleQuotes(s: string): string {
    if s == "" then "" else (if s[0] == '"' then "\"\"" else [s[0]]) + DoubleQuotes(s[1..])
  }

  function Quoted(s: string): string { "\"" + DoubleQuotes(s) + "\"" }

  predicate Special(c: char) { c == '"' || c == ',' || c == '\r' || c == '\n' }

  predicate IsPlain(s: string) { forall c :: c in s ==> !Special(c) }

  /** As is, always quoted (`escapeCsvCell`), or quoted when needed (`csvEscape`). */
  datatype Style = AsIs | Always | WhenNeeded

  function Cell(style: Style, s: string): string {
    match style
    case AsIs => s
    case Always => Quoted(s)
    case WhenNeeded => if IsPlain(s) then s else Quoted(s)
  }

  function Join(parts: seq<string>, separator: string): string {
    if parts == [] then "" else if |parts| == 1 then parts[0] else parts[0] + separator + Join(parts[1..], separator)
  }

  function Cells(style: Style, row: Row): (r: seq<string>)
    ensures |r| == |row|
  {
    seq(|row|, i requires 0 <= i < |row| => Cell(style, row[i]))
  }

  function Line(style: Style, row: Row): string { Join(Cells(style, row), ",") }

  function Lines(style: Style, rows: seq<Row>): (r: seq<string>)
    ensures |r| == |rows|
  {
    seq(|rows|, i requires 0 <= i < |rows| => Line(style, rows[i]))
  }

  /** `buildCsv`: header names as they are, every cell quoted, lines ended by LF. */
  function BuildCsv(headers: Row, rows: seq<Row>): string {
    Join([Join(headers, ","), Join(Lines(Always, rows), "\n")], "\n")
  }

  /** The text of `exportCsv`: headers and rows alike quoted when needed, lines separated by CRLF. */
  function ExportCsv(rows: seq<Row>): string { Join(Lines(WhenNeeded, rows), "\r\n") }

  // ----- reading -----

  datatype Field = Field(value: string, rest: string)

  datatype Record = Record(row: Row, rest: string)

  /** After an opening quote. */
  function ReadQuoted(s: string): (r: Option<Field>)
    ensures r.Some? ==> |r.value.rest| < |s|
  {
    if s == "" then None
    else if s[0] != '"' then
      var f := ReadQuoted(s[1..]);
      if f.None? then None else Some(Field([s[0]] + f.value.value, f.value.rest))
    else if |s| > 1 && s[1] == '"' then
      var f := ReadQuoted(s[2..]);
      if f.None? then None else Some(Field("\"" + f.value.value, f.value.rest))
    else Some(Field("", s[1..]))
  }

  function ReadPlain(s: string): (r: Field)
    ensures |r.value| + |r.rest| == |s|
  {
    if s == "" || Special(s[0]) then Field("", s)
    else var f := ReadPlain(s[1..]); Field([s[0]] + f.value, f.rest)
  }

  function ReadField(s: string): (r: Option<Field>)
    ensures r.Some? ==> |r.value.rest| <= |s|
  {
    if s != "" && s[0] == '"' then ReadQuoted(s[1..]) else Some(ReadPlain(s))
  }

  /** One record and its line break, if it has one. */
  function ReadRecord(s: string): (r: Option<Record>)
    ensures r.Some? ==> |r.value.rest| <= |s| && (s != "" ==> |r.value.rest| < |s|) && r.value.row != []
    decreases |s|
  {
    var f := ReadField(s);
    if f.None? then None
    else
      var rest := f.value.rest;
      if rest == "" then Some(Record([f.value.value], ""))
      else if rest[0] == ',' then
        var more := ReadRecord(rest[1..]);
        if more.None? then None else Some(Record([f.value.value] + more.value.row, more.value.rest))
      else if rest[0] == '\n' then Some(Record([f.value.value], rest[1..]))
      else if |rest| > 1 && rest[..2] == "\r\n" then Some(Record([f.value.value], rest[2..]))
      else None
  }

  /** The records of a text.  A line break at the very end starts no record. */
  function ReadCsv(s: string): Option<seq<Row>>
    decreases |s|
  {
    if s == "" then Some([])
    else
      var record := ReadRecord(s);
      if record.None? then None
      else
        var more := ReadCsv(record.value.rest);
        if more.None? then None else Some([record.value.row] + more.value)
  }

  // ----- one cell, one line -----

  lemma {:induction false} QuotedReadsBack(s: string, rest: string)
    requires rest == "" || rest[0] != '"'
    ensures ReadQuoted(DoubleQuotes(s) + "\"" + rest) == Some(Field(s, rest))
  {
    var text := DoubleQuotes(s) + "\"" + rest;
    if s == "" {
      assert text == "\"" + rest;
      assert text[1..] == rest;
    } else {
      QuotedReadsBack(s[1..], rest);
      assert [s[0]] + s[1..] == s;
      var tail := DoubleQuotes(s[1..]) + "\"" + rest;
      if s[0] == '"' {
        assert text == "\"\"" + tail;
        assert text[2..] == tail;
      } else {
        assert text == [s[0]] + tail;
        assert text[1..] == tail;
      }
    }
  }

  lemma {:induction false} PlainReadsBack(s: string, rest: string)
    requires IsPlain(s) && (rest == "" || Special(rest[0]))
    ensures ReadPlain(s + rest) == Field(s, rest)
  {
    if s == "" {
      assert s + rest == rest;
    } else {
      assert (s + rest)[0] == s[0] && s[0] in s && (s + rest)[1..] == s[1..] + rest;
      PlainReadsBack(s[1..], rest);
    }
  }

  /** What may follow a cell: nothing, a comma, or a line break. */
  predicate Ends(rest: string) { rest == "" || rest[0] in {',', '\r', '\n'} }

  predicate Printable(style: Style, row: Row) { style == AsIs ==> forall s :: s in row ==> IsPlain(s) }

  lemma CellReadsBack(style: Style, s: string, rest: string)
    requires style == AsIs ==> IsPlain(s)
    requires Ends(rest)
    ensures ReadField(Cell(style, s) + rest) == Some(Field(s, rest))
  {
    if IsPlain(s) && style != Always {
      PlainReadsBack(s, rest);
      if s != "" { assert s[0] in s; }
    } else {
      QuotedCellReadsBack(s, rest);
    }
  }

  lemma QuotedCellReadsBack(s: string, rest: string)
    requires Ends(rest)
    ensures ReadField(Quoted(s) + rest) == Some(Field(s, rest))
  {
    QuotedReadsBack(s, rest);
    assert (Quoted(s) + rest)[1..] == DoubleQuotes(s) + "\"" + rest;
  }

  datatype Break = Lf | Crlf

  function Text(b: Break): (t: string)
    ensures t != "" && t[0] in {'\r', '\n'}
  {
    if b == Lf then "\n" else "\r\n"
  }

  lemma LineStep(style: Style, row: Row)
    requires |row| > 1
    ensures Line(style, row) == Cell(style, row[0]) + "," + Line(style, row[1..])
  {
    assert Cells(style, row)[1..] == Cells(style, row[1..]);
  }

  /** The last field of a record and what ends it. */
  lemma LastFieldReadsBack(style: Style, cell: string, end: string, rest: string)
    requires style == AsIs ==> IsPlain(cell)
    requires (end == "" && rest == "") || end == "\n" + rest || end == "\r\n" + rest
    ensures ReadRecord(Cell(style, cell) + end) == Some(Record([cell], rest))
  {
    CellReadsBack(style, cell, end);
    if end != "" && end[0] == '\r' { assert end[..2] == "\r\n" && end[2..] == rest; }
    if end != "" && end[0] == '\n' { assert end[1..] == rest; }
  }

  lemma FieldThenRecord(style: Style, row: Row, tail: string, rest: string)
    requires |row| > 1 && Printable(style, row)
    requires ReadRecord(tail) == Some(Record(row[1..], rest))
    ensures ReadRecord(Cell(style, row[0]) + ("," + tail)) == Some(Record(row, rest))
  {
    CellReadsBack(style, row[0], "," + tail);
    assert ("," + tail)[1..] == tail;
    assert [row[0]] + row[1..] == row;
  }

  /** A printed line, at the end of the text or before a line break, reads back as its row. */
  lemma {:induction false} LineReadsBack(style: Style, row: Row, b: Break, rest: string, last: bool)
    requires row != [] && Printable(style, row) && (last ==> rest == "")
    ensures ReadRecord(Line(style, row) + (if last then "" else Text(b) + rest)) == Some(Record(row, rest))
    decreases row
  {
    var end := if last then "" else Text(b) + rest;
    if |row| == 1 {
      assert Line(style, row) == Cell(style, row[0]) && row == [row[0]];
      LastFieldReadsBack(style, row[0], end, rest);
    } else {
      LineStep(style, row);
      LineReadsBack(style, row[1..], b, rest, last);
      FieldThenRecord(style, row, Line(style, row[1..]) + end, rest);
      CommaBetween(Cell(style, row[0]), Line(style, row[1..]), end);
    }
  }

  lemma CommaBetween(cell: string, line: string, end: string)
    ensures cell + "," + line + end == cell + ("," + (line + end))
  {
  }

  // ----- whole texts -----

  /** Lines that all end with a break. */
  function Terminated(style: Style, rows: seq<Row>, b: Break): string {
    if rows == [] then "" else Line(style, rows[0]) + Text(b) + Terminated(style, rows[1..], b)
  }

  predicate AllPrintable(style: Style, rows: seq<Row>) {
    forall i | 0 <= i < |rows| :: rows[i] != [] && Printable(style, rows[i])
  }

  lemma ReadStep(text: string, row: Row, rest: string)
    requires text != "" && ReadRecord(text) == Some(Record(row, rest)) && ReadCsv(rest).Some?
    ensures ReadCsv(text) == Some([row] + ReadCsv(rest).value)
  {
  }

  lemma LineThenRest(style: Style, row: Row, b: Break, rest: string, more: seq<Row>)
    requires row != [] && Printable(style, row) && ReadCsv(rest) == Some(more)
    ensures ReadCsv(Line(style, row) + Text(b) + rest) == Some([row] + more)
  {
    assert Line(style, row) + Text(b) + rest == Line(style, row) + (Text(b) + rest);
    LineReadsBack(style, row, b, rest, false);
    ReadStep(Line(style, row) + Text(b) + rest, row, rest);
  }

  lemma {:induction false} TerminatedReadsBack(style: Style, rows: seq<Row>, b: Break, tail: string, after: seq<Row>)
    requires AllPrintable(style, rows) && ReadCsv(tail) == Some(after)
    ensures ReadCsv(Terminated(style, rows, b) + tail) == Some(rows + after)
    decreases rows
  {
    if rows == [] {
      assert Terminated(style, rows, b) + tail == tail;
      assert rows + after == after;
    } else {
      TerminatedReadsBack(style, rows[1..], b, tail, after);
      PrependReadsBack(style, rows, b, Terminated(style, rows[1..], b) + tail, rows[1..] + after);
      TerminatedStep(style, rows, b, tail);
      HeadAndTail(rows, after);
    }
  }

  lemma HeadAndTail(rows: seq<Row>, after: seq<Row>)
    requires rows != []
    ensures [rows[0]] + (rows[1..] + after) == rows + after
  {
    assert [rows[0]] + rows[1..] == rows;
    assert [rows[0]] + (rows[1..] + after) == [rows[0]] + rows[1..] + after;
  }

  lemma PrependReadsBack(style: Style, rows: seq<Row>, b: Break, rest: string, more: seq<Row>)
    requires rows != [] && AllPrintable(style, rows) && ReadCsv(rest) == Some(more)
    ensures ReadCsv(Line(style, rows[0]) + Text(b) + rest) == Some([rows[0]] + more)
  {
    assert rows[0] != [] && Printable(style, rows[0]);
    LineThenRest(style, rows[0], b, rest, more);
  }

  lemma TerminatedStep(style: Style, rows: seq<Row>, b: Break, tail: string)
    requires rows != []
    ensures Terminated(style, rows, b) + tail
         == Line(style, rows[0]) + Text(b) + (Terminated(style, rows[1..], b) + tail)
  {
    var line, break_, more := Line(style, rows[0]), Text(b), Terminated(style, rows[1..], b);
    assert line + break_ + more + tail == line + break_ + (more + tail);
  }

  lemma LinesStep(style: Style, rows: seq<Row>, separator: string)
    requires |rows| > 1
    ensures Join(Lines(style, rows), separator)
         == Line(style, rows[0]) + separator + Join(Lines(style, rows[1..]), separator)
  {
    assert Lines(style, rows)[1..] == Lines(style, rows[1..]);
  }

  lemma {:induction false} JoinedIsTerminated(style: Style, rows: seq<Row>, b: Break)
    requires rows != []
    ensures Join(Lines(style, rows), Text(b))
         == Terminated(style, rows[..|rows| - 1], b) + Line(style, rows[|rows| - 1])
    decreases rows
  {
    var n := |rows| - 1;
    var last := Line(style, rows[n]);
    if n == 0 {
      assert rows[..n] == [];
      assert Terminated(style, [], b) + last == last;
    } else {
      LinesStep(style, rows, Text(b));
      JoinedIsTerminated(style, rows[1..], b);
      assert rows[1..][..n - 1] == rows[..n][1..];
      JoinThree(Line(style, rows[0]), Text(b), Terminated(style, rows[..n][1..], b), last);
    }
  }

  lemma JoinThree(a: string, b: string, c: string, d: string)
    ensures a + b + (c + d) == a + b + c + d
  {
  }

  /** The last line, which has no break. */
  lemma LastLineReadsBack(style: Style, row: Row)
    requires row != [] && Printable(style, row)
    ensures ReadCsv(Line(style, row)) == Some(if Line(style, row) == "" then [] else [row])
  {
    var line := Line(style, row);
    LineReadsBack(style, row, Lf, "", true);
    assert line + "" == line;
    assert ReadCsv("") == Some([]);
    if line != "" {
      ReadStep(line, row, "");
      assert [row] + [] == [row];
    }
  }

  /** A joined text reads back as its rows, but for a last line that prints as nothing. */
  lemma JoinedReadsBack(style: Style, rows: seq<Row>, b: Break)
    requires AllPrintable(style, rows) && rows != []
    ensures ReadCsv(Join(Lines(style, rows), Text(b)))
         == Some(if Line(style, rows[|rows| - 1]) == "" then rows[..|rows| - 1] else rows)
  {
    JoinedIsTerminated(style, rows, b);
    LastLineEnds(style, rows, b, |rows| - 1);
  }

  lemma LastLineEnds(style: Style, rows: seq<Row>, b: Break, n: nat)
    requires AllPrintable(style, rows) && |rows| == n + 1
    ensures ReadCsv(Terminated(style, rows[..n], b) + Line(style, rows[n]))
         == Some(if Line(style, rows[n]) == "" then rows[..n] else rows)
  {
    var last := Line(style, rows[n]);
    LastLineReadsBack(style, rows[n]);
    TerminatedReadsBack(style, rows[..n], b, last, if last == "" then [] else [rows[n]]);
    assert rows[..n] + [] == rows[..n] && rows[..n] + [rows[n]] == rows;
  }

  lemma {:induction false} RecordsAreNotEmpty(s: string)
    ensures ReadCsv(s).Some? ==> forall row :: row in ReadCsv(s).value ==> row != []
    decreases |s|
  {
    if s != "" && ReadRecord(s).Some? { RecordsAreNotEmpty(ReadRecord(s).value.rest); }
  }

  lemma LineIsBlankIff(style: Style, row: Row)
    requires row != []
    ensures Line(style, row) == "" <==> style != Always && row == [""]
  {
    if |row| == 1 {
      assert Line(style, row) == Cell(style, row[0]);
      assert row == [row[0]];
    } else {
      LineStep(style, row);
    }
  }

  predicate NoEmptyRow(rows: seq<Row>) { forall i | 0 <= i < |rows| :: rows[i] != [] }

  /** Every cell of the quote-when-needed export is recovered, whatever it contains, exactly when no row
      is empty and the text does not end on a row with one blank cell. */
  lemma ExportReadsBackIff(rows: seq<Row>)
    ensures ReadCsv(ExportCsv(rows)) == Some(rows)
        <==> NoEmptyRow(rows) && (rows != [] ==> rows[|rows| - 1] != [""])
  {
    RecordsAreNotEmpty(ExportCsv(rows));
    if rows != [] && NoEmptyRow(rows) {
      JoinedReadsBack(WhenNeeded, rows, Crlf);
      LineIsBlankIff(WhenNeeded, rows[|rows| - 1]);
    } else if rows != [] {
      var i :| 0 <= i < |rows| && rows[i] == [];
      assert rows[i] in rows;
    }
  }

  lemma BuildIsTerminated(headers: Row, rows: seq<Row>)
    ensures BuildCsv(headers, rows) == Terminated(AsIs, [headers], Lf) + Join(Lines(Always, rows), "\n")
  {
    var line := Join(headers, ",");
    var body := Join(Lines(Always, rows), "\n");
    assert Cells(AsIs, headers) == headers;
    assert [line, body][1..] == [body] && Join([body], "\n") == body;
    assert [headers][1..] == [] && Terminated(AsIs, [], Lf) == "";
    assert Terminated(AsIs, [headers], Lf) == line + "\n" + "" == line + "\n";
  }

  /** Every cell of the always-quoted export is recovered, whatever it contains, exactly when no row is
      empty, provided the header names are plain. */
  lemma BuildReadsBackIff(headers: Row, rows: seq<Row>)
    requires headers != [] && Printable(AsIs, headers)
    ensures ReadCsv(BuildCsv(headers, rows)) == Some([headers] + rows) <==> NoEmptyRow(rows)
  {
    BuildIsTerminated(headers, rows);
    RecordsAreNotEmpty(BuildCsv(headers, rows));
    if NoEmptyRow(rows) {
      BodyReadsBack(rows);
      TerminatedReadsBack(AsIs, [headers], Lf, Join(Lines(Always, rows), "\n"), rows);
    } else {
      var i :| 0 <= i < |rows| && rows[i] == [];
      assert ([headers] + rows)[i + 1] in [headers] + rows;
    }
  }

  lemma BodyReadsBack(rows: seq<Row>)
    requires NoEmptyRow(rows)
    ensures ReadCsv(Join(Lines(Always, rows), "\n")) == Some(rows)
  {
    if rows != [] {
      JoinedReadsBack(Always, rows, Lf);
      LineIsBlankIff(Always, rows[|rows| - 1]);
    }
  }

  /** The two encodings of one table say the same to a reader. */
  lemma EncodingsAgree(headers: Row, rows: seq<Row>)
    requires |headers| >= 2 && Printable(AsIs, headers)
    requires forall i | 0 <= i < |rows| :: |rows[i]| == |headers|
    ensures ReadCsv(BuildCsv(headers, rows)) == ReadCsv(ExportCsv([headers] + rows)) == Some([headers] + rows)
  {
    BuildReadsBackIff(headers, rows);
    ExportReadsBackIff([headers] + rows);
  }
}
