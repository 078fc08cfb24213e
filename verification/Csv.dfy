/**
 * The CSV writer, and a reader of section 2 of RFC 4180. The reader is strict: a bare field
 * holds no quote and no line break, a quoted one is closed, and only a comma, a line break or
 * the end of the file follows a field. A line break after the last record ends the file (rule 2).
 * The one liberty is that a bare field may hold any other character, where the grammar lists
 * printable ASCII.
 */
module Csv {
  import opened Common

  /** A cell value by what the writer does with it; `json` and `iso` are already rendered. */
  datatype Cell = Missing | Date(iso: string) | Structured(json: string) | Scalar(text: string)

  const FORMULA_PREFIXES: set<char> := {'=', '+', '-', '@', '\t', '\r'}

  const CRLF := "\r\n"

  function DisplayText(cell: Cell): string {
    match cell
    case Missing => ""
    case Date(iso) => iso
    case Structured(json) => json
    case Scalar(text) => text
  }

  /** The text a reader of the file is meant to see: what would run as a formula is led by an apostrophe. */
  function DefusedText(cell: Cell): string {
    var text := DisplayText(cell);
    if cell != Missing && |text| > 0 && text[0] in FORMULA_PREFIXES then "'" + text else text
  }

  /** No returned field begins with a formula prefix. */
  lemma NeverFormula(cell: Cell)
    ensures DefusedText(cell) != "" ==> DefusedText(cell)[0] !in {'=', '+', '-', '@', '\t', '\r'}
    ensures DefusedText(cell) == DisplayText(cell) || DefusedText(cell) == "'" + DisplayText(cell)
  {
  }

  ghost predicate Guarded(own: string, text: string) {
    text == if own != "" && own[0] in {'=', '+', '-', '@', '\t', '\r'} then "'" + own else own
  }

  /** The text a cell is meant to be read as. */
  ghost predicate Meant(cell: Cell, text: string) {
    match cell
    case Missing => text == ""
    case Date(iso) => Guarded(iso, text)
    case Structured(json) => Guarded(json, text)
    case Scalar(own) => Guarded(own, text)
  }

  /** What is read is a header of these names, and a record for every row with a field for every cell. */
  ghost predicate ReadsAs(read: Option<seq<seq<string>>>, headers: seq<string>, rows: seq<seq<Cell>>) {
    && read.Some? && |read.value| == 1 + |rows| && |read.value[0]| == |headers|
    && (forall j :: 0 <= j < |headers| ==> Guarded(headers[j], read.value[0][j]))
    && (forall i :: 0 <= i < |rows| ==> |read.value[1 + i]| == |rows[i]|)
    && (forall i, j :: 0 <= i < |rows| && 0 <= j < |rows[i]| ==> Meant(rows[i][j], read.value[1 + i][j]))
  }

  predicate IsSpecial(c: char) { c == '"' || c == ',' || c == '\n' || c == '\r' }

  predicate NeedsQuotes(text: string) { exists i :: 0 <= i < |text| && IsSpecial(text[i]) }

  /** `text.replace(/"/g, '""')`. */
  function DoubleQuotes(text: string): string {
    if text == "" then ""
    else (if text[0] == '"' then "\"\"" else [text[0]]) + DoubleQuotes(text[1..])
  }

  /** A text is quoted, and its quotes doubled, only when it holds a delimiter, quote or line break. */
  function Encode(text: string): string {
    if NeedsQuotes(text) then ['"'] + DoubleQuotes(text) + ['"'] else text
  }

  function CsvField(cell: Cell): string {
    if cell == Missing then "" else Encode(DefusedText(cell))
  }

  function CsvLine(row: seq<Cell>): string {
    Join(Map(CsvField, row), ",")
  }

  function HeaderRow(headers: seq<string>): seq<Cell> { Map((h: string) => Scalar(h), headers) }

  function Document(rows: seq<seq<Cell>>): string {
    Join(Map(CsvLine, rows), CRLF)
  }

  /** Reads back what it wrote, exactly when no line is without columns and no empty last line is lost. */
  method ToCsv(headers: seq<string>, rows: seq<seq<Cell>>) returns (csv: string)
    ensures csv == Document(Rows(headers, rows))
    ensures ReadDocument(csv) == Some(Texts(Kept(Rows(headers, rows))))
    ensures ReadDocument(csv) == Some(Texts(Rows(headers, rows)))
       <==> && headers != [] && (forall i :: 0 <= i < |rows| ==> rows[i] != [])
            && (rows != [] ==> !OneEmptyField(rows[|rows| - 1]))
    ensures headers != [] && (forall i :: 0 <= i < |rows| ==> rows[i] != [])
        && (rows != [] ==> !(|rows[|rows| - 1]| == 1 && Meant(rows[|rows| - 1][0], "")))
        ==> ReadsAs(ReadDocument(csv), headers, rows)
  {
    var lines := [CsvLine(HeaderRow(headers))];
    for k := 0 to |rows|
      invariant lines == Map(CsvLine, Rows(headers, rows[..k]))
    {
      lines := lines + [CsvLine(rows[k])];
      LinesStep(headers, rows, k);
    }
    assert rows[..|rows|] == rows;
    csv := Join(lines, CRLF);
    FileReadsBack(headers, rows);
    TextsAreMeant(headers, rows);
  }

  lemma TextsAreMeant(headers: seq<string>, rows: seq<seq<Cell>>)
    ensures ReadsAs(Some(Texts(Rows(headers, rows))), headers, rows)
  {
    var texts := Texts(Rows(headers, rows));
    var header := HeaderRow(headers);
    RowIsMeant(header);
    assert Rows(headers, rows)[0] == header && texts[0] == RowTexts(header);
    forall j | 0 <= j < |headers| ensures Guarded(headers[j], texts[0][j]) {
      assert header[j] == Scalar(headers[j]) && Meant(header[j], RowTexts(header)[j]);
    }
    forall i | 0 <= i < |rows|
      ensures texts[1 + i] == RowTexts(rows[i])
    {
      assert Rows(headers, rows)[1 + i] == rows[i];
    }
    forall i, j | 0 <= i < |rows| && 0 <= j < |rows[i]| ensures Meant(rows[i][j], texts[1 + i][j]) {
      RowIsMeant(rows[i]);
    }
  }

  lemma RowIsMeant(row: seq<Cell>)
    ensures |RowTexts(row)| == |row| && forall j :: 0 <= j < |row| ==> Meant(row[j], RowTexts(row)[j])
  {
    forall j | 0 <= j < |row| ensures Meant(row[j], RowTexts(row)[j]) {
      assert RowTexts(row)[j] == DefusedText(row[j]);
      CellIsMeant(row[j]);
    }
  }

  lemma CellIsMeant(cell: Cell)
    ensures Meant(cell, DefusedText(cell))
  {
  }

  /** A text without a delimiter, quote or line break is written as it stands. */
  lemma PlainFieldsUnquoted(cell: Cell)
    requires forall i :: 0 <= i < |DefusedText(cell)| ==> DefusedText(cell)[i] !in {',', '"', '\r', '\n'}
    ensures CsvField(cell) == DefusedText(cell)
  {
  }

  /** The rows of a file, the header being the first. */
  function Rows(headers: seq<string>, rows: seq<seq<Cell>>): seq<seq<Cell>> { [HeaderRow(headers)] + rows }

  lemma LinesStep(headers: seq<string>, rows: seq<seq<Cell>>, k: nat)
    requires k < |rows|
    ensures Map(CsvLine, Rows(headers, rows[..k + 1])) == Map(CsvLine, Rows(headers, rows[..k])) + [CsvLine(rows[k])]
  {
    assert Rows(headers, rows[..k + 1]) == Rows(headers, rows[..k]) + [rows[k]];
  }

  // ---------- The reader ----------

  predicate AtBreak(s: string) { |s| >= 2 && s[0] == '\r' && s[1] == '\n' }

  predicate EndsText(c: char) { c in {',', '"', '\r', '\n'} }

  function ReadBare(s: string): (r: (string, string))
    ensures |r.1| <= |s|
  {
    if s == "" || EndsText(s[0]) then ("", s)
    else var (text, rest) := ReadBare(s[1..]); ([s[0]] + text, rest)
  }

  /** The inside of a quoted field, after its opening quote; there is none without a closing quote. */
  function ReadQuoted(s: string): (r: Option<(string, string)>)
    ensures r.Some? ==> |r.value.1| <= |s|
    decreases |s|
  {
    if s == "" then None
    else if s[0] != '"' then Led([s[0]], ReadQuoted(s[1..]))
    else if |s| >= 2 && s[1] == '"' then Led("\"", ReadQuoted(s[2..]))
    else Some(("", s[1..]))
  }

  function Led(head: string, r: Option<(string, string)>): Option<(string, string)> {
    match r case Some((text, rest)) => Some((head + text, rest)) case None => None
  }

  function ReadField(s: string): (r: Option<(string, string)>)
    ensures r.Some? ==> |r.value.1| <= |s|
  {
    if s != "" && s[0] == '"' then ReadQuoted(s[1..]) else Some(ReadBare(s))
  }

  function ReadRecord(s: string): (r: Option<(seq<string>, string)>)
    ensures r.Some? ==> |r.value.1| <= |s|
    decreases |s|
  {
    match ReadField(s)
    case None => None
    case Some((field, rest)) =>
      if rest != "" && rest[0] == ',' then
        match ReadRecord(rest[1..])
        case Some((fields, end)) => Some(([field] + fields, end))
        case None => None
      else Some(([field], rest))
  }

  /** Records with line breaks between them and perhaps one after the last; anything else is malformed. */
  function ReadDocument(s: string): Option<seq<seq<string>>>
    decreases |s|
  {
    match ReadRecord(s)
    case None => None
    case Some((record, rest)) =>
      if rest == "" || (AtBreak(rest) && |rest| == 2) then Some([record])
      else if AtBreak(rest) then
        match ReadDocument(rest[2..])
        case Some(records) => Some([record] + records)
        case None => None
      else None
  }

  // ---------- The round trip ----------

  function RowTexts(row: seq<Cell>): seq<string> { Map(DefusedText, row) }

  function Texts(rows: seq<seq<Cell>>): seq<seq<string>> { Map(RowTexts, rows) }

  predicate EndsField(rest: string) { rest == "" || rest[0] == ',' || AtBreak(rest) }

  lemma {:induction false} BareReadsBack(text: string, rest: string)
    requires !NeedsQuotes(text) && EndsField(rest)
    ensures ReadBare(text + rest) == (text, rest)
  {
    var s := text + rest;
    if text == "" {
      assert s == rest;
    } else {
      assert !IsSpecial(text[0]);
      assert s[0] == text[0] && s[1..] == text[1..] + rest;
      assert forall i :: 0 <= i < |text| - 1 ==> text[1..][i] == text[i + 1];
      BareReadsBack(text[1..], rest);
      assert [text[0]] + text[1..] == text;
    }
  }

  /** The doubled text, its closing quote, and what follows. */
  function QuotedTail(text: string, rest: string): string { DoubleQuotes(text) + (['"'] + rest) }

  lemma QuotedTailStep(text: string, rest: string)
    requires text != ""
    ensures QuotedTail(text, rest) == (if text[0] == '"' then ['"', '"'] else [text[0]]) + QuotedTail(text[1..], rest)
  {
  }

  lemma {:induction false} QuotedReadsBack(text: string, rest: string)
    requires EndsField(rest)
    ensures ReadQuoted(QuotedTail(text, rest)) == Some((text, rest))
  {
    var s := QuotedTail(text, rest);
    if text == "" {
      assert s == ['"'] + rest;
      assert s[1..] == rest;
    } else {
      var inner := QuotedTail(text[1..], rest);
      QuotedReadsBack(text[1..], rest);
      QuotedTailStep(text, rest);
      assert [text[0]] + text[1..] == text;
      if text[0] == '"' {
        assert s[0] == '"' && s[1] == '"' && s[2..] == inner;
      } else {
        assert s[0] == text[0] && s[1..] == inner;
      }
    }
  }

  lemma QuotedFieldReadsBack(text: string, rest: string)
    requires EndsField(rest)
    ensures ReadField(['"'] + QuotedTail(text, rest)) == Some((text, rest))
  {
    QuotedReadsBack(text, rest);
    assert (['"'] + QuotedTail(text, rest))[1..] == QuotedTail(text, rest);
  }

  lemma BareFieldReadsBack(text: string, rest: string)
    requires EndsField(rest) && !NeedsQuotes(text)
    ensures ReadField(text + rest) == Some((text, rest))
  {
    BareReadsBack(text, rest);
    assert text != "" ==> !IsSpecial(text[0]) && (text + rest)[0] == text[0];
    assert text == "" ==> text + rest == rest;
  }

  lemma FieldReadsBack(cell: Cell, rest: string)
    requires EndsField(rest)
    ensures ReadField(CsvField(cell) + rest) == Some((DefusedText(cell), rest))
  {
    var text := DefusedText(cell);
    assert CsvField(cell) == Encode(text);
    if NeedsQuotes(text) {
      QuotedFieldReadsBack(text, rest);
      assert Encode(text) + rest == ['"'] + QuotedTail(text, rest);
    } else {
      BareFieldReadsBack(text, rest);
    }
  }

  lemma {:induction false} LineReadsBack(row: seq<Cell>, rest: string)
    requires row != [] && (rest == "" || AtBreak(rest))
    ensures ReadRecord(CsvLine(row) + rest) == Some((RowTexts(row), rest))
  {
    assert RowTexts(row) == [DefusedText(row[0])] + RowTexts(row[1..]);
    if |row| == 1 {
      FieldReadsBack(row[0], rest);
      assert CsvLine(row) == CsvField(row[0]);
      assert RowTexts(row) == [DefusedText(row[0])];
    } else {
      var after := CsvLine(row[1..]) + rest;
      LineStep(row, rest);
      FieldReadsBack(row[0], [','] + after);
      LineReadsBack(row[1..], rest);
      assert ([','] + after)[1..] == after;
    }
  }

  lemma LineStep(row: seq<Cell>, rest: string)
    requires |row| >= 2
    ensures CsvLine(row) + rest == CsvField(row[0]) + ([','] + (CsvLine(row[1..]) + rest))
  {
    assert Map(CsvField, row)[1..] == Map(CsvField, row[1..]);
  }

  /** A row without columns is written like a row with one empty field. */
  function Widened(row: seq<Cell>): seq<Cell> { if row == [] then [Missing] else row }

  predicate OneEmptyField(row: seq<Cell>) { |row| == 1 && DefusedText(row[0]) == "" }

  /** An empty last line after a line break reads as nothing: the break ends the line before it. */
  predicate LastIsLost(rows: seq<seq<Cell>>) { |rows| > 1 && OneEmptyField(Widened(rows[|rows| - 1])) }

  /** The rows a reader gets to see. */
  function Kept(rows: seq<seq<Cell>>): seq<seq<Cell>> {
    Map(Widened, if LastIsLost(rows) then rows[..|rows| - 1] else rows)
  }

  lemma WidenedLine(row: seq<Cell>)
    ensures CsvLine(Widened(row)) == CsvLine(row)
  {
    if row == [] { assert Map(CsvField, [Missing]) == [""]; }
  }

  lemma EmptyLine(row: seq<Cell>)
    ensures CsvLine(row) == "" <==> OneEmptyField(Widened(row))
  {
    if |row| == 1 {
      assert CsvLine(row) == CsvField(row[0]);
    } else if |row| >= 2 {
      LineStep(row, "");
      assert CsvLine(row) + "" == CsvLine(row);
    }
  }

  /**
   * What a reader gets from any document: every row but an empty last one, a row without columns as
   * one empty field.
   */
  lemma {:induction false} DocumentReadsBack(rows: seq<seq<Cell>>)
    requires rows != []
    ensures ReadDocument(Document(rows)) == Some(Texts(Kept(rows)))
  {
    var first := Widened(rows[0]);
    WidenedLine(rows[0]);
    if |rows| == 1 {
      LineReadsBack(first, "");
      assert CsvLine(first) + "" == Document(rows);
      assert Texts(Kept(rows)) == [RowTexts(first)];
    } else {
      var tail := CRLF + Document(rows[1..]);
      assert Map(CsvLine, rows)[1..] == Map(CsvLine, rows[1..]);
      assert Document(rows) == CsvLine(first) + tail;
      assert tail[..2] == CRLF && tail[2..] == Document(rows[1..]);
      LineReadsBack(first, tail);
      EmptyDocument(rows[1..]);
      if Document(rows[1..]) == "" {
        assert Texts(Kept(rows)) == [RowTexts(first)];
      } else {
        DocumentReadsBack(rows[1..]);
        KeptStep(rows);
      }
    }
  }

  lemma EmptyDocument(rows: seq<seq<Cell>>)
    requires rows != []
    ensures Document(rows) == "" <==> |rows| == 1 && OneEmptyField(Widened(rows[0]))
  {
    EmptyLine(rows[0]);
    if |rows| > 1 {
      assert Document(rows) == CsvLine(rows[0]) + CRLF + Join(Map(CsvLine, rows)[1..], CRLF);
    }
  }

  lemma KeptStep(rows: seq<seq<Cell>>)
    requires |rows| > 1 && !(|rows| == 2 && OneEmptyField(Widened(rows[1])))
    ensures Texts(Kept(rows)) == [RowTexts(Widened(rows[0]))] + Texts(Kept(rows[1..]))
  {
    var rest := rows[1..];
    assert rest[|rest| - 1] == rows[|rows| - 1];
    assert rows[..|rows| - 1][1..] == rest[..|rest| - 1];
    assert Kept(rows) == [Widened(rows[0])] + Kept(rest);
  }

  /**
   * The round trip holds exactly when no line is without columns, and no last line after another is a
   * single empty field.
   */
  lemma RoundTripIff(rows: seq<seq<Cell>>)
    requires rows != []
    ensures ReadDocument(Document(rows)) == Some(Texts(rows))
       <==> && (forall i :: 0 <= i < |rows| ==> rows[i] != [])
            && (|rows| > 1 ==> !OneEmptyField(rows[|rows| - 1]))
  {
    DocumentReadsBack(rows);
    var kept := Kept(rows);
    if Texts(kept) == Texts(rows) {
      assert |kept| == |Texts(kept)| == |Texts(rows)| == |rows|;
      forall i | 0 <= i < |rows| ensures rows[i] != [] {
        assert |Texts(rows)[i]| == |rows[i]| && |Texts(kept)[i]| == |Widened(rows[i])|;
      }
    } else if forall i :: 0 <= i < |rows| ==> rows[i] != [] {
      assert !LastIsLost(rows) ==> kept == rows;
    }
  }

  lemma FileReadsBack(headers: seq<string>, rows: seq<seq<Cell>>)
    ensures ReadDocument(Document(Rows(headers, rows))) == Some(Texts(Kept(Rows(headers, rows))))
    ensures ReadDocument(Document(Rows(headers, rows))) == Some(Texts(Rows(headers, rows)))
       <==> && headers != [] && (forall i :: 0 <= i < |rows| ==> rows[i] != [])
            && (rows != [] ==> !OneEmptyField(rows[|rows| - 1]))
  {
    DocumentReadsBack(Rows(headers, rows));
    RoundTripIff(Rows(headers, rows));
    SameConditions(HeaderRow(headers), rows);
    assert HeaderRow(headers) != [] <==> headers != [];
  }

  lemma SameConditions(header: seq<Cell>, rows: seq<seq<Cell>>)
    ensures var all := [header] + rows;
      && ((forall i :: 0 <= i < |all| ==> all[i] != [])
          <==> header != [] && forall i :: 0 <= i < |rows| ==> rows[i] != [])
      && (rows != [] ==> all[|all| - 1] == rows[|rows| - 1])
  {
    var all := [header] + rows;
    assert all[0] == header;
    assert forall i :: 0 <= i < |rows| ==> all[i + 1] == rows[i];
    assert forall i :: 1 <= i < |all| ==> all[i] == rows[i - 1];
  }

  /** The smallest such file: a header, and one row whose only cell is missing. */
  lemma EmptyLastRowIsLost()
    ensures var rows := [[Scalar("h")], [Missing]];
      Document(rows) == "h\r\n" && ReadDocument(Document(rows)) == Some([["h"]])
  {
    var rows := [[Scalar("h")], [Missing]];
    DocumentReadsBack(rows);
    assert rows[..1] == [[Scalar("h")]];
    assert Kept(rows) == [[Scalar("h")]];
    assert Texts(Kept(rows)) == [RowTexts([Scalar("h")])] && RowTexts([Scalar("h")]) == ["h"];
    SmallFile();
  }

  lemma SmallFile()
    ensures Document([[Scalar("h")], [Missing]]) == "h\r\n"
  {
    var header, row := [Scalar("h")], [Missing];
    assert CsvField(Scalar("h")) == "h";
    assert Map(CsvField, header) == ["h"] && Map(CsvField, row) == [""];
    assert Map(CsvLine, [header, row]) == ["h", ""];
    assert Join(["h", ""], CRLF) == "h" + CRLF + Join([""], CRLF) by { assert ["h", ""][1..] == [""]; }
  }
}
