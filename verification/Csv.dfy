/** `createCsv` and the delimited writer: formula guards, quoting, and a reader of RFC 4180 to hold
    the written text against. */
module Csv {
  import opened Prelude
  import opened Text

  const MAX_ROWS := 50_000
  const MAX_COLUMNS := 200
  const MAX_CELLS := 1_000_000
  const MAX_CELL_CHARACTERS := 100_000
  const APOSTROPHE: CodeUnit := 0x27
  const CRLF: Text := [CR, LF]

  // ----- guarding -----

  predicate IsFormulaPrefix(c: CodeUnit) {
    c == 0x3D || c == PLUS || c == MINUS || c == 0x40
  }

  /** The first code unit above 32. */
  function FirstVisible(text: Text): Option<CodeUnit> {
    if text == [] then None
    else if text[0] <= 32 then FirstVisible(text[1..])
    else Some(text[0])
  }

  predicate StartsWithFormula(text: Text) {
    FirstVisible(text).Some? && IsFormulaPrefix(FirstVisible(text).value)
  }

  method ScanFormula(text: Text) returns (formula: bool)
    ensures formula == StartsWithFormula(text)
  {
    var index := 0;
    assert text[0..] == text;
    while index < |text| && text[index] <= 32
      invariant 0 <= index <= |text|
      invariant FirstVisible(text) == FirstVisible(text[index..])
    {
      assert text[index..][1..] == text[index + 1..];
      index := index + 1;
    }
    formula := index < |text| && IsFormulaPrefix(text[index]);
  }

  /** `cellText` of a string. */
  function Guard(text: Text): Text {
    if StartsWithFormula(text) then [APOSTROPHE] + text else text
  }

  /** A guarded cell never starts a formula. */
  lemma GuardIsSafe(text: Text)
    ensures !StartsWithFormula(Guard(text))
  {
  }

  /** What guarding can confuse: a text, and the same text already preceded by an apostrophe. */
  lemma GuardCollisions(a: Text, b: Text)
    ensures Guard(a) == Guard(b) <==>
            a == b || (StartsWithFormula(b) && a == [APOSTROPHE] + b) || (StartsWithFormula(a) && b == [APOSTROPHE] + a)
  {
    if Guard(a) == Guard(b) && StartsWithFormula(a) && StartsWithFormula(b) {
      assert a == ([APOSTROPHE] + a)[1..] && b == ([APOSTROPHE] + b)[1..];
    }
    if StartsWithFormula(b) && a == [APOSTROPHE] + b {
      assert FirstVisible(a) == Some(APOSTROPHE);
    }
    if StartsWithFormula(a) && b == [APOSTROPHE] + a {
      assert FirstVisible(b) == Some(APOSTROPHE);
    }
  }

  // ----- writing -----

  predicate NeedsQuotes(value: Text, delimiter: CodeUnit) {
    delimiter in value || QUOTE in value || CR in value || LF in value
  }

  /** `replaceAll('"', '""')`. */
  function DoubleQuotes(value: Text): Text {
    if value == [] then []
    else (if value[0] == QUOTE then [QUOTE, QUOTE] else [value[0]]) + DoubleQuotes(value[1..])
  }

  function DelimitedValue(value: Text, delimiter: CodeUnit): Text {
    if NeedsQuotes(value, delimiter) then [QUOTE] + (DoubleQuotes(value) + [QUOTE]) else value
  }

  /** A row's values joined by the delimiter. */
  function Line(cells: seq<Text>, delimiter: CodeUnit): Text {
    if cells == [] then []
    else if |cells| == 1 then DelimitedValue(cells[0], delimiter)
    else DelimitedValue(cells[0], delimiter) + ([delimiter] + Line(cells[1..], delimiter))
  }

  /** Lines joined by CRLF, and a final CRLF. */
  function Table(rows: seq<seq<Text>>, delimiter: CodeUnit): Text {
    if rows == [] then [] else Line(rows[0], delimiter) + (CRLF + Table(rows[1..], delimiter))
  }

  // ----- reading (section 2 of RFC 4180) -----

  predicate IsTextData(c: CodeUnit, delimiter: CodeUnit) {
    c != delimiter && c != QUOTE && c != CR && c != LF
  }

  /** The contents of a quoted field after its opening quote, and what follows the closing one. */
  function ReadQuoted(s: Text): (r: Option<(Text, Text)>)
    ensures r.Some? ==> |r.value.1| < |s|
  {
    if s == [] then None
    else if s[0] != QUOTE then
      match ReadQuoted(s[1..]) case None => None case Some((t, rest)) => Some(([s[0]] + t, rest))
    else if |s| > 1 && s[1] == QUOTE then
      match ReadQuoted(s[2..]) case None => None case Some((t, rest)) => Some(([QUOTE] + t, rest))
    else Some(([], s[1..]))
  }

  function ReadPlain(s: Text, delimiter: CodeUnit): (r: (Text, Text))
    ensures |r.1| <= |s|
  {
    if s == [] || !IsTextData(s[0], delimiter) then ([], s)
    else
      var (t, rest) := ReadPlain(s[1..], delimiter);
      ([s[0]] + t, rest)
  }

  function ReadField(s: Text, delimiter: CodeUnit): (r: Option<(Text, Text)>)
    ensures r.Some? ==> |r.value.1| <= |s|
  {
    if s != [] && s[0] == QUOTE then ReadQuoted(s[1..]) else Some(ReadPlain(s, delimiter))
  }

  /** One record with its line break. */
  function ReadRecord(s: Text, delimiter: CodeUnit): (r: Option<(seq<Text>, Text)>)
    ensures r.Some? ==> |r.value.1| < |s| && r.value.0 != []
    decreases |s|
  {
    match ReadField(s, delimiter)
    case None => None
    case Some((field, rest)) =>
      if rest != [] && rest[0] == delimiter then
        match ReadRecord(rest[1..], delimiter)
        case None => None
        case Some((fields, rest')) => Some(([field] + fields, rest'))
      else if |rest| >= 2 && rest[0] == CR && rest[1] == LF then Some(([field], rest[2..]))
      else None
  }

  function ReadTable(s: Text, delimiter: CodeUnit): Option<seq<seq<Text>>>
    decreases |s|
  {
    if s == [] then Some([])
    else match ReadRecord(s, delimiter)
      case None => None
      case Some((record, rest)) =>
        match ReadTable(rest, delimiter) case None => None case Some(records) => Some([record] + records)
  }

  // ----- what is written is read back -----

  predicate IsDelimiter(c: CodeUnit) {
    c == COMMA || c == TAB
  }

  /** What may follow a written value. */
  predicate Ends(rest: Text, delimiter: CodeUnit) {
    rest != [] && (rest[0] == delimiter || rest[0] == CR)
  }

  lemma {:induction false} QuotedReads(value: Text, rest: Text)
    requires rest == [] || rest[0] != QUOTE
    ensures ReadQuoted(DoubleQuotes(value) + ([QUOTE] + rest)) == Some((value, rest))
  {
    var tail := [QUOTE] + rest;
    if value == [] {
      assert DoubleQuotes(value) + tail == tail && tail[1..] == rest;
    } else {
      var t := DoubleQuotes(value[1..]) + tail;
      QuotedReads(value[1..], rest);
      assert value == [value[0]] + value[1..];
      if value[0] == QUOTE {
        assert DoubleQuotes(value) + tail == [QUOTE, QUOTE] + t && ([QUOTE, QUOTE] + t)[2..] == t;
      } else {
        assert DoubleQuotes(value) + tail == [value[0]] + t && ([value[0]] + t)[1..] == t;
      }
    }
  }

  lemma {:induction false} PlainReads(value: Text, rest: Text, delimiter: CodeUnit)
    requires forall i | 0 <= i < |value| :: IsTextData(value[i], delimiter)
    requires Ends(rest, delimiter)
    ensures ReadPlain(value + rest, delimiter) == (value, rest)
  {
    if value == [] {
      assert value + rest == rest;
    } else {
      assert (value + rest)[1..] == value[1..] + rest;
      PlainReads(value[1..], rest, delimiter);
      assert value == [value[0]] + value[1..];
    }
  }

  lemma ValueReads(value: Text, rest: Text, delimiter: CodeUnit)
    requires IsDelimiter(delimiter) && Ends(rest, delimiter)
    ensures ReadField(DelimitedValue(value, delimiter) + rest, delimiter) == Some((value, rest))
  {
    hide ReadQuoted, ReadPlain, DoubleQuotes;
    if NeedsQuotes(value, delimiter) {
      QuotedReads(value, rest);
      assert ([QUOTE] + (DoubleQuotes(value) + [QUOTE]) + rest)[1..] == DoubleQuotes(value) + ([QUOTE] + rest);
    } else {
      PlainReads(value, rest, delimiter);
    }
  }

  lemma {:induction false} LineReads(cells: seq<Text>, more: Text, delimiter: CodeUnit)
    requires IsDelimiter(delimiter) && cells != []
    ensures ReadRecord(Line(cells, delimiter) + (CRLF + more), delimiter) == Some((cells, more))
  {
    hide ReadField, DelimitedValue;
    var tail := CRLF + more;
    assert tail[2..] == more;
    if |cells| == 1 {
      ValueReads(cells[0], tail, delimiter);
      assert [cells[0]] == cells;
    } else {
      var rest := Line(cells[1..], delimiter) + tail;
      var next := [delimiter] + rest;
      assert Line(cells, delimiter) + tail == DelimitedValue(cells[0], delimiter) + next;
      assert next[1..] == rest;
      ValueReads(cells[0], next, delimiter);
      LineReads(cells[1..], more, delimiter);
      assert [cells[0]] + cells[1..] == cells;
    }
  }

  /** Reading a written table gives exactly its cells, if every row has at least one. */
  lemma {:induction false} TableReads(rows: seq<seq<Text>>, delimiter: CodeUnit)
    requires IsDelimiter(delimiter) && forall i | 0 <= i < |rows| :: rows[i] != []
    ensures ReadTable(Table(rows, delimiter), delimiter) == Some(rows)
  {
    hide ReadRecord, Line;
    if rows != [] {
      LineReads(rows[0], Table(rows[1..], delimiter), delimiter);
      TableReads(rows[1..], delimiter);
      assert [rows[0]] + rows[1..] == rows;
    }
  }

  // ----- createCsv -----

  /** `Phone ` and ` - Value`. */
  const PHONE: Text := [0x50, 0x68, 0x6F, 0x6E, 0x65, SPACE]
  const VALUE: Text := [SPACE, MINUS, SPACE, 0x56, 0x61, 0x6C, 0x75, 0x65]

  predicate IsPositive(digits: Text) {
    digits != [] && AllDigits(digits) && digits[0] != ZERO
  }

  /** `^Phone [1-9][0-9]* - Value$`. */
  predicate IsPhoneHeader(header: Text) {
    && |header| > |PHONE| + |VALUE|
    && header[..|PHONE|] == PHONE
    && header[|header| - |VALUE|..] == VALUE
    && IsPositive(header[|PHONE|..|header| - |VALUE|])
  }

  /** `^\+[1-9][0-9]{6,14}$`. */
  predicate IsInternationalPhone(value: Text) {
    8 <= |value| <= 16 && value[0] == PLUS && IsPositive(value[1..])
  }

  function Cell(headers: seq<Text>, row: nat, column: nat, value: Text): Text
    requires column < |headers|
  {
    if row > 0 && IsPhoneHeader(headers[column]) && IsInternationalPhone(value) then value else Guard(value)
  }

  predicate WithinExportLimits(headers: seq<Text>, rows: seq<seq<Text>>) {
    && |headers| <= MAX_COLUMNS && |rows| + 1 <= MAX_ROWS && (|rows| + 1) * |headers| <= MAX_CELLS
    && forall i | 0 <= i < |rows| :: |rows[i]| == |headers|
  }

  /** The table that is written: the header row and the data rows, with formulas guarded. */
  function Matrix(headers: seq<Text>, rows: seq<seq<Text>>): (m: seq<seq<Text>>)
    requires forall i | 0 <= i < |rows| :: |rows[i]| == |headers|
    ensures |m| == |rows| + 1 && forall i | 0 <= i < |m| :: |m[i]| == |headers|
  {
    var source := [headers] + rows;
    seq(|source|, i requires 0 <= i < |source| =>
      seq(|headers|, j requires 0 <= j < |headers| => Cell(headers, i, j, source[i][j])))
  }

  // ----- the validation that follows -----

  /** `split(/\r\n|\n|\r/)`, blind to quotes. */
  function RawLines(s: Text, current: Text): (r: seq<Text>)
    ensures r != []
    decreases |s|
  {
    if s == [] then [current]
    else if |s| >= 2 && s[0] == CR && s[1] == LF then [current] + RawLines(s[2..], [])
    else if s[0] == CR || s[0] == LF then [current] + RawLines(s[1..], [])
    else RawLines(s[1..], current + [s[0]])
  }

  function SplitAt(s: Text, delimiter: CodeUnit, current: Text): (r: seq<Text>)
    ensures r != []
    decreases |s|
  {
    if s == [] then [current]
    else if s[0] == delimiter then [current] + SplitAt(s[1..], delimiter, [])
    else SplitAt(s[1..], delimiter, current + [s[0]])
  }

  /** The lines that are checked: a last empty one is dropped. */
  function CheckedLines(content: Text): seq<Text> {
    var lines := RawLines(content, []);
    if lines[|lines| - 1] == [] then lines[..|lines| - 1] else lines
  }

  function TotalCells(lines: seq<Text>, delimiter: CodeUnit): nat {
    if lines == [] then 0
    else TotalCells(lines[..|lines| - 1], delimiter) + |SplitAt(lines[|lines| - 1], delimiter, [])|
  }

  predicate LineWithinLimits(line: Text, delimiter: CodeUnit) {
    var columns := SplitAt(line, delimiter, []);
    |columns| <= MAX_COLUMNS && forall i | 0 <= i < |columns| :: |columns[i]| <= MAX_CELL_CHARACTERS
  }

  predicate WithinDelimitedLimits(content: Text, delimiter: CodeUnit) {
    var lines := CheckedLines(content);
    && |lines| <= MAX_ROWS && TotalCells(lines, delimiter) <= MAX_CELLS
    && forall i | 0 <= i < |lines| :: LineWithinLimits(lines[i], delimiter)
  }

  /** `createCsv`, with the spreadsheet library's own reading of the text as the parameter `readable`. */
  function CreateCsv(headers: seq<Text>, rows: seq<seq<Text>>, readable: Text -> bool): Result<Text> {
    if !WithinExportLimits(headers, rows) then Err(UnsupportedFileFormat)
    else
      var content := Table(Matrix(headers, rows), COMMA);
      if WithinDelimitedLimits(content, COMMA) && readable(content) then Ok(content) else Err(UnsupportedFileFormat)
  }

  /** The file reads back as exactly the guarded matrix if and only if there is a column at all. */
  lemma CsvRoundTrip(headers: seq<Text>, rows: seq<seq<Text>>, readable: Text -> bool)
    requires CreateCsv(headers, rows, readable).Ok?
    ensures ReadTable(CreateCsv(headers, rows, readable).value, COMMA) == Some(Matrix(headers, rows)) <==>
            headers != []
  {
    hide ReadTable, Table;
    var m := Matrix(headers, rows);
    if headers != [] {
      TableReads(m, COMMA);
    } else {
      FirstRecordIsNotEmpty(m);
    }
  }

  /** A record that is read always has a field, so a row without cells cannot come back. */
  lemma FirstRecordIsNotEmpty(m: seq<seq<Text>>)
    requires m != [] && m[0] == []
    ensures ReadTable(Table(m, COMMA), COMMA) != Some(m)
  {
    hide ReadRecord, Line;
  }

  /** No cell that is written starts a formula, except an international phone under a phone header. */
  lemma CellsAreSafe(headers: seq<Text>, rows: seq<seq<Text>>, i: nat, j: nat)
    requires WithinExportLimits(headers, rows) && i <= |rows| && j < |headers|
    ensures var value := ([headers] + rows)[i][j];
            StartsWithFormula(Matrix(headers, rows)[i][j]) <==>
            i > 0 && IsPhoneHeader(headers[j]) && IsInternationalPhone(value)
  {
    hide IsPhoneHeader;
    var value := ([headers] + rows)[i][j];
    GuardIsSafe(value);
    if IsInternationalPhone(value) {
      assert FirstVisible(value) == Some(PLUS);
    }
  }

  /** Without columns the text is one empty line, which reads back as a record of one empty field. */
  lemma NoColumnsDoNotReadBack(readable: Text -> bool)
    ensures readable(CRLF) ==> CreateCsv([], [], readable) == Ok(CRLF)
    ensures Matrix([], []) == [[]] && ReadTable(CRLF, COMMA) == Some([[[]]])
  {
    assert Matrix([], []) == [[]];
    assert Table([[]], COMMA) == [] + (CRLF + []) == CRLF;
    assert Table([[[]]], COMMA) == CRLF;
    TableReads([[[]]], COMMA);
    assert RawLines(CRLF, []) == [[]] + RawLines([], []) == [[], []];
    assert CheckedLines(CRLF) == [[]];
  }
}
