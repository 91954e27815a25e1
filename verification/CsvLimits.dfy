/** Which tables the CSV writer accepts: the validation that follows the writing splits the text at every
    comma and line break, inside quotes or not, and this is what that means for the given cells. */
module CsvLimits {
  import opened Prelude
  import opened Text
  import opened Csv

  /** The length of the line break at the front, if there is one. */
  function BreakLength(s: Text): (n: nat)
    ensures n <= |s|
  {
    if |s| >= 2 && s[0] == CR && s[1] == LF then 2 else if s != [] && (s[0] == CR || s[0] == LF) then 1 else 0
  }

  /** The number of columns of each line of a text, in a first line that has `count` already. */
  function ColumnCounts(s: Text, count: nat): (r: seq<nat>)
    ensures r != []
    decreases |s|
  {
    if s == [] then [count]
    else if BreakLength(s) > 0 then [count] + ColumnCounts(s[BreakLength(s)..], 1)
    else ColumnCounts(s[1..], if s[0] == COMMA then count + 1 else count)
  }

  predicate Cuts(c: CodeUnit) {
    c == COMMA || c == CR || c == LF
  }

  /** No stretch between commas and line breaks is too long, the first one having `length` already. */
  predicate Fits(s: Text, length: nat) {
    length <= MAX_CELL_CHARACTERS && (s == [] || Fits(s[1..], if Cuts(s[0]) then 0 else length + 1))
  }

  /** Cells joined by commas, as they are given. */
  function Join(cells: seq<Text>): Text {
    if cells == [] then [] else if |cells| == 1 then cells[0] else cells[0] + ([COMMA] + Join(cells[1..]))
  }

  /** The columns of all lines of a table whose rows are joined in this way. */
  function AllCounts(rows: seq<seq<Text>>): seq<nat> {
    if rows == [] then [] else ColumnCounts(Join(rows[0]), 1) + AllCounts(rows[1..])
  }

  function Sum(ns: seq<nat>): nat {
    if ns == [] then 0 else Sum(ns[..|ns| - 1]) + ns[|ns| - 1]
  }

  // ----- splitting into lines -----

  lemma RawLinesStep(s: Text, current: Text)
    requires s != []
    ensures RawLines(s, current) ==
            if BreakLength(s) > 0 then [current] + RawLines(s[BreakLength(s)..], [])
            else RawLines(s[1..], current + [s[0]])
  {
  }

  lemma BreakStays(a: Text, b: Text)
    requires a != [] && (b == [] || b[0] != LF)
    ensures BreakLength(a + b) == BreakLength(a)
  {
  }

  lemma {:induction false} RawLinesOfTwo(a: Text, b: Text, current: Text)
    ensures RawLines(a + (CRLF + b), current) == RawLines(a, current) + RawLines(b, [])
    decreases |a|
  {
    hide RawLines, BreakLength;
    var s := a + (CRLF + b);
    RawLinesStep(s, current);
    if a == [] {
      BreakAtFront(b);
      assert s == CRLF + b && s[2..] == b;
      RawLinesOfNothing(current);
    } else {
      RawLinesStep(a, current);
      BreakStays(a, CRLF + b);
      var n := if BreakLength(a) > 0 then BreakLength(a) else 1;
      assert s[n..] == a[n..] + (CRLF + b);
      RawLinesOfTwo(a[n..], b, if BreakLength(a) > 0 then [] else current + [a[0]]);
    }
  }

  lemma BreakAtFront(b: Text)
    ensures BreakLength(CRLF + b) == 2
  {
  }

  lemma RawLinesOfNothing(current: Text)
    ensures RawLines([], current) == [current]
  {
  }

  function TableLines(m: seq<seq<Text>>): seq<Text> {
    if m == [] then [] else RawLines(Line(m[0], COMMA), []) + TableLines(m[1..])
  }

  lemma {:induction false} TableIsLines(m: seq<seq<Text>>)
    ensures RawLines(Table(m, COMMA), []) == TableLines(m) + [[]]
  {
    if m == [] {
      RawLinesOfNothing([]);
    } else {
      hide RawLines, Line;
      TableIsLines(m[1..]);
      RawLinesOfTwo(Line(m[0], COMMA), Table(m[1..], COMMA), []);
    }
  }

  lemma CheckedIsTableLines(m: seq<seq<Text>>)
    ensures CheckedLines(Table(m, COMMA)) == TableLines(m)
  {
    hide RawLines, Table, TableLines;
    TableIsLines(m);
  }

  // ----- counting columns -----

  function Commas(s: Text): nat {
    if s == [] then 0 else (if s[0] == COMMA then 1 else 0) + Commas(s[1..])
  }

  lemma {:induction false} SplitCounts(s: Text, current: Text)
    ensures |SplitAt(s, COMMA, current)| == 1 + Commas(s)
    decreases |s|
  {
    if s != [] {
      SplitCounts(s[1..], if s[0] == COMMA then [] else current + [s[0]]);
    }
  }

  lemma {:induction false} CommasAppend(a: Text, b: Text)
    ensures Commas(a + b) == Commas(a) + Commas(b)
  {
    if a == [] {
      assert a + b == b;
    } else {
      assert (a + b)[1..] == a[1..] + b;
      CommasAppend(a[1..], b);
    }
  }

  /** The counts are those of the lines. */
  predicate Counted(lines: seq<Text>, counts: seq<nat>) {
    |lines| == |counts| && forall k | 0 <= k < |lines| :: counts[k] == 1 + Commas(lines[k])
  }

  lemma {:induction false} RawLinesAreCounted(s: Text, current: Text)
    ensures Counted(RawLines(s, current), ColumnCounts(s, 1 + Commas(current)))
    decreases |s|
  {
    hide RawLines;
    if s == [] {
      RawLinesOfNothing(current);
    } else {
      RawLinesStep(s, current);
      if BreakLength(s) > 0 {
        RawLinesAreCounted(s[BreakLength(s)..], []);
      } else {
        CommasAppend(current, [s[0]]);
        RawLinesAreCounted(s[1..], current + [s[0]]);
      }
    }
  }

  // ----- the counts of a written row are those of the given one -----

  lemma CountsStep(s: Text, n: nat)
    requires s != []
    ensures ColumnCounts(s, n) ==
            if BreakLength(s) > 0 then [n] + ColumnCounts(s[BreakLength(s)..], 1)
            else ColumnCounts(s[1..], if s[0] == COMMA then n + 1 else n)
  {
  }

  /** The counts of two texts joined by a comma: one line runs through it. */
  function Through(x: seq<nat>, b: Text): seq<nat>
    requires x != []
  {
    x[..|x| - 1] + ColumnCounts(b, x[|x| - 1] + 1)
  }

  lemma ThroughAfter(n: nat, x: seq<nat>, b: Text)
    requires x != []
    ensures Through([n] + x, b) == [n] + Through(x, b)
  {
    hide ColumnCounts;
    assert ([n] + x)[..|x|] == [n] + x[..|x| - 1];
  }

  lemma {:induction false} CountsOfJoined(a: Text, b: Text, n: nat)
    ensures ColumnCounts(a + ([COMMA] + b), n) == Through(ColumnCounts(a, n), b)
    decreases |a|
  {
    hide ColumnCounts, BreakLength, Through;
    var s := a + ([COMMA] + b);
    CountsStep(s, n);
    if a == [] {
      CommaAtFront(b, n);
      assert s == [COMMA] + b;
    } else {
      CountsStep(a, n);
      BreakStays(a, [COMMA] + b);
      if BreakLength(a) > 0 {
        assert s[BreakLength(a)..] == a[BreakLength(a)..] + ([COMMA] + b);
        CountsOfJoined(a[BreakLength(a)..], b, 1);
        ThroughAfter(n, ColumnCounts(a[BreakLength(a)..], 1), b);
      } else {
        assert s[1..] == a[1..] + ([COMMA] + b);
        CountsOfJoined(a[1..], b, if a[0] == COMMA then n + 1 else n);
      }
    }
  }

  lemma CommaAtFront(b: Text, n: nat)
    ensures ColumnCounts([COMMA] + b, n) == Through(ColumnCounts([], n), b)
  {
    assert ([COMMA] + b)[1..] == b;
  }

  lemma DoubledStart(v: Text)
    requires v != []
    ensures v[0] == QUOTE ==> DoubleQuotes(v) == [QUOTE] + ([QUOTE] + DoubleQuotes(v[1..]))
    ensures v[0] != QUOTE ==> DoubleQuotes(v) == [v[0]] + DoubleQuotes(v[1..])
  {
  }

  lemma DoubledBreak(v: Text)
    requires v != []
    ensures BreakLength(DoubleQuotes(v) + [QUOTE]) == BreakLength(v)
    ensures BreakLength(v) > 0 ==>
              (DoubleQuotes(v) + [QUOTE])[BreakLength(v)..] == DoubleQuotes(v[BreakLength(v)..]) + [QUOTE]
  {
    hide DoubleQuotes;
    DoubledStart(v);
    if |v| > 1 {
      DoubledStart(v[1..]);
      assert v[1..][1..] == v[2..];
    } else {
      assert v[1..] == [];
      NothingDoubled();
    }
  }

  lemma NothingDoubled()
    ensures DoubleQuotes([]) == []
  {
  }

  lemma {:induction false} QuotedCounts(v: Text, n: nat)
    ensures ColumnCounts(DoubleQuotes(v) + [QUOTE], n) == ColumnCounts(v, n)
    decreases |v|
  {
    var s := DoubleQuotes(v) + [QUOTE];
    if v == [] {
      assert s == [QUOTE];
    } else {
      DoubledBreak(v);
      DoubledStart(v);
      CountsStep(s, n);
      CountsStep(v, n);
      hide ColumnCounts, DoubleQuotes;
      if BreakLength(v) > 0 {
        QuotedCounts(v[BreakLength(v)..], 1);
      } else if v[0] == QUOTE {
        assert s[1..] == [QUOTE] + (DoubleQuotes(v[1..]) + [QUOTE]);
        CountsStep(s[1..], n);
        assert s[1..][1..] == DoubleQuotes(v[1..]) + [QUOTE];
        QuotedCounts(v[1..], n);
      } else {
        assert s[1..] == DoubleQuotes(v[1..]) + [QUOTE];
        QuotedCounts(v[1..], if v[0] == COMMA then n + 1 else n);
      }
    }
  }

  lemma ValueCounts(v: Text, n: nat)
    ensures ColumnCounts(DelimitedValue(v, COMMA), n) == ColumnCounts(v, n)
  {
    if NeedsQuotes(v, COMMA) {
      QuotedCounts(v, n);
      var inner := DoubleQuotes(v) + [QUOTE];
      assert ([QUOTE] + inner)[1..] == inner;
    }
  }

  lemma CellCounts(headers: seq<Text>, row: nat, column: nat, value: Text, n: nat)
    requires column < |headers|
    ensures ColumnCounts(Cell(headers, row, column, value), n) == ColumnCounts(value, n)
  {
    hide IsPhoneHeader, IsInternationalPhone, StartsWithFormula;
    assert ([APOSTROPHE] + value)[1..] == value;
  }

  lemma {:induction false} LineCounts(written: seq<Text>, given: seq<Text>, n: nat)
    requires |written| == |given|
    requires forall j, k | 0 <= j < |given| && 0 <= k :: ColumnCounts(written[j], k) == ColumnCounts(given[j], k)
    ensures ColumnCounts(Line(written, COMMA), n) == ColumnCounts(Join(given), n)
    decreases |given|
  {
    hide ColumnCounts, DelimitedValue;
    if given != [] {
      ValueCounts(written[0], n);
      assert ColumnCounts(written[0], n) == ColumnCounts(given[0], n);
      if |given| > 1 {
        var x := ColumnCounts(given[0], n);
        CountsOfJoined(DelimitedValue(written[0], COMMA), Line(written[1..], COMMA), n);
        CountsOfJoined(given[0], Join(given[1..]), n);
        LineCounts(written[1..], given[1..], x[|x| - 1] + 1);
      }
    }
  }

  // ----- the stretches -----

  lemma {:induction false} FitsCut(a: Text, c: CodeUnit, b: Text, n: nat)
    requires Cuts(c)
    ensures Fits(a + ([c] + b), n) <==> Fits(a, n) && Fits(b, 0)
  {
    var s := a + ([c] + b);
    if a == [] {
      assert s == [c] + b && s[1..] == b;
    } else {
      assert s[1..] == a[1..] + ([c] + b);
      FitsCut(a[1..], c, b, if Cuts(a[0]) then 0 else n + 1);
    }
  }

  predicate Breakless(s: Text) {
    CR !in s && LF !in s
  }

  predicate PiecesFit(pieces: seq<Text>) {
    forall k | 0 <= k < |pieces| :: |pieces[k]| <= MAX_CELL_CHARACTERS
  }

  lemma {:induction false} PiecesFitExactly(line: Text, current: Text)
    requires Breakless(line)
    ensures PiecesFit(SplitAt(line, COMMA, current)) <==> Fits(line, |current|)
    decreases |line|
  {
    if line == [] {
      assert [current][0] == current;
    } else if line[0] == COMMA {
      PiecesFitExactly(line[1..], []);
      var rest := SplitAt(line[1..], COMMA, []);
      var all := [current] + rest;
      assert all[0] == current && forall k | 0 <= k < |rest| :: all[k + 1] == rest[k];
    } else {
      assert line[0] in line;
      PiecesFitExactly(line[1..], current + [line[0]]);
      FitsBounds(line[1..], |current| + 1);
    }
  }

  lemma FitsBounds(s: Text, n: nat)
    ensures Fits(s, n) ==> n <= MAX_CELL_CHARACTERS
  {
  }

  predicate LinesFit(lines: seq<Text>) {
    forall k | 0 <= k < |lines| :: PiecesFit(SplitAt(lines[k], COMMA, []))
  }

  lemma LinesFitCons(line: Text, lines: seq<Text>)
    ensures LinesFit([line] + lines) <==> PiecesFit(SplitAt(line, COMMA, [])) && LinesFit(lines)
  {
    hide SplitAt, PiecesFit;
    var all := [line] + lines;
    assert all[0] == line && forall k | 0 <= k < |lines| :: all[k + 1] == lines[k];
  }

  lemma LinesFitAppend(a: seq<Text>, b: seq<Text>)
    ensures LinesFit(a + b) <==> LinesFit(a) && LinesFit(b)
  {
    hide SplitAt, PiecesFit;
    var all := a + b;
    assert forall k | 0 <= k < |a| :: all[k] == a[k];
    assert forall k | 0 <= k < |b| :: all[|a| + k] == b[k];
  }

  lemma BreakIsCut(current: Text, s: Text)
    requires BreakLength(s) > 0
    ensures Fits(current + s, 0) <==> Fits(current, 0) && Fits(s[BreakLength(s)..], 0)
  {
    hide Fits;
    NothingFits();
    FitsCut(current, s[0], s[1..], 0);
    assert current + s == current + ([s[0]] + s[1..]);
    if BreakLength(s) == 2 {
      FitsCut([], s[1], s[2..], 0);
      assert s[1..] == [] + ([s[1]] + s[2..]);
    }
  }

  lemma {:induction false} RawLinesFit(s: Text, current: Text)
    requires Breakless(current)
    ensures LinesFit(RawLines(s, current)) <==> Fits(current + s, 0)
    decreases |s|
  {
    hide LinesFit, Fits, SplitAt, PiecesFit, RawLines;
    if s == [] {
      RawLinesOfNothing(current);
      PiecesFitExactly(current, []);
      LinesFitCons(current, []);
      NoLines();
      assert current + s == current && [current] + [] == [current];
    } else {
      RawLinesStep(s, current);
      if BreakLength(s) > 0 {
        var rest := s[BreakLength(s)..];
        RawLinesFit(rest, []);
        PiecesFitExactly(current, []);
        LinesFitCons(current, RawLines(rest, []));
        BreakIsCut(current, s);
        assert [] + rest == rest;
      } else {
        RawLinesFit(s[1..], current + [s[0]]);
        assert current + [s[0]] + s[1..] == current + s;
      }
    }
  }

  lemma NoLines()
    ensures LinesFit([])
  {
  }

  lemma NothingFits()
    ensures Fits([], 0)
  {
  }

  /** Every stretch of every cell as it is written is short enough. */
  predicate CellsFit(cells: seq<Text>) {
    forall j | 0 <= j < |cells| :: Fits(DelimitedValue(cells[j], COMMA), 0)
  }

  lemma {:induction false} LineFits(cells: seq<Text>)
    ensures Fits(Line(cells, COMMA), 0) <==> CellsFit(cells)
  {
    hide Fits, DelimitedValue;
    if cells == [] {
      NothingFits();
    } else {
      assert forall j | 1 <= j < |cells| :: cells[j] == cells[1..][j - 1];
      if |cells| > 1 {
        LineFits(cells[1..]);
        FitsCut(DelimitedValue(cells[0], COMMA), COMMA, Line(cells[1..], COMMA), 0);
      }
    }
  }

  // ----- whole tables -----

  lemma {:induction false} TableLinesFit(m: seq<seq<Text>>)
    ensures LinesFit(TableLines(m)) <==> forall i | 0 <= i < |m| :: CellsFit(m[i])
  {
    hide LinesFit, CellsFit, RawLines, Line;
    if m == [] {
      NoLines();
    } else {
      var line := Line(m[0], COMMA);
      TableLinesFit(m[1..]);
      RawLinesFit(line, []);
      assert [] + line == line;
      LineFits(m[0]);
      LinesFitAppend(RawLines(line, []), TableLines(m[1..]));
      assert forall i | 1 <= i < |m| :: m[i] == m[1..][i - 1];
    }
  }

  /** The rows of the table as it is written and as it is given have the same counts. */
  ghost predicate SameCounts(m: seq<seq<Text>>, given: seq<seq<Text>>) {
    |m| == |given| &&
    forall i | 0 <= i < |m| :: ColumnCounts(Line(m[i], COMMA), 1) == ColumnCounts(Join(given[i]), 1)
  }

  lemma {:induction false} TableLinesAreCounted(m: seq<seq<Text>>, given: seq<seq<Text>>)
    requires SameCounts(m, given)
    ensures Counted(TableLines(m), AllCounts(given))
  {
    hide Line, RawLines, ColumnCounts, Join;
    if m != [] {
      var line := Line(m[0], COMMA);
      assert SameCounts(m[1..], given[1..]) by {
        assert forall i | 1 <= i < |m| :: m[i] == m[1..][i - 1] && given[i] == given[1..][i - 1];
      }
      TableLinesAreCounted(m[1..], given[1..]);
      RawLinesAreCounted(line, []);
      assert 1 + Commas([]) == 1;
      assert ColumnCounts(line, 1) == ColumnCounts(Join(given[0]), 1);
    }
  }

  lemma MatrixHasSameCounts(headers: seq<Text>, rows: seq<seq<Text>>)
    requires forall i | 0 <= i < |rows| :: |rows[i]| == |headers|
    ensures SameCounts(Matrix(headers, rows), [headers] + rows)
  {
    hide ColumnCounts, Line, Join, Cell;
    var m, given := Matrix(headers, rows), [headers] + rows;
    forall i | 0 <= i < |m| ensures ColumnCounts(Line(m[i], COMMA), 1) == ColumnCounts(Join(given[i]), 1) {
      forall j, k: nat | 0 <= j < |headers| ensures ColumnCounts(m[i][j], k) == ColumnCounts(given[i][j], k) {
        CellCounts(headers, i, j, given[i][j], k);
      }
      LineCounts(m[i], given[i], 1);
    }
  }

  lemma {:induction false} TotalIsSum(lines: seq<Text>, counts: seq<nat>)
    requires Counted(lines, counts)
    ensures TotalCells(lines, COMMA) == Sum(counts)
  {
    if lines != [] {
      hide SplitAt, Commas;
      TotalIsSum(lines[..|lines| - 1], counts[..|counts| - 1]);
      SplitCounts(lines[|lines| - 1], []);
    }
  }

  /** The counts that the validation looks at stay within its limits. */
  predicate CountsWithinLimits(counts: seq<nat>) {
    |counts| <= MAX_ROWS && Sum(counts) <= MAX_CELLS && forall k | 0 <= k < |counts| :: counts[k] <= MAX_COLUMNS
  }

  lemma ValidationExactly(headers: seq<Text>, rows: seq<seq<Text>>)
    requires forall i | 0 <= i < |rows| :: |rows[i]| == |headers|
    ensures WithinDelimitedLimits(Table(Matrix(headers, rows), COMMA), COMMA) <==>
            CountsWithinLimits(AllCounts([headers] + rows)) &&
            forall i | 0 <= i <= |rows| :: CellsFit(Matrix(headers, rows)[i])
  {
    hide Table, TableLines, AllCounts, CheckedLines, CellsFit, Matrix, SplitAt, Commas, Sum, TotalCells;
    var m, counts := Matrix(headers, rows), AllCounts([headers] + rows);
    var lines := TableLines(m);
    CheckedIsTableLines(m);
    MatrixHasSameCounts(headers, rows);
    TableLinesAreCounted(m, [headers] + rows);
    TotalIsSum(lines, counts);
    TableLinesFit(m);
    forall k | 0 <= k < |lines|
      ensures LineWithinLimits(lines[k], COMMA) <==>
              counts[k] <= MAX_COLUMNS && PiecesFit(SplitAt(lines[k], COMMA, []))
    {
      SplitCounts(lines[k], []);
    }
  }

  /** Exactly these tables are written: within the export limits, readable by the spreadsheet library, and
      such that the given cells, simply joined by commas, make no more than 50,000 lines of no more than
      200 columns and 1,000,000 columns in all, while no written cell has more than 100,000 characters
      between two commas or line breaks. */
  lemma AcceptedExactly(headers: seq<Text>, rows: seq<seq<Text>>, readable: Text -> bool)
    ensures CreateCsv(headers, rows, readable).Ok? <==>
              && WithinExportLimits(headers, rows)
              && readable(Table(Matrix(headers, rows), COMMA))
              && CountsWithinLimits(AllCounts([headers] + rows))
              && forall i | 0 <= i <= |rows| :: CellsFit(Matrix(headers, rows)[i])
  {
    hide Table, AllCounts, CellsFit, Matrix, WithinDelimitedLimits, CountsWithinLimits;
    if WithinExportLimits(headers, rows) {
      ValidationExactly(headers, rows);
    }
  }

  // ----- the counts in numbers -----

  /** The number of line breaks in a text. */
  function Breaks(s: Text): nat
    decreases |s|
  {
    if s == [] then 0
    else if BreakLength(s) > 0 then 1 + Breaks(s[BreakLength(s)..])
    else Breaks(s[1..])
  }

  function BreaksIn(cells: seq<Text>): nat {
    if cells == [] then 0 else Breaks(cells[0]) + BreaksIn(cells[1..])
  }

  function CommasIn(cells: seq<Text>): nat {
    if cells == [] then 0 else Commas(cells[0]) + CommasIn(cells[1..])
  }

  function AllBreaks(rows: seq<seq<Text>>): nat {
    if rows == [] then 0 else BreaksIn(rows[0]) + AllBreaks(rows[1..])
  }

  function AllCommas(rows: seq<seq<Text>>): nat {
    if rows == [] then 0 else CommasIn(rows[0]) + AllCommas(rows[1..])
  }

  /** A row without cells still counts as one column. */
  function Width(columns: nat): nat {
    if columns == 0 then 1 else columns
  }

  lemma {:induction false} SumCons(n: nat, x: seq<nat>)
    ensures Sum([n] + x) == n + Sum(x)
  {
    if x == [] {
      assert [n] + x == [n] && [n][..0] == [];
    } else {
      var all := [n] + x;
      SumCons(n, x[..|x| - 1]);
      assert all[..|all| - 1] == [n] + x[..|x| - 1];
    }
  }

  lemma {:induction false} SumAppend(x: seq<nat>, y: seq<nat>)
    ensures Sum(x + y) == Sum(x) + Sum(y)
  {
    if x == [] {
      assert x + y == y;
    } else {
      SumAppend(x[1..], y);
      SumCons(x[0], x[1..] + y);
      SumCons(x[0], x[1..]);
      assert x + y == [x[0]] + (x[1..] + y) && x == [x[0]] + x[1..];
    }
  }

  lemma {:induction false} CountsInNumbers(s: Text, n: nat)
    ensures |ColumnCounts(s, n)| == 1 + Breaks(s) && Sum(ColumnCounts(s, n)) == n + Breaks(s) + Commas(s)
    decreases |s|
  {
    if s == [] {
      SumCons(n, []);
      assert [n] + [] == [n];
    } else {
      CountsStep(s, n);
      if BreakLength(s) > 0 {
        var rest := s[BreakLength(s)..];
        CountsInNumbers(rest, 1);
        SumCons(n, ColumnCounts(rest, 1));
        BreakHasNoComma(s);
      } else {
        CountsInNumbers(s[1..], if s[0] == COMMA then n + 1 else n);
      }
    }
  }

  lemma BreakHasNoComma(s: Text)
    requires BreakLength(s) > 0
    ensures Commas(s) == Commas(s[BreakLength(s)..])
  {
    if BreakLength(s) == 2 {
      assert s[1..][1..] == s[2..];
    }
  }

  lemma {:induction false} BreaksOfJoined(a: Text, b: Text)
    ensures Breaks(a + ([COMMA] + b)) == Breaks(a) + Breaks(b)
    decreases |a|
  {
    var s := a + ([COMMA] + b);
    if a == [] {
      assert s == [COMMA] + b && s[1..] == b;
    } else {
      hide BreakLength;
      BreakStays(a, [COMMA] + b);
      var n := if BreakLength(a) > 0 then BreakLength(a) else 1;
      assert s[n..] == a[n..] + ([COMMA] + b);
      BreaksOfJoined(a[n..], b);
    }
  }

  lemma {:induction false} JoinInNumbers(cells: seq<Text>)
    ensures Breaks(Join(cells)) == BreaksIn(cells)
    ensures 1 + Commas(Join(cells)) == Width(|cells|) + CommasIn(cells)
  {
    hide Breaks, Commas;
    if cells == [] {
      NothingToCount();
    } else if |cells| > 1 {
      JoinInNumbers(cells[1..]);
      BreaksOfJoined(cells[0], Join(cells[1..]));
      CommasAppend(cells[0], [COMMA] + Join(cells[1..]));
      CommasAppend([COMMA], Join(cells[1..]));
      NothingToCount();
    } else {
      assert cells[1..] == [];
    }
  }

  lemma NothingToCount()
    ensures Breaks([]) == 0 && Commas([]) == 0 && Commas([COMMA]) == 1
  {
  }

  lemma {:induction false} TableInNumbers(rows: seq<seq<Text>>, columns: nat)
    requires forall i | 0 <= i < |rows| :: |rows[i]| == columns
    ensures |AllCounts(rows)| == |rows| + AllBreaks(rows)
    ensures Sum(AllCounts(rows)) == |rows| * Width(columns) + AllBreaks(rows) + AllCommas(rows)
  {
    hide ColumnCounts, Join, Breaks, Commas, Width, Sum, BreaksIn, CommasIn;
    if rows == [] {
      assert AllCounts(rows) == [];
      SumOfNothing();
    } else {
      TableInNumbers(rows[1..], columns);
      var row := Join(rows[0]);
      CountsInNumbers(row, 1);
      JoinInNumbers(rows[0]);
      SumAppend(ColumnCounts(row, 1), AllCounts(rows[1..]));
      OneMoreRow(|rows[1..]|, Width(columns));
    }
  }

  lemma SumOfNothing()
    ensures Sum([]) == 0
  {
  }

  lemma OneMoreRow(rows: nat, width: nat)
    ensures (rows + 1) * width == rows * width + width
  {
  }

  /** Acceptance in numbers: the lines are the rows and the line breaks inside cells; the columns are those
      of the table, one for every line break inside a cell and one for every comma inside a cell. */
  lemma AcceptedInNumbers(headers: seq<Text>, rows: seq<seq<Text>>, readable: Text -> bool)
    ensures CreateCsv(headers, rows, readable).Ok? <==>
              && WithinExportLimits(headers, rows)
              && readable(Table(Matrix(headers, rows), COMMA))
              && var given := [headers] + rows;
              && |given| + AllBreaks(given) <= MAX_ROWS
              && |given| * Width(|headers|) + AllBreaks(given) + AllCommas(given) <= MAX_CELLS
              && (forall k | 0 <= k < |AllCounts(given)| :: AllCounts(given)[k] <= MAX_COLUMNS)
              && forall i | 0 <= i <= |rows| :: CellsFit(Matrix(headers, rows)[i])
  {
    hide CreateCsv, Table, AllCounts, CellsFit, Matrix, AllBreaks, AllCommas, Width, Sum;
    AcceptedExactly(headers, rows, readable);
    if WithinExportLimits(headers, rows) {
      TableInNumbers([headers] + rows, |headers|);
    }
  }

  // ----- cells without line breaks -----

  lemma {:induction false} BreaklessHasNoBreaks(s: Text)
    requires Breakless(s)
    ensures Breaks(s) == 0
  {
    if s != [] {
      assert s[0] in s;
      BreaklessHasNoBreaks(s[1..]);
    }
  }

  predicate BreaklessRow(cells: seq<Text>) {
    forall j | 0 <= j < |cells| :: Breakless(cells[j])
  }

  lemma {:induction false} BreaklessRowCounts(cells: seq<Text>)
    requires BreaklessRow(cells)
    ensures BreaksIn(cells) == 0
  {
    hide Breaks, Breakless;
    if cells != [] {
      BreaklessHasNoBreaks(cells[0]);
      assert forall j | 1 <= j < |cells| :: cells[j] == cells[1..][j - 1];
      BreaklessRowCounts(cells[1..]);
    }
  }

  lemma {:induction false} BreaklessTable(rows: seq<seq<Text>>)
    requires forall i | 0 <= i < |rows| :: BreaklessRow(rows[i])
    ensures AllBreaks(rows) == 0
    ensures |AllCounts(rows)| == |rows| &&
            forall i | 0 <= i < |rows| :: AllCounts(rows)[i] == Width(|rows[i]|) + CommasIn(rows[i])
  {
    hide ColumnCounts, Breaks, Commas, Width, BreaklessRow, Join, CommasIn;
    if rows != [] {
      var row := Join(rows[0]);
      BreaklessTable(rows[1..]);
      BreaklessRowCounts(rows[0]);
      CountsInNumbers(row, 1);
      JoinInNumbers(rows[0]);
      OneSum(ColumnCounts(row, 1));
      assert forall i | 1 <= i < |rows| :: rows[i] == rows[1..][i - 1];
    }
  }

  lemma OneSum(x: seq<nat>)
    ensures |x| == 1 ==> Sum(x) == x[0]
  {
    if |x| == 1 {
      assert x[..0] == [];
    }
  }

  /** For cells without line breaks: a table within the export limits is written exactly if no row has more
      than 200 columns and commas inside its cells, all rows together no more than 1,000,000, the written
      cells fit, and the spreadsheet library can read the text. */
  lemma AcceptedWithoutBreaks(headers: seq<Text>, rows: seq<seq<Text>>, readable: Text -> bool)
    requires BreaklessRow(headers) && forall i | 0 <= i < |rows| :: BreaklessRow(rows[i])
    ensures CreateCsv(headers, rows, readable).Ok? <==>
              && WithinExportLimits(headers, rows)
              && readable(Table(Matrix(headers, rows), COMMA))
              && var given := [headers] + rows;
              && |given| * Width(|headers|) + AllCommas(given) <= MAX_CELLS
              && (forall i | 0 <= i < |given| :: Width(|headers|) + CommasIn(given[i]) <= MAX_COLUMNS)
              && forall i | 0 <= i <= |rows| :: CellsFit(Matrix(headers, rows)[i])
  {
    hide CreateCsv, Table, AllCounts, CellsFit, Matrix, AllBreaks, AllCommas, Width, BreaklessRow, CommasIn;
    var given := [headers] + rows;
    AcceptedInNumbers(headers, rows, readable);
    BreaklessTable(given);
    if WithinExportLimits(headers, rows) {
      assert forall i | 0 <= i < |given| :: |given[i]| == |headers|;
    }
  }

  function Repeat(c: CodeUnit, n: nat): (r: Text)
    ensures |r| == n && forall i | 0 <= i < n :: r[i] == c
  {
    seq(n, _ => c)
  }

  lemma {:induction false} CommasOfRepeat(n: nat)
    ensures Commas(Repeat(COMMA, n)) == n
  {
    if n > 0 {
      assert Repeat(COMMA, n)[1..] == Repeat(COMMA, n - 1);
      CommasOfRepeat(n - 1);
    }
  }

  /** So commas inside quotes count as columns: a table of one cell that holds 200 commas is within the
      export limits and is still refused. */
  lemma QuotedCommasAreCounted(readable: Text -> bool)
    ensures var headers := [Repeat(COMMA, 200)];
            WithinExportLimits(headers, []) && CreateCsv(headers, [], readable) == Err(UnsupportedFileFormat)
  {
    hide Table, Matrix, AllCommas, CellsFit, Commas, WithinDelimitedLimits;
    var headers := [Repeat(COMMA, 200)];
    AcceptedWithoutBreaks(headers, [], readable);
    CommasOfRepeat(200);
    assert ([headers] + [])[0] == headers;
  }
}
