/** create_dataframe: one block's lines become a table. The schema line
    is the first line that is not a format line; each later non-format
    line is tokenized on tabs and kept only when it has exactly one value
    per column; then the Time column and every other column are typed. */
module TableBuilder {
  import opened Strings
  import opened Wrappers
  import opened LineSyntax
  import opened Cells

  /** What create_dataframe gives back: a table, or the TypeError that
      pd.to_numeric raises (and nothing catches) when a column name other
      than Time is repeated, because selecting that name then gives a
      two-dimensional frame. */
  datatype Outcome = Built(table: Table) | Raised

  /** The lines that are not format lines, in order (NonFormatLinesSnoc:
      one line at a time). */
  function NonFormatLines(lines: seq<string>): (r: seq<string>)
    ensures |r| <= |lines|
    ensures forall i :: 0 <= i < |r| ==> !IsFormatLine(r[i]) && r[i] in lines
    ensures forall i :: 0 <= i < |lines| && !IsFormatLine(lines[i]) ==> lines[i] in r
    ensures (forall i :: 0 <= i < |lines| ==> !IsFormatLine(lines[i])) ==> r == lines
  {
    if lines == [] then []
    else
      var init, last := lines[..|lines| - 1], lines[|lines| - 1];
      assert lines == init + [last];
      NonFormatLines(init) + (if IsFormatLine(last) then [] else [last])
  }

  /** The column list: the first line that is not a format line, read by
      parse_columns; None while there is no such line. */
  function SchemaOf(lines: seq<string>): Option<seq<string>> {
    var content := NonFormatLines(lines);
    if content == [] then None else Some(ParseColumns(content[0]))
  }

  /** The candidate data lines: the non-format lines after the schema line. */
  function DataLinesOf(lines: seq<string>): seq<string> {
    var content := NonFormatLines(lines);
    if content == [] then [] else content[1..]
  }

  /** A data line becomes a row when it has at least one value and exactly
      one value per column. */
  predicate Accepts(columns: seq<string>, values: seq<string>) {
    values != [] && |values| == |columns|
  }

  /** The tokenized lines that pass Accepts, in input order. */
  function AcceptedRows(columns: seq<string>, lines: seq<string>): (rows: seq<seq<string>>)
    ensures |rows| <= |lines|
    ensures forall i :: 0 <= i < |rows| ==> Accepts(columns, rows[i])
  {
    if lines == [] then []
    else
      var values := ParseDataLine(lines[|lines| - 1]);
      AcceptedRows(columns, lines[..|lines| - 1]) + (if Accepts(columns, values) then [values] else [])
  }

  predicate Rectangular<T>(rows: seq<seq<T>>, width: nat) {
    forall i :: 0 <= i < |rows| ==> |rows[i]| == width
  }

  /** How often name occurs among the columns. */
  function CountOf(columns: seq<string>, name: string): nat {
    if columns == [] then 0 else (if columns[0] == name then 1 else 0) + CountOf(columns[1..], name)
  }

  /** Column j of the raw rows. */
  function Column(rows: seq<seq<string>>, j: nat): seq<string>
    requires forall i :: 0 <= i < |rows| ==> j < |rows[i]|
  {
    seq(|rows|, i requires 0 <= i < |rows| => rows[i][j])
  }

  /** Column j replaced in a frame held row by row. */
  function SetColumn(cells: seq<seq<Cell>>, j: nat, column: seq<Cell>): seq<seq<Cell>>
    requires |column| == |cells|
    requires forall i :: 0 <= i < |cells| ==> j < |cells[i]|
  {
    seq(|cells|, i requires 0 <= i < |cells| => cells[i][j := column[i]])
  }

  /** Column j after the type step. The Time column is converted when it
      is the only column of that name and every cell converts; a repeated
      Time makes the Time selection a frame, which pd.to_datetime refuses with
      the ValueError that is caught, so its strings stay. Every other
      column goes through ToNumeric. */
  function TypedColumn(columns: seq<string>, rows: seq<seq<string>>, j: nat): seq<Cell>
    requires j < |columns| && Rectangular(rows, |columns|)
  {
    var cells := Column(rows, j);
    if columns[j] == "Time" then
      if CountOf(columns, "Time") == 1 then
        match ParseTimeColumn(cells)
        case Some(stamps) => stamps
        case None => Texts(cells)
      else Texts(cells)
    else ToNumeric(cells)
  }

  /** Column j is a column other than Time whose name occurs more than once. */
  predicate Repeated(columns: seq<string>, j: nat)
    requires j < |columns|
  {
    columns[j] != "Time" && CountOf(columns, columns[j]) > 1
  }

  /** A column name other than Time that occurs more than once. */
  predicate HasRepeatedValueColumn(columns: seq<string>) {
    exists j | 0 <= j < |columns| :: Repeated(columns, j)
  }

  /** The type step on a table of accepted rows. */
  function TypeColumns(columns: seq<string>, rows: seq<seq<string>>): (r: Outcome)
    requires Rectangular(rows, |columns|)
    ensures r.Raised? <==> HasRepeatedValueColumn(columns)
    ensures r.Built? ==> r.table.columns == columns && |r.table.rows| == |rows|
    ensures r.Built? ==> Rectangular(r.table.rows, |columns|)
  {
    if HasRepeatedValueColumn(columns) then Raised
    else Built(Table(columns, TypedRows(columns, rows)))
  }

  /** The rows of the frame once every column holds its typed cells. */
  function TypedRows(columns: seq<string>, rows: seq<seq<string>>): (r: seq<seq<Cell>>)
    requires Rectangular(rows, |columns|)
    ensures |r| == |rows| && Rectangular(r, |columns|)
  {
    seq(|rows|, i requires 0 <= i < |rows| =>
      seq(|columns|, j requires 0 <= j < |columns| => TypedColumn(columns, rows, j)[i]))
  }

  /** The table create_dataframe returns for the lines of one block. */
  function BuildTable(lines: seq<string>): Outcome {
    match SchemaOf(lines)
    case None => Built(EmptyTable)
    case Some(columns) =>
      var rows := AcceptedRows(columns, DataLinesOf(lines));
      if columns == [] || rows == [] then Built(EmptyTable) else TypeColumns(columns, rows)
  }

  lemma NonFormatLinesSnoc(lines: seq<string>, line: string)
    ensures NonFormatLines(lines + [line]) == NonFormatLines(lines) + (if IsFormatLine(line) then [] else [line])
  {
    assert (lines + [line])[..|lines|] == lines;
  }

  /** How one more line changes the schema and the data lines. */
  lemma LinesSnoc(lines: seq<string>, line: string)
    ensures IsFormatLine(line) ==> SchemaOf(lines + [line]) == SchemaOf(lines) && DataLinesOf(lines + [line]) == DataLinesOf(lines)
    ensures !IsFormatLine(line) && SchemaOf(lines).None? ==>
      SchemaOf(lines + [line]) == Some(ParseColumns(line)) && DataLinesOf(lines + [line]) == []
    ensures !IsFormatLine(line) && SchemaOf(lines).Some? ==>
      SchemaOf(lines + [line]) == SchemaOf(lines) && DataLinesOf(lines + [line]) == DataLinesOf(lines) + [line]
  {
    if IsFormatLine(line) {
      FormatLineSnoc(lines, line);
    } else if SchemaOf(lines).None? {
      SchemaLineSnoc(lines, line);
    } else {
      DataLineSnoc(lines, line);
    }
  }

  /** A format line changes neither the schema nor the data lines. */
  lemma FormatLineSnoc(lines: seq<string>, line: string)
    requires IsFormatLine(line)
    ensures SchemaOf(lines + [line]) == SchemaOf(lines) && DataLinesOf(lines + [line]) == DataLinesOf(lines)
  {
    NonFormatLinesSnoc(lines, line);
  }

  /** The first other line is the schema line. */
  lemma SchemaLineSnoc(lines: seq<string>, line: string)
    requires !IsFormatLine(line) && SchemaOf(lines).None?
    ensures SchemaOf(lines + [line]) == Some(ParseColumns(line)) && DataLinesOf(lines + [line]) == []
  {
    NonFormatLinesSnoc(lines, line);
    assert NonFormatLines(lines + [line]) == [line];
  }

  /** Every later other line is a data line. */
  lemma DataLineSnoc(lines: seq<string>, line: string)
    requires !IsFormatLine(line) && SchemaOf(lines).Some?
    ensures SchemaOf(lines + [line]) == SchemaOf(lines) && DataLinesOf(lines + [line]) == DataLinesOf(lines) + [line]
  {
    NonFormatLinesSnoc(lines, line);
    var before, after := NonFormatLines(lines), NonFormatLines(lines + [line]);
    assert after == before + [line];
    assert after[0] == before[0];
    assert after[1..] == before[1..] + [line];
  }

  lemma AcceptedRowsSnoc(columns: seq<string>, lines: seq<string>, line: string)
    ensures AcceptedRows(columns, lines + [line]) ==
      AcceptedRows(columns, lines) + (if Accepts(columns, ParseDataLine(line)) then [ParseDataLine(line)] else [])
  {
    assert (lines + [line])[..|lines|] == lines;
  }

  lemma CountOfOne(columns: seq<string>, name: string, k: nat)
    requires CountOf(columns, name) == 1 && name in columns
    requires k < |columns| && columns[k] == name
    ensures k == IndexOf(columns, name)
  {
    if columns[0] != name {
      CountOfOne(columns[1..], name, k - 1);
    } else if k > 0 {
      CountOfPositive(columns[1..], name, k - 1);
    }
  }

  lemma CountOfPositive(columns: seq<string>, name: string, k: nat)
    requires k < |columns| && columns[k] == name
    ensures CountOf(columns, name) > 0
  {
    if k > 0 {
      CountOfPositive(columns[1..], name, k - 1);
    }
  }

  /** The first loop of create_dataframe: the column list is fixed by the
      first line that is not a format line, and every later non-format
      line whose values fit the columns is appended to the data. */
  method CollectRows(blockLines: seq<string>) returns (columns: Option<seq<string>>, data: seq<seq<string>>)
    ensures columns == SchemaOf(blockLines)
    ensures data == if columns.None? then [] else AcceptedRows(columns.value, DataLinesOf(blockLines))
  {
    columns := None;
    data := [];
    for i := 0 to |blockLines|
      invariant columns == SchemaOf(blockLines[..i])
      invariant data == if columns.None? then [] else AcceptedRows(columns.value, DataLinesOf(blockLines[..i]))
    {
      var line := blockLines[i];
      assert blockLines[..i + 1] == blockLines[..i] + [line];
      LinesSnoc(blockLines[..i], line);
      if IsFormatLine(line) {
        // a format description line is skipped
      } else if columns.None? {
        columns := Some(ParseColumns(line));
      } else {
        AcceptedRowsSnoc(columns.value, DataLinesOf(blockLines[..i]), line);
        var values := ParseDataLine(line);
        if values != [] && |values| == |columns.value| {
          data := data + [values];
        }
      }
    }
    assert blockLines[..|blockLines|] == blockLines;
  }

  /** Replacing column j changes that column of every row and nothing else. */
  lemma SetColumnCells(cells: seq<seq<Cell>>, j: nat, column: seq<Cell>)
    requires |column| == |cells|
    requires forall i :: 0 <= i < |cells| ==> j < |cells[i]|
    ensures |SetColumn(cells, j, column)| == |cells|
    ensures forall i :: 0 <= i < |cells| ==> |SetColumn(cells, j, column)[i]| == |cells[i]|
    ensures forall i, k :: 0 <= i < |cells| && 0 <= k < |cells[i]| ==>
      SetColumn(cells, j, column)[i][k] == if k == j then column[i] else cells[i][k]
  {
  }

  /** A frame whose every column holds its typed cells is what the type step
      builds once no value column name is repeated. */
  lemma TypedFrame(cols: seq<string>, data: seq<seq<string>>, cells: seq<seq<Cell>>)
    requires Rectangular(data, |cols|) && |cells| == |data| && Rectangular(cells, |cols|)
    requires !HasRepeatedValueColumn(cols)
    requires Typed(cols, data, TypedRows(cols, data), cells, |cols|)
    ensures TypeColumns(cols, data) == Built(Table(cols, cells))
  {
    var target := TypedRows(cols, data);
    forall i | 0 <= i < |data|
      ensures cells[i] == target[i]
    {
    }
  }

  /** The frame while the value columns are rewritten: the first j columns
      and the Time column hold their target cells, the others still hold
      their strings. */
  predicate Typed(cols: seq<string>, data: seq<seq<string>>, target: seq<seq<Cell>>, cells: seq<seq<Cell>>, j: nat)
    requires Rectangular(data, |cols|) && |cells| == |data| && Rectangular(cells, |cols|)
    requires |target| == |data| && Rectangular(target, |cols|)
  {
    forall i, k :: 0 <= i < |data| && 0 <= k < |cols| ==>
      cells[i][k] == if k < j || cols[k] == "Time" then target[i][k] else Text(data[i][k])
  }

  /** The Time column is passed over by the value loop. */
  lemma TimeSkipped(cols: seq<string>, data: seq<seq<string>>, target: seq<seq<Cell>>, cells: seq<seq<Cell>>, j: nat)
    requires Rectangular(data, |cols|) && |cells| == |data| && Rectangular(cells, |cols|)
    requires |target| == |data| && Rectangular(target, |cols|)
    requires j < |cols| && cols[j] == "Time" && Typed(cols, data, target, cells, j)
    ensures Typed(cols, data, target, cells, j + 1)
  {
    forall i, k | 0 <= i < |data| && 0 <= k < |cols|
      ensures cells[i][k] == if k < j + 1 || cols[k] == "Time" then target[i][k] else Text(data[i][k])
    {
      var row, name := cells[i], cols[k];
      assert row[k] == if k < j || name == "Time" then target[i][k] else Text(data[i][k]);
    }
  }

  /** Rewriting value column j types it and leaves the rest. */
  lemma ValueStep(cols: seq<string>, data: seq<seq<string>>, cells: seq<seq<Cell>>, j: nat)
    requires Rectangular(data, |cols|) && |cells| == |data| && Rectangular(cells, |cols|)
    requires j < |cols| && cols[j] != "Time" && Typed(cols, data, TypedRows(cols, data), cells, j)
    ensures var next := SetColumn(cells, j, ToNumeric(Column(data, j)));
      |next| == |data| && Rectangular(next, |cols|) && Typed(cols, data, TypedRows(cols, data), next, j + 1)
  {
    var target := TypedRows(cols, data);
    var column := ToNumeric(Column(data, j));
    assert forall i :: 0 <= i < |data| ==> target[i][j] == column[i] by {
      assert TypedColumn(cols, data, j) == column;
    }
    SetColumnCells(cells, j, column);
  }

  /** The Time step of create_dataframe: afterwards the Time column holds
      its typed cells and every other column its strings. */
  method ConvertTime(cols: seq<string>, data: seq<seq<string>>) returns (cells: seq<seq<Cell>>)
    requires Rectangular(data, |cols|)
    ensures |cells| == |data| && Rectangular(cells, |cols|)
    ensures Typed(cols, data, TypedRows(cols, data), cells, 0)
  {
    // the frame as first built: every cell is still its string
    var texts := seq(|data|, i requires 0 <= i < |data| => Texts(data[i]));
    cells := texts;
    if "Time" in cols {
      var t := IndexOf(cols, "Time");
      var converted := if CountOf(cols, "Time") == 1 then ParseTimeColumn(Column(data, t)) else None;
      if converted.Some? {
        cells := SetColumn(texts, t, converted.value);
        TimeColumnTyped(cols, data, t, converted.value);
        OnlyTime(cols, t);
        TimeConverted(cols, data, TypedRows(cols, data), texts, t, converted.value, cells);
        return;
      }
      // otherwise the error is printed and the Time column is left as strings
    }
    TimeLeft(cols, data, texts);
  }

  /** When the Time column is converted, it alone holds typed cells. */
  lemma TimeConverted(cols: seq<string>, data: seq<seq<string>>, target: seq<seq<Cell>>, texts: seq<seq<Cell>>,
                      t: nat, stamps: seq<Cell>, cells: seq<seq<Cell>>)
    requires Rectangular(data, |cols|) && |texts| == |data| && Rectangular(texts, |cols|)
    requires |target| == |data| && Rectangular(target, |cols|)
    requires forall i, k :: 0 <= i < |data| && 0 <= k < |cols| ==> texts[i][k] == Text(data[i][k])
    requires t < |cols| && cols[t] == "Time"
    requires forall k :: 0 <= k < |cols| && k != t ==> cols[k] != "Time"
    requires |stamps| == |data| && forall i :: 0 <= i < |data| ==> target[i][t] == stamps[i]
    requires |cells| == |data| && forall i :: 0 <= i < |data| ==> cells[i] == texts[i][t := stamps[i]]
    ensures |cells| == |data| && Rectangular(cells, |cols|)
    ensures Typed(cols, data, target, cells, 0)
  {
    forall i, k | 0 <= i < |data| && 0 <= k < |cols|
      ensures cells[i][k] == if cols[k] == "Time" then target[i][k] else Text(data[i][k])
    {
      if k != t {
        assert cols[k] != "Time";
      }
    }
  }

  /** The typed Time column, when every cell converts, is the converted column. */
  lemma TimeColumnTyped(cols: seq<string>, data: seq<seq<string>>, t: nat, stamps: seq<Cell>)
    requires Rectangular(data, |cols|)
    requires t < |cols| && cols[t] == "Time" && CountOf(cols, "Time") == 1
    requires ParseTimeColumn(Column(data, t)) == Some(stamps)
    ensures forall i :: 0 <= i < |data| ==> TypedRows(cols, data)[i][t] == stamps[i]
  {
    assert TypedColumn(cols, data, t) == stamps;
  }

  /** A name that occurs once occurs nowhere else. */
  lemma OnlyTime(cols: seq<string>, t: nat)
    requires t < |cols| && cols[t] == "Time" && CountOf(cols, "Time") == 1
    ensures forall k :: 0 <= k < |cols| && k != t ==> cols[k] != "Time"
  {
    forall k | 0 <= k < |cols| && k != t
      ensures cols[k] != "Time"
    {
      if cols[k] == "Time" {
        CountOfOne(cols, "Time", k);
        CountOfOne(cols, "Time", t);
      }
    }
  }

  /** When the Time column is not converted, every cell is its string. */
  lemma TimeLeft(cols: seq<string>, data: seq<seq<string>>, texts: seq<seq<Cell>>)
    requires Rectangular(data, |cols|) && |texts| == |data| && Rectangular(texts, |cols|)
    requires forall i, k :: 0 <= i < |data| && 0 <= k < |cols| ==> texts[i][k] == Text(data[i][k])
    requires "Time" in cols && CountOf(cols, "Time") == 1 ==> ParseTimeColumn(Column(data, IndexOf(cols, "Time"))).None?
    ensures Typed(cols, data, TypedRows(cols, data), texts, 0)
  {
    var target := TypedRows(cols, data);
    forall i, k | 0 <= i < |data| && 0 <= k < |cols|
      ensures texts[i][k] == if cols[k] == "Time" then target[i][k] else Text(data[i][k])
    {
      assert target[i][k] == TypedColumn(cols, data, k)[i];
      if cols[k] == "Time" && CountOf(cols, "Time") == 1 {
        CountOfOne(cols, "Time", k);
      }
    }
  }

  /** One pass of the value loop: column j goes through ToNumeric. */
  method NumericColumn(cols: seq<string>, data: seq<seq<string>>, cells: seq<seq<Cell>>, j: nat)
    returns (next: seq<seq<Cell>>)
    requires Rectangular(data, |cols|) && |cells| == |data| && Rectangular(cells, |cols|)
    requires j < |cols| && cols[j] != "Time" && Typed(cols, data, TypedRows(cols, data), cells, j)
    ensures |next| == |data| && Rectangular(next, |cols|) && Typed(cols, data, TypedRows(cols, data), next, j + 1)
  {
    ValueStep(cols, data, cells, j);
    next := SetColumn(cells, j, ToNumeric(Column(data, j)));
  }

  /** The type step of create_dataframe on the collected rows: the Time
      conversion, then a loop that rewrites every other column in place. */
  method TypeFrame(cols: seq<string>, data: seq<seq<string>>) returns (outcome: Outcome)
    requires Rectangular(data, |cols|)
    ensures outcome == TypeColumns(cols, data)
  {
    var cells := ConvertTime(cols, data);
    ghost var target := TypedRows(cols, data);
    for j := 0 to |cols|
      invariant |cells| == |data| && Rectangular(cells, |cols|)
      invariant forall k :: 0 <= k < j ==> !Repeated(cols, k)
      invariant Typed(cols, data, target, cells, j)
    {
      if cols[j] != "Time" {
        if CountOf(cols, cols[j]) > 1 {
          assert Repeated(cols, j);
          return Raised;
        }
        cells := NumericColumn(cols, data, cells, j);
      } else {
        TimeSkipped(cols, data, target, cells, j);
      }
    }
    TypedFrame(cols, data, cells);
    outcome := Built(Table(cols, cells));
  }

  /** create_dataframe: the rows are collected, an incomplete block gives
      the empty frame, and otherwise the columns are typed. */
  method CreateDataframe(blockLines: seq<string>) returns (outcome: Outcome)
    ensures outcome == BuildTable(blockLines)
  {
    var columns, data := CollectRows(blockLines);
    if columns.None? || columns.value == [] || data == [] {
      return Built(EmptyTable);
    }
    outcome := TypeFrame(columns.value, data);
  }

  /** NonFormatLines distributes over concatenation. */
  lemma {:induction false} NonFormatLinesAppend(a: seq<string>, b: seq<string>)
    ensures NonFormatLines(a + b) == NonFormatLines(a) + NonFormatLines(b)
    decreases |b|
  {
    if b == [] {
      assert a + b == a;
    } else {
      var init, last := b[..|b| - 1], b[|b| - 1];
      assert a + b == (a + init) + [last];
      assert b == init + [last];
      NonFormatLinesSnoc(a + init, last);
      NonFormatLinesSnoc(init, last);
      NonFormatLinesAppend(a, init);
    }
  }

  /** Dropping the format lines first changes nothing: their position is
      irrelevant to the table. */
  lemma FormatLinesIgnored(lines: seq<string>)
    ensures BuildTable(NonFormatLines(lines)) == BuildTable(lines)
  {
    NonFormatLinesIdempotent(lines);
  }

  lemma {:induction false} NonFormatLinesIdempotent(lines: seq<string>)
    ensures NonFormatLines(NonFormatLines(lines)) == NonFormatLines(lines)
  {
    if lines != [] {
      var init, last := lines[..|lines| - 1], lines[|lines| - 1];
      NonFormatLinesIdempotent(init);
      NonFormatLinesAppend(NonFormatLines(init), if IsFormatLine(last) then [] else [last]);
      if !IsFormatLine(last) {
        assert [last][..0] == [];
      }
    }
  }

  /** The schema is read from the first line that is not a format line and
      never again: whatever follows, headed by format lines or not, only
      supplies data lines. */
  lemma SchemaIsFirstOtherLine(formats: seq<string>, schema: string, rest: seq<string>)
    requires forall i :: 0 <= i < |formats| ==> IsFormatLine(formats[i])
    requires !IsFormatLine(schema)
    ensures SchemaOf(formats + [schema] + rest) == Some(ParseColumns(schema))
    ensures DataLinesOf(formats + [schema] + rest) == NonFormatLines(rest)
  {
    NoNonFormatLines(formats);
    NonFormatLinesAppend(formats + [schema], rest);
    NonFormatLinesSnoc(formats, schema);
    assert ([schema] + NonFormatLines(rest))[1..] == NonFormatLines(rest);
  }

  lemma {:induction false} NoNonFormatLines(lines: seq<string>)
    requires forall i :: 0 <= i < |lines| ==> IsFormatLine(lines[i])
    ensures NonFormatLines(lines) == []
  {
    if lines != [] {
      NoNonFormatLines(lines[..|lines| - 1]);
    }
  }

  /** A block without any line besides format lines has no schema and is
      the empty frame. */
  lemma OnlyFormatLines(lines: seq<string>)
    requires forall i :: 0 <= i < |lines| ==> IsFormatLine(lines[i])
    ensures SchemaOf(lines).None? && BuildTable(lines) == Built(EmptyTable)
  {
    NoNonFormatLines(lines);
  }

  /** Rows are accepted line by line, independently of their neighbours. */
  lemma {:induction false} AcceptedRowsAppend(columns: seq<string>, a: seq<string>, b: seq<string>)
    ensures AcceptedRows(columns, a + b) == AcceptedRows(columns, a) + AcceptedRows(columns, b)
    decreases |b|
  {
    if b == [] {
      assert a + b == a;
    } else {
      var init, last := b[..|b| - 1], b[|b| - 1];
      var row := if Accepts(columns, ParseDataLine(last)) then [ParseDataLine(last)] else [];
      assert a + b == (a + init) + [last];
      assert b == init + [last];
      calc {
        AcceptedRows(columns, a + b);
        { AcceptedRowsSnoc(columns, a + init, last); }
        AcceptedRows(columns, a + init) + row;
        { AcceptedRowsAppend(columns, a, init); }
        (AcceptedRows(columns, a) + AcceptedRows(columns, init)) + row;
        AcceptedRows(columns, a) + (AcceptedRows(columns, init) + row);
        { AcceptedRowsSnoc(columns, init, last); }
        AcceptedRows(columns, a) + AcceptedRows(columns, b);
      }
    }
  }

  /** A line of the wrong width contributes no row; a line of one
      non-empty value per column contributes exactly that row, in place. */
  lemma RowAcceptance(columns: seq<string>, before: seq<string>, line: string, after: seq<string>)
    ensures AcceptedRows(columns, before + [line] + after) ==
      AcceptedRows(columns, before)
      + (if Accepts(columns, ParseDataLine(line)) then [ParseDataLine(line)] else [])
      + AcceptedRows(columns, after)
  {
    AcceptedRowsAppend(columns, before + [line], after);
    AcceptedRowsSnoc(columns, before, line);
  }

  /** Values joined by tabs, one per column, make a row of exactly those
      values. */
  lemma TabRowAccepted(columns: seq<string>, values: seq<string>)
    requires |values| == |columns| >= 1
    requires forall i :: 0 <= i < |values| ==> values[i] != [] && Trimmed(values[i]) && '\t' !in values[i]
    ensures AcceptedRows(columns, [Join(values, '\t')]) == [values]
  {
    ParseDataLineJoin(values);
    assert [] + [Join(values, '\t')] == [Join(values, '\t')];
    AcceptedRowsSnoc(columns, [], Join(values, '\t'));
  }

  /** The frame is empty exactly when there is no schema, the schema has no
      column, or no data line fits it; the type step raises exactly when
      there are rows and a value column name is repeated; otherwise the
      table has the schema's columns and one row per accepted line, each
      as wide as the schema. */
  lemma BuildTableShape(lines: seq<string>)
    ensures BuildTable(lines) == Built(EmptyTable) <==>
      SchemaOf(lines).None? || SchemaOf(lines).value == [] || AcceptedRows(SchemaOf(lines).value, DataLinesOf(lines)) == []
    ensures BuildTable(lines).Raised? <==>
      && SchemaOf(lines).Some? && SchemaOf(lines).value != []
      && AcceptedRows(SchemaOf(lines).value, DataLinesOf(lines)) != []
      && HasRepeatedValueColumn(SchemaOf(lines).value)
    ensures BuildTable(lines).Built? && BuildTable(lines) != Built(EmptyTable) ==>
      && SchemaOf(lines).Some?
      && BuildTable(lines).table.columns == SchemaOf(lines).value
      && |BuildTable(lines).table.rows| == |AcceptedRows(SchemaOf(lines).value, DataLinesOf(lines))|
      && Rectangular(BuildTable(lines).table.rows, |SchemaOf(lines).value|)
  {
  }

  /** Column j of a built table is the typed column j. */
  lemma TableColumn(cols: seq<string>, rows: seq<seq<string>>, j: nat)
    requires Rectangular(rows, |cols|) && j < |cols|
    requires TypeColumns(cols, rows).Built?
    ensures forall i :: 0 <= i < |rows| ==> TypeColumns(cols, rows).table.rows[i][j] == TypedColumn(cols, rows, j)[i]
  {
  }

  /** The Time column of a built table is converted as a whole: when Time
      is named once and pd.to_datetime accepts the whole column (every
      string is a NaT string or parses, see ParseTimeColumn), the column
      holds the converted cells; otherwise every cell is its string. */
  lemma TimeColumnAllOrNothing(cols: seq<string>, rows: seq<seq<string>>, t: nat)
    requires Rectangular(rows, |cols|) && t < |cols| && cols[t] == "Time"
    requires TypeColumns(cols, rows).Built?
    ensures var typed := TypeColumns(cols, rows).table.rows;
      var stamps := ParseTimeColumn(Column(rows, t));
      if CountOf(cols, "Time") == 1 && stamps.Some? then
        forall i :: 0 <= i < |rows| ==> typed[i][t] == stamps.value[i]
      else
        forall i :: 0 <= i < |rows| ==> typed[i][t] == Text(rows[i][t])
  {
    TableColumn(cols, rows, t);
  }

  /** Every other column of a built table: a "-" cell is missing, and the
      remaining cells are all numbers (when each of them reads as one) or
      all left as their strings. */
  lemma ValueColumnLaw(cols: seq<string>, rows: seq<seq<string>>, j: nat)
    requires Rectangular(rows, |cols|) && j < |cols| && cols[j] != "Time"
    requires TypeColumns(cols, rows).Built?
    ensures var typed := TypeColumns(cols, rows).table.rows;
      && (forall i :: 0 <= i < |rows| && rows[i][j] == "-" ==> typed[i][j] == Missing)
      && (AllNumbers(Column(rows, j)) ==>
            forall i :: 0 <= i < |rows| && rows[i][j] != "-" ==> typed[i][j] == Number(rows[i][j]))
      && (!AllNumbers(Column(rows, j)) ==>
            forall i :: 0 <= i < |rows| && rows[i][j] != "-" ==> typed[i][j] == Text(rows[i][j]))
  {
  }
}
