/** Worked instances of create_dataframe on small blocks, as the
    typical instrument export lays them out. */
module Scenarios {
  import opened Wrappers
  import opened Strings
  import opened LineSyntax
  import opened Cells
  import opened TableBuilder
  import opened Segmenter
  import opened Parser
  import OrderedDict

  /** A block of a column line and one data line, neither a format line,
      is typed from those two lines alone. */
  lemma SingleRow(header: string, line: string)
    requires !IsFormatLine(header) && !IsFormatLine(line)
    requires ParseColumns(header) != []
    requires Accepts(ParseColumns(header), ParseDataLine(line))
    ensures BuildTable([header, line]) == TypeColumns(ParseColumns(header), [ParseDataLine(line)])
  {
    var lines, cols := [header, line], ParseColumns(header);
    assert NonFormatLines(lines) == lines by {
      assert NonFormatLines([header]) == [header] by {
        assert [header][..0] == [];
      }
      assert lines[..1] == [header];
    }
    assert SchemaOf(lines) == Some(cols);
    assert DataLinesOf(lines) == [line];
    assert AcceptedRows(cols, [line]) == [ParseDataLine(line)] by {
      AcceptedRowsSnoc(cols, [], line);
      assert [] + [line] == [line];
    }
  }

  /** Two distinct names occur once each. */
  lemma DistinctPair(a: string, b: string)
    requires a != b
    ensures CountOf([a, b], a) == 1 && CountOf([a, b], b) == 1
  {
    assert [a, b][1..] == [b] && [b][1..] == [];
    assert CountOf([], a) == 0 && CountOf([], b) == 0;
    assert CountOf([b], a) == 0 && CountOf([b], b) == 1;
  }

  /** A number is never the missing-value marker. */
  lemma NumberNotMarker(n: string)
    requires IsNumber(n)
    ensures n != "-"
  {
    NumberForms("0", "");
  }

  /** A Time column of one parsable cell parses to that one timestamp. */
  lemma SingleTime(stamp: string, c: Cell)
    requires ParseTime(stamp) == Some(c)
    ensures ParseTimeColumn([stamp]) == Some([c])
  {
    assert [stamp][1..] == [];
    assert ParseTimeColumn([]) == Some([]);
    assert [c] + [] == [c];
  }

  /** Two distinct value columns and one row: a number in the first and a
      word in the second give a number cell and a text cell. */
  lemma NumberThenText(a: string, b: string, n: string, x: string)
    requires a != b && a != "Time" && b != "Time"
    requires IsNumber(n) && x != "-" && !IsNumber(x)
    ensures TypeColumns([a, b], [[n, x]]) == Built(Table([a, b], [[Number(n), Text(x)]]))
  {
    var cols, rows := [a, b], [[n, x]];
    DistinctPair(a, b);
    assert !HasRepeatedValueColumn(cols);
    NumberNotMarker(n);
    assert Column(rows, 0) == [n] && Column(rows, 1) == [x];
    ValueColumnLaw(cols, rows, 0);
    ValueColumnLaw(cols, rows, 1);
    var t := TypeColumns(cols, rows).table;
    assert t.rows[0] == [Number(n), Text(x)];
  }

  /** A Time column of one parsable cell and a value column holding a
      number give a timestamp and a number. */
  lemma TimeThenNumber(b: string, stamp: string, n: string, c: Cell)
    requires b != "Time"
    requires ParseTime(stamp) == Some(c) && IsNumber(n)
    ensures TypeColumns(["Time", b], [[stamp, n]]) == Built(Table(["Time", b], [[c, Number(n)]]))
  {
    var cols, rows := ["Time", b], [[stamp, n]];
    DistinctPair("Time", b);
    assert !HasRepeatedValueColumn(cols);
    NumberNotMarker(n);
    assert Column(rows, 0) == [stamp] && Column(rows, 1) == [n];
    SingleTime(stamp, c);
    TimeColumnAllOrNothing(cols, rows, 0);
    ValueColumnLaw(cols, rows, 1);
    var t := TypeColumns(cols, rows).table;
    assert t.rows[0] == [c, Number(n)];
  }

  /** A block of a column line naming Time and one value column, and one
      data line of a parsable time and a number. */
  lemma TimeAndValueBlock(header: string, line: string, b: string, stamp: string, n: string, c: Cell)
    requires !IsFormatLine(header) && !IsFormatLine(line)
    requires ParseColumns(header) == ["Time", b] && b != "Time"
    requires ParseDataLine(line) == [stamp, n]
    requires ParseTime(stamp) == Some(c) && IsNumber(n)
    ensures BuildTable([header, line]) == Built(Table(["Time", b], [[c, Number(n)]]))
  {
    SingleRow(header, line);
    TimeThenNumber(b, stamp, n, c);
  }

  /** A block of a column line naming two value columns, and one data line
      of a number and a word. */
  lemma NumberAndWordBlock(header: string, line: string, a: string, b: string, n: string, x: string)
    requires !IsFormatLine(header) && !IsFormatLine(line)
    requires ParseColumns(header) == [a, b] && a != b && a != "Time" && b != "Time"
    requires ParseDataLine(line) == [n, x]
    requires IsNumber(n) && x != "-" && !IsNumber(x)
    ensures BuildTable([header, line]) == Built(Table([a, b], [[Number(n), Text(x)]]))
  {
    SingleRow(header, line);
    NumberThenText(a, b, n, x);
  }

  /** Two names, each followed by a space and its unit in parentheses,
      separated by a tab: the column line reads as the two names. */
  lemma TwoHeadingsRead(a: string, u: string, b: string, v: string)
    requires a != [] && NoSpace(a) && '(' !in a && ')' !in u
    requires b != [] && NoSpace(b) && '(' !in b && ')' !in v
    ensures ParseColumns(a + " (" + u + ")\t" + b + " (" + v + ")") == [a, b]
  {
    var labels := [a + " " + "(" + u + ")", b + " " + "(" + v + ")"];
    assert Join(labels, '\t') == a + " (" + u + ")\t" + b + " (" + v + ")" by {
      assert labels[1..] == [labels[1]];
      assert Join([labels[1]], '\t') == labels[1];
    }
    ParseColumnsUnits(labels, [a, b], [u, v], '\t');
  }

  /** The column line `Time (hh:mm)<TAB>conc (mmol/L)`. */
  const UnitsHeader: string := "Time" + " (" + "hh:mm" + ")\t" + "conc" + " (" + "mmol/L" + ")"

  /** A column line whose headings carry their units in parentheses: the
      units are removed and the names remain. */
  lemma UnitsHeaderRead()
    ensures ParseColumns(UnitsHeader) == ["Time", "conc"]
  {
    TwoHeadingsRead("Time", "hh:mm", "conc", "mmol/L");
  }

  const TwoColumns: string := "A\tB"
  const NumberAndWord: string := "1\tx"

  lemma TwoColumnsRead()
    ensures ParseColumns(TwoColumns) == ["A", "B"]
  {
    assert TwoColumns == Join(["A", "B"], '\t');
    ParseColumnsJoin(["A", "B"], '\t');
  }

  lemma NumberAndWordRead()
    ensures ParseDataLine(NumberAndWord) == ["1", "x"]
  {
    assert NumberAndWord == Join(["1", "x"], '\t');
    ParseDataLineJoin(["1", "x"]);
  }

  lemma NumberAndWordContent()
    ensures !IsFormatLine(TwoColumns) && !IsFormatLine(NumberAndWord)
  {
    assert '(' !in TwoColumns && '(' !in NumberAndWord;
    FormatLineHasParen(TwoColumns);
    FormatLineHasParen(NumberAndWord);
  }

  /** Columns A and B with the single data line "1\tx": one row, A the
      number 1 and B the text "x". */
  lemma NumberAndText()
    ensures BuildTable([TwoColumns, NumberAndWord]) == Built(Table(["A", "B"], [[Number("1"), Text("x")]]))
  {
    TwoColumnsRead();
    NumberAndWordRead();
    NumberAndWordContent();
    NumberForms("1", "");
    NumberStart("x");
    NumberAndWordBlock(TwoColumns, NumberAndWord, "A", "B", "1", "x");
  }

  /** The header of the glucose block in the typical export: it carries
      the date layout mark, so it is a format line. */
  const GlucoseHeader: string := "Time (dd/mm/yyyy hh:mm)\tconc (mmol/L)"
  const GlucoseFirst: string := "01/01/2024 08:00\t5.5"
  const GlucoseSecond: string := "01/01/2024 08:05\t-"
  const GlucoseBody: seq<string> := [GlucoseHeader, GlucoseFirst, GlucoseSecond]

  lemma GlucoseHeaderSkipped()
    ensures IsFormatLine(GlucoseHeader)
  {
    var mark := "(dd/mm/yyyy";
    var rest := " hh:mm)\tconc (mmol/L)";
    assert GlucoseHeader == "Time " + mark + rest;
    assert GlucoseHeader[5..5 + |mark|] == mark;
    assert OccursAt(GlucoseHeader, mark, 5);
  }

  /** Three words separated by single whitespace characters are three
      columns. */
  lemma ThreeWords(a: string, b: string, c: string, s: char, t: char)
    requires a != [] && NoSpace(a) && '(' !in a
    requires b != [] && NoSpace(b) && '(' !in b
    requires c != [] && NoSpace(c) && '(' !in c
    requires IsSpace(s) && IsSpace(t)
    ensures ParseColumns(a + ([s] + (b + ([t] + c)))) == [a, b, c]
  {
    var line := a + ([s] + (b + ([t] + c)));
    assert '(' !in line;
    calc {
      SplitWhitespace(line);
      { SplitWhitespaceWord(a, [s] + (b + ([t] + c))); }
      [a] + SplitWhitespace([s] + (b + ([t] + c)));
      { SplitWhitespaceSpace(s, b + ([t] + c)); }
      [a] + SplitWhitespace(b + ([t] + c));
      { SplitWhitespaceWord(b, [t] + c); }
      [a] + ([b] + SplitWhitespace([t] + c));
      { SplitWhitespaceSpace(t, c); }
      [a] + ([b] + SplitWhitespace(c));
      { SplitWhitespaceWord(c, []); assert c + [] == c; }
      [a] + ([b] + ([c] + SplitWhitespace([])));
      [a, b, c];
    }
    assert Trimmed(a) && Trimmed(b) && Trimmed(c);
  }

  /** The first data line is read as the column list: three columns. */
  lemma GlucoseSchema()
    ensures ParseColumns(GlucoseFirst) == ["01/01/2024", "08:00", "5.5"]
  {
    assert GlucoseFirst == "01/01/2024" + ([' '] + ("08:00" + (['\t'] + "5.5")));
    ThreeWords("01/01/2024", "08:00", "5.5", ' ', '\t');
  }

  lemma GlucoseSecondValues()
    ensures ParseDataLine(GlucoseSecond) == ["01/01/2024 08:05", "-"]
  {
    assert GlucoseSecond == Join(["01/01/2024 08:05", "-"], '\t');
    ParseDataLineJoin(["01/01/2024 08:05", "-"]);
  }

  /** Neither data line carries a format mark. */
  lemma GlucoseDataLines()
    ensures !IsFormatLine(GlucoseFirst) && !IsFormatLine(GlucoseSecond)
  {
    assert '(' !in GlucoseFirst && '(' !in GlucoseSecond;
    FormatLineHasParen(GlucoseFirst);
    FormatLineHasParen(GlucoseSecond);
  }

  /** Only the header of the glucose block is a format line. */
  lemma GlucoseContent()
    ensures NonFormatLines(GlucoseBody) == [GlucoseFirst, GlucoseSecond]
  {
    var lines := GlucoseBody;
    GlucoseHeaderSkipped();
    GlucoseDataLines();
    assert NonFormatLines([GlucoseHeader]) == [] by {
      assert [GlucoseHeader][..0] == [];
    }
    assert NonFormatLines([GlucoseHeader, GlucoseFirst]) == [GlucoseFirst] by {
      assert [GlucoseHeader, GlucoseFirst][..1] == [GlucoseHeader];
    }
    assert lines[..2] == [GlucoseHeader, GlucoseFirst];
  }

  /** The second data line does not fit the three columns. */
  lemma GlucoseNoRows()
    ensures AcceptedRows(ParseColumns(GlucoseFirst), [GlucoseSecond]) == []
  {
    GlucoseSchema();
    GlucoseSecondValues();
    AcceptedRowsSnoc(ParseColumns(GlucoseFirst), [], GlucoseSecond);
    assert [] + [GlucoseSecond] == [GlucoseSecond];
  }

  /** The glucose block of the typical export gives the empty frame: its
      header is skipped as a format line, the first data line becomes a
      schema of three columns, and the second data line has two values. */
  lemma GlucoseBlockEmpty()
    ensures BuildTable(GlucoseBody) == Built(EmptyTable)
  {
    var lines := GlucoseBody;
    GlucoseContent();
    assert SchemaOf(lines) == Some(ParseColumns(GlucoseFirst));
    assert DataLinesOf(lines) == [GlucoseSecond];
    GlucoseNoRows();
    BuildTableShape(lines);
  }

  const MealColumns: string := "Time\tCHO"
  const MealBody: seq<string> := [MealColumns, MealRow]
  const MealTable: Table := Table(["Time", "CHO"], [[MealTime, Number("30")]])
  const MealRow: string := "01/01/2024 08:10\t30"

  /** 08:10 on 1 January 2024. */
  const MealTime: Cell := Timestamp(1, 1, 2024, 8, 10)

  lemma MealColumnsRead()
    ensures ParseColumns(MealColumns) == ["Time", "CHO"]
  {
    assert MealColumns == Join(["Time", "CHO"], '\t');
    ParseColumnsJoin(["Time", "CHO"], '\t');
  }

  lemma MealRowRead()
    ensures ParseDataLine(MealRow) == ["01/01/2024 08:10", "30"]
  {
    assert MealRow == Join(["01/01/2024 08:10", "30"], '\t');
    ParseDataLineJoin(["01/01/2024 08:10", "30"]);
  }

  lemma MealContent()
    ensures !IsFormatLine(MealColumns) && !IsFormatLine(MealRow)
  {
    assert '(' !in MealColumns && '(' !in MealRow;
    FormatLineHasParen(MealColumns);
    FormatLineHasParen(MealRow);
  }

  lemma PadOne() ensures Pad(1, 2) == "01" {}
  lemma PadYear() ensures Pad(2024, 4) == "2024" {}
  lemma PadEight() ensures Pad(8, 2) == "08" {}
  lemma PadTen() ensures Pad(10, 2) == "10" {}

  lemma MealTimeFormatted()
    ensures FormatTime(MealTime) == "01/01/2024 08:10"
  {
    PadOne();
    PadYear();
    PadEight();
    PadTen();
  }

  lemma MealTimeParsed()
    ensures ParseTime("01/01/2024 08:10") == Some(MealTime)
  {
    MealTimeFormatted();
    ParseFormatTime(MealTime);
  }

  lemma MealCarbsNumeric()
    ensures IsNumber("30")
  {
    NumberForms("30", "");
  }

  /** The meal block of the typical export: Time parsed and CHO numeric. */
  lemma MealBlockTyped()
    ensures BuildTable(MealBody) == Built(MealTable)
  {
    MealColumnsRead();
    MealRowRead();
    MealContent();
    MealTimeParsed();
    MealCarbsNumeric();
    TimeAndValueBlock(MealColumns, MealRow, "CHO", "01/01/2024 08:10", "30", MealTime);
  }

  const GlucoseName: string := "Glucose_concentration"
  const MealName: string := "Meal"

  /** A typical export: a glucose block and a meal block, each under its
      banner. */
  const TypicalExport: seq<string> := [
    "**** Glucose_concentration ****", GlucoseHeader, GlucoseFirst, GlucoseSecond,
    "**** Meal ****", MealColumns, MealRow]

  /** A line a well-formed block may hold. */
  predicate Plain(line: string) {
    line != [] && Trimmed(line) && !IsHeaderLine(line)
  }

  lemma GlucoseNamePlain() ensures Plain(GlucoseName) {}
  lemma GlucoseHeaderPlain() ensures Plain(GlucoseHeader) {}
  lemma GlucoseFirstPlain() ensures Plain(GlucoseFirst) {}
  lemma GlucoseSecondPlain() ensures Plain(GlucoseSecond) {}
  lemma MealNamePlain() ensures Plain(MealName) {}
  lemma MealColumnsPlain() ensures Plain(MealColumns) {}
  lemma MealRowPlain() ensures Plain(MealRow) {}

  lemma GlucoseWellFormed()
    ensures WellFormed(Segment(GlucoseName, GlucoseBody))
  {
    GlucoseNamePlain();
    GlucoseHeaderPlain();
    GlucoseFirstPlain();
    GlucoseSecondPlain();
    forall i | 0 <= i < |GlucoseBody| ensures Plain(GlucoseBody[i]) {
      if i == 0 {
      } else if i == 1 {
      } else {
      }
    }
  }

  lemma MealWellFormed()
    ensures WellFormed(Segment(MealName, MealBody))
  {
    MealNamePlain();
    MealColumnsPlain();
    MealRowPlain();
    forall i | 0 <= i < |MealBody| ensures Plain(MealBody[i]) {
      if i == 0 {
      } else {
      }
    }
  }

  lemma GlucoseBanner() ensures Banner(GlucoseName) == "**** Glucose_concentration ****" {}
  lemma MealBanner() ensures Banner(MealName) == "**** Meal ****" {}

  lemma MealLayout()
    ensures Layout([Segment(MealName, MealBody)]) == [Banner(MealName)] + MealBody
  {
    assert [Segment(MealName, MealBody)][1..] == [];
  }

  lemma ExportLayout()
    ensures Layout([Segment(GlucoseName, GlucoseBody), Segment(MealName, MealBody)]) == TypicalExport
  {
    var segs := [Segment(GlucoseName, GlucoseBody), Segment(MealName, MealBody)];
    MealLayout();
    assert segs[1..] == [Segment(MealName, MealBody)];
    GlucoseBanner();
    MealBanner();
  }

  /** The typical export is the glucose block and then the meal block. */
  lemma ExportSegments()
    ensures Segments(TypicalExport) == [Segment(GlucoseName, GlucoseBody), Segment(MealName, MealBody)]
  {
    ExportLayout();
    GlucoseWellFormed();
    MealWellFormed();
    SegmentsLayout([Segment(GlucoseName, GlucoseBody), Segment(MealName, MealBody)]);
  }

  /** Storing two built tables under two names. */
  lemma StoreTwo(a: string, t: Table, b: string, u: Table)
    requires a != b
    ensures StoreAll(OrderedDict.Empty(), [Entry(a, Built(t)), Entry(b, Built(u))]) ==
      Stored(OrderedDict.Dict(map[a := t, b := u], [a, b]), true)
  {
    var d: Blocks := OrderedDict.Empty();
    var es := [Entry(a, Built(t)), Entry(b, Built(u))];
    StoreAllSnoc(d, [], es[0]);
    assert [] + [es[0]] == [es[0]];
    StoreAllSnoc(d, [es[0]], es[1]);
    assert [es[0]] + [es[1]] == es;
  }

  /** The entries of two blocks whose tables are built. */
  lemma TwoEntries(s: Segment, u: Segment, a: Table, b: Table)
    requires BuildTable(s.body) == Built(a) && BuildTable(u.body) == Built(b)
    ensures Entries([s, u]) == [Entry(s.name, Built(a)), Entry(u.name, Built(b))]
  {
  }

  lemma ExportEntries()
    ensures Entries(Segments(TypicalExport)) == [Entry(GlucoseName, Built(EmptyTable)), Entry(MealName, Built(MealTable))]
  {
    ExportSegments();
    GlucoseBlockEmpty();
    MealBlockTyped();
    TwoEntries(Segment(GlucoseName, GlucoseBody), Segment(MealName, MealBody), EmptyTable, MealTable);
  }

  /** What process_blocks stores for the typical export: the glucose block
      as the empty frame (it is stored, since it has lines), then the meal
      table, in that order. */
  lemma ExportStored()
    ensures StoreAll(OrderedDict.Empty(), Entries(Segments(TypicalExport))) ==
      Stored(OrderedDict.Dict(map[GlucoseName := EmptyTable, MealName := MealTable], [GlucoseName, MealName]), true)
  {
    ExportEntries();
    StoreTwo(GlucoseName, EmptyTable, MealName, MealTable);
  }

  /** The parser run on the typical export: two blocks, in file order, the
      glucose block empty and the meal block typed. */
  method ParseTypicalExport() returns (names: seq<string>, glucose: Table, meal: Table)
    ensures names == ["Glucose_concentration", "Meal"]
    ensures glucose == EmptyTable
    ensures meal == Table(["Time", "CHO"], [[Timestamp(1, 1, 2024, 8, 10), Number("30")]])
  {
    var parser := new MedicalDataParser();
    var completed := parser.ProcessBlocks(TypicalExport);
    ExportStored();
    names := parser.GetBlockNames();
    glucose := parser.GetBlock(GlucoseName);
    meal := parser.GetBlock(MealName);
  }
}
