# MedicalDataParser in Dafny

A model of the parser at the core of MedicalDataParser. The parser reads
a text export from a medical device. The export is a sequence of blocks,
each opened by a banner line such as `**** Glucose_concentration ****`.
The parser turns every block into a typed table. It keeps the tables in
a dictionary ordered by first insertion, keyed by block name. It can
then hand the tables out by name, or list the names for the export to a
spreadsheet.

The model follows `medical_data_parser.py`:

- `LineSyntax`: the line recognisers and splitters.
  - `is_header_line`, `is_format_line`, `extract_block_name`, `parse_columns`, `parse_data_line`.
- `Strings`: the Python string operations these rely on.
  - `str.strip` and `str.split()` over the same whitespace set as `str.isspace`.
  - `str.split('\t')`, which keeps empty pieces.
  - Character removal, as `re.sub` with a character class does it.
- `Cells`: what pandas does to the cells of one column.
  - A timestamp parser for `%d/%m/%Y %H:%M`, within the range of `datetime64[ns]`, where the strings pandas reads as NaT become missing.
  - A recogniser for decimal numbers, with integers bounded to the 64-bit range pandas accepts.
  - The all-or-nothing conversion of a whole column.
- `TableBuilder`: `create_dataframe`.
  - A specification on values (`BuildTable`): which line is the schema, which data lines become rows, how each column is typed.
  - The imperative methods `CollectRows`, `TypeFrame` and `CreateDataframe`, proved equal to it. They mirror the loops of the source: one over the block's lines, one over the columns.
- `Segmenter`: the specification of how `process_blocks` cuts a file into blocks.
  - `Segments`: the scan as written.
  - `Reference`: an independent reference definition, proved equal to it.
  - `Layout`: the inverse, which writes blocks back out as lines.
- `OrderedDict`: a Python dict with insertion order.
- `Parser`: the class `MedicalDataParser`.
  - Its `blocks` field.
  - The loop `ProcessBlocks` and its helper `CloseBlock`.
  - `GetBlockNames` and `GetBlock`.
  - `StoreAll`: the specification of the stores made by the loop.
- `Export`: the two name rules of `export_to_excel`.
  - The `.xlsx` suffix.
  - The sheet name.
- `Scenarios`: worked blocks and a worked two-block file, taken through the whole pipeline.

Cells are `Text`, `Number`, `Missing` or `Timestamp`. A number keeps the
string it was read from; see "Left out". `create_dataframe` can have two
results, given by the `Outcome` datatype:

- `Built(table)`;
- `Raised`. This models the uncaught `TypeError` that the numeric step
  raises when a column name other than `Time` occurs twice. In that case
  `df[col]` is a frame, not a column.

`ProcessBlocks` returns `completed = false` when that exception ends it.
Every block stored before that point stays stored.

### Behaviour of the code worth knowing

- **Numeric typing is all-or-nothing per column.** `pd.to_numeric(..., errors='ignore')` at line 110 returns its input unchanged when one cell does not parse. In a value column, `-` always becomes missing. Then either every other cell becomes a number or every other cell stays text (`TableBuilder.ValueColumnLaw`).
- **A `-` in the Time column is not replaced.** The replacement at line 110 happens only for columns other than `Time`. A `-` in the Time column makes the whole Time column fail to parse, so the column stays text (`TableBuilder.TimeColumnAllOrNothing`).
- **A column line with a date-format unit is skipped.** Take the block of the three lines `Time (dd/mm/yyyy hh:mm)<TAB>conc (mmol/L)`, `01/01/2024 08:00<TAB>5.5` and `01/01/2024 08:05<TAB>-`.
  - Its column line contains `(dd/mm/yyyy`, so line 81 treats it as a format line and skips it.
  - The first data line then becomes the schema, with three columns: `01/01/2024`, `08:00` and `5.5`.
  - The two-value data line after it is rejected.
  - The block is stored as an empty frame (`Scenarios.GlucoseBlockEmpty`).
- **Units in other column lines are removed.** `Time (hh:mm)<TAB>conc (mmol/L)` reads as the columns `Time` and `conc` (`Scenarios.UnitsHeaderRead`).
- **Sheet names can collide.** Two block names that differ only in forbidden characters get the same sheet name (`Export.SheetNamesCollide`).

## Model

| member | source | states |
|---|---|---|
| LineSyntax.IsHeaderLine | medical_data_parser.py:23-25 | a line is a block header exactly when it contains `*` |
| LineSyntax.IsFormatLine | medical_data_parser.py:27-29 | a line is a format line exactly when it contains `(dd/mm/yyyy` or `(min)` |
| LineSyntax.FormatLineHasParen | medical_data_parser.py:27-29 | a format line, one holding `(dd/mm/yyyy` or `(min)`, always holds an opening parenthesis |
| LineSyntax.ExtractBlockName | medical_data_parser.py:31-33 | the block name has no `*` and no surrounding whitespace; a line of only stars and whitespace gives the empty name |
| LineSyntax.EmptyBlockName | medical_data_parser.py:31-33 | the name is empty exactly when the line holds only stars and whitespace, so any other character gives a block that can be stored |
| LineSyntax.ExtractBannerName | medical_data_parser.py:31-33 | the name is recovered from its banner `**** name ****` when the name is stripped and star-free |
| LineSyntax.RemoveParenGroups | medical_data_parser.py:38 | removing `(...)` groups never adds characters, leaves a line without `(` unchanged, and leaves no `(` followed later by `)` |
| LineSyntax.ParenGroupRemoved | medical_data_parser.py:38 | the first group `(x)` after a `(`-free prefix is removed, up to its first `)`, and the prefix is kept |
| LineSyntax.UnclosedKept | medical_data_parser.py:38 | a line with no `)` is kept whole, an unclosed `(` included |
| LineSyntax.ParseColumnsUnits | medical_data_parser.py:35-39 | headings `name (unit)` joined by whitespace read back as the bare names: the units are removed |
| LineSyntax.ParseColumns | medical_data_parser.py:35-39 | every column name is non-empty and contains no whitespace |
| LineSyntax.ParseColumnsJoin | medical_data_parser.py:35-39 | column names without whitespace or `(`, joined by any whitespace character, are read back as exactly those names |
| LineSyntax.ParseDataLine | medical_data_parser.py:41-43 | every value is non-empty, stripped and free of tabs |
| LineSyntax.ParseDataLineJoin | medical_data_parser.py:41-43 | stripped, tab-free, non-empty values joined by tabs are read back as exactly those values |
| LineSyntax.StripNonEmpty | medical_data_parser.py:39 | the kept pieces are non-empty and stripped; pieces already so are all kept unchanged |
| LineSyntax.StripNonEmptyOne | medical_data_parser.py:39 | one piece is kept, stripped, exactly when it is not all whitespace |
| LineSyntax.StripNonEmptyAppend | medical_data_parser.py:39 | the pieces are processed one by one, in order: the result for two runs of pieces is the result for each, concatenated |
| Strings.Strip | medical_data_parser.py:55 | the result is stripped, is empty exactly when the line is all whitespace, and is the line itself when already stripped |
| Strings.StripSlice | medical_data_parser.py:55 | the result is a slice of the line with only whitespace before and after it |
| Strings.StripSurrounded | medical_data_parser.py:55 | whitespace placed around a stripped string is exactly what stripping removes |
| Strings.SplitWhitespace | medical_data_parser.py:39 | `str.split()`: every word is non-empty and holds no whitespace |
| Strings.SplitWhitespaceJoin | medical_data_parser.py:39 | whitespace-free words joined by one whitespace character split back into those words |
| Strings.SplitWhitespaceKeepsText | medical_data_parser.py:39 | the words of a line, put together, are its characters with the whitespace removed |
| Strings.Split | medical_data_parser.py:43 | `str.split(sep)`: there is at least one piece, and no piece holds the separator |
| Strings.SplitJoin | medical_data_parser.py:43 | parts without the separator, joined by it, split back into those parts |
| Strings.JoinSplit | medical_data_parser.py:43 | joining the pieces of a split with the separator gives back the line |
| Strings.RemoveChars | medical_data_parser.py:33 | the result holds none of the removed characters and only characters of the input; an input without them is unchanged |
| Strings.RemoveCharsKeeps | medical_data_parser.py:33 | every character of the input outside the class is in the result |
| Strings.RemoveCharsOne | medical_data_parser.py:33 | one character is dropped exactly when it is in the class |
| Strings.RemoveCharsAppend | medical_data_parser.py:33 | removal works piece by piece, keeping order: the result for two strings is the result for each, concatenated |
| Cells.IsValidTimestamp | medical_data_parser.py:102 | a timestamp is a real date and time of day within the range of `datetime64[ns]`, 1677-09-21 00:13 to 2262-04-11 23:47 |
| Cells.TimestampYears | medical_data_parser.py:102 | a storable timestamp lies in the years 1677 to 2262, and every real date and time in the years 1678 to 2261 is storable |
| Cells.ParseTime | medical_data_parser.py:102 | a parsed cell is a valid timestamp |
| Cells.ParseTimeCell | medical_data_parser.py:102 | every accepted cell is either missing or a timestamp that datetime64[ns] can hold; the NaT strings (`NaT`, `nan` and the like, and the empty string) are the missing ones |
| Cells.ParseFormatTime | medical_data_parser.py:102 | a valid timestamp written as `dd/mm/yyyy hh:mm` parses back to itself |
| Cells.FormatTimeRead | medical_data_parser.py:102 | any real date and time written as `dd/mm/yyyy hh:mm` is read back as itself when it lies in the range of `datetime64[ns]`, and is refused otherwise |
| Cells.IsNumber | medical_data_parser.py:110 | a number is a decimal numeral `[sign] digits [. digits] [e [sign] digits]`, and an integer one lies in [-2^63, 2^64 - 1] |
| Cells.NumberForms | medical_data_parser.py:110 | a digit string is a number exactly when it is at most 2^64 - 1, and with a minus sign exactly when it is at most 2^63; a decimal fraction always is; `-` and the empty string are not |
| Cells.NumberStart | medical_data_parser.py:110 | a number starts with a digit, a sign or a point |
| Cells.ParseTimeColumn | medical_data_parser.py:101-105 | the column converts exactly when every cell is a NaT string or parses, and then each result is that cell's conversion |
| Cells.ParseNumbers | medical_data_parser.py:110 | the column converts exactly when every text cell is a number, and then each text cell becomes that number |
| Cells.ToNumeric | medical_data_parser.py:110 | `-` becomes missing; every other cell becomes a number if all of them read as numbers, and otherwise stays text |
| TableBuilder.NonFormatLines | medical_data_parser.py:80-83 | no line kept is a format line, every line kept was given, every line given that is not a format line is kept, and a block without format lines is kept as it is |
| TableBuilder.NonFormatLinesAppend | medical_data_parser.py:80-83 | the lines are filtered one by one, in order: the lines kept from two runs of lines are those kept from each, concatenated |
| TableBuilder.SchemaOf | medical_data_parser.py:84-86 | the schema is the columns of the first line that is not a format line, and there is none when every line is one |
| TableBuilder.DataLinesOf | medical_data_parser.py:87-89 | the candidate data lines are the non-format lines after the schema line |
| TableBuilder.Accepts | medical_data_parser.py:90 | a data line is accepted when it has values and exactly one per column |
| TableBuilder.AcceptedRows | medical_data_parser.py:89-91 | every row kept has one value per column |
| TableBuilder.TypedColumn | medical_data_parser.py:99-110 | one column typed: a Time column named once is parsed as a whole or kept as strings; a repeated Time column is kept as strings; a value column is converted by `ToNumeric` |
| TableBuilder.TypeColumns | medical_data_parser.py:96-110 | the type step raises exactly when a column other than Time is repeated; otherwise the table keeps the columns and one row per input row |
| TableBuilder.CollectRows | medical_data_parser.py:77-91 | the loop over the block finds the schema and the accepted rows of the specification |
| TableBuilder.ConvertTime | medical_data_parser.py:97-105 | after the Time step the Time column holds its cells of the typed table and every other column still holds its strings |
| TableBuilder.NumericColumn | medical_data_parser.py:108-110 | converting one value column keeps the frame typed up to and including that column |
| TableBuilder.TypeFrame | medical_data_parser.py:96-112 | the loop over the columns gives the specification's typed table, or raises where it does |
| TableBuilder.CreateDataframe | medical_data_parser.py:74-112 | the method returns the specification's table for the block |
| TableBuilder.FormatLinesIgnored | medical_data_parser.py:81-83 | removing the format lines beforehand does not change the table |
| TableBuilder.NonFormatLinesIdempotent | medical_data_parser.py:81-83 | skipping format lines a second time removes nothing more |
| TableBuilder.SchemaIsFirstOtherLine | medical_data_parser.py:84-86 | the first line that is not a format line gives the columns, and the following lines give the data |
| TableBuilder.OnlyFormatLines | medical_data_parser.py:93-94 | a block of format lines only has no schema and gives the empty table |
| TableBuilder.RowAcceptance | medical_data_parser.py:89-91 | a data line adds its values as one row, in place, exactly when they match the column count; otherwise it adds nothing |
| TableBuilder.AcceptedRowsAppend | medical_data_parser.py:88-91 | the rows of two runs of data lines are the rows of each, in order |
| TableBuilder.TabRowAccepted | medical_data_parser.py:89-91 | values joined by tabs, one per column, become exactly one row of those values |
| TableBuilder.BuildTable | medical_data_parser.py:74-112 | the table of a block: empty without schema, columns or rows, and otherwise the typed accepted rows |
| TableBuilder.BuildTableShape | medical_data_parser.py:93-112 | the table is empty exactly when there is no schema, no column or no row; it raises exactly on a repeated value column; otherwise it has the schema's columns and one row per accepted line |
| TableBuilder.TimeColumnAllOrNothing | medical_data_parser.py:99-105 | a single Time column that parses completely holds timestamps; in every other case the Time column is left as its strings |
| TableBuilder.ValueColumnLaw | medical_data_parser.py:107-110 | in a value column, `-` is missing, and the other cells are all numbers or all text |
| Segmenter.RunFrom | medical_data_parser.py:54-72 | the loop from a given open block: blank lines skipped, a header line closes the open block and opens its own, other lines join the open block, and the last block is closed at the end |
| Segmenter.Segments | medical_data_parser.py:45-72 | the blocks of a file: the loop started with no block open |
| Segmenter.Reference | medical_data_parser.py:54-72 | each header line whose name is non-empty and that is followed by at least one line before the next header makes one block of that name and those lines, in order; there are no more blocks than header lines |
| Segmenter.RunFromReference | medical_data_parser.py:54-72 | the loop from an open block: that block receives the lines up to the first header, and the rest of the file is read block by block as the reference definition reads it |
| Segmenter.Clean | medical_data_parser.py:55-57 | the lines kept are stripped and non-blank |
| Segmenter.TakeBody | medical_data_parser.py:59-68 | a block's lines run up to the next header line and include no header line |
| Segmenter.SegmentsReference | medical_data_parser.py:45-72 | the blocks of the scan are those of the reference definition: each header line followed by its lines |
| Segmenter.SegmentsWellFormed | medical_data_parser.py:54-72 | every block has a non-empty stripped name and only non-empty, stripped, non-header lines; there are no more blocks than header lines |
| Segmenter.BlankLineIgnored | medical_data_parser.py:56-57 | inserting a blank line anywhere changes no block |
| Segmenter.PreambleDiscarded | medical_data_parser.py:59-68 | lines before the first header belong to no block |
| Segmenter.EmptyBlockDropped | medical_data_parser.py:59-72 | a header followed directly by another header or by the end of the file gives no block |
| Segmenter.BannerLine | medical_data_parser.py:23-33 | the banner of a well-formed name is a header line whose extracted name is that name |
| Segmenter.LayoutLines | medical_data_parser.py:54-68 | well-formed blocks written out are stripped, non-blank lines starting with a header |
| Segmenter.ReferenceLayout | medical_data_parser.py:54-72 | the reference definition reads written-out blocks back as the same blocks |
| Segmenter.SegmentsLayout | medical_data_parser.py:45-72 | well-formed blocks written out under their banners are scanned back into exactly those blocks |
| Segmenter.CleanTrimmed | medical_data_parser.py:55-57 | stripped, non-blank lines are kept as they are |
| OrderedDict.Put | medical_data_parser.py:62 | assignment stores the value; other keys keep theirs; a new key is appended to the order and an old key keeps its place |
| OrderedDict.GetEmpty | medical_data_parser.py:9 | a key looked up in a new empty dict is absent |
| OrderedDict.GetPut | medical_data_parser.py:62 | reading a key just stored gives its value; reading another key gives what it had before |
| OrderedDict.Extensionality | medical_data_parser.py:9 | two dictionaries with the same lookups and the same key order are equal |
| Parser.EntriesAppend | medical_data_parser.py:61-72 | the tables of two runs of blocks are those of each run, one after the other, in block order |
| Parser.StoreAll | medical_data_parser.py:61-72 | storing keeps the dictionary well-formed |
| Parser.StoreAllCompletes | medical_data_parser.py:61-72 | the loop completes exactly when no block raises |
| Parser.FirstRaise | medical_data_parser.py:61-72 | the first block that raises, with every block before it built |
| Parser.StoreAllStops | medical_data_parser.py:61-72 | a raising block ends the loop and leaves exactly what the blocks before it stored |
| Parser.LastIndex | medical_data_parser.py:62 | the last block with a given name, or none when no block has it |
| Parser.StoreAllLastWins | medical_data_parser.py:61-72 | a name holds the table of the last block of that name; a name no block has keeps what it held |
| Parser.StoreAllKeepsOrder | medical_data_parser.py:62 | names already stored keep their place in the order |
| Parser.StoreAllKnownNames | medical_data_parser.py:62 | storing only names already present leaves the order as it is |
| Parser.StoreAllHoldsNames | medical_data_parser.py:61-72 | after a completed run every block's name is stored |
| Parser.StoreAllCompletedTwice | medical_data_parser.py:45-72 | processing the same blocks again after a complete run changes nothing |
| Parser.StoreAllTwice | medical_data_parser.py:45-72 | processing the same blocks a second time changes nothing, whether or not the first run was stopped |
| Parser.StoreStopped | medical_data_parser.py:61-72 | once a block has raised, later blocks store nothing |
| Parser.MedicalDataParser.constructor | medical_data_parser.py:7-9 | a new parser has no blocks |
| Parser.MedicalDataParser.CloseBlock | medical_data_parser.py:61-62 | closing a block stores its table when it has a name and lines, as the specification does |
| Parser.MedicalDataParser.ProcessBlocks | medical_data_parser.py:45-72 | the loop leaves the blocks the specification stores for the file's blocks, and reports whether a block raised |
| Parser.MedicalDataParser.GetBlockNames | medical_data_parser.py:114-116 | the names are distinct and are exactly the stored names, in storage order, as the dictionary keeps them |
| Parser.MedicalDataParser.GetBlock | medical_data_parser.py:118-120 | a stored name gives its table and any other name gives the empty table |
| Export.SheetName | medical_data_parser.py:148 | a sheet name has at most 31 characters, none of them forbidden, and is the longest possible prefix of the name with those characters removed |
| Export.SheetNameIdempotent | medical_data_parser.py:148 | a sheet name is its own sheet name |
| Export.SheetNamesCollide | medical_data_parser.py:148 | `A:B` and `AB` get the same sheet name |
| Export.OutputFileName | medical_data_parser.py:130-134 | the file name is the stripped entry, with `.xlsx` appended exactly when the entry does not already end in it |
| Export.OutputFileNameIdempotent | medical_data_parser.py:130-134 | entering the produced file name gives the same name |
| Scenarios.NumberAndText | medical_data_parser.py:74-112 | block `A B` / `1 x` gives one row: the number 1 and the text x |
| Scenarios.UnitsHeaderRead | medical_data_parser.py:35-39 | `Time (hh:mm)<TAB>conc (mmol/L)` reads as the columns `Time` and `conc` |
| Scenarios.GlucoseHeaderSkipped | medical_data_parser.py:27-29 | the column line `Time (dd/mm/yyyy hh:mm)<TAB>conc (mmol/L)` is a format line |
| Scenarios.GlucoseBlockEmpty | medical_data_parser.py:74-94 | the block of that column line and the data lines `01/01/2024 08:00<TAB>5.5` and `01/01/2024 08:05<TAB>-` gives the empty table |
| Scenarios.MealBlockTyped | medical_data_parser.py:74-112 | block `Time CHO` / `01/01/2024 08:10 30` gives one row: a timestamp and the number 30 |
| Scenarios.ExportSegments | medical_data_parser.py:45-72 | the two-block file cuts into the glucose block and then the meal block |
| Scenarios.ExportStored | medical_data_parser.py:45-72 | the two-block file stores the glucose block as an empty table and then the meal table, in that order |
| Scenarios.ParseTypicalExport | medical_data_parser.py:45-120 | a parser run on the two-block file lists both names in file order and returns both tables |

## Left out

- File reading (`read_file`, lines 11-21) is left out: `ProcessBlocks` takes the file's lines. A missing or unreadable file reads as no lines, which the model covers as the empty input. The error messages printed are not modelled. The constructor's file path is left out with them.
- Printing is not modelled: the messages printed when the Time conversion fails (lines 104-105), and `print_summary` and `main`.
- `export_to_excel` side effects are not modelled: the prompt loop, the check for an existing file, the overwrite question, the writing of sheets, and the column-width rule (lines 122-170). Only its two name rules are modelled.
- `streamlit_app.py` is not part of this model.
- Cells.IsNumber: accepts the decimal forms `[sign] digits [. digits] [e [sign] digits]`, with at least one mantissa digit, and bounds an integer form to [-2^63, 2^64 - 1]. Anything else is text, including `inf` and `nan`, which pandas reads as floats. A number keeps its string, so floating-point values and rounding are not modelled. So a fraction or an exponent form whose value overflows a double (such as `1e400`) is a number here. A column that holds an integer above 2^63 - 1 together with a negative integer, or together with a `-` marker (a missing value), is also a number column here, while pandas leaves it as it was.
- Cells.ParseTime: follows the format `%d/%m/%Y %H:%M`. Day, month, hour and minute take one or two digits, the year takes four, and the separating space is exactly one character. The finer leniencies of `strptime` are not modelled, such as extra whitespace. The range is that of `datetime64[ns]` at whole minutes.
- Cells.ParseTimeCell: the strings `now` and `today`, which recent pandas versions read from the clock, are not modelled; they fail to parse here.
- Parser.MedicalDataParser.ProcessBlocks: the uncaught `TypeError` from a repeated value column is modelled as `completed = false`. Exception propagation to the caller is not modelled.
- The `-` to `pd.NA` replacement yields `Missing`. pandas dtypes are not modelled: object, float, Int64 and datetime64.
