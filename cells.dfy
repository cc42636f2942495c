/** Typed cells and the two column conversions of the type step: date
    parsing with the fixed day/month/year hour:minute format for the Time
    column, and numeric conversion with errors ignored, after "-" is
    replaced by a missing value, for every other column. */
module Cells {
  import opened Strings
  import opened Wrappers

  /** One cell of a typed table. A Number keeps the decimal text that was
      accepted; a Timestamp keeps the fields datetime was built from. */
  datatype Cell =
    | Missing
    | Number(text: string)
    | Timestamp(day: nat, month: nat, year: nat, hour: nat, minute: nat)
    | Text(text: string)

  /** A table: the column names and the rows, one cell per column. */
  datatype Table = Table(columns: seq<string>, rows: seq<seq<Cell>>)

  /** The empty frame: no columns and no rows. */
  const EmptyTable: Table := Table([], [])

  predicate IsDigit(c: char) {
    '0' <= c <= '9'
  }

  predicate IsDigits(s: string) {
    forall i :: 0 <= i < |s| ==> IsDigit(s[i])
  }

  /** The value of a string of decimal digits. */
  function DigitsValue(s: string): nat
    requires IsDigits(s)
  {
    if s == [] then 0 else 10 * DigitsValue(s[..|s| - 1]) + (s[|s| - 1] as int - '0' as int)
  }

  predicate IsLeapYear(year: nat) {
    year % 4 == 0 && (year % 100 != 0 || year % 400 == 0)
  }

  function DaysInMonth(month: nat, year: nat): nat {
    if month == 2 then (if IsLeapYear(year) then 29 else 28)
    else if month == 4 || month == 6 || month == 9 || month == 11 then 30
    else 31
  }

  /** A date and time of day that Python's datetime accepts. */
  predicate IsDateTime(c: Cell) {
    && c.Timestamp?
    && 1 <= c.year <= 9999
    && 1 <= c.month <= 12
    && 1 <= c.day <= DaysInMonth(c.month, c.year)
    && c.hour <= 23
    && c.minute <= 59
  }

  /** The fields of a timestamp as one number, ordered as the dates are:
      year first, then month, day, hour and minute. */
  function Instant(year: nat, month: nat, day: nat, hour: nat, minute: nat): nat {
    (((year * 13 + month) * 32 + day) * 24 + hour) * 60 + minute
  }

  /** The first and the last whole minute that datetime64[ns] can hold:
      1677-09-21 00:13 and 2262-04-11 23:47. */
  const FirstInstant: nat := Instant(1677, 9, 21, 0, 13)
  const LastInstant: nat := Instant(2262, 4, 11, 23, 47)

  /** A date and time that pandas can store: a datetime within the
      nanosecond range of datetime64[ns]; outside it pd.to_datetime raises
      OutOfBoundsDatetime. */
  predicate IsValidTimestamp(c: Cell) {
    && IsDateTime(c)
    && FirstInstant <= Instant(c.year, c.month, c.day, c.hour, c.minute) <= LastInstant
  }

  /** A storable timestamp lies in the years 1677 to 2262, and every
      datetime of the years 1678 to 2261 is storable. */
  lemma TimestampYears(c: Cell)
    requires IsDateTime(c)
    ensures IsValidTimestamp(c) ==> 1677 <= c.year <= 2262
    ensures 1678 <= c.year <= 2261 ==> IsValidTimestamp(c)
  {
  }

  /** A numeric field of the format: between min and max digits. */
  predicate IsField(s: string, min: nat, max: nat) {
    min <= |s| <= max && IsDigits(s)
  }

  /** One cell against '%d/%m/%Y %H:%M': day, month, hour and minute of one
      or two digits, a four-digit year, separated by '/', '/', one space
      and ':', naming a real date and time. */
  function ParseTime(s: string): (r: Option<Cell>)
    ensures r.Some? ==> IsValidTimestamp(r.value)
  {
    var halves := Split(s, ' ');
    if |halves| != 2 then None
    else
      var date, clock := Split(halves[0], '/'), Split(halves[1], ':');
      if |date| != 3 || |clock| != 2 then None
      else if !(IsField(date[0], 1, 2) && IsField(date[1], 1, 2) && IsField(date[2], 4, 4)
                && IsField(clock[0], 1, 2) && IsField(clock[1], 1, 2)) then None
      else
        var c := Timestamp(DigitsValue(date[0]), DigitsValue(date[1]), DigitsValue(date[2]),
                           DigitsValue(clock[0]), DigitsValue(clock[1]));
        if IsValidTimestamp(c) then Some(c) else None
  }

  function Pow10(n: nat): nat {
    if n == 0 then 1 else 10 * Pow10(n - 1)
  }

  /** n in decimal, zero-padded to exactly `width` digits. */
  function Pad(n: nat, width: nat): (r: string)
    ensures |r| == width && IsDigits(r)
  {
    if width == 0 then [] else Pad(n / 10, width - 1) + [('0' as int + n % 10) as char]
  }

  lemma {:induction false} PadValue(n: nat, width: nat)
    requires n < Pow10(width)
    ensures DigitsValue(Pad(n, width)) == n
  {
    if width > 0 {
      var p := Pad(n, width);
      assert p[..width - 1] == Pad(n / 10, width - 1);
      PadValue(n / 10, width - 1);
    }
  }

  /** A timestamp written back in the day/month/year hour:minute layout,
      zero-padded. */
  function FormatTime(c: Cell): string
    requires c.Timestamp?
  {
    Pad(c.day, 2) + "/" + Pad(c.month, 2) + "/" + Pad(c.year, 4) + " " + Pad(c.hour, 2) + ":" + Pad(c.minute, 2)
  }

  lemma DigitsAvoid(s: string, c: char)
    requires IsDigits(s) && !IsDigit(c)
    ensures c !in s
  {
  }

  /** Every valid timestamp written in the format parses back to itself. */
  lemma ParseFormatTime(c: Cell)
    requires IsValidTimestamp(c)
    ensures ParseTime(FormatTime(c)) == Some(c)
  {
    FormatTimeRead(c);
  }

  /** A date and time written in the format is read back field by field,
      and is then accepted exactly when it is storable. */
  lemma FormatTimeRead(c: Cell)
    requires IsDateTime(c)
    ensures ParseTime(FormatTime(c)) == if IsValidTimestamp(c) then Some(c) else None
  {
    FormatPieces(c);
    PadValue(c.day, 2);
    PadValue(c.month, 2);
    PadValue(c.year, 4);
    PadValue(c.hour, 2);
    PadValue(c.minute, 2);
  }

  /** The written timestamp splits at the space, the slashes and the colon
      into its padded fields. */
  lemma FormatPieces(c: Cell)
    requires c.Timestamp?
    ensures var d, m, y, h, mi := Pad(c.day, 2), Pad(c.month, 2), Pad(c.year, 4), Pad(c.hour, 2), Pad(c.minute, 2);
      var date, clock := d + "/" + m + "/" + y, h + ":" + mi;
      && Split(FormatTime(c), ' ') == [date, clock]
      && Split(date, '/') == [d, m, y]
      && Split(clock, ':') == [h, mi]
  {
    var d, m, y, h, mi := Pad(c.day, 2), Pad(c.month, 2), Pad(c.year, 4), Pad(c.hour, 2), Pad(c.minute, 2);
    var date, clock := Join([d, m, y], '/'), Join([h, mi], ':');
    assert date == d + "/" + m + "/" + y by {
      assert [d, m, y][1..] == [m, y];
      assert [m, y][1..] == [y];
      assert Join([m, y], '/') == m + "/" + y;
    }
    assert clock == h + ":" + mi by {
      assert [h, mi][1..] == [mi];
      assert Join([mi], ':') == mi;
    }
    assert FormatTime(c) == Join([date, clock], ' ') by {
      assert [date, clock][1..] == [clock];
      assert Join([clock], ' ') == clock;
    }
    DigitsAvoid(d, '/');
    DigitsAvoid(m, '/');
    DigitsAvoid(y, '/');
    DigitsAvoid(h, ':');
    DigitsAvoid(mi, ':');
    DigitsAvoid(d, ' ');
    DigitsAvoid(m, ' ');
    DigitsAvoid(y, ' ');
    DigitsAvoid(h, ' ');
    DigitsAvoid(mi, ' ');
    assert ' ' !in date;
    assert ' ' !in clock;
    SplitJoin([date, clock], ' ');
    SplitJoin([d, m, y], '/');
    SplitJoin([h, mi], ':');
  }

  /** The position of the first 'e' or 'E' in s, or |s| if there is none. */
  function ExponentMark(s: string): (k: nat)
    ensures k <= |s|
    ensures k < |s| ==> s[k] == 'e' || s[k] == 'E'
  {
    if s == [] then 0 else if s[0] == 'e' || s[0] == 'E' then 0 else 1 + ExponentMark(s[1..])
  }

  /** Digits with at most one decimal point, at least one digit in all. */
  predicate IsMantissa(m: string) {
    var parts := Split(m, '.');
    && (|parts| == 1 || |parts| == 2)
    && IsDigits(parts[0])
    && (if |parts| == 1 then parts[0] != [] else IsDigits(parts[1]) && |parts[0]| + |parts[1]| >= 1)
  }

  predicate IsExponent(e: string) {
    var digits := if e != [] && (e[0] == '+' || e[0] == '-') then e[1..] else e;
    digits != [] && IsDigits(digits)
  }

  /** A decimal numeral: an optional sign, a mantissa and an optional
      exponent ("5.5", "-3", ".5", "1e-3"). */
  predicate IsNumeral(s: string) {
    var body := if s != [] && (s[0] == '+' || s[0] == '-') then s[1..] else s;
    var k := ExponentMark(body);
    IsMantissa(body[..k]) && (k == |body| || IsExponent(body[k + 1..]))
  }

  /** The largest unsigned 64-bit integer, and the magnitude of the
      smallest signed one. */
  const MaxUInt64: nat := 0xFFFF_FFFF_FFFF_FFFF
  const MinInt64Magnitude: nat := 0x8000_0000_0000_0000

  /** A numeral without a point or an exponent is an integer, and pandas
      refuses one outside [-2^63, 2^64 - 1] ("Integer out of range."). */
  predicate IntegerInRange(s: string) {
    var negative := s != [] && s[0] == '-';
    var body := if s != [] && (s[0] == '+' || s[0] == '-') then s[1..] else s;
    IsDigits(body) ==> DigitsValue(body) <= (if negative then MinInt64Magnitude else MaxUInt64)
  }

  /** A number as pd.to_numeric reads one: a numeral, and within the 64-bit
      range when it is an integer. */
  predicate IsNumber(s: string) {
    IsNumeral(s) && IntegerInRange(s)
  }

  /** A number starts with a digit, a sign or a decimal point; so a word
      such as "x" is not a number. */
  lemma NumberStart(s: string)
    ensures IsNumber(s) ==> s != [] && (IsDigit(s[0]) || s[0] == '+' || s[0] == '-' || s[0] == '.')
  {
    if s == [] {
      assert Split([], '.') == [[]];
    } else if !(IsDigit(s[0]) || s[0] == '+' || s[0] == '-' || s[0] == '.') {
      var k := ExponentMark(s);
      if k == 0 {
        assert s[..0] == [];
        assert Split([], '.') == [[]];
      } else {
        var m := s[..k];
        assert m[0] == s[0];
        var parts := Split(m, '.');
        assert parts[0] != [] && parts[0][0] == m[0];
      }
    }
  }

  lemma ExponentMarkOfMantissa(s: string)
    requires forall i :: 0 <= i < |s| ==> IsDigit(s[i]) || s[i] == '.'
    ensures ExponentMark(s) == |s|
  {
  }

  /** Integers are numbers exactly within the 64-bit range, decimal
      fractions always are; the missing-value marker and the empty string
      are not. */
  lemma NumberForms(a: string, b: string)
    requires IsDigits(a) && IsDigits(b) && a != []
    ensures IsNumber(a) <==> DigitsValue(a) <= MaxUInt64
    ensures IsNumber("-" + a) <==> DigitsValue(a) <= MinInt64Magnitude
    ensures IsNumber(a + "." + b)
    ensures !IsNumber("-") && !IsNumber("")
  {
    IntegerNumerals(a);
    FractionNumber(a, b);
    assert ("-" + a)[1..] == a;
    assert "-"[1..] == [];
    assert Split([], '.') == [[]];
  }

  /** A digit string is a numeral, with or without a minus sign. */
  lemma IntegerNumerals(a: string)
    requires IsDigits(a) && a != []
    ensures IsNumeral(a) && IsNumeral("-" + a)
  {
    ExponentMarkOfMantissa(a);
    assert ("-" + a)[1..] == a;
    assert a[..|a|] == a;
    DigitsAvoid(a, '.');
    SplitJoin([a], '.');
  }

  /** A decimal fraction is a number: it has a point, so no integer bound
      applies. */
  lemma FractionNumber(a: string, b: string)
    requires IsDigits(a) && IsDigits(b) && a != []
    ensures IsNumber(a + "." + b)
  {
    var s := a + "." + b;
    assert s[|a|] == '.';
    ExponentMarkOfMantissa(s);
    DigitsAvoid(a, '.');
    DigitsAvoid(b, '.');
    SplitJoin([a, b], '.');
    assert Join([a, b], '.') == s;
    assert s[..|s|] == s;
  }

  /** The strings pandas reads as "not a time": they become NaT. */
  predicate IsNotATime(s: string) {
    s in {"", "NaT", "nat", "NAT", "nan", "NaN", "NAN"}
  }

  /** One cell of pd.to_datetime with the format: a NaT string is missing,
      any other string must parse. */
  function ParseTimeCell(s: string): (r: Option<Cell>)
    ensures IsNotATime(s) ==> r == Some(Missing)
    ensures !IsNotATime(s) ==> r == ParseTime(s)
    ensures r.Some? ==> r.value == Missing || IsValidTimestamp(r.value)
  {
    if IsNotATime(s) then Some(Missing) else ParseTime(s)
  }

  /** pd.to_datetime on a whole column: every cell converted, or None where
      pandas raises ValueError for the first cell that does not parse. */
  function ParseTimeColumn(cells: seq<string>): (r: Option<seq<Cell>>)
    ensures r.Some? <==> forall i :: 0 <= i < |cells| ==> ParseTimeCell(cells[i]).Some?
    ensures r.Some? ==> |r.value| == |cells|
    ensures r.Some? ==> forall i :: 0 <= i < |cells| ==> Some(r.value[i]) == ParseTimeCell(cells[i])
  {
    if cells == [] then Some([])
    else
      match ParseTimeCell(cells[0])
      case None => None
      case Some(c) =>
        match ParseTimeColumn(cells[1..])
        case None => None
        case Some(rest) => Some([c] + rest)
  }

  /** The cells of a freshly built DataFrame: the strings themselves. */
  function Texts(cells: seq<string>): seq<Cell> {
    seq(|cells|, i requires 0 <= i < |cells| => Text(cells[i]))
  }

  /** The "-" marker becomes a missing cell; every other cell is kept as text. */
  function ReplaceMarker(cells: seq<string>): seq<Cell> {
    seq(|cells|, i requires 0 <= i < |cells| => if cells[i] == "-" then Missing else Text(cells[i]))
  }

  /** Strict numeric conversion of a column: a missing cell stays missing,
      a text cell must read as a number; None where the conversion fails. */
  function ParseNumbers(column: seq<Cell>): (r: Option<seq<Cell>>)
    ensures r.Some? <==> forall i :: 0 <= i < |column| ==> column[i].Text? ==> IsNumber(column[i].text)
    ensures r.Some? ==> |r.value| == |column|
    ensures r.Some? ==> forall i :: 0 <= i < |column| ==>
      r.value[i] == (if column[i].Text? then Number(column[i].text) else column[i])
  {
    if column == [] then Some([])
    else
      var head :=
        match column[0]
        case Text(s) => if IsNumber(s) then Some(Number(s)) else None
        case other => Some(other);
      match head
      case None => None
      case Some(c) =>
        match ParseNumbers(column[1..])
        case None => None
        case Some(rest) => Some([c] + rest)
  }

  /** Every cell is the missing-value marker or a number. */
  predicate AllNumbers(cells: seq<string>) {
    forall i :: 0 <= i < |cells| ==> cells[i] == "-" || IsNumber(cells[i])
  }

  /** The numeric conversion of a value column, with failures ignored: the
      "-" markers become missing, and when some other cell is not a number
      the column with only the markers replaced comes back. */
  function ToNumeric(cells: seq<string>): (r: seq<Cell>)
    ensures |r| == |cells|
    ensures forall i :: 0 <= i < |cells| && cells[i] == "-" ==> r[i] == Missing
    ensures AllNumbers(cells) ==> forall i :: 0 <= i < |cells| && cells[i] != "-" ==> r[i] == Number(cells[i])
    ensures !AllNumbers(cells) ==> forall i :: 0 <= i < |cells| && cells[i] != "-" ==> r[i] == Text(cells[i])
  {
    var replaced := ReplaceMarker(cells);
    assert AllNumbers(cells) <==> forall i :: 0 <= i < |replaced| ==> replaced[i].Text? ==> IsNumber(replaced[i].text) by {
      forall i | 0 <= i < |cells|
        ensures (cells[i] == "-" || IsNumber(cells[i])) <==> (replaced[i].Text? ==> IsNumber(replaced[i].text))
      {
      }
    }
    match ParseNumbers(replaced)
    case Some(numbers) => numbers
    case None => replaced
  }
}
