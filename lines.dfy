/** The line classifiers and tokenizers of the parser (is_header_line,
    is_format_line, extract_block_name, parse_columns, parse_data_line). */
module LineSyntax {
  import opened Strings

  /** A header line starts a block: it holds at least one asterisk. */
  predicate IsHeaderLine(line: string) {
    '*' in line
  }

  /** A format line describes units or the date layout and is skipped. */
  predicate IsFormatLine(line: string) {
    Contains(line, "(dd/mm/yyyy") || Contains(line, "(min)")
  }

  /** Both format marks start with an opening parenthesis, so a line
      without one is never a format line. */
  lemma FormatLineHasParen(line: string)
    ensures IsFormatLine(line) ==> '(' in line
  {
    if Contains(line, "(dd/mm/yyyy") {
      var i :| 0 <= i <= |line| - 11 && OccursAt(line, "(dd/mm/yyyy", i);
      assert line[i] == line[i..i + 11][0];
    } else if Contains(line, "(min)") {
      var i :| 0 <= i <= |line| - 5 && OccursAt(line, "(min)", i);
      assert line[i] == line[i..i + 5][0];
    }
  }

  /** The block name of a header: every asterisk removed, then the
      surrounding whitespace. A header of asterisks and blanks only names
      the empty block. */
  function ExtractBlockName(line: string): (name: string)
    ensures !IsHeaderLine(name)
    ensures Trimmed(name)
    ensures (forall i :: 0 <= i < |line| ==> line[i] == '*' || IsSpace(line[i])) ==> name == []
  {
    var bare := RemoveChars(line, {'*'});
    assert (forall i :: 0 <= i < |line| ==> line[i] == '*' || IsSpace(line[i])) ==> AllSpace(bare) by {
      if forall i :: 0 <= i < |line| ==> line[i] == '*' || IsSpace(line[i]) {
        forall i | 0 <= i < |bare|
          ensures IsSpace(bare[i])
        {
          var k :| 0 <= k < |line| && line[k] == bare[i];
        }
      }
    }
    assert forall c :: c in Strip(bare) ==> c in bare by {
      forall c | c in Strip(bare)
        ensures c in bare
      {
        StripKeepsChars(bare, c);
      }
    }
    Strip(bare)
  }

  /** A header names the empty block exactly when it holds only asterisks
      and whitespace; any other character gives a non-empty name. */
  lemma EmptyBlockName(line: string)
    ensures ExtractBlockName(line) == [] <==> forall i :: 0 <= i < |line| ==> line[i] == '*' || IsSpace(line[i])
  {
    var bare := RemoveChars(line, {'*'});
    if ExtractBlockName(line) == [] {
      assert AllSpace(bare);
      forall i | 0 <= i < |line| && line[i] != '*'
        ensures IsSpace(line[i])
      {
        RemoveCharsKeeps(line, {'*'}, i);
        var k :| 0 <= k < |bare| && bare[k] == line[i];
      }
    }
  }

  /** The conventional header "**** name ****". */
  function Banner(name: string): string {
    "**** " + name + " ****"
  }

  /** A trimmed name without asterisks survives the trip through a banner. */
  lemma ExtractBannerName(name: string)
    requires Trimmed(name) && '*' !in name
    ensures ExtractBlockName(Banner(name)) == name
  {
    BannerBare(name);
    StripPadded(name);
  }

  /** Removing the asterisks of a banner leaves the name between blanks. */
  lemma BannerBare(name: string)
    requires '*' !in name
    ensures RemoveChars(Banner(name), {'*'}) == " " + name + " "
  {
    var tail := RemoveChars(name + " ****", {'*'});
    assert tail == name + " " by {
      RemoveCharsAppend(name, " ****", {'*'});
      assert RemoveChars(name, {'*'}) == name;
      StarsRemoved();
    }
    assert RemoveChars(Banner(name), {'*'}) == " " + tail by {
      assert Banner(name) == "**** " + (name + " ****");
      RemoveCharsAppend("**** ", name + " ****", {'*'});
      StarsRemoved();
    }
  }

  lemma StarsRemoved()
    ensures RemoveChars("**** ", {'*'}) == " "
    ensures RemoveChars(" ****", {'*'}) == " "
  {
    assert "**** "[1..] == "*** ";
    assert "*** "[1..] == "** ";
    assert "** "[1..] == "* ";
    assert "* "[1..] == " ";
    assert " ****"[1..] == "****";
    assert "****"[1..] == "***";
    assert "***"[1..] == "**";
    assert "**"[1..] == "*";
  }

  lemma StripPadded(name: string)
    requires Trimmed(name)
    ensures Strip(" " + name + " ") == name
  {
    var s := " " + name + " ";
    var t := TrimLeft(s);
    assert t == TrimLeft(name + " ") by {
      assert s[1..] == name + " ";
    }
    if name == [] {
      assert t == [] by {
        assert name + " " == " ";
        assert TrimLeft(" ") == TrimLeft(" "[1..]);
      }
    } else {
      assert t == name + " " by {
        assert (name + " ")[0] == name[0];
      }
      assert TrimRight(t) == name by {
        assert t[..|name|] == name;
        assert TrimRight(t) == TrimRight(name);
      }
    }
    assert Strip(s) == TrimRight(t);
  }

  /** Parenthesised groups removed: scanning left to right, an opening
      parenthesis up to the next closing one is removed; an opening
      parenthesis with no closing one after it is kept. */
  function RemoveParenGroups(s: string): (r: string)
    ensures |r| <= |s|
    ensures forall i :: 0 <= i < |r| ==> r[i] in s
    ensures '(' !in s ==> r == s
    ensures forall i, j :: 0 <= i < j < |r| && r[i] == '(' ==> r[j] != ')'
    decreases |s|
  {
    if s == [] then []
    else if s[0] == '(' && ')' in s then
      RemoveParenGroups(s[IndexOf(s, ')') + 1..])
    else
      var rest := RemoveParenGroups(s[1..]);
      KeptFrom(rest, s);
      [s[0]] + rest
  }

  /** The characters of a part of s[1..] are characters of s, so they avoid
      whatever s avoids. */
  lemma KeptFrom(rest: string, s: string)
    requires s != [] && forall i :: 0 <= i < |rest| ==> rest[i] in s[1..]
    ensures forall i :: 0 <= i < |[s[0]] + rest| ==> ([s[0]] + rest)[i] in s
    ensures ')' !in s ==> forall i :: 0 <= i < |rest| ==> rest[i] != ')'
  {
    var r := [s[0]] + rest;
    forall i | 0 <= i < |r|
      ensures r[i] in s
    {
      if i > 0 {
        assert r[i] == rest[i - 1];
        assert rest[i - 1] in s[1..];
      }
    }
  }

  /** A group from an opening parenthesis to the first closing one after
      it is removed, and the text before it, which opens no group, is
      kept. */
  lemma {:induction false} ParenGroupRemoved(a: string, x: string, b: string)
    requires '(' !in a && ')' !in x
    ensures RemoveParenGroups(a + "(" + x + ")" + b) == a + RemoveParenGroups(b)
    decreases |a|
  {
    var s := a + "(" + x + ")" + b;
    if a == [] {
      calc {
        RemoveParenGroups(s);
        { assert s == "(" + x + ")" + b; }
        RemoveParenGroups("(" + x + ")" + b);
        { GroupAtStart(x, b); }
        RemoveParenGroups(b);
        { assert a + RemoveParenGroups(b) == RemoveParenGroups(b); }
        a + RemoveParenGroups(b);
      }
    } else {
      var t := a[1..] + "(" + x + ")" + b;
      calc {
        RemoveParenGroups(s);
        { assert s == [a[0]] + t; }
        RemoveParenGroups([a[0]] + t);
        { KeptChar(a[0], t); }
        [a[0]] + RemoveParenGroups(t);
        { ParenGroupRemoved(a[1..], x, b); }
        [a[0]] + (a[1..] + RemoveParenGroups(b));
        { assert [a[0]] + a[1..] == a; }
        a + RemoveParenGroups(b);
      }
    }
  }

  /** A group at the very start is removed. */
  lemma GroupAtStart(x: string, b: string)
    requires ')' !in x
    ensures RemoveParenGroups("(" + x + ")" + b) == RemoveParenGroups(b)
  {
    var s := "(" + x + ")" + b;
    var k := |x| + 1;
    assert s[k] == ')';
    forall i | 0 <= i < k
      ensures s[i] != ')'
    {
      if i > 0 {
        assert s[i] == x[i - 1];
      }
    }
    assert IndexOf(s, ')') == k;
    assert s[k + 1..] == b;
  }

  /** A character other than an opening parenthesis is kept. */
  lemma KeptChar(c: char, t: string)
    requires c != '('
    ensures RemoveParenGroups([c] + t) == [c] + RemoveParenGroups(t)
  {
    assert ([c] + t)[1..] == t;
  }

  /** A line without a closing parenthesis opens no group and is kept
      whole. */
  lemma {:induction false} UnclosedKept(s: string)
    requires ')' !in s
    ensures RemoveParenGroups(s) == s
  {
    if s != [] {
      UnclosedKept(s[1..]);
      assert [s[0]] + s[1..] == s;
    }
  }

  /** A column heading: its name, a blank, and its unit in parentheses. */
  predicate IsLabel(heading: string, name: string, unit: string) {
    heading == name + " " + "(" + unit + ")"
  }

  /** Column names each followed by a parenthesised unit, joined by a
      whitespace character, come back as the bare names: the units are
      removed. */
  lemma {:induction false} ParseColumnsUnits(labels: seq<string>, columns: seq<string>, units: seq<string>, sep: char)
    requires IsSpace(sep)
    requires |labels| == |columns| == |units|
    requires forall i :: 0 <= i < |columns| ==> columns[i] != [] && NoSpace(columns[i]) && '(' !in columns[i]
    requires forall i :: 0 <= i < |units| ==> ')' !in units[i] && IsLabel(labels[i], columns[i], units[i])
    ensures ParseColumns(Join(labels, sep)) == columns
  {
    UnitsRemoved(labels, columns, units, sep);
    assert forall k :: 0 <= k < |columns| ==> Trimmed(columns[k]);
  }

  /** The words of the joined headings, units removed, are the names. */
  lemma {:induction false} UnitsRemoved(labels: seq<string>, columns: seq<string>, units: seq<string>, sep: char)
    requires IsSpace(sep)
    requires |labels| == |columns| == |units|
    requires forall i :: 0 <= i < |columns| ==> columns[i] != [] && NoSpace(columns[i]) && '(' !in columns[i]
    requires forall i :: 0 <= i < |units| ==> ')' !in units[i] && IsLabel(labels[i], columns[i], units[i])
    ensures SplitWhitespace(RemoveParenGroups(Join(labels, sep))) == columns
  {
    if |labels| == 1 {
      assert Join(labels, sep) == labels[0] + [];
      assert IsLabel(labels[0], columns[0], units[0]);
      HeadingRemoved(columns[0], units[0], []);
      assert columns == [columns[0]];
    } else if |labels| > 1 {
      var cs, us, ls := columns[1..], units[1..], labels[1..];
      forall i | 0 <= i < |cs|
        ensures cs[i] != [] && NoSpace(cs[i]) && '(' !in cs[i]
        ensures ')' !in us[i] && IsLabel(ls[i], cs[i], us[i])
      {
        assert cs[i] == columns[i + 1] && us[i] == units[i + 1] && ls[i] == labels[i + 1];
      }
      UnitsRemoved(ls, cs, us, sep);
      JoinCons(labels, sep);
      HeadingThenMore(labels[0], columns[0], units[0], sep, Join(ls, sep), cs);
      assert [columns[0]] + cs == columns;
    }
  }

  /** A heading, a whitespace character and further headings whose words
      are known: the heading's name comes first. */
  lemma HeadingThenMore(heading: string, c: string, u: string, sep: char, more: string, words: seq<string>)
    requires IsSpace(sep) && c != [] && NoSpace(c) && '(' !in c && ')' !in u && IsLabel(heading, c, u)
    requires SplitWhitespace(RemoveParenGroups(more)) == words
    ensures SplitWhitespace(RemoveParenGroups(heading + ([sep] + more))) == [c] + words
  {
    assert heading + ([sep] + more) == c + " " + "(" + u + ")" + ([sep] + more);
    HeadingRemoved(c, u, [sep] + more);
    SeparatorKept(sep, more);
  }

  /** A whitespace character before the next heading adds no word. */
  lemma SeparatorKept(sep: char, more: string)
    requires IsSpace(sep)
    ensures SplitWhitespace(RemoveParenGroups([sep] + more)) == SplitWhitespace(RemoveParenGroups(more))
  {
    KeptChar(sep, more);
    SplitWhitespaceSpace(sep, RemoveParenGroups(more));
  }

  /** One heading at the front: its name is the first word, and its unit
      is gone. */
  lemma HeadingRemoved(c: string, u: string, rest: string)
    requires c != [] && NoSpace(c) && '(' !in c && ')' !in u
    ensures SplitWhitespace(RemoveParenGroups(c + " " + "(" + u + ")" + rest)) == [c] + SplitWhitespace(RemoveParenGroups(rest))
  {
    var tail := RemoveParenGroups(rest);
    calc {
      SplitWhitespace(RemoveParenGroups(c + " " + "(" + u + ")" + rest));
      { ParenGroupRemoved(c + " ", u, rest); }
      SplitWhitespace(c + " " + tail);
      { assert c + " " + tail == c + ([' '] + tail); }
      SplitWhitespace(c + ([' '] + tail));
      { SplitWhitespaceWord(c, [' '] + tail); }
      [c] + SplitWhitespace([' '] + tail);
      { SplitWhitespaceSpace(' ', tail); }
      [c] + SplitWhitespace(tail);
    }
  }

  /** Every value stripped; the values that strip to nothing dropped. */
  function StripNonEmpty(values: seq<string>): (r: seq<string>)
    ensures |r| <= |values|
    ensures forall i :: 0 <= i < |r| ==> r[i] != [] && Trimmed(r[i])
    ensures (forall k :: 0 <= k < |values| ==> values[k] != [] && Trimmed(values[k])) ==> r == values
  {
    if values == [] then []
    else
      var v := Strip(values[0]);
      (if v == [] then [] else [v]) + StripNonEmpty(values[1..])
  }

  /** One value is kept, stripped, exactly when it is not blank. */
  lemma StripNonEmptyOne(value: string)
    ensures StripNonEmpty([value]) == if AllSpace(value) then [] else [Strip(value)]
  {
    assert [value][1..] == [];
  }

  /** The values are processed one by one: with StripNonEmptyOne this fixes
      the result of every list, in order. */
  lemma {:induction false} StripNonEmptyAppend(a: seq<string>, b: seq<string>)
    ensures StripNonEmpty(a + b) == StripNonEmpty(a) + StripNonEmpty(b)
  {
    if a == [] {
      assert a + b == b;
    } else {
      StripNonEmptySplit(a, b);
      StripNonEmptyAppend(a[1..], b);
      StripNonEmptyFirst(a);
      Regroup(StripNonEmpty(a + b), StripNonEmpty([a[0]]), StripNonEmpty(a[1..] + b),
              StripNonEmpty(a[1..]), StripNonEmpty(b), StripNonEmpty(a));
    }
  }

  lemma Regroup(whole: seq<string>, x: seq<string>, tail: seq<string>, y: seq<string>, z: seq<string>, front: seq<string>)
    requires whole == x + tail && tail == y + z && front == x + y
    ensures whole == front + z
  {
  }

  lemma StripNonEmptyFirst(a: seq<string>)
    requires a != []
    ensures StripNonEmpty(a) == StripNonEmpty([a[0]]) + StripNonEmpty(a[1..])
  {
    assert a == [a[0]] + a[1..];
    StripNonEmptyCons(a[0], a[1..]);
  }

  /** The first value of a non-empty list is processed on its own. */
  lemma StripNonEmptySplit(a: seq<string>, b: seq<string>)
    requires a != []
    ensures StripNonEmpty(a + b) == StripNonEmpty([a[0]]) + StripNonEmpty(a[1..] + b)
  {
    assert a + b == [a[0]] + (a[1..] + b);
    StripNonEmptyCons(a[0], a[1..] + b);
  }

  lemma StripNonEmptyCons(value: string, rest: seq<string>)
    ensures StripNonEmpty([value] + rest) == StripNonEmpty([value]) + StripNonEmpty(rest)
  {
    assert ([value] + rest)[1..] == rest;
    assert [value][1..] == [];
  }

  /** A character found in none of the values is found in none of the
      stripped values. */
  lemma {:induction false} StripNonEmptyAvoids(values: seq<string>, c: char)
    requires forall k :: 0 <= k < |values| ==> c !in values[k]
    ensures forall i :: 0 <= i < |StripNonEmpty(values)| ==> c !in StripNonEmpty(values)[i]
  {
    if values != [] {
      if c in Strip(values[0]) {
        StripKeepsChars(values[0], c);
      }
      StripNonEmptyAvoids(values[1..], c);
    }
  }

  /** parse_columns: parenthesised groups removed, the rest split on
      whitespace. Every column name is non-empty and without whitespace. */
  function ParseColumns(line: string): (columns: seq<string>)
    ensures forall i :: 0 <= i < |columns| ==> columns[i] != [] && NoSpace(columns[i])
  {
    var words := SplitWhitespace(RemoveParenGroups(line));
    assert forall k :: 0 <= k < |words| ==> Trimmed(words[k]);
    StripNonEmpty(words)
  }

  /** Column names without parentheses, joined by a whitespace character
      (a blank or a tab), come back unchanged. */
  lemma ParseColumnsJoin(columns: seq<string>, sep: char)
    requires IsSpace(sep)
    requires forall i :: 0 <= i < |columns| ==> columns[i] != [] && NoSpace(columns[i]) && '(' !in columns[i]
    ensures ParseColumns(Join(columns, sep)) == columns
  {
    JoinAvoids(columns, sep, '(');
    assert AreWords(columns);
    SplitWhitespaceJoin(columns, sep);
    assert forall k :: 0 <= k < |columns| ==> Trimmed(columns[k]);
  }

  /** A character in none of the pieces and unequal to the separator is
      not in their join. */
  lemma {:induction false} JoinAvoids(parts: seq<string>, sep: char, c: char)
    requires c != sep
    requires forall i :: 0 <= i < |parts| ==> c !in parts[i]
    ensures c !in Join(parts, sep)
  {
    if |parts| > 1 {
      JoinAvoids(parts[1..], sep, c);
    }
  }

  /** parse_data_line: split on tabs, each piece stripped, empty pieces
      dropped. Every value is non-empty, trimmed and free of tabs. */
  function ParseDataLine(line: string): (values: seq<string>)
    ensures forall i :: 0 <= i < |values| ==> values[i] != [] && Trimmed(values[i]) && '\t' !in values[i]
  {
    var pieces := Split(line, '\t');
    StripNonEmptyAvoids(pieces, '\t');
    StripNonEmpty(pieces)
  }

  /** Values joined by tabs come back unchanged: parse_data_line reads
      back what a tab-separated writer produced. */
  lemma ParseDataLineJoin(values: seq<string>)
    requires |values| >= 1
    requires forall i :: 0 <= i < |values| ==> values[i] != [] && Trimmed(values[i]) && '\t' !in values[i]
    ensures ParseDataLine(Join(values, '\t')) == values
  {
    SplitJoin(values, '\t');
  }
}
