/** The small part of Python's string library that the parser relies on:
    whitespace, str.strip(), str.split(), str.split(sep), substring search
    and single-character removal, each with the laws the parser needs. */
module Strings {

  /** Python's str.isspace() for one character: the characters that
      str.strip() and str.split() treat as whitespace. */
  predicate IsSpace(c: char) {
    c == ' ' || '\t' <= c <= '\r' || '\U{1C}' <= c <= '\U{1F}'
    || c == '\U{85}' || c == '\U{A0}' || c == '\U{1680}'
    || '\U{2000}' <= c <= '\U{200A}'
    || c == '\U{2028}' || c == '\U{2029}' || c == '\U{202F}' || c == '\U{205F}' || c == '\U{3000}'
  }

  predicate AllSpace(s: string) {
    forall i :: 0 <= i < |s| ==> IsSpace(s[i])
  }

  predicate NoSpace(s: string) {
    forall i :: 0 <= i < |s| ==> !IsSpace(s[i])
  }

  /** No whitespace at either end. */
  predicate Trimmed(s: string) {
    s == [] || (!IsSpace(s[0]) && !IsSpace(s[|s| - 1]))
  }

  /** Drops the leading whitespace (TrimLeftSuffix: and only that). */
  function TrimLeft(s: string): (r: string)
    ensures |r| <= |s|
    ensures r == [] || !IsSpace(r[0])
  {
    if s != [] && IsSpace(s[0]) then TrimLeft(s[1..]) else s
  }

  lemma {:induction false} TrimLeftSuffix(s: string)
    ensures TrimLeft(s) == s[|s| - |TrimLeft(s)|..]
    ensures AllSpace(s[..|s| - |TrimLeft(s)|])
  {
    if s != [] && IsSpace(s[0]) {
      TrimLeftSuffix(s[1..]);
      var k := |s| - |TrimLeft(s)|;
      assert s[1..][..k - 1] == s[1..k];
    }
  }

  /** Drops the trailing whitespace (TrimRightPrefix: and only that). */
  function TrimRight(s: string): (r: string)
    ensures |r| <= |s|
    ensures r == [] || !IsSpace(r[|r| - 1])
  {
    if s != [] && IsSpace(s[|s| - 1]) then TrimRight(s[..|s| - 1]) else s
  }

  lemma {:induction false} TrimRightPrefix(s: string)
    ensures TrimRight(s) == s[..|TrimRight(s)|]
    ensures AllSpace(s[|TrimRight(s)|..])
  {
    if s != [] && IsSpace(s[|s| - 1]) {
      TrimRightPrefix(s[..|s| - 1]);
      var k := |TrimRight(s)|;
      assert s[..|s| - 1][k..] == s[k..|s| - 1];
    }
  }

  /** str.strip() with no argument (StripSlice: the middle of s). */
  function Strip(s: string): (r: string)
    ensures Trimmed(r)
    ensures |r| <= |s|
    ensures r == [] <==> AllSpace(s)
    ensures Trimmed(s) ==> r == s
  {
    var t := TrimLeft(s);
    var r := TrimRight(t);
    StripTrimmed(t, r);
    StripBlank(s, t, r);
    r
  }

  /** The stripped string is a slice of s with only whitespace before and
      after it. */
  lemma StripSlice(s: string)
    ensures var r := Strip(s);
      exists k :: 0 <= k <= |s| - |r| && r == s[k..k + |r|] && AllSpace(s[..k]) && AllSpace(s[k + |r|..])
  {
    var t := TrimLeft(s);
    var r := TrimRight(t);
    TrimLeftSuffix(s);
    TrimRightPrefix(t);
    var k, n := |s| - |t|, |r|;
    assert Strip(s) == r;
    assert t == s[k..] && r == t[..n];
    assert r == s[k..k + n];
    assert s[k + n..] == t[n..];
    assert 0 <= k <= |s| - n && AllSpace(s[..k]) && AllSpace(s[k + n..]);
  }

  /** Whitespace around a stripped string is exactly what strip removes. */
  lemma StripSurrounded(a: string, m: string, b: string)
    requires AllSpace(a) && AllSpace(b) && Trimmed(m)
    ensures Strip(a + m + b) == m
  {
    if m == [] {
      assert AllSpace(a + m + b);
    } else {
      assert a + m + b == a + (m + b);
      TrimLeftSpace(a, m + b);
      TrimRightSpace(m, b);
    }
  }

  lemma {:induction false} TrimLeftSpace(a: string, x: string)
    requires AllSpace(a) && x != [] && !IsSpace(x[0])
    ensures TrimLeft(a + x) == x
  {
    if a == [] {
      assert a + x == x;
    } else {
      assert (a + x)[1..] == a[1..] + x;
      TrimLeftSpace(a[1..], x);
    }
  }

  lemma {:induction false} TrimRightSpace(y: string, b: string)
    requires AllSpace(b) && y != [] && !IsSpace(y[|y| - 1])
    ensures TrimRight(y + b) == y
    decreases |b|
  {
    if b == [] {
      assert y + b == y;
    } else {
      assert (y + b)[..|y + b| - 1] == y + b[..|b| - 1];
      TrimRightSpace(y, b[..|b| - 1]);
    }
  }

  lemma StripTrimmed(t: string, r: string)
    requires (t == [] || !IsSpace(t[0])) && r == TrimRight(t)
    ensures Trimmed(r)
  {
    TrimRightPrefix(t);
    if r != [] {
      assert r[0] == t[0];
    }
  }

  /** Stripping only removes characters: what is left came from s. */
  lemma StripKeepsChars(s: string, c: char)
    requires c in Strip(s)
    ensures c in s
  {
    var t := TrimLeft(s);
    var r := TrimRight(t);
    TrimLeftSuffix(s);
    TrimRightPrefix(t);
    var i :| 0 <= i < |r| && r[i] == c;
    assert r[i] == t[i] == s[|s| - |t| + i];
  }

  lemma StripBlank(s: string, t: string, r: string)
    requires t == TrimLeft(s) && r == TrimRight(t)
    ensures r == [] <==> AllSpace(s)
  {
    TrimLeftSuffix(s);
    TrimRightPrefix(t);
    var k := |s| - |t|;
    if r == [] {
      assert AllSpace(t);
      assert t == [];
      assert s[..k] == s;
    }
  }

  /** The characters of s that are not whitespace, in order. */
  function NonSpace(s: string): (r: string)
    ensures NoSpace(r)
  {
    if s == [] then [] else (if IsSpace(s[0]) then [] else [s[0]]) + NonSpace(s[1..])
  }

  lemma {:induction false} NonSpaceAppend(a: string, b: string)
    ensures NonSpace(a + b) == NonSpace(a) + NonSpace(b)
  {
    if a != [] {
      assert (a + b)[0] == a[0];
      assert (a + b)[1..] == a[1..] + b;
      var h: string := if IsSpace(a[0]) then [] else [a[0]];
      calc {
        NonSpace(a + b);
        h + NonSpace(a[1..] + b);
        { NonSpaceAppend(a[1..], b); }
        h + (NonSpace(a[1..]) + NonSpace(b));
        (h + NonSpace(a[1..])) + NonSpace(b);
        NonSpace(a) + NonSpace(b);
      }
    } else {
      assert a + b == b;
    }
  }

  lemma {:induction false} NonSpaceOfSpaces(s: string)
    requires AllSpace(s)
    ensures NonSpace(s) == []
  {
    if s != [] {
      NonSpaceOfSpaces(s[1..]);
    }
  }

  lemma {:induction false} NonSpaceOfWord(s: string)
    requires NoSpace(s)
    ensures NonSpace(s) == s
  {
    if s != [] {
      NonSpaceOfWord(s[1..]);
    }
  }

  /** The longest prefix without whitespace. */
  function TakeWord(s: string): (w: string)
    ensures |w| <= |s| && w == s[..|w|]
    ensures NoSpace(w)
    ensures |w| < |s| ==> IsSpace(s[|w|])
  {
    if s == [] || IsSpace(s[0]) then [] else [s[0]] + TakeWord(s[1..])
  }

  /** str.split() with no argument: the maximal runs of non-whitespace. */
  function SplitWhitespace(s: string): (r: seq<string>)
    ensures forall i :: 0 <= i < |r| ==> r[i] != [] && NoSpace(r[i])
    decreases |s|
  {
    var t := TrimLeft(s);
    if t == [] then []
    else
      var w := TakeWord(t);
      [w] + SplitWhitespace(t[|w|..])
  }

  /** The words of a sequence of strings glued together. */
  function Concat(words: seq<string>): string {
    if words == [] then [] else words[0] + Concat(words[1..])
  }

  /** str.split() loses nothing but whitespace: its words, put back to
      back, are exactly the non-whitespace characters of s, in order. */
  lemma {:induction false} SplitWhitespaceKeepsText(s: string)
    ensures Concat(SplitWhitespace(s)) == NonSpace(s)
    decreases |s|
  {
    var t := TrimLeft(s);
    TrimLeftSuffix(s);
    assert s == s[..|s| - |t|] + t;
    NonSpaceAppend(s[..|s| - |t|], t);
    NonSpaceOfSpaces(s[..|s| - |t|]);
    if t != [] {
      var w := TakeWord(t);
      assert t == w + t[|w|..];
      NonSpaceAppend(w, t[|w|..]);
      NonSpaceOfWord(w);
      SplitWhitespaceKeepsText(t[|w|..]);
    }
  }

  /** sep.join(words) for a one-character separator. */
  function Join(words: seq<string>, sep: char): string {
    if words == [] then []
    else if |words| == 1 then words[0]
    else words[0] + [sep] + Join(words[1..], sep)
  }

  /** Non-empty strings without whitespace: what str.split() returns. */
  predicate AreWords(words: seq<string>) {
    forall i :: 0 <= i < |words| ==> words[i] != [] && NoSpace(words[i])
  }

  /** str.split() undoes sep.join(words) for words without whitespace and
      a whitespace separator. */
  lemma {:induction false} SplitWhitespaceJoin(words: seq<string>, sep: char)
    requires IsSpace(sep)
    requires AreWords(words)
    ensures SplitWhitespace(Join(words, sep)) == words
  {
    if |words| == 1 {
      SplitWhitespaceWord(words[0], []);
      assert words[0] + [] == words[0];
    } else if |words| > 1 {
      var w, rest := words[0], Join(words[1..], sep);
      assert AreWords(words[1..]) && w != [] && NoSpace(w) by {
        assert forall i :: 0 <= i < |words| - 1 ==> words[1..][i] == words[i + 1];
      }
      JoinCons(words, sep);
      SplitWhitespaceWord(w, [sep] + rest);
      SplitWhitespaceSpace(sep, rest);
      SplitWhitespaceJoin(words[1..], sep);
      assert [w] + words[1..] == words;
    }
  }

  lemma JoinCons(words: seq<string>, sep: char)
    requires |words| > 1
    ensures Join(words, sep) == words[0] + ([sep] + Join(words[1..], sep))
  {
  }

  lemma SplitWhitespaceSpace(c: char, rest: string)
    requires IsSpace(c)
    ensures SplitWhitespace([c] + rest) == SplitWhitespace(rest)
  {
    assert ([c] + rest)[1..] == rest;
    assert TrimLeft([c] + rest) == TrimLeft(rest);
  }

  lemma SplitWhitespaceWord(w: string, rest: string)
    requires w != [] && NoSpace(w)
    requires rest == [] || IsSpace(rest[0])
    ensures SplitWhitespace(w + rest) == [w] + SplitWhitespace(rest)
  {
    var s := w + rest;
    assert s[0] == w[0];
    assert TrimLeft(s) == s;
    TakeWordOfWord(w, rest);
    assert s[|w|..] == rest;
  }

  lemma {:induction false} TakeWordOfWord(w: string, rest: string)
    requires NoSpace(w)
    requires rest == [] || IsSpace(rest[0])
    ensures TakeWord(w + rest) == w
  {
    if w != [] {
      assert (w + rest)[1..] == w[1..] + rest;
      TakeWordOfWord(w[1..], rest);
    }
  }

  /** str.split(sep) for a one-character separator: the pieces between
      separators, empty pieces included; there is always at least one. */
  function Split(s: string, sep: char): (r: seq<string>)
    ensures |r| >= 1
    ensures forall i :: 0 <= i < |r| ==> sep !in r[i]
  {
    if s == [] then [[]]
    else
      var rest := Split(s[1..], sep);
      if s[0] == sep then [[]] + rest
      else [[s[0]] + rest[0]] + rest[1..]
  }

  /** Joining the pieces with the separator gives the line back. */
  lemma {:induction false} JoinSplit(s: string, sep: char)
    ensures Join(Split(s, sep), sep) == s
  {
    if s != [] {
      var rest := Split(s[1..], sep);
      JoinSplit(s[1..], sep);
      if s[0] == sep {
        assert Join([[]] + rest, sep) == [] + [sep] + Join(rest, sep);
      } else {
        var r := [[s[0]] + rest[0]] + rest[1..];
        if |rest| == 1 {
          assert Join(r, sep) == [s[0]] + rest[0];
        } else {
          assert r[1..] == rest[1..];
          assert Join(r, sep) == [s[0]] + rest[0] + [sep] + Join(rest[1..], sep);
          assert Join(rest, sep) == rest[0] + [sep] + Join(rest[1..], sep);
        }
      }
    }
  }

  lemma {:induction false} SplitPrefix(a: string, b: string, sep: char)
    requires sep !in a
    ensures Split(a + b, sep) == [a + Split(b, sep)[0]] + Split(b, sep)[1..]
  {
    if a != [] {
      var x := Split(b, sep);
      assert (a + b)[0] == a[0];
      assert (a + b)[1..] == a[1..] + b;
      SplitPrefix(a[1..], b, sep);
      assert Split(a[1..] + b, sep) == [a[1..] + x[0]] + x[1..];
      assert [a[0]] + (a[1..] + x[0]) == a + x[0];
    } else {
      var x := Split(b, sep);
      assert a + b == b;
      assert a + x[0] == x[0];
      assert [a + x[0]] + x[1..] == x;
    }
  }

  /** Splitting undoes joining when no piece holds the separator. */
  lemma {:induction false} SplitJoin(parts: seq<string>, sep: char)
    requires |parts| >= 1
    requires forall i :: 0 <= i < |parts| ==> sep !in parts[i]
    ensures Split(Join(parts, sep), sep) == parts
  {
    if |parts| == 1 {
      SplitPrefix(parts[0], [], sep);
      assert parts[0] + [] == parts[0];
    } else {
      var rest := Join(parts[1..], sep);
      SplitJoin(parts[1..], sep);
      assert Join(parts, sep) == parts[0] + ([sep] + rest);
      SplitPrefix(parts[0], [sep] + rest, sep);
      assert ([sep] + rest)[1..] == rest;
      assert Split([sep] + rest, sep) == [[]] + parts[1..];
      assert parts[0] + [] == parts[0];
      assert [parts[0]] + parts[1..] == parts;
    }
  }

  /** The position of the first occurrence of x in s. */
  function IndexOf<T(==)>(s: seq<T>, x: T): (k: nat)
    requires x in s
    ensures k < |s| && s[k] == x && x !in s[..k]
  {
    if s[0] == x then 0 else 1 + IndexOf(s[1..], x)
  }

  predicate OccursAt(s: string, pat: string, i: int) {
    0 <= i && i + |pat| <= |s| && s[i..i + |pat|] == pat
  }

  /** Python's `pat in s` for strings. */
  predicate Contains(s: string, pat: string) {
    exists i | 0 <= i <= |s| - |pat| :: OccursAt(s, pat, i)
  }

  /** Every character of a character class removed;
      everything else kept in order. */
  function RemoveChars(s: string, drop: set<char>): (r: string)
    ensures |r| <= |s|
    ensures forall i :: 0 <= i < |r| ==> r[i] !in drop && r[i] in s
    ensures (forall i :: 0 <= i < |s| ==> s[i] !in drop) ==> r == s
  {
    if s == [] then []
    else (if s[0] in drop then [] else [s[0]]) + RemoveChars(s[1..], drop)
  }

  /** Every character outside the class survives the removal. */
  lemma {:induction false} RemoveCharsKeeps(s: string, drop: set<char>, i: nat)
    requires i < |s| && s[i] !in drop
    ensures s[i] in RemoveChars(s, drop)
  {
    if i > 0 {
      RemoveCharsKeeps(s[1..], drop, i - 1);
    }
  }

  /** One character is dropped exactly when it is in the class. */
  lemma RemoveCharsOne(c: char, drop: set<char>)
    ensures RemoveChars([c], drop) == if c in drop then [] else [c]
  {
    assert [c][1..] == [];
  }

  /** Removal works piece by piece: with RemoveCharsOne it fixes the
      result of every string, in order. */
  lemma {:induction false} RemoveCharsAppend(a: string, b: string, drop: set<char>)
    ensures RemoveChars(a + b, drop) == RemoveChars(a, drop) + RemoveChars(b, drop)
  {
    if a == [] {
      assert a + b == b;
    } else {
      assert (a + b)[0] == a[0];
      assert (a + b)[1..] == a[1..] + b;
      RemoveCharsAppend(a[1..], b, drop);
    }
  }
}
