/** The segmentation done by process_blocks: lines are stripped, blank
    lines dropped, and every header line closes the block before it and
    opens a new one named after it. A block is handed on only when it
    has a non-empty name and at least one line. */
module Segmenter {
  import opened Strings
  import opened Wrappers
  import opened LineSyntax

  /** A closed block: its name and its stripped, non-blank, non-header lines. */
  datatype Segment = Segment(name: string, body: seq<string>)

  /** A block is handed on when it has a name that is not empty and at
      least one line. */
  function Emit(name: Option<string>, body: seq<string>): (r: seq<Segment>)
    ensures |r| <= 1
    ensures r != [] <==> name.Some? && name.value != [] && body != []
    ensures r != [] ==> r[0] == Segment(name.value, body)
  {
    if name.Some? && name.value != [] && body != [] then [Segment(name.value, body)] else []
  }

  /** The blocks closed while scanning `lines`, given the name and the lines
      of the block that is open when the scan starts. */
  function RunFrom(name: Option<string>, body: seq<string>, lines: seq<string>): seq<Segment>
    decreases |lines|
  {
    if lines == [] then Emit(name, body)
    else
      var line := Strip(lines[0]);
      if line == [] then RunFrom(name, body, lines[1..])
      else if IsHeaderLine(line) then Emit(name, body) + RunFrom(Some(ExtractBlockName(line)), [], lines[1..])
      else RunFrom(name, body + [line], lines[1..])
  }

  /** One step of the scan, at line i. */
  lemma RunFromAt(name: Option<string>, body: seq<string>, lines: seq<string>, i: nat)
    requires i < |lines|
    ensures var line := Strip(lines[i]);
      RunFrom(name, body, lines[i..]) ==
        if line == [] then RunFrom(name, body, lines[i + 1..])
        else if IsHeaderLine(line) then Emit(name, body) + RunFrom(Some(ExtractBlockName(line)), [], lines[i + 1..])
        else RunFrom(name, body + [line], lines[i + 1..])
  {
    assert lines[i..][1..] == lines[i + 1..];
  }

  /** The blocks of a file, in the order their headers appear. */
  function Segments(lines: seq<string>): seq<Segment> {
    RunFrom(None, [], lines)
  }

  /** The stripped lines that are not blank, in order. */
  function Clean(lines: seq<string>): (r: seq<string>)
    ensures |r| <= |lines|
    ensures forall i :: 0 <= i < |r| ==> r[i] != [] && Trimmed(r[i])
  {
    if lines == [] then []
    else
      var line := Strip(lines[0]);
      (if line == [] then [] else [line]) + Clean(lines[1..])
  }

  /** The lines up to the next header line. */
  function TakeBody(lines: seq<string>): (r: seq<string>)
    ensures |r| <= |lines| && r == lines[..|r|]
    ensures |r| < |lines| ==> IsHeaderLine(lines[|r|])
    ensures forall i :: 0 <= i < |r| ==> !IsHeaderLine(r[i])
  {
    if lines == [] || IsHeaderLine(lines[0]) then [] else [lines[0]] + TakeBody(lines[1..])
  }

  function HeaderCount(lines: seq<string>): nat {
    if lines == [] then 0 else (if IsHeaderLine(lines[0]) then 1 else 0) + HeaderCount(lines[1..])
  }

  /** A block-by-block reading of cleaned lines: each header names the lines
      that follow it up to the next header; lines before the first header
      belong to no block. */
  function Reference(lines: seq<string>): (r: seq<Segment>)
    ensures |r| <= HeaderCount(lines)
  {
    if lines == [] then []
    else if IsHeaderLine(lines[0]) then
      Emit(Some(ExtractBlockName(lines[0])), TakeBody(lines[1..])) + Reference(lines[1..])
    else Reference(lines[1..])
  }

  /** Scanning from an open block: the open block receives the lines up to
      the first header, and the rest is read block by block. */
  lemma {:induction false} RunFromReference(name: Option<string>, body: seq<string>, lines: seq<string>)
    ensures RunFrom(name, body, lines) ==
      Emit(name, body + TakeBody(Clean(lines))) + Reference(Clean(lines))
    decreases |lines|
  {
    if lines == [] {
      assert body + [] == body;
    } else {
      var line, rest := Strip(lines[0]), lines[1..];
      if line == [] {
        assert Clean(lines) == Clean(rest) by {
          assert Clean(lines) == [] + Clean(rest);
        }
        assert RunFrom(name, body, lines) == RunFrom(name, body, rest);
        RunFromReference(name, body, rest);
      } else {
        assert Clean(lines) == [line] + Clean(rest);
        if IsHeaderLine(line) {
          assert RunFrom(name, body, lines) == Emit(name, body) + RunFrom(Some(ExtractBlockName(line)), [], rest);
          RunFromReference(Some(ExtractBlockName(line)), [], rest);
          HeaderCase(name, body, line, Clean(rest));
        } else {
          assert RunFrom(name, body, lines) == RunFrom(name, body + [line], rest);
          RunFromReference(name, body + [line], rest);
          OtherCase(name, body, line, Clean(rest));
        }
      }
    }
  }

  lemma HeaderCase(name: Option<string>, body: seq<string>, line: string, rest: seq<string>)
    requires IsHeaderLine(line)
    ensures Emit(name, body) + (Emit(Some(ExtractBlockName(line)), [] + TakeBody(rest)) + Reference(rest))
      == Emit(name, body + TakeBody([line] + rest)) + Reference([line] + rest)
  {
    assert ([line] + rest)[1..] == rest;
    assert body + [] == body;
    assert [] + TakeBody(rest) == TakeBody(rest);
  }

  lemma OtherCase(name: Option<string>, body: seq<string>, line: string, rest: seq<string>)
    requires !IsHeaderLine(line)
    ensures Emit(name, body + [line] + TakeBody(rest)) + Reference(rest)
      == Emit(name, body + TakeBody([line] + rest)) + Reference([line] + rest)
  {
    assert ([line] + rest)[1..] == rest;
    assert body + [line] + TakeBody(rest) == body + ([line] + TakeBody(rest));
  }

  /** The scan of process_blocks agrees with the block-by-block reading. */
  lemma SegmentsReference(lines: seq<string>)
    ensures Segments(lines) == Reference(Clean(lines))
  {
    RunFromReference(None, [], lines);
  }

  /** A block is well formed: a non-empty trimmed name free of asterisks,
      and a non-empty list of non-blank, trimmed, non-header lines. */
  predicate WellFormed(s: Segment) {
    && s.name != [] && Trimmed(s.name) && !IsHeaderLine(s.name)
    && s.body != []
    && forall i :: 0 <= i < |s.body| ==> s.body[i] != [] && Trimmed(s.body[i]) && !IsHeaderLine(s.body[i])
  }

  /** Every block of a list is well formed. */
  predicate AllWellFormed(segs: seq<Segment>) {
    forall k :: 0 <= k < |segs| ==> WellFormed(segs[k])
  }

  lemma {:induction false} ReferenceWellFormed(lines: seq<string>)
    requires forall i :: 0 <= i < |lines| ==> lines[i] != [] && Trimmed(lines[i])
    ensures AllWellFormed(Reference(lines))
  {
    if lines != [] {
      var rest := lines[1..];
      ReferenceWellFormed(rest);
      if IsHeaderLine(lines[0]) {
        var first := Emit(Some(ExtractBlockName(lines[0])), TakeBody(rest));
        HeaderBlockWellFormed(lines[0], rest);
        WellFormedAppend(Reference(lines), first, Reference(rest));
      } else {
        assert Reference(lines) == Reference(rest);
      }
    }
  }

  /** The block a header opens over stripped lines is well formed, when it
      is handed on. */
  lemma HeaderBlockWellFormed(line: string, rest: seq<string>)
    requires forall i :: 0 <= i < |rest| ==> rest[i] != [] && Trimmed(rest[i])
    ensures AllWellFormed(Emit(Some(ExtractBlockName(line)), TakeBody(rest)))
  {
    var body := TakeBody(rest);
    assert forall i :: 0 <= i < |body| ==> body[i] == rest[i];
  }

  lemma WellFormedAppend(whole: seq<Segment>, a: seq<Segment>, b: seq<Segment>)
    requires whole == a + b && AllWellFormed(a) && AllWellFormed(b)
    ensures AllWellFormed(whole)
  {
  }

  /** Every block handed on is well formed, and there are no more blocks
      than header lines. */
  lemma SegmentsWellFormed(lines: seq<string>)
    ensures forall k :: 0 <= k < |Segments(lines)| ==> WellFormed(Segments(lines)[k])
    ensures |Segments(lines)| <= HeaderCount(Clean(lines))
  {
    SegmentsReference(lines);
    ReferenceWellFormed(Clean(lines));
  }

  lemma {:induction false} CleanAppend(a: seq<string>, b: seq<string>)
    ensures Clean(a + b) == Clean(a) + Clean(b)
  {
    if a == [] {
      assert a + b == b;
    } else {
      var head := if Strip(a[0]) == [] then [] else [Strip(a[0])];
      assert (a + b)[0] == a[0];
      assert (a + b)[1..] == a[1..] + b;
      assert Clean(a + b) == head + Clean(a[1..] + b);
      CleanAppend(a[1..], b);
      assert head + (Clean(a[1..]) + Clean(b)) == (head + Clean(a[1..])) + Clean(b);
    }
  }

  /** Blank and whitespace-only lines are ignored wherever they are. */
  lemma BlankLineIgnored(before: seq<string>, blank: string, after: seq<string>)
    requires AllSpace(blank)
    ensures Segments(before + [blank] + after) == Segments(before + after)
  {
    SegmentsReference(before + [blank] + after);
    SegmentsReference(before + after);
    CleanAppend(before + [blank], after);
    CleanAppend(before, [blank]);
    CleanAppend(before, after);
    assert Clean([blank]) == [] by {
      assert [blank][1..] == [];
    }
    assert Clean(before) + [] == Clean(before);
  }

  lemma {:induction false} ReferenceSkip(pre: seq<string>, rest: seq<string>)
    requires forall i :: 0 <= i < |pre| ==> !IsHeaderLine(pre[i])
    ensures Reference(pre + rest) == Reference(rest)
  {
    if pre != [] {
      assert (pre + rest)[1..] == pre[1..] + rest;
      ReferenceSkip(pre[1..], rest);
    } else {
      assert pre + rest == rest;
    }
  }

  lemma {:induction false} CleanAvoids(lines: seq<string>)
    requires forall i :: 0 <= i < |lines| ==> !IsHeaderLine(lines[i])
    ensures forall i :: 0 <= i < |Clean(lines)| ==> !IsHeaderLine(Clean(lines)[i])
  {
    if lines != [] {
      CleanAvoids(lines[1..]);
      if '*' in Strip(lines[0]) {
        StripKeepsChars(lines[0], '*');
      }
    }
  }

  /** Lines before the first header belong to no block and are discarded. */
  lemma PreambleDiscarded(preamble: seq<string>, rest: seq<string>)
    requires forall i :: 0 <= i < |preamble| ==> !IsHeaderLine(preamble[i])
    ensures Segments(preamble + rest) == Segments(rest)
  {
    SegmentsReference(preamble + rest);
    SegmentsReference(rest);
    CleanAppend(preamble, rest);
    CleanAvoids(preamble);
    ReferenceSkip(Clean(preamble), Clean(rest));
  }

  /** A header directly followed by another header (or by the end) closes
      an empty block, which is not handed on. */
  lemma EmptyBlockDropped(header: string, rest: seq<string>)
    requires IsHeaderLine(header) && Trimmed(header)
    requires rest == [] || IsHeaderLine(Strip(rest[0]))
    ensures Segments([header] + rest) == Segments(rest)
  {
    var lines := [header] + rest;
    assert header != [];
    assert lines[1..] == rest;
    assert Strip(header) == header;
    RunFromReference(Some(ExtractBlockName(header)), [], rest);
    SegmentsReference(rest);
    if rest != [] {
      assert Clean(rest)[0] == Strip(rest[0]);
    }
  }

  /** Blocks written out one after another, each as its banner followed by
      its lines. */
  function Layout(segs: seq<Segment>): seq<string> {
    if segs == [] then [] else [Banner(segs[0].name)] + segs[0].body + Layout(segs[1..])
  }

  /** The banner of a block name is a trimmed header line naming it back. */
  lemma BannerLine(name: string)
    requires name != [] && Trimmed(name) && !IsHeaderLine(name)
    ensures IsHeaderLine(Banner(name)) && Banner(name) != [] && Trimmed(Banner(name))
    ensures ExtractBlockName(Banner(name)) == name
  {
    ExtractBannerName(name);
    BannerHeader(name);
  }

  lemma BannerHeader(name: string)
    ensures IsHeaderLine(Banner(name)) && Banner(name) != [] && Trimmed(Banner(name))
  {
    assert Banner(name)[0] == '*';
    assert Banner(name)[|Banner(name)| - 1] == '*';
  }

  /** Lines that are all non-blank and trimmed. */
  predicate Stripped(lines: seq<string>) {
    forall i :: 0 <= i < |lines| ==> lines[i] != [] && Trimmed(lines[i])
  }

  lemma StrippedAppend(a: seq<string>, b: seq<string>)
    requires Stripped(a) && Stripped(b)
    ensures Stripped(a + b)
  {
    forall i | 0 <= i < |a + b|
      ensures (a + b)[i] != [] && Trimmed((a + b)[i])
    {
      if i >= |a| {
        assert (a + b)[i] == b[i - |a|];
      }
    }
  }

  /** The laid-out lines are non-blank and trimmed, and they start with a
      header unless there are none. */
  lemma {:induction false} LayoutLines(segs: seq<Segment>)
    requires forall k :: 0 <= k < |segs| ==> WellFormed(segs[k])
    ensures Stripped(Layout(segs))
    ensures Layout(segs) != [] ==> IsHeaderLine(Layout(segs)[0])
  {
    if segs != [] {
      var s, tail := segs[0], Layout(segs[1..]);
      LayoutLines(segs[1..]);
      BlockLines(s);
      StrippedAppend([Banner(s.name)] + s.body, tail);
      assert Layout(segs) == [Banner(s.name)] + s.body + tail;
    }
  }

  /** One block written out: stripped lines, its banner first. */
  lemma BlockLines(s: Segment)
    requires WellFormed(s)
    ensures Stripped([Banner(s.name)] + s.body) && IsHeaderLine(Banner(s.name))
  {
    BannerHeader(s.name);
    assert Stripped(s.body);
    StrippedAppend([Banner(s.name)], s.body);
  }

  /** The body of a block ends where the next header starts. */
  lemma {:induction false} TakeBodyUpTo(body: seq<string>, rest: seq<string>)
    requires forall i :: 0 <= i < |body| ==> !IsHeaderLine(body[i])
    requires rest == [] || IsHeaderLine(rest[0])
    ensures TakeBody(body + rest) == body
  {
    if body == [] {
      assert body + rest == rest;
    } else {
      assert (body + rest)[1..] == body[1..] + rest;
      TakeBodyUpTo(body[1..], rest);
      assert [body[0]] + body[1..] == body;
    }
  }

  lemma {:induction false} ReferenceLayout(segs: seq<Segment>)
    requires forall k :: 0 <= k < |segs| ==> WellFormed(segs[k])
    ensures Reference(Layout(segs)) == segs
  {
    if segs != [] {
      var s, tail := segs[0], Layout(segs[1..]);
      var lines := [Banner(s.name)] + (s.body + tail);
      assert Layout(segs) == lines;
      assert lines[1..] == s.body + tail;
      BannerLine(s.name);
      LayoutLines(segs[1..]);
      TakeBodyUpTo(s.body, tail);
      ReferenceSkip(s.body, tail);
      ReferenceLayout(segs[1..]);
      assert [s] + segs[1..] == segs;
    }
  }

  /** Segmenting the lines of well-formed blocks written out under their
      banners gives back exactly those blocks, in order. */
  lemma SegmentsLayout(segs: seq<Segment>)
    requires forall k :: 0 <= k < |segs| ==> WellFormed(segs[k])
    ensures Segments(Layout(segs)) == segs
  {
    SegmentsReference(Layout(segs));
    LayoutLines(segs);
    CleanTrimmed(Layout(segs));
    ReferenceLayout(segs);
  }

  lemma {:induction false} CleanTrimmed(lines: seq<string>)
    requires forall i :: 0 <= i < |lines| ==> lines[i] != [] && Trimmed(lines[i])
    ensures Clean(lines) == lines
  {
    if lines != [] {
      CleanTrimmed(lines[1..]);
      assert [lines[0]] + lines[1..] == lines;
    }
  }
}
