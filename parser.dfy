/** The parser object: process_blocks stores a table per named block in
    an insertion-ordered dict, where a later block of the same name
    replaces the table of an earlier one; get_block_names and get_block
    read that dict. */
module Parser {
  import opened Wrappers
  import opened Strings
  import opened LineSyntax
  import opened Cells
  import opened TableBuilder
  import opened Segmenter
  import OrderedDict

  type Blocks = OrderedDict.Dict<string, Table>

  /** The dict after storing some blocks, and whether every table could be
      built. When create_dataframe raises, the exception leaves
      process_blocks and the dict keeps what was stored before. */
  datatype Stored = Stored(blocks: Blocks, completed: bool)

  /** A closed block's name with what create_dataframe made of its lines. */
  datatype Entry = Entry(name: string, outcome: Outcome)

  /** The blocks of a file, each with its table. */
  function Entries(segs: seq<Segment>): (r: seq<Entry>)
    ensures |r| == |segs|
    ensures forall i :: 0 <= i < |segs| ==> r[i] == Entry(segs[i].name, BuildTable(segs[i].body))
  {
    seq(|segs|, i requires 0 <= i < |segs| => Entry(segs[i].name, BuildTable(segs[i].body)))
  }

  lemma EntriesAppend(a: seq<Segment>, b: seq<Segment>)
    ensures Entries(a + b) == Entries(a) + Entries(b)
  {
  }

  /** Each block's table is stored under its name in turn; storing stops
      at the first block whose table raises. */
  function StoreAll(d: Blocks, es: seq<Entry>): (r: Stored)
    requires OrderedDict.Valid(d)
    ensures OrderedDict.Valid(r.blocks)
    decreases |es|
  {
    if es == [] then Stored(d, true)
    else
      var prev := StoreAll(d, es[..|es| - 1]);
      var last := es[|es| - 1];
      if !prev.completed then prev
      else
        match last.outcome
        case Raised => Stored(prev.blocks, false)
        case Built(t) => Stored(OrderedDict.Put(prev.blocks, last.name, t), true)
  }

  lemma StoreAllSnoc(d: Blocks, es: seq<Entry>, e: Entry)
    requires OrderedDict.Valid(d)
    ensures StoreAll(d, es + [e]) ==
      var prev := StoreAll(d, es);
      if !prev.completed then prev
      else
        match e.outcome
        case Raised => Stored(prev.blocks, false)
        case Built(t) => Stored(OrderedDict.Put(prev.blocks, e.name, t), true)
  {
    assert (es + [e])[..|es|] == es;
  }

  /** Storing two runs of blocks is storing the first and then, if that
      completed, the second. */
  lemma {:induction false} StoreAllAppend(d: Blocks, a: seq<Entry>, b: seq<Entry>)
    requires OrderedDict.Valid(d)
    ensures StoreAll(d, a + b) ==
      if StoreAll(d, a).completed then StoreAll(StoreAll(d, a).blocks, b) else StoreAll(d, a)
    decreases |b|
  {
    if b == [] {
      assert a + b == a;
    } else {
      var init, last := b[..|b| - 1], b[|b| - 1];
      assert a + b == (a + init) + [last];
      assert b == init + [last];
      StoreAllAppend(d, a, init);
      StoreAllSnoc(d, a + init, last);
      if StoreAll(d, a).completed {
        StoreAllSnoc(StoreAll(d, a).blocks, init, last);
      }
    }
  }

  /** Storing completes exactly when no block's table raises. */
  lemma {:induction false} StoreAllCompletes(d: Blocks, es: seq<Entry>)
    requires OrderedDict.Valid(d)
    ensures StoreAll(d, es).completed <==> forall i :: 0 <= i < |es| ==> es[i].outcome.Built?
    decreases |es|
  {
    if es != [] {
      var init, last := es[..|es| - 1], es[|es| - 1];
      assert es == init + [last];
      StoreAllSnoc(d, init, last);
      StoreAllCompletes(d, init);
      assert forall i :: 0 <= i < |init| ==> init[i] == es[i];
    }
  }

  /** The position of the first block whose table raises, |es| if none. */
  function FirstRaise(es: seq<Entry>): (k: nat)
    ensures k <= |es|
    ensures forall i :: 0 <= i < k ==> es[i].outcome.Built?
    ensures k < |es| ==> es[k].outcome.Raised?
  {
    if es == [] || es[0].outcome.Raised? then 0 else 1 + FirstRaise(es[1..])
  }

  /** When a table raises, the dict holds what the blocks before it stored. */
  lemma StoreAllStops(d: Blocks, es: seq<Entry>, k: nat)
    requires OrderedDict.Valid(d)
    requires k < |es| && es[k].outcome.Raised?
    requires forall i :: 0 <= i < k ==> es[i].outcome.Built?
    ensures StoreAll(d, es[..k]).completed
    ensures StoreAll(d, es) == Stored(StoreAll(d, es[..k]).blocks, false)
  {
    var pre, post, e := es[..k], es[k + 1..], es[k];
    assert es == (pre + [e]) + post;
    assert StoreAll(d, pre).completed by {
      assert forall i :: 0 <= i < |pre| ==> pre[i] == es[i];
      StoreAllCompletes(d, pre);
    }
    StoreAllSnoc(d, pre, e);
    StoreAllAppend(d, pre + [e], post);
  }

  /** The position of the last entry of a given name, if any. */
  function LastIndex(es: seq<Entry>, name: string): (r: Option<nat>)
    ensures r.None? <==> forall i :: 0 <= i < |es| ==> es[i].name != name
    ensures r.Some? ==> r.value < |es| && es[r.value].name == name
    ensures r.Some? ==> forall j :: r.value < j < |es| ==> es[j].name != name
  {
    if es == [] then None
    else if es[|es| - 1].name == name then Some(|es| - 1)
    else
      var init := es[..|es| - 1];
      assert forall i :: 0 <= i < |init| ==> init[i] == es[i];
      LastIndex(init, name)
  }

  /** Last wins: when storing completes, a name holds the table of the last
      block of that name, and a name no block carries keeps its old table. */
  lemma {:induction false} StoreAllLastWins(d: Blocks, es: seq<Entry>, name: string)
    requires OrderedDict.Valid(d)
    requires StoreAll(d, es).completed
    ensures LastIndex(es, name).None? ==> OrderedDict.Get(StoreAll(d, es).blocks, name) == OrderedDict.Get(d, name)
    ensures LastIndex(es, name).Some? ==>
      var e := es[LastIndex(es, name).value];
      e.outcome.Built? && OrderedDict.Get(StoreAll(d, es).blocks, name) == Some(e.outcome.table)
    decreases |es|
  {
    if es != [] {
      var init, last := es[..|es| - 1], es[|es| - 1];
      assert es == init + [last];
      StoreAllSnoc(d, init, last);
      var mid := StoreAll(d, init);
      assert mid.completed && last.outcome.Built?;
      var t := last.outcome.table;
      assert StoreAll(d, es).blocks == OrderedDict.Put(mid.blocks, last.name, t);
      OrderedDict.GetPut(mid.blocks, last.name, t, name);
      if last.name != name {
        assert LastIndex(es, name) == LastIndex(init, name);
        StoreAllLastWins(d, init, name);
        if LastIndex(init, name).Some? {
          assert es[LastIndex(init, name).value] == init[LastIndex(init, name).value];
        }
      }
    }
  }

  /** Names already stored keep their place, and names stored for the first
      time come after them. */
  lemma {:induction false} StoreAllKeepsOrder(d: Blocks, es: seq<Entry>)
    requires OrderedDict.Valid(d)
    ensures var keys := StoreAll(d, es).blocks.keys;
      |d.keys| <= |keys| && keys[..|d.keys|] == d.keys
    decreases |es|
  {
    if es != [] {
      var init, last := es[..|es| - 1], es[|es| - 1];
      assert es == init + [last];
      StoreAllSnoc(d, init, last);
      StoreAllKeepsOrder(d, init);
      var mid := StoreAll(d, init).blocks.keys;
      assert (mid + [last.name])[..|d.keys|] == mid[..|d.keys|];
    }
  }

  /** Storing blocks whose names are all present already keeps the order. */
  lemma {:induction false} StoreAllKnownNames(d: Blocks, es: seq<Entry>)
    requires OrderedDict.Valid(d)
    requires forall i :: 0 <= i < |es| ==> es[i].name in d.entries
    ensures StoreAll(d, es).blocks.keys == d.keys
    decreases |es|
  {
    if es != [] {
      var init, last := es[..|es| - 1], es[|es| - 1];
      assert es == init + [last];
      StoreAllSnoc(d, init, last);
      StoreAllKnownNames(d, init);
    }
  }

  /** Completed storing leaves every block name in the dict. */
  lemma StoreAllHoldsNames(d: Blocks, es: seq<Entry>)
    requires OrderedDict.Valid(d)
    requires StoreAll(d, es).completed
    ensures forall i :: 0 <= i < |es| ==> es[i].name in StoreAll(d, es).blocks.entries
  {
    forall i | 0 <= i < |es|
      ensures es[i].name in StoreAll(d, es).blocks.entries
    {
      StoreAllLastWins(d, es, es[i].name);
    }
  }

  lemma StoreAllCompletedTwice(d: Blocks, es: seq<Entry>)
    requires OrderedDict.Valid(d)
    requires StoreAll(d, es).completed
    ensures StoreAll(StoreAll(d, es).blocks, es) == StoreAll(d, es)
  {
    var r := StoreAll(d, es);
    var r2 := StoreAll(r.blocks, es);
    StoreAllCompletes(d, es);
    StoreAllCompletes(r.blocks, es);
    StoreAllHoldsNames(d, es);
    StoreAllKnownNames(r.blocks, es);
    forall name
      ensures OrderedDict.Get(r2.blocks, name) == OrderedDict.Get(r.blocks, name)
    {
      StoreAllLastWins(d, es, name);
      StoreAllLastWins(r.blocks, es, name);
    }
    OrderedDict.Extensionality(r2.blocks, r.blocks);
  }

  /** Processing the same lines a second time changes nothing, whether or
      not the first run completed. */
  lemma StoreAllTwice(d: Blocks, es: seq<Entry>)
    requires OrderedDict.Valid(d)
    ensures StoreAll(StoreAll(d, es).blocks, es) == StoreAll(d, es)
  {
    var k := FirstRaise(es);
    if k == |es| {
      StoreAllCompletes(d, es);
      StoreAllCompletedTwice(d, es);
    } else {
      StoreAllStops(d, es, k);
      var pre := StoreAll(d, es[..k]);
      StoreAllStops(pre.blocks, es, k);
      StoreAllCompletedTwice(d, es[..k]);
    }
  }

  lemma SegmentsAssoc(a: seq<Segment>, b: seq<Segment>, c: seq<Segment>)
    ensures a + (b + c) == (a + b) + c
  {
  }

  /** Storing the blocks closed so far, then the next ones. */
  lemma StoreClosed(d: Blocks, emitted: seq<Segment>, closed: seq<Segment>, mid: Blocks, after: Stored)
    requires OrderedDict.Valid(d) && OrderedDict.Valid(mid)
    requires StoreAll(d, Entries(emitted)) == Stored(mid, true)
    requires after == StoreAll(mid, Entries(closed))
    ensures StoreAll(d, Entries(emitted + closed)) == after
  {
    EntriesAppend(emitted, closed);
    StoreAllAppend(d, Entries(emitted), Entries(closed));
  }

  /** Once a table has raised, later blocks store nothing. */
  lemma StoreStopped(d: Blocks, emitted: seq<Segment>, rest: seq<Segment>)
    requires OrderedDict.Valid(d)
    requires !StoreAll(d, Entries(emitted)).completed
    ensures StoreAll(d, Entries(emitted + rest)) == StoreAll(d, Entries(emitted))
  {
    EntriesAppend(emitted, rest);
    StoreAllAppend(d, Entries(emitted), Entries(rest));
  }

  /** The parser object and its dict of blocks. */
  class MedicalDataParser {
    var blocks: Blocks

    predicate Valid()
      reads this
    {
      OrderedDict.Valid(blocks)
    }

    /** A new parser has no blocks; the file path is not part of this model. */
    constructor ()
      ensures Valid() && blocks == OrderedDict.Empty()
    {
      blocks := OrderedDict.Empty();
    }

    /** The closing step, written twice in process_blocks: a block with a
        name and lines gets its table stored. */
    method CloseBlock(name: Option<string>, block: seq<string>) returns (completed: bool)
      requires Valid()
      modifies this
      ensures Valid()
      ensures Stored(blocks, completed) == StoreAll(old(blocks), Entries(Emit(name, block)))
    {
      completed := true;
      if name.Some? && name.value != [] && block != [] {
        var outcome := CreateDataframe(block);
        assert Entries([Segment(name.value, block)]) == [Entry(name.value, outcome)];
        assert [Entry(name.value, outcome)][..0] == [];
        if outcome.Raised? {
          return false;
        }
        blocks := OrderedDict.Put(blocks, name.value, outcome.table);
      }
    }

    /** process_blocks on the lines of the file: returns false when
        create_dataframe raised, which ends the scan with the earlier
        blocks stored. */
    method ProcessBlocks(lines: seq<string>) returns (completed: bool)
      requires Valid()
      modifies this
      ensures Valid()
      ensures Stored(blocks, completed) == StoreAll(old(blocks), Entries(Segments(lines)))
    {
      if lines == [] {
        return true;
      }
      var currentBlock: seq<string> := [];
      var currentName: Option<string> := None;
      ghost var emitted: seq<Segment> := [];
      for i := 0 to |lines|
        invariant Valid()
        invariant emitted + RunFrom(currentName, currentBlock, lines[i..]) == Segments(lines)
        invariant StoreAll(old(blocks), Entries(emitted)) == Stored(blocks, true)
      {
        var line := Strip(lines[i]);
        RunFromAt(currentName, currentBlock, lines, i);
        if line == [] {
          // blank lines are skipped
        } else if IsHeaderLine(line) {
          ghost var closed := Emit(currentName, currentBlock);
          ghost var rest := RunFrom(Some(ExtractBlockName(line)), [], lines[i + 1..]);
          ghost var before := blocks;
          SegmentsAssoc(emitted, closed, rest);
          var ok := CloseBlock(currentName, currentBlock);
          StoreClosed(old(blocks), emitted, closed, before, Stored(blocks, ok));
          emitted := emitted + closed;
          if !ok {
            StoreStopped(old(blocks), emitted, rest);
            return false;
          }
          currentName := Some(ExtractBlockName(line));
          currentBlock := [];
        } else {
          currentBlock := currentBlock + [line];
        }
      }
      ghost var closed := Emit(currentName, currentBlock);
      ghost var before := blocks;
      assert lines[|lines|..] == [];
      completed := CloseBlock(currentName, currentBlock);
      StoreClosed(old(blocks), emitted, closed, before, Stored(blocks, completed));
    }

    /** The stored names: every name once, in first-insertion order. */
    function GetBlockNames(): (names: seq<string>)
      reads this
      requires Valid()
      ensures OrderedDict.Distinct(names)
      ensures forall name :: name in names <==> name in blocks.entries
      ensures names == blocks.keys
    {
      blocks.keys
    }

    /** The table stored under a name, or the empty frame when there is none. */
    function GetBlock(name: string): (t: Table)
      reads this
      ensures name in blocks.entries ==> t == blocks.entries[name]
      ensures name !in blocks.entries ==> t == EmptyTable
    {
      match OrderedDict.Get(blocks, name)
      case Some(t) => t
      case None => EmptyTable
    }
  }
}
