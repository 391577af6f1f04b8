/** Walking and seeking in a table (SSTableIterator in src/iterator.cc). */
module TableIterators {
  import opened Slices
  import opened Coding
  import opened Entries
  import opened InternalKeys
  import opened TableFormat
  import opened Tables

  class SSTableIterator {
    const table: SSTable
    ghost const blocks: seq<seq<Entry>>
    ghost const filter: Bytes
    var currentBlockIdx: nat
    var blockData: Bytes
    var pos: nat
    var entriesEnd: nat
    var valid: bool
    var currentKey: Bytes
    var currentValue: Bytes
    ghost var passed: nat  // entries of the current block before `pos`

    ghost predicate Opened()
      reads table.bloom
    {
      table.Shows(blocks, filter)
    }

    /** A block is in memory and `pos` is at the start of one of its entries or at their end. */
    ghost predicate Loaded()
      reads this
    {
      && currentBlockIdx < |blocks|
      && blockData == DataBlock(blocks[currentBlockIdx]) && entriesEnd == |EncodeEntries(blocks[currentBlockIdx])|
      && passed <= |blocks[currentBlockIdx]| && pos == |EncodeEntries(blocks[currentBlockIdx][..passed])|
    }

    /** The iterator stands on entry `q` of the whole table, or past the last one. */
    ghost predicate StandsOn(q: nat)
      reads this
    {
      if q < |Flatten(blocks)| then
        && valid && Loaded() && passed < |blocks[currentBlockIdx]| && q == Start(blocks, currentBlockIdx) + passed
        && Entry(currentKey, currentValue) == Flatten(blocks)[q]
      else !valid
    }

    constructor (table: SSTable, ghost blocks: seq<seq<Entry>>, ghost filter: Bytes)
      requires table.Shows(blocks, filter)
      ensures this.table == table && this.blocks == blocks && this.filter == filter
      ensures Opened() && StandsOn(0)
    {
      this.table, this.blocks, this.filter := table, blocks, filter;
      currentBlockIdx, blockData, pos, entriesEnd, valid := 0, [], 0, 0, false;
      currentKey, currentValue, passed := [], [], 0;
      new;
      SeekToFirst();
    }

    method LoadCurrentBlock()
      requires Opened() && currentBlockIdx < |blocks|
      modifies this
      ensures currentBlockIdx == old(currentBlockIdx) && Loaded() && passed == pos == 0
    {
      hide DataBlock, EncodeEntries, EncodeEntry, Flatten, Restarts, IsTable, PRead, DecodeFixed;
      var entry := TableIndexAt();
      var read := table.ReadBlock(entry.offset, entry.size);
      if read != None { blockData := read.value; }
      if |blockData| >= 8 {
        var end := EntriesEnd(blockData);
        entriesEnd := if end < 0 then 0 else end;
      } else {
        entriesEnd := 0;
      }
      pos, passed := 0, 0;
      StartOfBlock(blocks[currentBlockIdx]);
    }

    /** The index entry of the current block, and what it is known to lead to. */
    method TableIndexAt() returns (entry: IndexEntry)
      requires Opened() && currentBlockIdx < |blocks|
      ensures PRead(table.file, entry.offset, entry.size) == Some(DataBlock(blocks[currentBlockIdx]))
      ensures AllFit(blocks[currentBlockIdx]) && 0 < |blocks[currentBlockIdx]| <= 4096
    {
      hide DataBlock, IsTable, PRead;
      TableIndex(table.file, blocks, filter);
      entry := table.index[currentBlockIdx];
    }

    method ParseCurrentEntry()
      requires Opened() && Loaded()
      requires passed == |blocks[currentBlockIdx]| ==> currentBlockIdx + 1 == |blocks|
      modifies this`valid, this`currentKey, this`currentValue
      ensures StandsOn(Start(blocks, currentBlockIdx) + passed)
    {
      hide DataBlock, EncodeEntries, EncodeEntry, Flatten, IsTable, SealHolds, EntriesEnd, Start, Fits;
      ghost var es := blocks[currentBlockIdx];
      BlockBounds(table.file, blocks, filter, currentBlockIdx, passed);
      EntryInBlock(es, passed);
      if pos >= entriesEnd {
        valid := false;
        return;
      }
      DataBlockParts(es);
      var entry := ParseEntry(blockData, pos, |blockData|);
      currentKey, currentValue := entry.value.0.key, entry.value.0.value;
      valid := true;
    }

    method SeekToFirst()
      requires Opened()
      modifies this
      ensures StandsOn(0)
    {
      hide DataBlock, EncodeEntries, Flatten;
      currentBlockIdx := 0;
      IndexLength(table.file, blocks, filter);
      StartZero(blocks);
      if table.index == [] {
        valid := false;
        EmptyFlat(blocks);
        return;
      }
      LoadCurrentBlock();
      BlockBounds(table.file, blocks, filter, 0, 0);
      ParseCurrentEntry();
    }

    /** Decodes the entry at `pos` and moves past it. */
    method SkipEntry() returns (e: Entry)
      requires Opened() && Loaded() && passed < |blocks[currentBlockIdx]|
      modifies this`pos, this`passed
      ensures Loaded() && passed == old(passed) + 1 && e == blocks[currentBlockIdx][old(passed)]
    {
      hide DataBlock, EncodeEntries, EncodeEntry, Flatten, IsTable;
      ghost var es := blocks[currentBlockIdx];
      EntryInBlock(es, passed);
      BlockBounds(table.file, blocks, filter, currentBlockIdx, passed);
      DataBlockParts(es);
      var entry := ParseEntry(blockData, pos, |blockData|);
      e := entry.value.0;
      pos := entry.value.1;
      passed := passed + 1;
    }

    /** Whether entries remain in the current block. */
    lemma Remaining()
      requires Loaded()
      ensures pos < entriesEnd <==> passed < |blocks[currentBlockIdx]|
    {
      hide DataBlock, EncodeEntries, EncodeEntry;
      EntryInBlock(blocks[currentBlockIdx], passed);
    }

    /** Next: past the current entry, into the following block when this one is used up. */
    method Next(ghost q: nat)
      requires Opened() && Loaded() && Start(blocks, currentBlockIdx) + passed == q
      modifies this
      ensures StandsOn(if old(passed) < |blocks[old(currentBlockIdx)]| then q + 1 else q)
    {
      hide DataBlock, EncodeEntries, EncodeEntry, Flatten, IsTable, Loaded;
      Remaining();
      LoadedBounds();
      if pos < entriesEnd {
        var _ := SkipEntry();
        Remaining();
      }
      if pos < entriesEnd {
        ParseCurrentEntry();
        return;
      }
      LoadedBounds();
      NextBlock();
    }

    lemma LoadedBounds()
      requires Opened() && Loaded()
      ensures currentBlockIdx < |blocks| && passed <= |blocks[currentBlockIdx]|
    {}

    method NextBlock()
      requires Opened() && Loaded() && passed == |blocks[currentBlockIdx]|
      modifies this
      ensures StandsOn(Start(blocks, old(currentBlockIdx)) + old(passed))
    {
      hide DataBlock, EncodeEntries, EncodeEntry, Flatten, IsTable;
      BlockBounds(table.file, blocks, filter, currentBlockIdx, passed);
      currentBlockIdx := currentBlockIdx + 1;
      IndexLength(table.file, blocks, filter);
      if currentBlockIdx >= |table.index| {
        valid := false;
        return;
      }
      BlockBounds(table.file, blocks, filter, currentBlockIdx, 0);
      LoadCurrentBlock();
      ParseCurrentEntry();
    }

    /** Seek, on a table with at least one entry: index search, then a scan of that block. */
    method Seek(target: Bytes, ghost es: seq<Entry>)
      requires Opened() && blocks != []
      modifies this
      ensures Sound(blocks, filter, es) && Plain(target) ==> StandsOn(LowerBound(es, target))
    {
      hide DataBlock, EncodeEntries, EncodeEntry, Flatten, IsTable, Less, Compare, LowerBound, MakeLookupKey,
        IndexOf, Plain, Sound, HoldsPosition, Splits, IndexFor;
      ghost var known := Sound(blocks, filter, es) && Plain(target);
      IndexLength(table.file, blocks, filter);
      var lookup := MakeLookupKey(target);
      ghost var p := LowerBound(Flatten(blocks), lookup);
      if known { SearchApplies(table.file, table.index, blocks, filter, es, target); }
      currentBlockIdx := FindBlock(table.index, lookup, blocks, p);
      LoadCurrentBlock();
      if known { SeekEndsRight(blocks, filter, es, target, currentBlockIdx); }
      ScanBlock(lookup);
    }

    /** The scan of Seek: to the first entry of the loaded block that is not less than the lookup key. */
    method ScanBlock(lookup: Bytes)
      requires Opened() && Loaded() && passed == 0
      modifies this
      ensures StandsOn(Start(blocks, old(currentBlockIdx)) + LowerBound(blocks[old(currentBlockIdx)], lookup))
    {
      hide DataBlock, EncodeEntries, EncodeEntry, Flatten, IsTable, Less, Compare, LowerBound;
      ghost var c := currentBlockIdx;
      ghost var block := blocks[c];
      BlockBounds(table.file, blocks, filter, c, 0);
      Remaining();
      while pos < entriesEnd
        invariant Loaded() && currentBlockIdx == c
        invariant pos < entriesEnd <==> passed < |block|
        invariant forall j :: 0 <= j < passed ==> Less(block[j].key, lookup)
        decreases |block| - passed
      {
        var saved := pos;
        ghost var before := passed;
        var e := SkipEntry();
        CompareIsLexicographic(e.key, lookup);
        if Compare(e.key, lookup) >= 0 {
          pos, passed := saved, before;
          LowerBoundIs(block, lookup, passed);
          ParseCurrentEntry();
          return;
        }
        Remaining();
      }
      LowerBoundIs(block, lookup, passed);
      valid := false;
      Next(Start(blocks, c) + passed);
    }
  }

  lemma StartOfBlock(es: seq<Entry>)
    requires |es| <= 4096
    ensures |DataBlock(es)| >= 8 && EntriesEnd(DataBlock(es)) == |EncodeEntries(es)| && |EncodeEntries(es[..0])| == 0
  {
    hide DataBlock;
    DataBlockParts(es);
    assert es[..0] == [];
  }

  lemma EmptyFlat(blocks: seq<seq<Entry>>)
    ensures blocks == [] ==> Flatten(blocks) == []
  {}

  /** Sizes and positions of a block within the table. */
  lemma BlockBounds(file: Bytes, blocks: seq<seq<Entry>>, filter: Bytes, i: nat, j: nat)
    requires IsTable(file, blocks, filter) && i < |blocks| && j <= |blocks[i]|
    ensures AllFit(blocks[i]) && 0 < |blocks[i]| <= 4096
    ensures Start(blocks, i) + |blocks[i]| == Start(blocks, i + 1) <= |Flatten(blocks)|
    ensures i + 1 == |blocks| ==> Start(blocks, i + 1) == |Flatten(blocks)|
    ensures i + 1 < |blocks| ==> Start(blocks, i + 1) < |Flatten(blocks)|
    ensures j < |blocks[i]| ==> Flatten(blocks)[Start(blocks, i) + j] == blocks[i][j]
  {
    hide DataBlock, Flatten, FileBytes;
    if j < |blocks[i]| { FlattenAt(blocks, i, j); }
    FlattenAt(blocks, i, 0);
    if i + 1 == |blocks| {
      assert blocks[..i + 1] == blocks;
    } else {
      FlattenAt(blocks, i + 1, 0);
    }
  }

  /** In the block the index search reached, the first entry not below the lookup key is, in the whole table,
      the first added entry whose user key is not below the target. */
  lemma SeekEndsRight(blocks: seq<seq<Entry>>, filter: Bytes, es: seq<Entry>, t: Bytes, b: nat)
    requires Sound(blocks, filter, es) && Plain(t)
    requires HoldsPosition(blocks, LowerBound(Flatten(blocks), MakeLookupKey(t)), b)
    ensures b < |blocks| && Start(blocks, b) + LowerBound(blocks[b], MakeLookupKey(t)) == LowerBound(es, t)
  {
    hide Less, MakeLookupKey, LowerBound, Plain, Flatten, DataBlock, FileBytes, Version, Lookup;
    TableSplits(blocks, filter, es, t);
    var p := LowerBound(Flatten(blocks), MakeLookupKey(t));
    PositionInBlock(blocks, MakeLookupKey(t), p, b);
    FindVersionIsLookup(es, t);
    LowerBoundIs(es, t, p);
  }
}
